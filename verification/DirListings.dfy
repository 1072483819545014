/** Directory reading through the cached listings, over whole sessions, compared with listing the
    directory anew each time. */
module DirListings {
  import opened FdTable
  import opened Wrappers

  datatype World<H> = World(table: Table<H>, fs: Tree)

  /** What the daemon can be asked to do. `Change` is a mkdir, rmdir, unlink, rename or symlink that
      succeeded; `Touch` is everything else that changes what directories list: a creating or
      truncating open before its descriptor is allocated, a write, a truncate. */
  datatype Op<H> =
    | Open(file: H, isDir: bool, path: string)
    | Close(fd: int)
    | ReadDir(fd: int, offset: nat)
    | Change(fs: Tree)
    | Touch(fs: Tree)

  datatype Answer = Opened(fd: Option<Fd>) | CloseDone(ok: bool) | Entry(entry: Option<DirCacheEntry>) | Done

  function Step<H>(w: World<H>, op: Op<H>): (r: (World<H>, Answer))
  {
    match op
    case Open(file, isDir, path) =>
      var (t, fd) := Allocating(w.table, file, isDir, path);
      (w.(table := t), Opened(fd))
    case Close(fd) =>
      var (t, ok) := Closing(w.table, fd);
      (w.(table := t), CloseDone(ok))
    case ReadDir(fd, offset) =>
      var (t, e) := Reading(w.table, fd, offset, w.fs);
      (w.(table := t), Entry(e))
    case Change(fs) => (World(Stripped(w.table), fs), Done)
    case Touch(fs) => (w.(fs := fs), Done)
  }

  /** The daemon without caches: every read of a directory lists it. */
  function FreshStep<H>(w: World<H>, op: Op<H>): (r: (World<H>, Answer))
  {
    if op.ReadDir? then
      (w, Entry(if op.fd in w.table.entries then Lookup(Fresh(w.fs, w.table.entries[op.fd].path), op.offset) else None))
    else Step(w, op)
  }

  function Answers<H>(w: World<H>, ops: seq<Op<H>>): seq<Answer>
    decreases |ops|
  {
    if ops == [] then [] else [Step(w, ops[0]).1] + Answers(Step(w, ops[0]).0, ops[1..])
  }

  function FreshAnswers<H>(w: World<H>, ops: seq<Op<H>>): seq<Answer>
    decreases |ops|
  {
    if ops == [] then [] else [FreshStep(w, ops[0]).1] + FreshAnswers(FreshStep(w, ops[0]).0, ops[1..])
  }

  predicate Cached<H>(t: Table<H>, fd: int)
  {
    fd in t.entries && t.entries[fd].dirCache.Some?
  }

  /** Every cached listing is what listing the directory would give. */
  ghost predicate Coherent<H>(w: World<H>)
  {
    forall fd :: Cached(w.table, fd) ==> w.table.entries[fd].dirCache.value == Fresh(w.fs, w.table.entries[fd].path)
  }

  /** A touch is harmless if no directory that is open and has been read lists differently after it. */
  ghost predicate Harmless<H>(w: World<H>, op: Op<H>)
  {
    op.Touch? ==> forall fd :: Cached(w.table, fd) ==>
      Fresh(op.fs, w.table.entries[fd].path) == Fresh(w.fs, w.table.entries[fd].path)
  }

  ghost predicate AllHarmless<H>(w: World<H>, ops: seq<Op<H>>)
    decreases |ops|
  {
    ops != [] ==> Harmless(w, ops[0]) && AllHarmless(Step(w, ops[0]).0, ops[1..])
  }

  //
  // The cached daemon refines the one without caches
  //

  lemma StepKeepsCoherent<H>(w: World<H>, op: Op<H>)
    requires Coherent(w) && Harmless(w, op)
    ensures Coherent(Step(w, op).0)
  {
    var w' := Step(w, op).0;
    forall fd | Cached(w'.table, fd)
      ensures w'.table.entries[fd].dirCache.value == Fresh(w'.fs, w'.table.entries[fd].path)
    {
      assert op.ReadDir? || Cached(w.table, fd);
      if op.ReadDir? && fd != op.fd { assert Cached(w.table, fd); }
      if op.ReadDir? && fd == op.fd && Cached(w.table, fd) { assert Coherent(w); }
    }
  }

  /** The state that the cached daemon stands for. */
  ghost function Abstract<H>(w: World<H>): World<H>
  {
    World(Stripped(w.table), w.fs)
  }

  lemma StrippedInsert<H>(t: Table<H>, fd: Fd, e: FdEntry<H>, next: Fd)
    requires e.dirCache.None?
    ensures Stripped(Table(t.entries[fd := e], next)) == Table(Stripped(t).entries[fd := e], next)
  {
    assert Stripped(Table(t.entries[fd := e], next)).entries == Stripped(t).entries[fd := e];
  }

  lemma AllocStripped<H>(t: Table<H>, file: H, isDir: bool, path: string)
    ensures Allocating(Stripped(t), file, isDir, path).1 == Allocating(t, file, isDir, path).1
    ensures Allocating(Stripped(t), file, isDir, path).0 == Stripped(Allocating(t, file, isDir, path).0)
  {
    assert t.entries.Keys == Stripped(t).entries.Keys;
    assert |t.entries| == |t.entries.Keys| && |Stripped(t).entries| == |Stripped(t).entries.Keys|;
    if |t.entries| < MAX_OPEN_FDS {
      FirstFreeByKeys(t, Stripped(t), 0);
      var fd := FirstFree(t, 0);
      StrippedInsert(t, fd, FdEntry(file, isDir, path, None), Next(fd));
    }
  }

  lemma ReadStripped<H>(w: World<H>, fd: int, offset: nat)
    requires Coherent(w)
    ensures Step(w, ReadDir(fd, offset)).1 == FreshStep(Abstract(w), ReadDir(fd, offset)).1
    ensures Stripped(Reading(w.table, fd, offset, w.fs).0) == Stripped(w.table)
  {
    if Cached(w.table, fd) { assert Coherent(w); }
    assert Stripped(Reading(w.table, fd, offset, w.fs).0).entries == Stripped(w.table).entries;
  }

  lemma StepRefines<H>(w: World<H>, op: Op<H>)
    requires Coherent(w)
    ensures Step(w, op).1 == FreshStep(Abstract(w), op).1
    ensures Abstract(Step(w, op).0) == FreshStep(Abstract(w), op).0
  {
    match op {
      case Open(file, isDir, path) => AllocStripped(w.table, file, isDir, path);
      case Close(fd) => assert Stripped(Closing(w.table, fd).0).entries == Closing(Stripped(w.table), fd).0.entries;
      case ReadDir(fd, offset) => ReadStripped(w, fd, offset);
      case Change(fs) => assert Stripped(Stripped(w.table)).entries == Stripped(w.table).entries;
      case Touch(fs) =>
    }
  }

  /** Over any session whose touches are harmless, and so over any session of non-creating opens,
      closes, directory reads and changes to the tree, the cached listings answer exactly as listing
      the directory each time would. */
  lemma {:induction false} CacheAgrees<H>(w: World<H>, ops: seq<Op<H>>)
    requires Coherent(w) && AllHarmless(w, ops)
    ensures Answers(w, ops) == FreshAnswers(Abstract(w), ops)
    decreases |ops|
  {
    if ops != [] {
      StepRefines(w, ops[0]);
      StepKeepsCoherent(w, ops[0]);
      CacheAgrees(Step(w, ops[0]).0, ops[1..]);
    }
  }

  //
  // and the condition is exact
  //

  lemma ListingsDiffer(a: Listing, b: Listing) returns (i: nat)
    requires a != b
    ensures Lookup(a, i) != Lookup(b, i)
  {
    if |a| != |b| {
      i := if |a| < |b| then |a| else |b|;
    } else {
      i :| 0 <= i < |a| && a[i] != b[i];
    }
  }

  /** After a touch, every directory read answers as a fresh listing would if and only if the touch
      was harmless. */
  lemma TouchIsHarmlessIff<H>(w: World<H>, fs: Tree)
    requires Coherent(w)
    ensures Harmless(w, Touch(fs))
       <==> forall fd, offset: nat ::
              Step(Step(w, Touch(fs)).0, ReadDir(fd, offset)).1
              == FreshStep(Step(w, Touch(fs)).0, ReadDir(fd, offset)).1
  {
    var w' := Step(w, Touch(fs)).0;
    if !Harmless(w, Touch(fs)) {
      var fd :| Cached(w.table, fd)
        && Fresh(fs, w.table.entries[fd].path) != Fresh(w.fs, w.table.entries[fd].path);
      var i := ListingsDiffer(w.table.entries[fd].dirCache.value, Fresh(fs, w.table.entries[fd].path));
      assert Step(w', ReadDir(fd, i)).1 != FreshStep(w', ReadDir(fd, i)).1;
    }
  }

  /** Creating a file in `parent` through an open, wherever the host lists it, leaves some directory read
      stale if and only if a descriptor of `parent` is open and has been read since the last change. */
  lemma CreatingOpenIsStaleIff<H>(w: World<H>, parent: string, name: string, at: nat)
    requires Coherent(w) && parent in w.fs && at <= |w.fs[parent]|
    ensures
      var listing := w.fs[parent][..at] + [DirCacheEntry(name, false, 0)] + w.fs[parent][at..];
      var w' := Step(w, Touch(w.fs[parent := listing])).0;
      (exists fd, offset: nat :: Step(w', ReadDir(fd, offset)).1 != FreshStep(w', ReadDir(fd, offset)).1)
      <==> exists fd :: Cached(w.table, fd) && w.table.entries[fd].path == parent
  {
    var listing := w.fs[parent][..at] + [DirCacheEntry(name, false, 0)] + w.fs[parent][at..];
    var fs := w.fs[parent := listing];
    assert |Fresh(fs, parent)| == |Fresh(w.fs, parent)| + 1;
    TouchIsHarmlessIff(w, fs);
  }

  /** Open a directory, read past its end, create a file in it by opening it, and read again: the cached
      daemon still reports the end where there is now an entry. */
  lemma StaleReadCounterexample<H>(file: H)
    ensures
      var (before, after) := (map["d" := []], map["d" := [DirCacheEntry("f", false, 0)]]);
      var w := World(NewTable(), before);
      var ops := [Open(file, true, "d"), ReadDir(1, 0), Touch(after), ReadDir(1, 0)];
      && |Answers(w, ops)| == |FreshAnswers(w, ops)| == 4
      && Answers(w, ops)[3] == Entry(None) && FreshAnswers(w, ops)[3] == Entry(Some(DirCacheEntry("f", false, 0)))
  {
    var (before, after) := (map["d" := []], map["d" := [DirCacheEntry("f", false, 0)]]);
    var w := World(NewTable<H>(), before);
    var (o, r, t) := (Open(file, true, "d"), ReadDir(1, 0), Touch(after));
    assert [o, r, t, r][1..] == [r, t, r] && [r, t, r][1..] == [t, r] && [t, r][1..] == [r] && [r][1..] == [];
    assert Probe(1, 0) == 1;
    var w1 := Step(w, o).0;
    assert w1.table.entries == map[1 := FdEntry(file, true, "d", None)];
    var w2 := Step(w1, r).0;
    assert w2.table.entries[1].dirCache == Some([]);
    var w3 := Step(w2, t).0;
    assert Answers(w3, [r]) == [Entry(None)];
    assert Answers(w2, [t, r]) == [Done, Entry(None)];
    assert FreshAnswers(World(w1.table, after), [r]) == [Entry(Some(DirCacheEntry("f", false, 0)))];
    assert FreshAnswers(w1, [t, r]) == [Done, Entry(Some(DirCacheEntry("f", false, 0)))];
  }
}

/** The table of remote file descriptors of the host filesystem daemon, with its probing allocator and
    the lazily built directory listings that it keeps per descriptor. */
module FdTable {
  import opened Wrappers

  const MAX_OPEN_FDS := 256

  const I32_MAX := 0x7FFF_FFFF

  type Fd = n: int | 1 <= n <= I32_MAX witness 1

  datatype DirCacheEntry = DirCacheEntry(name: string, isDir: bool, size: nat)

  type Listing = seq<DirCacheEntry>

  datatype FdEntry<H> = FdEntry(file: H, isDir: bool, path: string, dirCache: Option<Listing>)

  datatype Table<H> = Table(entries: map<Fd, FdEntry<H>>, nextFd: Fd)

  function NewTable<H>(): Table<H>
  {
    Table(map[], 1)
  }

  //
  // The probe sequence
  //

  /** `i32::wrapping_add(1)`. */
  function WrappingAdd1(fd: int): int
    requires -0x8000_0000 <= fd <= I32_MAX
  {
    if fd == I32_MAX then -0x8000_0000 else fd + 1
  }

  /** The next descriptor to try: zero and the negative numbers are skipped. */
  function Next(fd: Fd): (r: Fd)
    ensures r == if fd == I32_MAX then 1 else fd + 1
  {
    var r := WrappingAdd1(fd);
    if r <= 0 then 1 else r
  }

  /** The descriptor after `k` steps of probing. */
  function Probe(start: Fd, k: nat): (fd: Fd)
    requires k < I32_MAX
  {
    if start + k <= I32_MAX then start + k else start + k - I32_MAX
  }

  ghost function ProbeSet(start: Fd, n: nat): (s: set<Fd>)
    requires n < I32_MAX
    ensures forall fd :: fd in s <==> exists k :: 0 <= k < n && fd == Probe(start, k)
    ensures |s| == n
  {
    if n == 0 then {} else
    var s := ProbeSet(start, n - 1);
    var fd := Probe(start, n - 1);
    assert fd !in s;
    s + {fd}
  }

  /** `n` probes that are all taken need `n` open descriptors. */
  lemma ProbesFill<H>(entries: map<Fd, FdEntry<H>>, start: Fd, n: nat)
    requires n < I32_MAX
    requires forall k :: 0 <= k < n ==> Probe(start, k) in entries
    ensures n <= |entries|
  {
    var s := ProbeSet(start, n);
    assert s <= entries.Keys;
    SubsetCard(s, entries.Keys);
  }

  lemma {:induction false} SubsetCard(a: set<Fd>, b: set<Fd>)
    requires a <= b
    ensures |a| <= |b|
  {
    if a != {} {
      var x :| x in a;
      SubsetCard(a - {x}, b - {x});
    }
  }

  /** The first unused descriptor from the cursor on, `k` steps having been tried. */
  function FirstFree<H>(t: Table<H>, k: nat): (fd: Fd)
    requires k < MAX_OPEN_FDS && |t.entries| < MAX_OPEN_FDS
    requires forall j :: 0 <= j < k ==> Probe(t.nextFd, j) in t.entries
    ensures fd !in t.entries
    ensures exists n :: k <= n < MAX_OPEN_FDS && fd == Probe(t.nextFd, n)
                        && forall j :: 0 <= j < n ==> Probe(t.nextFd, j) in t.entries
    decreases MAX_OPEN_FDS - k
  {
    if Probe(t.nextFd, k) !in t.entries then Probe(t.nextFd, k)
    else
      assert k + 1 < MAX_OPEN_FDS by { ProbesFill(t.entries, t.nextFd, k + 1); }
      FirstFree(t, k + 1)
  }

  function Allocating<H>(t: Table<H>, file: H, isDir: bool, path: string): (r: (Table<H>, Option<Fd>))
    ensures r.1.None? <==> |t.entries| >= MAX_OPEN_FDS
    ensures r.1.None? ==> r.0 == t
    ensures r.1.Some? ==>
              && r.1.value !in t.entries && r.0.entries == t.entries[r.1.value := FdEntry(file, isDir, path, None)]
              && r.0.nextFd == (if r.1.value == 0x7FFF_FFFF then 1 else r.1.value + 1)
  {
    if |t.entries| >= MAX_OPEN_FDS then (t, None)
    else
      var fd := FirstFree(t, 0);
      (Table(t.entries[fd := FdEntry(file, isDir, path, None)], Next(fd)), Some(fd))
  }

  function Closing<H>(t: Table<H>, fd: int): (r: (Table<H>, bool))
    ensures r.1 <==> fd in t.entries
    ensures fd !in r.0.entries && r.0.nextFd == t.nextFd
    ensures forall k :: k in r.0.entries <==> k in t.entries && k != fd
    ensures forall k :: k in r.0.entries ==> r.0.entries[k] == t.entries[k]
  {
    (Table(t.entries - {fd}, t.nextFd), fd in t.entries)
  }

  lemma {:induction false} FirstFreeByKeys<H>(t: Table<H>, t': Table<H>, k: nat)
    requires t.entries.Keys == t'.entries.Keys && t.nextFd == t'.nextFd
    requires k < MAX_OPEN_FDS && |t.entries| < MAX_OPEN_FDS
    requires forall j :: 0 <= j < k ==> Probe(t.nextFd, j) in t.entries
    ensures |t'.entries| < MAX_OPEN_FDS && FirstFree(t, k) == FirstFree(t', k)
    decreases MAX_OPEN_FDS - k
  {
    assert |t.entries.Keys| == |t.entries| && |t'.entries.Keys| == |t'.entries|;
    if Probe(t.nextFd, k) in t.entries {
      ProbesFill(t.entries, t.nextFd, k + 1);
      FirstFreeByKeys(t, t', k + 1);
    }
  }

  //
  // Directory listings
  //

  /** What listing each directory yields at the moment; a path that cannot be listed yields nothing. */
  type Tree = map<string, Listing>

  function Fresh(fs: Tree, path: string): Listing
  {
    if path in fs then fs[path] else []
  }

  function Lookup(l: Listing, offset: nat): (r: Option<DirCacheEntry>)
    ensures r.None? <==> offset >= |l|
    ensures r.Some? ==> l[..offset] + [r.value] <= l
  {
    if offset < |l| then Some(l[offset]) else None
  }

  /** `readdir_at` on a descriptor; an unknown one reads as the end of a directory. */
  function Reading<H>(t: Table<H>, fd: int, offset: nat, fs: Tree): (r: (Table<H>, Option<DirCacheEntry>))
    ensures r.0.entries.Keys == t.entries.Keys && r.0.nextFd == t.nextFd
    ensures fd !in t.entries ==> r.0 == t && r.1 == None
    ensures fd in t.entries && t.entries[fd].dirCache.Some? ==> r.0.entries[fd] == t.entries[fd]
  {
    if fd !in t.entries then (t, None)
    else
      var e := t.entries[fd];
      var l := if e.dirCache.None? then Fresh(fs, e.path) else e.dirCache.value;
      (t.(entries := t.entries[fd := e.(dirCache := Some(l))]), Lookup(l, offset))
  }

  function Stripped<H>(t: Table<H>): Table<H>
  {
    t.(entries := map fd | fd in t.entries :: t.entries[fd].(dirCache := None))
  }

  //
  // Descriptor numbers over a whole session
  //

  datatype FdOp<H> = Alloc(file: H, isDir: bool, path: string) | Close(fd: int)

  /** What has been done to descriptors. */
  datatype FdEvent = Issued(fd: int) | Closed(fd: int)

  datatype Session<H> = Session(table: Table<H>, issued: seq<Fd>, log: seq<FdEvent>)

  function Play<H>(s: Session<H>, op: FdOp<H>): Session<H>
  {
    match op
    case Alloc(file, isDir, path) =>
      var (t, r) := Allocating(s.table, file, isDir, path);
      if r.Some? then Session(t, s.issued + [r.value], s.log + [Issued(r.value)]) else s.(table := t)
    case Close(fd) => Session(Closing(s.table, fd).0, s.issued, s.log + [Closed(fd)])
  }

  function NewSession<H>(): Session<H>
  {
    Session(NewTable(), [], [])
  }

  function PlayAll<H>(s: Session<H>, ops: seq<FdOp<H>>): Session<H>
    decreases |ops|
  {
    if ops == [] then s else PlayAll(Play(s, ops[0]), ops[1..])
  }

  /** Before the cursor wraps around, numbers are handed out in order. */
  predicate InOrder<H>(s: Session<H>)
  {
    var n := |s.issued|;
    && (forall k :: 0 <= k < n && k < I32_MAX ==> s.issued[k] == k + 1)
    && (n < I32_MAX ==> s.table.nextFd == n + 1 && forall fd :: fd in s.table.entries ==> fd <= n)
  }

  lemma PlayKeepsOrder<H>(s: Session<H>, op: FdOp<H>)
    requires InOrder(s)
    ensures InOrder(Play(s, op))
  {
    if op.Alloc? && |s.table.entries| < MAX_OPEN_FDS && |s.issued| < I32_MAX {
      assert Probe(s.table.nextFd, 0) == |s.issued| + 1;
    }
  }

  lemma {:induction false} PlayAllKeepsOrder<H>(s: Session<H>, ops: seq<FdOp<H>>)
    requires InOrder(s)
    ensures InOrder(PlayAll(s, ops))
    decreases |ops|
  {
    if ops != [] {
      PlayKeepsOrder(s, ops[0]);
      PlayAllKeepsOrder(Play(s, ops[0]), ops[1..]);
    }
  }

  /** Whatever is closed in between, the k-th descriptor issued is number k, up to 2^31 - 1: no
      number is handed out twice before the cursor wraps. */
  lemma KthAllocIsK<H>(ops: seq<FdOp<H>>, k: nat)
    requires k < |PlayAll(NewSession<H>(), ops).issued| && k < I32_MAX
    ensures PlayAll(NewSession<H>(), ops).issued[k] == k + 1
  {
    PlayAllKeepsOrder(NewSession<H>(), ops);
  }

  /** `fd` was issued and has not been closed since. */
  ghost predicate IsOpen(log: seq<FdEvent>, fd: int)
  {
    exists i :: 0 <= i < |log| && log[i].Issued? && log[i].fd == fd && NotClosedSince(log, fd, i)
  }

  ghost predicate NotClosedSince(log: seq<FdEvent>, fd: int, i: nat)
  {
    forall j :: i < j < |log| ==> log[j] != Closed(fd)
  }

  lemma IsOpenAppend(log: seq<FdEvent>, e: FdEvent, fd: int)
    ensures IsOpen(log + [e], fd) <==> (e.Issued? && e.fd == fd) || (IsOpen(log, fd) && e != Closed(fd))
  {
    var log' := log + [e];
    if IsOpen(log, fd) && e != Closed(fd) {
      var i :| 0 <= i < |log| && log[i].Issued? && log[i].fd == fd && NotClosedSince(log, fd, i);
      assert log'[i] == log[i] && NotClosedSince(log', fd, i);
    }
    if e.Issued? && e.fd == fd {
      assert log'[|log|] == e && NotClosedSince(log', fd, |log|);
    }
    if IsOpen(log', fd) && !(e.Issued? && e.fd == fd) {
      var i :| 0 <= i < |log'| && log'[i].Issued? && log'[i].fd == fd && NotClosedSince(log', fd, i);
      assert log[i] == log'[i] && log'[|log|] == e;
      assert NotClosedSince(log, fd, i) by {
        forall j | i < j < |log| ensures log[j] != Closed(fd) { assert log'[j] == log[j]; }
      }
    }
  }

  ghost predicate TableIsLog<H>(s: Session<H>)
  {
    forall fd :: fd in s.table.entries <==> IsOpen(s.log, fd)
  }

  lemma PlayKeepsLog<H>(s: Session<H>, op: FdOp<H>)
    requires TableIsLog(s)
    ensures TableIsLog(Play(s, op))
  {
    var s' := Play(s, op);
    if s'.log != s.log {
      forall fd ensures fd in s'.table.entries <==> IsOpen(s'.log, fd) {
        IsOpenAppend(s.log, s'.log[|s.log|], fd);
      }
    }
  }

  lemma {:induction false} PlayAllKeepsLog<H>(s: Session<H>, ops: seq<FdOp<H>>)
    requires TableIsLog(s)
    ensures TableIsLog(PlayAll(s, ops))
    decreases |ops|
  {
    if ops != [] {
      PlayKeepsLog(s, ops[0]);
      PlayAllKeepsLog(Play(s, ops[0]), ops[1..]);
    }
  }

  /** After any session, a descriptor answers if and only if it was issued and has not been closed since; so
      a close reports that, and an allocation fails if and only if there are 256 such descriptors. */
  lemma OpenIsIssuedNotClosed<H>(ops: seq<FdOp<H>>, fd: int, file: H, open: set<Fd>)
    requires forall k: Fd :: k in open <==> IsOpen(PlayAll(NewSession<H>(), ops).log, k)
    ensures
      var s := PlayAll(NewSession<H>(), ops);
      && (fd in s.table.entries <==> IsOpen(s.log, fd))
      && (Closing(s.table, fd).1 <==> IsOpen(s.log, fd))
      && (Allocating(s.table, file, false, "").1.None? <==> |open| >= 256)
  {
    var s := PlayAll(NewSession<H>(), ops);
    PlayAllKeepsLog(NewSession<H>(), ops);
    assert s.table.entries.Keys == open;
    assert |s.table.entries| == |s.table.entries.Keys|;
  }

  //
  // The table, as it is updated in place
  //

  class FdTable<H> {
    var entries: map<Fd, FdEntry<H>>
    var nextFd: Fd

    ghost function State(): Table<H>
      reads this
    {
      Table(entries, nextFd)
    }

    constructor ()
      ensures State() == NewTable()
    {
      entries, nextFd := map[], 1;
    }

    method Alloc(file: H, isDir: bool, path: string) returns (r: Option<Fd>)
      modifies this
      ensures (State(), r) == Allocating(old(State()), file, isDir, path)
    {
      if |entries| >= MAX_OPEN_FDS {
        return None;
      }
      var fd, attempts := nextFd, 0;
      ghost var t := State();
      while fd in entries
        invariant State() == t && |t.entries| < MAX_OPEN_FDS
        invariant 0 <= attempts < MAX_OPEN_FDS && fd == Probe(t.nextFd, attempts)
        invariant forall j :: 0 <= j < attempts ==> Probe(t.nextFd, j) in t.entries
        invariant FirstFree(t, 0) == FirstFree(t, attempts)
        decreases MAX_OPEN_FDS - attempts
      {
        fd := Next(fd);
        attempts := attempts + 1;
        if attempts >= MAX_OPEN_FDS {
          // "too many open file descriptors" cannot be reported from here
          assert false;
        }
      }
      nextFd := Next(fd);
      entries := entries[fd := FdEntry(file, isDir, path, None)];
      return Some(fd);
    }

    method Close(fd: int) returns (ok: bool)
      modifies this
      ensures (State(), ok) == Closing(old(State()), fd)
      ensures ok == (fd in old(entries)) && entries == old(entries) - {fd} && nextFd == old(nextFd)
    {
      ok := fd in entries;
      entries := entries - {fd};
    }

    method ReaddirAt(fd: int, offset: nat, fs: Tree) returns (r: Option<DirCacheEntry>)
      modifies this
      ensures (State(), r) == Reading(old(State()), fd, offset, fs)
    {
      if fd !in entries {
        return None;
      }
      var e := entries[fd];
      if e.dirCache.None? {
        e := e.(dirCache := Some(Fresh(fs, e.path)));
      }
      entries := entries[fd := e];
      return Lookup(e.dirCache.value, offset);
    }

    method InvalidateDirCaches()
      modifies this
      ensures State() == Stripped(old(State()))
    {
      var todo := entries.Keys;
      while todo != {}
        invariant todo <= entries.Keys == old(entries).Keys && nextFd == old(nextFd)
        invariant forall fd :: fd in entries ==>
          entries[fd] == if fd in todo then old(entries)[fd] else old(entries)[fd].(dirCache := None)
        decreases todo
      {
        var fd :| fd in todo;
        todo := todo - {fd};
        entries := entries[fd := entries[fd].(dirCache := None)];
      }
    }
  }
}

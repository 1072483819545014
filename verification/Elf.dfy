/** The ELF32 loader: the address range that an image needs, and copying its loadable segments into
    guest memory. Host addresses are 64 bits wide, so sums of two 32-bit fields do not overflow. */
module Elf {
  import opened Bytes
  import opened Wrappers

  const FHDR_SIZE := 52
  const PHDR_SIZE := 32
  const ET_EXEC := 2
  const EM_386 := 3
  const PT_LOAD := 1
  const EV_CURRENT := 1

  function Half(image: Bytes, at: nat): u16
    requires at + 2 <= |image|
  {
    U16FromLe(image[at..at + 2])
  }

  function Word(image: Bytes, at: nat): u32
    requires at + 4 <= |image|
  {
    U32FromLe(image[at..at + 4])
  }

  datatype Fhdr = Fhdr(ident: Bytes, typ: u16, machine: u16, version: u32, entry: u32, phoff: u32, phentsize: u16, phnum: u16)

  function FhdrOf(image: Bytes): Fhdr
    requires |image| >= FHDR_SIZE
  {
    Fhdr(image[..16], Half(image, 16), Half(image, 18), Word(image, 20), Word(image, 24), Word(image, 28),
         Half(image, 42), Half(image, 44))
  }

  /** `Elf32Fhdr::validate`. */
  predicate ValidFhdr(h: Fhdr)
  {
    && |h.ident| == 16 && h.ident[..4] == [0x7F, 0x45, 0x4C, 0x46]
    && h.ident[4] == 1 && h.ident[5] == 1
    && h.version == EV_CURRENT
    && h.phentsize == PHDR_SIZE
  }

  datatype Phdr = Phdr(typ: u32, offset: u32, vaddr: u32, filesz: u32, memsz: u32)

  function PhdrAt(image: Bytes, at: nat): Phdr
    requires at + PHDR_SIZE <= |image|
  {
    Phdr(Word(image, at), Word(image, at + 4), Word(image, at + 8), Word(image, at + 16), Word(image, at + 20))
  }

  //
  // Where the fields are
  //

  /** A file header as its bytes; what the loader does not look at is arbitrary. */
  function FhdrBytes(h: Fhdr, shoff: u32, flags: u32, ehsize: u16, rest: Bytes): (s: Bytes)
    requires |h.ident| == 16 && |rest| == 6
    ensures |s| == FHDR_SIZE
  {
    h.ident + U16ToLe(h.typ) + U16ToLe(h.machine) + U32ToLe(h.version) + U32ToLe(h.entry) + U32ToLe(h.phoff)
    + U32ToLe(shoff) + U32ToLe(flags) + U16ToLe(ehsize) + U16ToLe(h.phentsize) + U16ToLe(h.phnum) + rest
  }

  lemma FhdrLayout(h: Fhdr, shoff: u32, flags: u32, ehsize: u16, rest: Bytes, more: Bytes)
    requires |h.ident| == 16 && |rest| == 6
    ensures FhdrOf(FhdrBytes(h, shoff, flags, ehsize, rest) + more) == h
  {
    var image := FhdrBytes(h, shoff, flags, ehsize, rest) + more;
    assert image[..16] == h.ident;
    assert image[16..18] == U16ToLe(h.typ) && image[18..20] == U16ToLe(h.machine);
    assert image[20..24] == U32ToLe(h.version) && image[24..28] == U32ToLe(h.entry) && image[28..32] == U32ToLe(h.phoff);
    assert image[42..44] == U16ToLe(h.phentsize) && image[44..46] == U16ToLe(h.phnum);
    U16FromLeInvertsToLe(h.typ);
    U16FromLeInvertsToLe(h.machine);
    U32FromLeInvertsToLe(h.version);
    U32FromLeInvertsToLe(h.entry);
    U32FromLeInvertsToLe(h.phoff);
    U16FromLeInvertsToLe(h.phentsize);
    U16FromLeInvertsToLe(h.phnum);
  }

  /** A header is valid exactly if the image starts so. */
  lemma ValidFhdrIff(image: Bytes)
    requires |image| >= FHDR_SIZE
    ensures ValidFhdr(FhdrOf(image))
       <==> && image[0] == 0x7F && image[1] == 'E' as int && image[2] == 'L' as int && image[3] == 'F' as int
            && image[4] == 1 && image[5] == 1
            && image[20] == 1 && image[21] == 0 && image[22] == 0 && image[23] == 0
            && image[42] == 32 && image[43] == 0
  {
    assert image[20..24] == [image[20], image[21], image[22], image[23]] && image[42..44] == [image[42], image[43]];
    assert image[..4] == [image[0], image[1], image[2], image[3]];
    U32ToLeInvertsFromLe(image[20..24]);
  }

  lemma ExecutableIff(image: Bytes)
    requires |image| >= FHDR_SIZE
    ensures Executable(image) <==> image[16] == 2 && image[17] == 0 && image[18] == 3 && image[19] == 0
  {
    assert image[16..18] == [image[16], image[17]] && image[18..20] == [image[18], image[19]];
  }

  /** A program header and what the loader does not look at in it. */
  datatype RawPhdr = RawPhdr(p: Phdr, paddr: u32, flags: u32, align: u32)

  function PhdrBytes(r: RawPhdr): (s: Bytes)
    ensures |s| == PHDR_SIZE
  {
    U32ToLe(r.p.typ) + U32ToLe(r.p.offset) + U32ToLe(r.p.vaddr) + U32ToLe(r.paddr)
    + U32ToLe(r.p.filesz) + U32ToLe(r.p.memsz) + U32ToLe(r.flags) + U32ToLe(r.align)
  }

  lemma PhdrFields(r: RawPhdr)
    ensures
      var s := PhdrBytes(r);
      && s[..4] == U32ToLe(r.p.typ) && s[4..8] == U32ToLe(r.p.offset) && s[8..12] == U32ToLe(r.p.vaddr)
      && s[16..20] == U32ToLe(r.p.filesz) && s[20..24] == U32ToLe(r.p.memsz)
  {
  }

  /** A word of the image, by its place in a stretch of it. */
  lemma WordWithin(image: Bytes, at: nat, i: nat, n: u32)
    requires at + PHDR_SIZE <= |image| && i + 4 <= PHDR_SIZE
    requires image[at..at + PHDR_SIZE][i..i + 4] == U32ToLe(n)
    ensures Word(image, at + i) == n
  {
    var (s, w) := (image[at..at + PHDR_SIZE], image[at + i..at + i + 4]);
    forall j | 0 <= j < 4 ensures w[j] == s[i..i + 4][j] { assert w[j] == image[at + i + j] == s[i + j]; }
    assert w == s[i..i + 4];
    U32FromLeInvertsToLe(n);
  }

  lemma PhdrLayout(image: Bytes, at: nat, r: RawPhdr)
    requires at + PHDR_SIZE <= |image| && image[at..at + PHDR_SIZE] == PhdrBytes(r)
    ensures PhdrAt(image, at) == r.p
  {
    PhdrFields(r);
    WordWithin(image, at, 0, r.p.typ);
    WordWithin(image, at, 4, r.p.offset);
    WordWithin(image, at, 8, r.p.vaddr);
    WordWithin(image, at, 16, r.p.filesz);
    WordWithin(image, at, 20, r.p.memsz);
  }

  function TableBytes(rs: seq<RawPhdr>): (s: Bytes)
    ensures |s| == |rs| * PHDR_SIZE
  {
    if rs == [] then [] else PhdrBytes(rs[0]) + TableBytes(rs[1..])
  }

  /** The bytes of entry `i`, at its place behind `pre`. */
  lemma {:induction false} EntryLayout(pre: Bytes, rs: seq<RawPhdr>, post: Bytes, i: nat, at: nat)
    requires i < |rs| && at == |pre| + i * PHDR_SIZE
    ensures
      var image := pre + TableBytes(rs) + post;
      at + PHDR_SIZE <= |image| && image[at..at + PHDR_SIZE] == PhdrBytes(rs[i])
    decreases i
  {
    var (first, rest) := (PhdrBytes(rs[0]), TableBytes(rs[1..]));
    ConcatAssoc(pre, first, rest);
    if i == 0 {
      ConcatAssoc(pre + first, rest, post);
      AtEnd(pre, first, rest + post);
    } else {
      EntryLayout(pre + first, rs[1..], post, i - 1, at);
    }
  }

  lemma AtEnd(pre: Bytes, mid: Bytes, post: Bytes)
    ensures (pre + mid + post)[|pre|..|pre| + |mid|] == mid
  {
  }

  /** An image put together from a header, anything, a program header table and anything else is read as that
      header and that table. */
  lemma ImageLayout(h: Fhdr, shoff: u32, flags: u32, ehsize: u16, tail: Bytes, gap: Bytes, rs: seq<RawPhdr>, more: Bytes, i: nat)
    requires |h.ident| == 16 && |tail| == 6 && h.phoff == FHDR_SIZE + |gap| && h.phnum == |rs| && i < |rs|
    ensures
      var image := FhdrBytes(h, shoff, flags, ehsize, tail) + gap + TableBytes(rs) + more;
      FhdrOf(image) == h && TableInBounds(image, h) && TableOf(image, h)[i] == rs[i].p
  {
    var head := FhdrBytes(h, shoff, flags, ehsize, tail);
    TableLayout(head + gap, rs, more, h, i);
    HeaderFirst(head, gap, TableBytes(rs), more);
    FhdrLayout(h, shoff, flags, ehsize, tail, gap + TableBytes(rs) + more);
  }

  lemma HeaderFirst(head: Bytes, gap: Bytes, table: Bytes, more: Bytes)
    ensures head + gap + table + more == head + (gap + table + more)
  {
    ConcatAssoc(head, gap, table);
    ConcatAssoc(head, gap + table, more);
  }

  lemma TableLayout(pre: Bytes, rs: seq<RawPhdr>, more: Bytes, h: Fhdr, i: nat)
    requires |pre| == h.phoff && |rs| == h.phnum && i < |rs|
    ensures TableInBounds(pre + TableBytes(rs) + more, h) && TableOf(pre + TableBytes(rs) + more, h)[i] == rs[i].p
  {
    var (image, at) := (pre + TableBytes(rs) + more, h.phoff + i * PHDR_SIZE);
    assert |image| >= |pre| + |TableBytes(rs)|;
    EntryRead(pre, rs, more, i, at);
    TableEntry(image, h, i, at);
  }

  lemma EntryRead(pre: Bytes, rs: seq<RawPhdr>, more: Bytes, i: nat, at: nat)
    requires i < |rs| && at == |pre| + i * PHDR_SIZE
    ensures at + PHDR_SIZE <= |pre + TableBytes(rs) + more| && PhdrAt(pre + TableBytes(rs) + more, at) == rs[i].p
  {
    EntryLayout(pre, rs, more, i, at);
    PhdrLayout(pre + TableBytes(rs) + more, at, rs[i]);
  }

  lemma TableEntry(image: Bytes, h: Fhdr, i: nat, at: nat)
    requires TableInBounds(image, h) && i < h.phnum && at == h.phoff + i * PHDR_SIZE
    ensures at + PHDR_SIZE <= |image| && TableOf(image, h)[i] == PhdrAt(image, at)
  {
  }

  predicate TableInBounds(image: Bytes, h: Fhdr)
  {
    h.phoff + h.phnum * PHDR_SIZE <= |image|
  }

  /** The program header table. */
  function TableOf(image: Bytes, h: Fhdr): (table: seq<Phdr>)
    requires TableInBounds(image, h)
    ensures |table| == h.phnum
  {
    seq(h.phnum, i requires 0 <= i < h.phnum => PhdrAt(image, h.phoff + i * PHDR_SIZE))
  }

  /** The `i`-th entry, read where it lies in the image. */
  method ReadPhdr(image: Bytes, h: Fhdr, i: nat) returns (p: Phdr)
    requires TableInBounds(image, h) && i < h.phnum
    ensures p == TableOf(image, h)[i]
  {
    p := PhdrAt(image, h.phoff + i * PHDR_SIZE);
  }

  /** The loadable entries of a table, in table order. */
  function Loadable(table: seq<Phdr>): (segs: seq<Phdr>)
  {
    if table == [] then [] else
    var last := table[|table| - 1];
    var segs := Loadable(table[..|table| - 1]);
    if last.typ == PT_LOAD then segs + [last] else segs
  }

  function Segments(image: Bytes): seq<Phdr>
    requires |image| >= FHDR_SIZE && TableInBounds(image, FhdrOf(image))
  {
    Loadable(TableOf(image, FhdrOf(image)))
  }

  predicate AllValid(segs: seq<Phdr>)
  {
    forall i :: 0 <= i < |segs| ==> segs[i].filesz <= segs[i].memsz
  }

  //
  // The footprint
  //

  function LowestAddress(segs: seq<Phdr>): (n: nat)
    requires segs != []
    ensures forall i :: 0 <= i < |segs| ==> n <= segs[i].vaddr
    ensures exists i :: 0 <= i < |segs| && n == segs[i].vaddr
  {
    var last := segs[|segs| - 1];
    if |segs| == 1 then last.vaddr
    else
      var n := LowestAddress(segs[..|segs| - 1]);
      if last.vaddr < n then last.vaddr else n
  }

  function HighestEnd(segs: seq<Phdr>): (n: nat)
    requires segs != []
    ensures forall i :: 0 <= i < |segs| ==> segs[i].vaddr + segs[i].memsz <= n
    ensures exists i :: 0 <= i < |segs| && n == segs[i].vaddr + segs[i].memsz
  {
    var last := segs[|segs| - 1];
    if |segs| == 1 then last.vaddr + last.memsz
    else
      var n := HighestEnd(segs[..|segs| - 1]);
      if last.vaddr + last.memsz > n then last.vaddr + last.memsz else n
  }

  predicate HasFootprint(image: Bytes)
  {
    && |image| >= FHDR_SIZE && ValidFhdr(FhdrOf(image)) && TableInBounds(image, FhdrOf(image))
    && Segments(image) != [] && AllValid(Segments(image))
  }

  datatype Footprint = Footprint(start: nat, end: nat)

  lemma LoadableStep(table: seq<Phdr>, i: nat)
    requires i < |table|
    ensures Loadable(table[..i + 1])
         == if table[i].typ == PT_LOAD then Loadable(table[..i]) + [table[i]] else Loadable(table[..i])
  {
    assert table[..i + 1][..i] == table[..i];
  }

  lemma {:induction false} LoadableGrows(table: seq<Phdr>, i: nat)
    requires i <= |table|
    ensures Loadable(table[..i]) <= Loadable(table)
    decreases |table| - i
  {
    if i == |table| {
      assert table[..i] == table;
    } else {
      LoadableStep(table, i);
      LoadableGrows(table, i + 1);
    }
  }

  /** The loadable entries are those of type 1; none is missing, by `EntryPlace`, and none is added. */
  lemma {:induction false} LoadableOnly(table: seq<Phdr>, k: nat)
    requires k < |Loadable(table)|
    ensures Loadable(table)[k].typ == 1 && Loadable(table)[k] in table
    decreases |table|
  {
    var init := table[..|table| - 1];
    if k < |Loadable(init)| { LoadableOnly(init, k); }
  }

  lemma BoundsAppend(segs: seq<Phdr>, p: Phdr)
    requires segs != []
    ensures LowestAddress(segs + [p]) == if p.vaddr < LowestAddress(segs) then p.vaddr else LowestAddress(segs)
    ensures HighestEnd(segs + [p])
         == if p.vaddr + p.memsz > HighestEnd(segs) then p.vaddr + p.memsz else HighestEnd(segs)
  {
    assert (segs + [p])[..|segs|] == segs;
  }

  const USIZE_MAX := 0xFFFF_FFFF_FFFF_FFFF

  /** `start` and `end` as the loop keeps them, from before it has met a loadable entry. */
  predicate Bounds(segs: seq<Phdr>, start: int, end: int)
  {
    if segs == [] then start == USIZE_MAX && end == 0
    else start == LowestAddress(segs) && end == HighestEnd(segs)
  }

  /** What a pass over the table has found when `segs` are the loadable entries met. */
  predicate Scanned(segs: seq<Phdr>, found: bool, start: int, end: int)
  {
    (found <==> segs != []) && AllValid(segs) && Bounds(segs, start, end)
  }

  lemma AllValidAppend(segs: seq<Phdr>, p: Phdr)
    requires AllValid(segs) && p.filesz <= p.memsz
    ensures AllValid(segs + [p])
  {
  }

  lemma ScanMore(segs: seq<Phdr>, p: Phdr, found: bool, start: int, end: int)
    requires Scanned(segs, found, start, end) && p.filesz <= p.memsz
    ensures Scanned(segs + [p], true, if p.vaddr < start then p.vaddr else start,
                    if p.vaddr + p.memsz > end then p.vaddr + p.memsz else end)
  {
    AllValidAppend(segs, p);
    if segs == [] {
      assert segs + [p] == [p];
      assert LowestAddress([p]) == p.vaddr && HighestEnd([p]) == p.vaddr + p.memsz;
    } else {
      BoundsAppend(segs, p);
    }
  }

  lemma EntryPlace(table: seq<Phdr>, i: nat)
    requires i < |table| && table[i].typ == PT_LOAD
    ensures
      var n := |Loadable(table[..i])|;
      n < |Loadable(table)| && Loadable(table)[n] == table[i] && Loadable(table)[..n] == Loadable(table[..i])
  {
    LoadableStep(table, i);
    LoadableGrows(table, i + 1);
    LoadableGrows(table, i);
  }

  lemma InvalidEntry(table: seq<Phdr>, i: nat)
    requires i < |table| && table[i].typ == PT_LOAD && table[i].filesz > table[i].memsz
    ensures !AllValid(Loadable(table))
  {
    EntryPlace(table, i);
  }

  /** The scan of the program header table; it stops at the first entry that is not valid. */
  method ScanTable(image: Bytes, h: Fhdr) returns (ok: bool, found: bool, start: nat, end: nat)
    requires TableInBounds(image, h)
    ensures ok <==> AllValid(Loadable(TableOf(image, h)))
    ensures ok ==> Scanned(Loadable(TableOf(image, h)), found, start, end)
  {
    ghost var table := TableOf(image, h);
    ok, found, start, end := true, false, USIZE_MAX, 0;
    assert table[..0] == [];
    for i := 0 to h.phnum
      invariant ok && Scanned(Loadable(table[..i]), found, start, end)
    {
      var p := ReadPhdr(image, h, i);
      LoadableStep(table, i);
      if p.typ == PT_LOAD {
        if p.filesz > p.memsz {
          InvalidEntry(table, i);
          return false, found, start, end;
        }
        ScanMore(Loadable(table[..i]), p, found, start, end);
        var segmentEnd := p.vaddr + p.memsz;
        if p.vaddr < start {
          start := p.vaddr;
        }
        if segmentEnd > end {
          end := segmentEnd;
        }
        found := true;
      }
    }
    assert table[..h.phnum] == table;
  }

  method MemoryFootprint(image: Bytes) returns (r: Option<Footprint>)
    ensures r.Some? <==> HasFootprint(image)
    ensures r.Some? ==> r.value == Footprint(LowestAddress(Segments(image)), HighestEnd(Segments(image)))
  {
    if |image| < FHDR_SIZE {
      return None;
    }
    var h := FhdrOf(image);
    if !ValidFhdr(h) {
      return None;
    }
    if h.phoff + h.phnum * h.phentsize > |image| {
      return None;
    }
    var ok, found, startAddress, endAddress := ScanTable(image, h);
    if !ok || !found {
      return None;
    }
    return Some(Footprint(startAddress, endAddress));
  }

  //
  // Loading
  //

  predicate Covers(p: Phdr, a: nat)
  {
    p.vaddr <= a < p.vaddr + p.memsz
  }

  predicate FileInBounds(image: Bytes, p: Phdr)
  {
    p.offset + p.filesz <= |image|
  }

  /** What a segment puts at an address that it covers: the file's byte, or a zero past the file's part. */
  function SegmentByte(image: Bytes, p: Phdr, a: nat): byte
    requires Covers(p, a) && FileInBounds(image, p)
  {
    if a - p.vaddr < p.filesz then image[p.offset + (a - p.vaddr)] else 0
  }

  predicate AllInBounds(image: Bytes, segs: seq<Phdr>)
  {
    forall i :: 0 <= i < |segs| ==> FileInBounds(image, segs[i])
  }

  /** The byte at `a` once `segs` are loaded: from the last segment in table order that covers it, and
      unchanged if there is none. */
  function Loaded(image: Bytes, segs: seq<Phdr>, a: nat, before: byte): byte
    requires AllInBounds(image, segs)
  {
    if segs == [] then before else
    var last := segs[|segs| - 1];
    if Covers(last, a) then SegmentByte(image, last, a) else Loaded(image, segs[..|segs| - 1], a, before)
  }

  /** The caller's part of the unsafe contract: what the image's own headers point at can be read. */
  predicate Readable(image: Bytes)
  {
    && |image| >= FHDR_SIZE
    && (ValidFhdr(FhdrOf(image)) ==> TableInBounds(image, FhdrOf(image)) && AllInBounds(image, Segments(image)))
  }

  predicate AllFit(segs: seq<Phdr>, maxOffset: nat)
  {
    forall i :: 0 <= i < |segs| ==> segs[i].vaddr + segs[i].memsz <= maxOffset
  }

  predicate Executable(image: Bytes)
    requires |image| >= FHDR_SIZE
  {
    FhdrOf(image).typ == ET_EXEC && FhdrOf(image).machine == EM_386
  }

  predicate CanLoad(image: Bytes, maxOffset: nat)
    requires Readable(image)
  {
    && ValidFhdr(FhdrOf(image)) && Executable(image)
    && Segments(image) != [] && AllValid(Segments(image)) && AllFit(Segments(image), maxOffset)
  }

  method CopySegment(memory: array<byte>, image: Bytes, p: Phdr)
    requires p.filesz <= p.memsz && FileInBounds(image, p) && p.vaddr + p.memsz <= memory.Length
    modifies memory
    ensures forall a :: 0 <= a < memory.Length ==>
              memory[a] == if Covers(p, a) then SegmentByte(image, p, a) else old(memory[a])
  {
    forall i | 0 <= i < p.filesz {
      memory[p.vaddr + i] := image[p.offset + i];
    }
    if p.memsz > p.filesz {
      forall i | p.filesz <= i < p.memsz {
        memory[p.vaddr + i] := 0;
      }
    }
  }

  datatype LoadResult = LoadResult(entry: nat, first: nat, size: nat)

  /** `now` is `before` with `segs` loaded. */
  ghost predicate IsLoaded(image: Bytes, segs: seq<Phdr>, before: Bytes, now: Bytes)
    requires AllInBounds(image, segs)
  {
    |now| == |before| && forall a :: 0 <= a < |now| ==> now[a] == Loaded(image, segs, a, before[a])
  }

  predicate Acceptable(p: Phdr, maxOffset: nat)
  {
    p.filesz <= p.memsz && p.vaddr + p.memsz <= maxOffset
  }

  /** Exactly the segments before the first that cannot be accepted are loaded. */
  ghost predicate LoadedUpToFault(image: Bytes, segs: seq<Phdr>, maxOffset: nat, before: Bytes, now: Bytes)
    requires AllInBounds(image, segs)
  {
    exists n :: 0 <= n < |segs|
      && !Acceptable(segs[n], maxOffset) && AllValid(segs[..n]) && AllFit(segs[..n], maxOffset)
      && IsLoaded(image, segs[..n], before, now)
  }

  lemma LoadedAppend(image: Bytes, segs: seq<Phdr>, p: Phdr, before: Bytes, mid: Bytes, now: Bytes)
    requires AllInBounds(image, segs) && FileInBounds(image, p)
    requires IsLoaded(image, segs, before, mid) && |now| == |mid|
    requires forall a :: 0 <= a < |now| ==> now[a] == if Covers(p, a) then SegmentByte(image, p, a) else mid[a]
    ensures AllInBounds(image, segs + [p]) && IsLoaded(image, segs + [p], before, now)
  {
    assert (segs + [p])[..|segs|] == segs;
  }

  /** What the loop has done when `segs` are the loadable entries met. */
  ghost predicate Progress(image: Bytes, segs: seq<Phdr>, maxOffset: nat, any: bool, first: int, last: int, before: Bytes, now: Bytes)
  {
    && Scanned(segs, any, first, last) && AllFit(segs, maxOffset)
    && AllInBounds(image, segs) && IsLoaded(image, segs, before, now)
  }

  /** One turn of the loop, for a loadable entry that is valid and fits. */
  method LoadSegment(memory: array<byte>, image: Bytes, p: Phdr, maxOffset: nat, any: bool, first: nat, last: nat,
                     ghost segs: seq<Phdr>, ghost before: Bytes) returns (first': nat, last': nat)
    requires Progress(image, segs, maxOffset, any, first, last, before, memory[..])
    requires p.filesz <= p.memsz && p.vaddr + p.memsz <= maxOffset <= memory.Length && FileInBounds(image, p)
    modifies memory
    ensures Progress(image, segs + [p], maxOffset, true, first', last', before, memory[..])
  {
    ghost var mid := memory[..];
    CopySegment(memory, image, p);
    LoadedAppend(image, segs, p, before, mid, memory[..]);
    ScanMore(segs, p, any, first, last);
    first' := if !any || p.vaddr < first then p.vaddr else first;
    last' := if p.vaddr + p.memsz > last then p.vaddr + p.memsz else last;
  }

  lemma StoppedAt(image: Bytes, table: seq<Phdr>, i: nat, maxOffset: nat, before: Bytes, now: Bytes)
    requires i < |table| && table[i].typ == PT_LOAD
    requires !Acceptable(table[i], maxOffset)
    requires AllValid(Loadable(table[..i])) && AllFit(Loadable(table[..i]), maxOffset)
    requires AllInBounds(image, Loadable(table)) && AllInBounds(image, Loadable(table[..i]))
    requires IsLoaded(image, Loadable(table[..i]), before, now)
    ensures !(AllValid(Loadable(table)) && AllFit(Loadable(table), maxOffset))
    ensures LoadedUpToFault(image, Loadable(table), maxOffset, before, now)
  {
    EntryPlace(table, i);
  }

  lemma EntryInBounds(image: Bytes, table: seq<Phdr>, i: nat)
    requires i < |table| && table[i].typ == PT_LOAD && AllInBounds(image, Loadable(table))
    ensures FileInBounds(image, table[i])
  {
    EntryPlace(table, i);
  }

  /** The loop over the program header table. It stops at the first loadable entry that is not valid or
      does not fit, with the entries before it loaded. */
  method LoadSegments(memory: array<byte>, image: Bytes, h: Fhdr, maxOffset: nat)
    returns (ok: bool, any: bool, first: nat, last: nat)
    requires TableInBounds(image, h) && AllInBounds(image, Loadable(TableOf(image, h))) && maxOffset <= memory.Length
    modifies memory
    ensures ok <==> AllValid(Loadable(TableOf(image, h))) && AllFit(Loadable(TableOf(image, h)), maxOffset)
    ensures ok ==> Progress(image, Loadable(TableOf(image, h)), maxOffset, any, first, last, old(memory[..]), memory[..])
    ensures !ok ==> LoadedUpToFault(image, Loadable(TableOf(image, h)), maxOffset, old(memory[..]), memory[..])
  {
    ghost var (table, before) := (TableOf(image, h), memory[..]);
    ok, any, first, last := true, false, USIZE_MAX, 0;
    assert table[..0] == [];
    for i := 0 to h.phnum
      invariant ok && Progress(image, Loadable(table[..i]), maxOffset, any, first, last, before, memory[..])
    {
      var p := ReadPhdr(image, h, i);
      LoadableStep(table, i);
      if p.typ == PT_LOAD {
        if p.filesz > p.memsz || p.vaddr + p.memsz > maxOffset {
          StoppedAt(image, table, i, maxOffset, before, memory[..]);
          return false, any, first, last;
        }
        EntryInBounds(image, table, i);
        first, last := LoadSegment(memory, image, p, maxOffset, any, first, last, Loadable(table[..i]), before);
        any := true;
      }
    }
    assert table[..h.phnum] == table;
  }

  /** Loads the image's segments; on failure, those before the one at fault have been loaded. */
  method Load(memory: array<byte>, image: Bytes, maxOffset: nat) returns (r: Option<LoadResult>)
    requires Readable(image) && maxOffset <= memory.Length
    modifies memory
    ensures r.Some? <==> CanLoad(image, maxOffset)
    ensures r.Some? ==>
              && IsLoaded(image, Segments(image), old(memory[..]), memory[..])
              && r.value.entry == FhdrOf(image).entry
              && r.value.first == LowestAddress(Segments(image))
              && r.value.first + r.value.size == HighestEnd(Segments(image))
    ensures !(ValidFhdr(FhdrOf(image)) && Executable(image) && Segments(image) != []) ==> memory[..] == old(memory[..])
    ensures r.None? && ValidFhdr(FhdrOf(image)) && Executable(image) && Segments(image) != [] ==>
              LoadedUpToFault(image, Segments(image), maxOffset, old(memory[..]), memory[..])
  {
    var h := FhdrOf(image);
    if !ValidFhdr(h) {
      return None;
    }
    if h.typ != ET_EXEC {
      return None;
    }
    if h.machine != EM_386 {
      return None;
    }
    var ok, any, firstAddress, lastAddress := LoadSegments(memory, image, h, maxOffset);
    if !ok || !any {
      assert Segments(image) == [] ==> memory[..] == old(memory[..]);
      return None;
    }
    return Some(LoadResult(h.entry, firstAddress, lastAddress - firstAddress));
  }

  //
  // The two agree, and what loading means
  //

  /** For a readable executable image, loading succeeds if and only if the footprint is computed and ends
      within the memory offered. */
  lemma LoadIffFootprintFits(image: Bytes, maxOffset: nat)
    requires Readable(image) && Executable(image)
    ensures CanLoad(image, maxOffset) <==> HasFootprint(image) && HighestEnd(Segments(image)) <= maxOffset
  {
    if HasFootprint(image) {
      var segs := Segments(image);
      var i :| 0 <= i < |segs| && HighestEnd(segs) == segs[i].vaddr + segs[i].memsz;
    }
  }

  /** The byte at an address that segment `i` covers and no later one does: the byte of the file at the same
      distance into the segment's part of it, or a zero past that part. */
  lemma {:induction false} LastCoveringSegmentWins(image: Bytes, segs: seq<Phdr>, i: nat, a: nat, before: byte)
    requires AllInBounds(image, segs) && i < |segs| && segs[i].vaddr <= a < segs[i].vaddr + segs[i].memsz
    requires forall j :: i < j < |segs| ==> !(segs[j].vaddr <= a < segs[j].vaddr + segs[j].memsz)
    ensures
      var (p, k) := (segs[i], a - segs[i].vaddr);
      && (k < p.filesz ==> p.offset + k < |image| && Loaded(image, segs, a, before) == image[p.offset + k])
      && (k >= p.filesz ==> Loaded(image, segs, a, before) == 0)
    decreases |segs|
  {
    if i < |segs| - 1 {
      LastCoveringSegmentWins(image, segs[..|segs| - 1], i, a, before);
    }
  }

  lemma {:induction false} UncoveredIsUnchanged(image: Bytes, segs: seq<Phdr>, a: nat, before: byte)
    requires AllInBounds(image, segs)
    requires forall j :: 0 <= j < |segs| ==> !(segs[j].vaddr <= a < segs[j].vaddr + segs[j].memsz)
    ensures Loaded(image, segs, a, before) == before
    decreases |segs|
  {
    if segs != [] {
      UncoveredIsUnchanged(image, segs[..|segs| - 1], a, before);
    }
  }

  ghost predicate Disjoint(segs: seq<Phdr>)
  {
    forall i, j, a :: 0 <= i < j < |segs| ==> !(Covers(segs[i], a) && Covers(segs[j], a))
  }

  /** Segments that do not overlap are all there in full, whatever their order in the table. */
  lemma DisjointSegmentsAreIntact(image: Bytes, segs: seq<Phdr>, segs': seq<Phdr>, a: nat, before: byte)
    requires AllInBounds(image, segs) && AllInBounds(image, segs')
    requires Disjoint(segs) && Disjoint(segs') && multiset(segs) == multiset(segs')
    ensures Loaded(image, segs, a, before) == Loaded(image, segs', a, before)
  {
    if i :| 0 <= i < |segs| && Covers(segs[i], a) {
      LastCoveringSegmentWins(image, segs, i, a, before);
      assert segs[i] in multiset(segs');
      var j :| 0 <= j < |segs'| && segs'[j] == segs[i];
      LastCoveringSegmentWins(image, segs', j, a, before);
    } else {
      UncoveredIsUnchanged(image, segs, a, before);
      forall j | 0 <= j < |segs'| ensures !Covers(segs'[j], a) {
        assert segs'[j] in multiset(segs);
      }
      UncoveredIsUnchanged(image, segs', a, before);
    }
  }
}

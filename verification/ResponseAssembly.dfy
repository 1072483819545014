/** The virtual filesystem daemon's side of a multi-part `readlink` response: one slot, in which the parts
    of a stream are kept sorted by number until there are as many as they say there should be. */
module ResponseAssembly {
  import opened Bytes
  import opened LongRequests
  import opened LongResponses
  import opened Wrappers

  //
  // The slot, on values
  //

  /** A `SystemCallLongMessage` and the operation that it answers. */
  datatype Stream = Stream(capacity: nat, parts: seq<Part>, opId: u32)

  /** The daemon goes down when it takes more bytes from a part than a part has. */
  datatype Daemon = Up(slot: Option<Stream>) | Down

  /** What becomes of a pending operation. */
  datatype Outcome = Cancelled(opId: u32) | Completed(opId: u32, body: Bytes) | Panicked(opId: u32)

  ghost predicate Sorted(parts: seq<Part>)
  {
    forall i, j :: 0 <= i < j < |parts| ==> parts[i].number <= parts[j].number
  }

  predicate Sized(parts: seq<Part>)
  {
    forall i :: 0 <= i < |parts| ==> parts[i].size <= PAYLOAD_SIZE
  }

  /** Where a stable sort moves a part that was pushed behind sorted ones. */
  function Insert(parts: seq<Part>, p: Part): (r: seq<Part>)
    ensures |r| == |parts| + 1
  {
    if parts == [] then [p] else
    var (init, last) := (parts[..|parts| - 1], parts[|parts| - 1]);
    if last.number <= p.number then parts + [p] else Insert(init, p) + [last]
  }

  /** `as u16`. */
  function AsU16(n: nat): (r: u16)
    ensures n < 0x1_0000 ==> r == n
  {
    n % 0x1_0000
  }

  predicate IsComplete(parts: seq<Part>)
  {
    parts != [] && parts[|parts| - 1].total == AsU16(|parts|)
  }

  function Add(m: Stream, p: Part): Option<Stream>
  {
    if |m.parts| == m.capacity || IsComplete(m.parts) then None
    else Some(m.(parts := Insert(m.parts, p)))
  }

  predicate Starts(p: Part)
  {
    p.number == 0 && p.size >= 4
  }

  function Capacity(first: Part): nat
  {
    if first.total == 0 then 1 else first.total
  }

  /** The operation of a stream that is given up. */
  function Stale(slot: Option<Stream>): seq<Outcome>
  {
    if slot.Some? then [Cancelled(slot.value.opId)] else []
  }

  /** The parts are taken out and their payloads put together. */
  function Completing(m: Stream): (Daemon, seq<Outcome>)
  {
    if Sized(m.parts) then (Up(None), [Completed(m.opId, Gather(m.parts))]) else (Down, [Panicked(m.opId)])
  }

  function Continuing(m: Stream, p: Part): (Daemon, seq<Outcome>)
  {
    var m' := Add(m, p);
    if m'.None? then (Up(None), [Cancelled(m.opId)])
    else if IsComplete(m'.value.parts) then Completing(m'.value)
    else (Up(m'), [])
  }

  function Receiving(d: Daemon, p: Part): (r: (Daemon, seq<Outcome>))
  {
    if d.Down? then (d, [])
    else if Starts(p) then
      var (d', outcomes) := Continuing(Stream(Capacity(p), [], LogicalOpId(p)), p);
      (d', Stale(d.slot) + outcomes)
    else if p.number == 0 || d.slot.None? then (d, [])  // too short to start a stream, or part of none
    else Continuing(d.slot.value, p)
  }

  function ReceivingAll(d: Daemon, parts: seq<Part>): (r: (Daemon, seq<Outcome>))
  {
    if parts == [] then (d, []) else
    var (d1, outcomes) := ReceivingAll(d, parts[..|parts| - 1]);
    var (d2, more) := Receiving(d1, parts[|parts| - 1]);
    (d2, outcomes + more)
  }

  //
  // Sorting
  //

  lemma {:induction false} InsertKeepsParts(parts: seq<Part>, p: Part)
    ensures multiset(Insert(parts, p)) == multiset(parts) + multiset{p}
    decreases |parts|
  {
    if parts != [] {
      var (init, last) := (parts[..|parts| - 1], parts[|parts| - 1]);
      assert parts == init + [last];
      InsertKeepsParts(init, p);
    }
  }

  lemma {:induction false} InsertKeepsSorted(parts: seq<Part>, p: Part)
    requires Sorted(parts)
    ensures Sorted(Insert(parts, p))
    decreases |parts|
  {
    if parts != [] {
      var (init, last) := (parts[..|parts| - 1], parts[|parts| - 1]);
      if last.number > p.number {
        InsertKeepsSorted(init, p);
        InsertKeepsParts(init, p);
        var r := Insert(init, p);
        forall i | 0 <= i < |r| ensures r[i].number <= last.number {
          assert r[i] in multiset(r);
          assert r[i] in init || r[i] == p;
        }
      }
    }
  }

  function SortParts(arrivals: seq<Part>): (r: seq<Part>)
    ensures |r| == |arrivals|
  {
    if arrivals == [] then [] else Insert(SortParts(arrivals[..|arrivals| - 1]), arrivals[|arrivals| - 1])
  }

  lemma {:induction false} SortPartsSorts(arrivals: seq<Part>)
    ensures Sorted(SortParts(arrivals)) && multiset(SortParts(arrivals)) == multiset(arrivals)
    decreases |arrivals|
  {
    if arrivals != [] {
      var (init, last) := (arrivals[..|arrivals| - 1], arrivals[|arrivals| - 1]);
      assert arrivals == init + [last];
      SortPartsSorts(init);
      InsertKeepsParts(SortParts(init), last);
      InsertKeepsSorted(SortParts(init), last);
    }
  }

  lemma SortPartsAppend(init: seq<Part>, p: Part)
    ensures SortParts(init + [p]) == Insert(SortParts(init), p)
  {
    assert (init + [p])[..|init|] == init;
  }

  lemma SameElements(a: seq<Part>, b: seq<Part>, i: nat)
    requires multiset(a) == multiset(b) && i < |a|
    ensures a[i] in b
  {
    assert a[i] in multiset(b);
  }

  lemma SortPartsSized(arrivals: seq<Part>)
    ensures Sized(SortParts(arrivals)) <==> Sized(arrivals)
  {
    var sorted := SortParts(arrivals);
    SortPartsSorts(arrivals);
    if Sized(sorted) {
      forall i | 0 <= i < |arrivals| ensures arrivals[i].size <= PAYLOAD_SIZE { SameElements(arrivals, sorted, i); }
    }
    if Sized(arrivals) {
      forall i | 0 <= i < |sorted| ensures sorted[i].size <= PAYLOAD_SIZE { SameElements(sorted, arrivals, i); }
    }
  }

  //
  // Any arrivals at all: a run falls into segments, each started by a part 0
  //

  lemma ReceivingAppend(d: Daemon, a: seq<Part>, p: Part)
    ensures ReceivingAll(d, a + [p]).0 == Receiving(ReceivingAll(d, a).0, p).0
    ensures ReceivingAll(d, a + [p]).1 == ReceivingAll(d, a).1 + Receiving(ReceivingAll(d, a).0, p).1
  {
    assert (a + [p])[..|a|] == a;
  }

  lemma {:induction false} ReceivingConcat(d: Daemon, a: seq<Part>, b: seq<Part>)
    ensures ReceivingAll(d, a + b).0 == ReceivingAll(ReceivingAll(d, a).0, b).0
    ensures ReceivingAll(d, a + b).1 == ReceivingAll(d, a).1 + ReceivingAll(ReceivingAll(d, a).0, b).1
    decreases |b|
  {
    if b == [] {
      assert a + b == a;
    } else {
      var (init, p) := (b[..|b| - 1], b[|b| - 1]);
      assert b == init + [p] && a + b == (a + init) + [p];
      var d1 := ReceivingAll(d, a).0;
      ReceivingConcat(d, a, init);
      ReceivingAppend(d, a + init, p);
      ReceivingAppend(d1, init, p);
      ConcatAssoc(ReceivingAll(d, a).1, ReceivingAll(d1, init).1, Receiving(ReceivingAll(d1, init).0, p).1);
    }
  }

  /** A part 0 cancels what was in the slot and is otherwise received as by an empty one. So what follows
      it does not depend on what came before. */
  lemma RestartForgets(d: Daemon, a: seq<Part>, p: Part, b: seq<Part>)
    requires Starts(p) && ReceivingAll(d, a).0.Up?
    ensures ReceivingAll(d, a + ([p] + b)).0 == ReceivingAll(Up(None), [p] + b).0
    ensures ReceivingAll(d, a + ([p] + b)).1
         == ReceivingAll(d, a).1
            + ((match ReceivingAll(d, a).0.slot case Some(m) => [Cancelled(m.opId)] case None => [])
               + ReceivingAll(Up(None), [p] + b).1)
  {
    var d1 := ReceivingAll(d, a).0;
    ReceivingConcat(d, a, [p] + b);
    ReceivingConcat(d1, [p], b);
    ReceivingConcat(Up(None), [p], b);
    ReceivingOne(d1, p);
    ReceivingOne(Up(None), p);
    var (stale, own) := (Stale(d1.slot), Receiving(Up(None), p).1);
    assert Receiving(d1, p).1 == stale + own;
    ConcatAssoc(stale, own, ReceivingAll(Receiving(Up(None), p).0, b).1);
  }

  lemma ReceivingOne(d: Daemon, p: Part)
    ensures ReceivingAll(d, [p]).0 == Receiving(d, p).0 && ReceivingAll(d, [p]).1 == Receiving(d, p).1
  {
    assert [] + [p] == [p];
    ReceivingAppend(d, [], p);
  }

  /** A part 0 too short for an identifier is passed over, and whatever is in the slot goes on. */
  lemma ShortStartIsIgnored(d: Daemon, p: Part)
    requires p.number == 0 && p.size < 4
    ensures Receiving(d, p) == (d, [])
  {
  }

  /** Parts that belong to no stream leave no trace. */
  lemma {:induction false} StrayPartsAreIgnored(parts: seq<Part>)
    requires forall i :: 0 <= i < |parts| ==> !Starts(parts[i])
    ensures ReceivingAll(Up(None), parts).0 == Up(None) && ReceivingAll(Up(None), parts).1 == []
    decreases |parts|
  {
    if parts != [] { StrayPartsAreIgnored(parts[..|parts| - 1]); }
  }

  /** A part 0 and parts that are not part 0. */
  ghost predicate Segment(seg: seq<Part>)
  {
    seg != [] && Starts(seg[0]) && forall i :: 0 < i < |seg| ==> seg[i].number != 0
  }

  /** No beginning of up to `n` parts is complete. */
  ghost predicate NotYet(seg: seq<Part>, n: nat)
    requires n <= |seg|
  {
    forall k :: 1 <= k <= n ==> !IsComplete(SortParts(seg[..k]))
  }

  /** What a segment comes to at the first part that ends it: it is cancelled if it has more parts than the
      first declared, it completes if the last of its parts, once sorted, declares as many as there are, and
      it waits otherwise. */
  function EndOf(seg: seq<Part>): (Daemon, seq<Outcome>)
    requires seg != []
  {
    Settling(StreamOf(seg))
  }

  function StreamOf(seg: seq<Part>): Stream
    requires seg != []
  {
    Stream(Capacity(seg[0]), SortParts(seg), LogicalOpId(seg[0]))
  }

  lemma StreamOfAppend(init: seq<Part>, p: Part)
    requires init != []
    ensures StreamOf(init + [p]) == StreamOf(init).(parts := Insert(StreamOf(init).parts, p))
  {
    SortPartsAppend(init, p);
    assert (init + [p])[0] == init[0];
  }

  function Settling(m: Stream): (Daemon, seq<Outcome>)
  {
    if |m.parts| > m.capacity then (Up(None), [Cancelled(m.opId)])
    else if IsComplete(m.parts) then Completing(m)
    else (Up(Some(m)), [])
  }

  lemma ContinuingSettles(m: Stream, p: Part)
    requires |m.parts| <= m.capacity && !IsComplete(m.parts)
    ensures Continuing(m, p) == Settling(m.(parts := Insert(m.parts, p)))
    ensures Settling(m).0 == Up(Some(m)) && Settling(m).1 == []
  {
  }

  lemma {:induction false} SegmentOutcome(seg: seq<Part>)
    requires Segment(seg) && NotYet(seg, |seg| - 1) && |seg| - 1 <= Capacity(seg[0])
    ensures ReceivingAll(Up(None), seg).0 == EndOf(seg).0 && ReceivingAll(Up(None), seg).1 == EndOf(seg).1
    decreases |seg|
  {
    var (init, p) := (seg[..|seg| - 1], seg[|seg| - 1]);
    assert seg == init + [p];
    ReceivingAppend(Up(None), init, p);
    if init == [] {
      FirstOfSegment(p);
      assert seg == [p] && ReceivingAll(Up(None), init) == (Up(None), []);
      assert [] + EndOf([p]).1 == EndOf([p]).1;
    } else {
      assert NotYet(init, |init| - 1) by {
        forall k | 1 <= k <= |init| - 1 ensures !IsComplete(SortParts(init[..k])) { assert init[..k] == seg[..k]; }
      }
      assert !IsComplete(SortParts(init)) by { assert seg[..|init|] == init; }
      SegmentOutcome(init);
      NextOfSegment(init, p);
      assert [] + EndOf(seg).1 == EndOf(seg).1;
    }
  }

  lemma FirstOfSegment(p: Part)
    requires Starts(p)
    ensures Receiving(Up(None), p).0 == EndOf([p]).0 && Receiving(Up(None), p).1 == EndOf([p]).1
  {
    assert [p][..0] == [];
    assert SortParts([p]) == Insert([], p);
    var m := Stream(Capacity(p), [], LogicalOpId(p));
    ContinuingSettles(m, p);
    assert [] + Continuing(m, p).1 == Continuing(m, p).1;
  }

  lemma {:induction false} NextOfSegment(init: seq<Part>, p: Part)
    requires init != [] && |init| <= Capacity(init[0]) && !IsComplete(SortParts(init)) && p.number != 0
    ensures EndOf(init).0.Up? && EndOf(init).1 == []
    ensures Receiving(EndOf(init).0, p).0 == EndOf(init + [p]).0 && Receiving(EndOf(init).0, p).1 == EndOf(init + [p]).1
  {
    ContinuingSettles(StreamOf(init), p);
    StreamOfAppend(init, p);
  }

  /** A part 0 that declares no parts at all waits, and any part after it cancels its operation. */
  lemma DeclaresNone(p: Part, q: Part)
    requires Starts(p) && p.total == 0 && q.number != 0
    ensures ReceivingAll(Up(None), [p]).0 == Up(Some(Stream(1, [p], LogicalOpId(p)))) && ReceivingAll(Up(None), [p]).1 == []
    ensures ReceivingAll(Up(None), [p, q]).0 == Up(None) && ReceivingAll(Up(None), [p, q]).1 == [Cancelled(LogicalOpId(p))]
  {
    assert [p, q][..1] == [p] && [p][..0] == [];
    assert SortParts([p]) == [p];
    assert !IsComplete([p]);
    SegmentOutcome([p]);
    SegmentOutcome([p, q]);
  }

  /** The daemon goes down at the end of a segment if and only if that completes and one of its parts declares
      more bytes than a part has. */
  lemma GoesDownIff(seg: seq<Part>)
    requires Segment(seg) && NotYet(seg, |seg| - 1) && |seg| - 1 <= Capacity(seg[0])
    ensures ReceivingAll(Up(None), seg).0.Down?
       <==> |seg| <= Capacity(seg[0]) && IsComplete(SortParts(seg)) && !Sized(seg)
  {
    SegmentOutcome(seg);
    SortPartsSized(seg);
  }

  //
  // One stream, whose parts all declare the same total
  //

  ghost predicate Declare(parts: seq<Part>, total: nat)
  {
    forall i :: 0 <= i < |parts| ==> parts[i].total == total
  }

  lemma CompleteOnCount(arrivals: seq<Part>, total: u16)
    requires Declare(arrivals, total) && 1 <= |arrivals| <= total
    ensures IsComplete(SortParts(arrivals)) <==> |arrivals| == total
  {
    var sorted := SortParts(arrivals);
    SortPartsSorts(arrivals);
    SameElements(sorted, arrivals, |sorted| - 1);
  }

  lemma NotYetBefore(arrivals: seq<Part>, total: u16, n: nat)
    requires Declare(arrivals, total) && n <= |arrivals| && n < total
    ensures NotYet(arrivals, n)
  {
    forall k | 1 <= k <= n ensures !IsComplete(SortParts(arrivals[..k])) {
      CompleteOnCount(arrivals[..k], total);
    }
  }

  /** The stream waits until as many parts have arrived as there should be, in any order and repeated or
      not, and then ends with them sorted. */
  lemma StreamCompletesOnCount(arrivals: seq<Part>, total: u16)
    requires Segment(arrivals) && Declare(arrivals, total) && |arrivals| <= total
    ensures
      var m := Stream(total, SortParts(arrivals), LogicalOpId(arrivals[0]));
      var r := ReceivingAll(Up(None), arrivals);
      if |arrivals| < total then r.0 == Up(Some(m)) && r.1 == []
      else if Sized(arrivals) then r.0 == Up(None) && r.1 == [Completed(m.opId, Gather(m.parts))]
      else r.0 == Down && r.1 == [Panicked(m.opId)]
  {
    NotYetBefore(arrivals, total, |arrivals| - 1);
    SegmentOutcome(arrivals);
    CompleteOnCount(arrivals, total);
    SortPartsSized(arrivals);
  }

  //
  // Exactly when that is right
  //

  /** All the parts of a response, in order. */
  ghost predicate InOrder(parts: seq<Part>)
  {
    forall i :: 0 <= i < |parts| ==> parts[i].number == i
  }

  lemma DropLast(a: seq<Part>)
    requires a != []
    ensures multiset(a[..|a| - 1]) == multiset(a) - multiset{a[|a| - 1]}
  {
    assert a == a[..|a| - 1] + [a[|a| - 1]];
  }

  lemma {:induction false} SortedUnique(a: seq<Part>, b: seq<Part>)
    requires Sorted(a) && InOrder(b) && multiset(a) == multiset(b)
    ensures a == b
    decreases |b|
  {
    assert |a| == |multiset(a)| == |multiset(b)| == |b|;
    if b != [] {
      SameElements(a, b, |a| - 1);
      SameElements(b, a, |b| - 1);
      assert a[|a| - 1] == b[|b| - 1];
      DropLast(a);
      DropLast(b);
      SortedUnique(a[..|a| - 1], b[..|b| - 1]);
    }
  }

  /** No part number has arrived twice. */
  ghost predicate NoRepeats(arrivals: seq<Part>)
  {
    forall i, j :: 0 <= i < j < |arrivals| ==> arrivals[i].number != arrivals[j].number
  }

  lemma {:induction false} DistinctMultiset(arrivals: seq<Part>, p: Part)
    requires NoRepeats(arrivals)
    ensures multiset(arrivals)[p] <= 1
    decreases |arrivals|
  {
    if arrivals != [] {
      var (init, last) := (arrivals[..|arrivals| - 1], arrivals[|arrivals| - 1]);
      assert arrivals == init + [last];
      DistinctMultiset(init, p);
      if p == last {
        forall i | 0 <= i < |init| ensures init[i] != p { assert arrivals[i].number != arrivals[|init|].number; }
        assert p !in init;
      }
    }
  }

  /** As many distinct parts of a response as it has are all of them. */
  lemma DistinctPartsAreAll(arrivals: seq<Part>, parts: seq<Part>)
    requires InOrder(parts) && |arrivals| == |parts| && NoRepeats(arrivals)
    requires forall i :: 0 <= i < |arrivals| ==> arrivals[i] in parts
    ensures multiset(arrivals) == multiset(parts)
  {
    var (a, b) := (multiset(arrivals), multiset(parts));
    forall p ensures a[p] <= b[p] {
      DistinctMultiset(arrivals, p);
      if p in a { assert p in arrivals; }
    }
    assert a <= b;
    assert |b - a| == |b| - |a| == 0;
    assert b == a + (b - a);
  }

  lemma RepeatCounts(arrivals: seq<Part>, i: nat, j: nat)
    requires i < j < |arrivals| && arrivals[i] == arrivals[j]
    ensures multiset(arrivals)[arrivals[i]] >= 2
  {
    assert arrivals == arrivals[..j] + arrivals[j..];
    assert arrivals[..j][i] == arrivals[i] && arrivals[j..][0] == arrivals[j];
    assert arrivals[i] in multiset(arrivals[..j]) && arrivals[i] in multiset(arrivals[j..]);
  }

  lemma PermutationNoRepeats(arrivals: seq<Part>, parts: seq<Part>)
    requires InOrder(parts) && multiset(arrivals) == multiset(parts)
    ensures NoRepeats(arrivals)
  {
    forall i, j | 0 <= i < j < |arrivals| ensures arrivals[i].number != arrivals[j].number {
      SameElements(arrivals, parts, i);
      SameElements(arrivals, parts, j);
      if arrivals[i].number == arrivals[j].number {
        RepeatCounts(arrivals, i, j);
        DistinctMultiset(parts, arrivals[i]);
      }
    }
  }

  /** Whatever has arrived, sorting it gives the parts of a response if and only if there are as many, each is
      one of them, and none has arrived twice. */
  lemma SortsToIff(arrivals: seq<Part>, parts: seq<Part>)
    requires InOrder(parts)
    ensures SortParts(arrivals) == parts
       <==> |arrivals| == |parts| && NoRepeats(arrivals) && forall i :: 0 <= i < |arrivals| ==> arrivals[i] in parts
  {
    SortPartsSorts(arrivals);
    if SortParts(arrivals) == parts {
      PermutationNoRepeats(arrivals, parts);
      forall i | 0 <= i < |arrivals| ensures arrivals[i] in parts { SameElements(arrivals, parts, i); }
    }
    if |arrivals| == |parts| && NoRepeats(arrivals) && forall i :: 0 <= i < |arrivals| ==> arrivals[i] in parts {
      DistinctPartsAreAll(arrivals, parts);
      SortedUnique(SortParts(arrivals), parts);
    }
  }

  /** Let as many parts have arrived as a response has, that declare as many, of that response or of any other.
      Then the stream ends; and it ends with the response's own parts if and only if each is one of them and
      none has arrived twice. */
  lemma CompletesRightlyIff(arrivals: seq<Part>, parts: seq<Part>)
    requires InOrder(parts) && |arrivals| == |parts| < 0x1_0000 && Segment(arrivals) && Declare(arrivals, |parts|)
    ensures
      var m := Stream(|parts|, SortParts(arrivals), LogicalOpId(arrivals[0]));
      && ReceivingAll(Up(None), arrivals).0 == Completing(m).0 && ReceivingAll(Up(None), arrivals).1 == Completing(m).1
      && (m.parts == parts <==> NoRepeats(arrivals) && forall i :: 0 <= i < |arrivals| ==> arrivals[i] in parts)
  {
    StreamCompletesOnCount(arrivals, |parts|);
    SortPartsSized(arrivals);
    SortsToIff(arrivals, parts);
  }

  /** From daemon to daemon: whatever the slot held, and in whatever order the parts after the first
      arrive, a response that can be serialized completes its own operation, with the response. */
  lemma ResponseCompletes(slot: Option<Stream>, r: ReadlinkResponse, parts: seq<Part>, arrivals: seq<Part>)
    requires |r.target| <= MAX_PATH_LEN && ChunkLongResponse(SerializeResponse(r).value) == Some(parts)
    requires multiset(arrivals) == multiset(parts) && arrivals != [] && arrivals[0].number == 0
    ensures
      var body := SerializeResponse(r).value;
      && ReceivingAll(Up(slot), arrivals).0 == Up(None)
      && ReceivingAll(Up(slot), arrivals).1
         == (match slot case Some(m) => [Cancelled(m.opId), Completed(r.opId, body)] case None => [Completed(r.opId, body)])
      && DeserializeResponse(body) == Some(r)
  {
    var body := SerializeResponse(r).value;
    assert 4 <= |body|;
    CutFromNumbered(body, CeilDiv(|body|), 0);
    PermutedCutCompletes(body, arrivals);
    ResponseId(r);
    DeserializeInverts(r);
    OverAnyStream(slot, arrivals);
    StaleThen(slot, Completed(r.opId, body));
  }

  lemma StaleThen(slot: Option<Stream>, last: Outcome)
    ensures Stale(slot) + [last] == match slot case Some(m) => [Cancelled(m.opId), last] case None => [last]
  {
  }

  /** A stream that starts with a part 0 gives up what was in the slot and goes on as from an empty one. */
  lemma OverAnyStream(slot: Option<Stream>, arrivals: seq<Part>)
    requires arrivals != [] && Starts(arrivals[0])
    ensures ReceivingAll(Up(slot), arrivals).0 == ReceivingAll(Up(None), arrivals).0
    ensures ReceivingAll(Up(slot), arrivals).1 == Stale(slot) + ReceivingAll(Up(None), arrivals).1
  {
    assert [arrivals[0]] + arrivals[1..] == arrivals && [] + arrivals == arrivals;
    RestartForgets(Up(slot), [], arrivals[0], arrivals[1..]);
    assert ReceivingAll(Up(slot), []) == (Up(slot), []);
    assert [] + (Stale(slot) + ReceivingAll(Up(None), arrivals).1) == Stale(slot) + ReceivingAll(Up(None), arrivals).1;
  }

  lemma PermutedCutCompletes(body: Bytes, arrivals: seq<Part>)
    requires 4 <= |body| && CeilDiv(|body|) < 0x1_0000 && multiset(arrivals) == multiset(Cut(body))
    requires arrivals != [] && arrivals[0].number == 0
    ensures Starts(arrivals[0]) && ReceivingAll(Up(None), arrivals).0 == Up(None)
    ensures ReceivingAll(Up(None), arrivals).1 == [Completed(U32FromLe(body[..4]), body)]
  {
    var parts := Cut(body);
    CutFromNumbered(body, CeilDiv(|body|), 0);
    FirstCarriesId(body);
    PermutationIsStream(arrivals, parts);
    CompletesRightlyIff(arrivals, parts);
    GatherCutFrom(body, CeilDiv(|body|), 0);
  }

  lemma PermutationIsStream(arrivals: seq<Part>, parts: seq<Part>)
    requires InOrder(parts) && Declare(parts, |parts|) && Sized(parts) && multiset(arrivals) == multiset(parts)
    requires arrivals != [] && arrivals[0].number == 0 && parts != [] && parts[0].size >= 4
    ensures |arrivals| == |parts| && Segment(arrivals) && Declare(arrivals, |parts|) && Sized(arrivals)
    ensures arrivals[0] == parts[0] && NoRepeats(arrivals) && forall i :: 0 <= i < |arrivals| ==> arrivals[i] in parts
  {
    assert |arrivals| == |multiset(arrivals)| == |multiset(parts)| == |parts|;
    forall i | 0 <= i < |arrivals| ensures arrivals[i] in parts { SameElements(arrivals, parts, i); }
    PermutationNoRepeats(arrivals, parts);
  }

  lemma ResponseId(r: ReadlinkResponse)
    requires |r.target| <= MAX_PATH_LEN
    ensures U32FromLe(SerializeResponse(r).value[..4]) == r.opId
  {
    U32FromLeInvertsToLe(r.opId);
    assert SerializeResponse(r).value[..4] == U32ToLe(r.opId);
  }

  lemma SortRepeat(p0: Part, p1: Part)
    requires p0.number == 0 && p1.number == 1
    ensures SortParts([p0, p1, p1]) == [p0, p1, p1]
  {
    assert [p0, p1][..1] == [p0] && [p0, p1, p1][..2] == [p0, p1];
    assert SortParts([p0]) == [p0];
    assert SortParts([p0, p1]) == [p0, p1];
  }

  /** Parts 0, 1 and 1 of three complete a response whose part 2 has not arrived. */
  lemma RepeatCounterexample()
    ensures
      var body := seq(100, _ => 7);
      var parts := Cut(body);
      && |parts| == 3
      && ReceivingAll(Up(None), [parts[0], parts[1], parts[1]]).1
         == [Completed(LogicalOpId(parts[0]), Gather([parts[0], parts[1], parts[1]]))]
      && |Gather([parts[0], parts[1], parts[1]])| == 132
  {
    var body: Bytes := seq(100, _ => 7);
    CutFromNumbered(body, 3, 0);
    CutFromFirst(body, 3, 0);
    CutFromFirst(body[44..], 3, 1);
    var parts := Cut(body);
    var (p0, p1) := (parts[0], parts[1]);
    FirstCarriesId(body);
    SortRepeat(p0, p1);
    assert Segment([p0, p1, p1]) && Declare([p0, p1, p1], 3);
    StreamCompletesOnCount([p0, p1, p1], 3);
    GatherRepeat(p0, p1);
  }

  lemma GatherRepeat(p0: Part, p1: Part)
    ensures Gather([p0, p1, p1]) == Chunk(p0) + Chunk(p1) + Chunk(p1)
  {
    assert [p0, p1, p1][1..] == [p1, p1] && [p1, p1][1..] == [p1] && [p1][1..] == [];
    assert Gather([p1]) == Chunk(p1);
    assert Gather([p1, p1]) == Chunk(p1) + Chunk(p1);
    ConcatAssoc(Chunk(p0), Chunk(p1), Chunk(p1));
  }

  //
  // The daemon, as it updates its slot
  //

  /** `before` with `p` at place `k`. */
  ghost function Moved(before: seq<Part>, p: Part, k: nat): (r: seq<Part>)
    requires k <= |before|
    ensures |r| == |before| + 1
  {
    before[..k] + [p] + before[k..]
  }

  lemma InsertFrom(before: seq<Part>, p: Part)
    ensures Moved(before, p, |before|) == before + [p]
    ensures Insert(before, p) == Insert(before[..|before|], p) + before[|before|..]
  {
    assert before[..|before|] == before && before[|before|..] == [];
    assert Insert(before, p) + [] == Insert(before, p);
    assert before + [p] + [] == before + [p];
  }

  lemma InsertStep(before: seq<Part>, p: Part, k: nat)
    requires 0 < k <= |before| && before[k - 1].number > p.number
    requires Insert(before, p) == Insert(before[..k], p) + before[k..]
    ensures Moved(before, p, k)[k - 1 := p][k := before[k - 1]] == Moved(before, p, k - 1)
    ensures Insert(before, p) == Insert(before[..k - 1], p) + before[k - 1..]
  {
    var q := before[k - 1];
    assert before[..k][..k - 1] == before[..k - 1];
    assert [q] + before[k..] == before[k - 1..];
    ConcatAssoc(Insert(before[..k - 1], p), [q], before[k..]);
  }

  lemma InsertHere(before: seq<Part>, p: Part, k: nat)
    requires k <= |before| && (k > 0 ==> before[k - 1].number <= p.number)
    requires Insert(before, p) == Insert(before[..k], p) + before[k..]
    ensures Insert(before, p) == Moved(before, p, k)
  {
    if k > 0 { assert before[..k][k - 1] == before[k - 1]; }
  }

  class LongMessage {
    const capacity: nat
    var parts: seq<Part>

    constructor (capacity: nat)
      requires capacity > 0
      ensures this.capacity == capacity && parts == []
    {
      this.capacity := capacity;
      parts := [];
    }

    /** The part is pushed and then moves to its place. */
    method AddPart(p: Part) returns (ok: bool)
      modifies this
      ensures ok <==> Add(Stream(capacity, old(parts), 0), p).Some?
      ensures parts == if ok then Insert(old(parts), p) else old(parts)
    {
      if |parts| == capacity {
        return false;
      }
      if IsComplete(parts) {
        return false;
      }
      parts := Pushed(parts, p);
      return true;
    }

    static method Pushed(before: seq<Part>, p: Part) returns (parts: seq<Part>)
      ensures parts == Insert(before, p)
    {
      var k := |before|;
      parts := before + [p];
      InsertFrom(before, p);
      while k > 0 && before[k - 1].number > p.number
        invariant 0 <= k <= |before| && parts == Moved(before, p, k)
        invariant Insert(before, p) == Insert(before[..k], p) + before[k..]
      {
        InsertStep(before, p, k);
        parts := parts[k - 1 := p][k := before[k - 1]];
        k := k - 1;
      }
      InsertHere(before, p, k);
    }
  }

  class ReadlinkReceiver {
    var asm: LongMessage?
    var opId: u32
    var down: bool
    var outcomes: seq<Outcome>

    ghost function State(): Daemon
      reads this, asm
    {
      if down then Down
      else if asm == null then Up(None)
      else Up(Some(Stream(asm.capacity, asm.parts, opId)))
    }

    constructor ()
      ensures State() == Up(None) && outcomes == []
    {
      asm, opId, down, outcomes := null, 0, false, [];
    }

    method OnPart(p: Part)
      modifies this, asm
      ensures State() == Receiving(old(State()), p).0
      ensures outcomes == old(outcomes) + Receiving(old(State()), p).1
      ensures asm == null || asm == old(asm) || fresh(asm)
    {
      if down {
        return;
      }
      if p.number == 0 {
        if p.size < 4 {
          return;
        }
        Start(p);
      }
      if asm != null {
        Continue(p);
      }
    }

    /** Part 0 gives up the stream in the slot and starts its own. */
    method Start(p: Part)
      requires Starts(p) && !down
      modifies this
      ensures State() == Up(Some(Stream(Capacity(p), [], LogicalOpId(p))))
      ensures outcomes == old(outcomes) + Stale(old(State()).slot)
      ensures fresh(asm) && asm != null && !down
    {
      if asm != null {
        outcomes := outcomes + [Cancelled(opId)];
      }
      asm := new LongMessage(if p.total == 0 then 1 else p.total);
      opId := U32FromLe(p.payload[..4]);
    }

    method Continue(p: Part)
      requires asm != null && !down
      modifies this, asm
      ensures State() == Continuing(old(State()).slot.value, p).0
      ensures outcomes == old(outcomes) + Continuing(old(State()).slot.value, p).1
      ensures asm == null || asm == old(asm)
    {
      var ok := asm.AddPart(p);
      if !ok {
        asm, outcomes := null, outcomes + [Cancelled(opId)];
      } else if IsComplete(asm.parts) {
        var body := Body(asm.parts);
        asm := null;
        if body.None? {
          down, outcomes := true, outcomes + [Panicked(opId)];
        } else {
          outcomes := outcomes + [Completed(opId, body.value)];
        }
      } else {
        assert outcomes + [] == outcomes;
      }
    }

    /** The payloads put together; indexing one past its end is a panic. */
    static method Body(parts: seq<Part>) returns (body: Option<Bytes>)
      ensures body == if Sized(parts) then Some(Gather(parts)) else None
    {
      var taken := [];
      assert parts[0..] == parts && taken + Gather(parts) == Gather(parts);
      for i := 0 to |parts|
        invariant taken + Gather(parts[i..]) == Gather(parts)
        invariant forall j :: 0 <= j < i ==> parts[j].size <= PAYLOAD_SIZE
      {
        var n := parts[i].size;
        if n > PAYLOAD_SIZE {
          return None;
        }
        ghost var rest := parts[i..];
        assert rest[1..] == parts[i + 1..];
        ConcatAssoc(taken, Chunk(parts[i]), Gather(rest[1..]));
        taken := taken + parts[i].payload[..n];
      }
      assert parts[|parts|..] == [] && taken + [] == taken;
      return Some(taken);
    }
  }
}

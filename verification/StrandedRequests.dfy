/** The standalone I/O handler and the worker's assembler together: what becomes of the next long request
    when the worker's queue has refused parts of one. */
module StrandedRequests {
  import opened Bytes
  import opened LongRequests
  import opened HostFsForwarding
  import opened Wrappers

  /** The worker only gets the parts that its queue accepted. */
  function FeedAccepted(a: Assembler, op: LongOp, parts: seq<Part>, accepted: seq<bool>): (a': Assembler)
    requires Settled(a) && |accepted| == |parts|
    ensures Settled(a')
    decreases |parts|
  {
    if parts == [] then a
    else FeedAccepted(if accepted[0] then Handling(a, op, parts[0]).0 else a, op, parts[1..], accepted[1..])
  }

  /** A beginning of the request was accepted, not all of it, and nothing after the first refusal. */
  predicate Stranded(accepted: seq<bool>)
  {
    accepted != [] && accepted[0] && Cuts(accepted[1..])
  }

  /** Accepted up to somewhere before the end, and refused from there on. */
  predicate Cuts(accepted: seq<bool>)
  {
    accepted != [] && if accepted[0] then Cuts(accepted[1..]) else true !in accepted
  }

  /** Parts that are numbered, from `i` on. */
  ghost predicate From(parts: seq<Part>, i: nat)
  {
    forall k :: 0 <= k < |parts| ==> parts[k].number == i + k
  }

  //
  // What the worker is left with
  //

  lemma LaterPartIsRefused(op: LongOp, p: Part)
    requires p.number > 0
    ensures Handling(EMPTY, op, p).0 == EMPTY && Handling(EMPTY, op, p).1.ErrorReply?
    ensures Handling(EMPTY, op, p).1.opId == INVALID
  {
  }

  lemma {:induction false} NothingStarts(op: LongOp, parts: seq<Part>, accepted: seq<bool>, i: nat)
    requires |accepted| == |parts| && From(parts, i) && i > 0
    ensures FeedAccepted(EMPTY, op, parts, accepted) == EMPTY
    decreases |parts|
  {
    if parts != [] {
      LaterPartIsRefused(op, parts[0]);
      NothingStarts(op, parts[1..], accepted[1..], i + 1);
    }
  }

  /** After a gap, the first part that arrives is an error that ends the request in flight. */
  lemma {:induction false} GapEndsIt(a: Assembler, op: LongOp, parts: seq<Part>, accepted: seq<bool>, i: nat)
    requires Settled(a) && a != EMPTY && a.next < i && |accepted| == |parts| && From(parts, i)
    ensures FeedAccepted(a, op, parts, accepted) == if true in accepted then EMPTY else a
    decreases |parts|
  {
    if parts != [] {
      assert accepted == [accepted[0]] + accepted[1..];
      if accepted[0] {
        assert Handling(a, op, parts[0]).0 == EMPTY;
        NothingStarts(op, parts[1..], accepted[1..], i + 1);
      } else {
        GapEndsIt(a, op, parts[1..], accepted[1..], i + 1);
      }
    }
  }

  /** The parts of `rest` are on their way behind what the worker holds. */
  ghost predicate UnderWay(total: u16, i: u16, done: Bytes, rest: Bytes)
  {
    && rest != [] && i + CeilDiv(|rest|) == total <= MAX_TOTAL_PARTS && 0 < i
    && |done| + |rest| <= MAX_LONG_BUFFER_SIZE
  }

  lemma {:induction false} InFlightIffCut(op: LongOp, total: u16, i: u16, done: Bytes, rest: Bytes, accepted: seq<bool>)
    requires UnderWay(total, i, done, rest) && |accepted| == total - i
    ensures
      var parts := CutFrom(rest, total, i);
      && |parts| == |accepted| && Settled(Holding(op, total, i, done))
      && var a := FeedAccepted(Holding(op, total, i, done), op, parts, accepted);
         && (a != EMPTY <==> Cuts(accepted))
         && (a != EMPTY ==> a.header == Some(op) && done <= a.buffer)
    decreases |rest|
  {
    var parts := CutFrom(rest, total, i);
    CutFromNumbered(rest, total, i);
    CutFromFirst(rest, total, i);
    AcceptedPart(op, total, i, done, parts[0]);
    assert accepted == [accepted[0]] + accepted[1..];
    var a := Holding(op, total, i, done);
    if !accepted[0] {
      GapEndsIt(a, op, parts[1..], accepted[1..], i + 1);
    } else if i + 1 == total {
      assert parts[1..] == [];
    } else {
      var (head, tail) := (rest[..PAYLOAD_SIZE], rest[PAYLOAD_SIZE..]);
      assert Chunk(parts[0]) == head && parts[1..] == CutFrom(tail, total, i + 1);
      InFlightIffCut(op, total, i + 1, done + head, tail, accepted[1..]);
      assert FeedAccepted(a, op, parts, accepted)
          == FeedAccepted(Holding(op, total, i + 1, done + head), op, parts[1..], accepted[1..]);
      assert done <= done + head;
    }
  }

  /** The worker is left with a request in flight if and only if the queue accepted a beginning of it and
      nothing after; what is in flight carries that request's identifier. */
  lemma InFlightIffStranded(op: LongOp, body: Bytes, accepted: seq<bool>)
    requires 4 <= |body| <= MAX_LONG_BUFFER_SIZE && CeilDiv(|body|) <= MAX_TOTAL_PARTS && |accepted| == CeilDiv(|body|)
    ensures
      && |Cut(body)| == |accepted|
      && var a := FeedAccepted(EMPTY, op, Cut(body), accepted);
         && (a != EMPTY <==> Stranded(accepted))
         && (a != EMPTY ==> a.header == Some(op) && OpIdOf(a.buffer) == OpIdOf(body))
  {
    var (parts, total) := (Cut(body), CeilDiv(|body|));
    CutFromNumbered(body, total, 0);
    CutFromFirst(body, total, 0);
    var n := if |body| <= PAYLOAD_SIZE then |body| else PAYLOAD_SIZE;
    assert [] + Chunk(parts[0]) == body[..n];
    AcceptedPart(op, total, 0, [], parts[0]);
    if !accepted[0] {
      NothingStarts(op, parts[1..], accepted[1..], 1);
    } else if total == 1 {
      assert parts[1..] == [] && accepted[1..] == [];
    } else {
      InFlightIffCut(op, total, 1, body[..n], body[n..], accepted[1..]);
      var a := FeedAccepted(EMPTY, op, parts, accepted);
      if a != EMPTY { assert a.buffer[..4] == body[..n][..4] == body[..4]; }
    }
  }

  //
  // What the next request meets
  //

  /** What an error under the next request's parts looks like after the first. */
  function Misses(n: nat, op: LongOp): (r: seq<Reply>)
    ensures |r| == n && forall k :: 0 <= k < n ==> r[k] == ErrorReply(INVALID, op)
  {
    if n == 0 then [] else [ErrorReply(INVALID, op)] + Misses(n - 1, op)
  }

  lemma {:induction false} LaterPartsMiss(op: LongOp, parts: seq<Part>, i: nat)
    requires From(parts, i) && i > 0 && forall k :: 0 <= k < |parts| ==> 1 <= parts[k].total <= MAX_TOTAL_PARTS
    ensures Feed(EMPTY, op, parts).0 == EMPTY && Feed(EMPTY, op, parts).1 == Misses(|parts|, op)
    decreases |parts|
  {
    if parts != [] {
      LaterPartIsRefused(op, parts[0]);
      LaterPartsMiss(op, parts[1..], i + 1);
    }
  }

  /** With a request in flight, the parts of the next are all lost: the first is answered as the one in flight,
      the others under no identifier. */
  lemma NextIsLost(a: Assembler, op: LongOp, body: Bytes)
    requires Settled(a) && a != EMPTY && 1 <= |body| <= MAX_LONG_BUFFER_SIZE && CeilDiv(|body|) <= MAX_TOTAL_PARTS
    ensures Cut(body) != [] && Feed(a, op, Cut(body)).0 == EMPTY
    ensures Feed(a, op, Cut(body)).1 == [ErrorReply(OpIdOf(a.buffer), a.header.value)] + Misses(|Cut(body)| - 1, op)
  {
    var parts := Cut(body);
    CutFromNumbered(body, CeilDiv(|body|), 0);
    assert Handling(a, op, parts[0]) == (EMPTY, ErrorReply(OpIdOf(a.buffer), a.header.value));
    LaterPartsMiss(op, parts[1..], 1);
  }

  /** A long request, of which the queue accepts some parts, and then another, of which it accepts all. */
  ghost predicate TwoRequests(op1: LongOp, r1: Request, accepted: seq<bool>, op2: LongOp, r2: Request)
  {
    && HasShape(op1, r1.args) && Serialize(r1).Some? && HasShape(op2, r2.args) && Serialize(r2).Some?
    && |accepted| == CeilDiv(|Serialize(r1).value|)
  }

  /** The replies that the worker gives to the second request's parts. */
  function SecondReplies(op1: LongOp, body1: Bytes, accepted: seq<bool>, op2: LongOp, body2: Bytes): seq<Reply>
    requires CeilDiv(|body1|) < 0x1_0000 && CeilDiv(|body2|) < 0x1_0000 && |accepted| == |Cut(body1)|
  {
    Feed(FeedAccepted(EMPTY, op1, Cut(body1), accepted), op2, Cut(body2)).1
  }

  lemma Fits(op: LongOp, r: Request)
    requires HasShape(op, r.args) && Serialize(r).Some?
    ensures 4 <= |Serialize(r).value| <= MAX_LONG_BUFFER_SIZE && CeilDiv(|Serialize(r).value|) <= MAX_TOTAL_PARTS < 0x1_0000
    ensures OpIdOf(Serialize(r).value) == r.opId
    ensures |Cut(Serialize(r).value)| == CeilDiv(|Serialize(r).value|) >= 1
  {
    RequestArrives(op, r);
    CutFromNumbered(Serialize(r).value, CeilDiv(|Serialize(r).value|), 0);
  }

  /** The second request is dispatched if and only if the first was not stranded: the queue did not accept a
      beginning of it and refuse all the rest. */
  lemma NextIsDispatchedIff(op1: LongOp, r1: Request, accepted: seq<bool>, op2: LongOp, r2: Request)
    requires TwoRequests(op1, r1, accepted, op2, r2)
    ensures
      var (body1, body2) := (Serialize(r1).value, Serialize(r2).value);
      && CeilDiv(|body1|) < 0x1_0000 && CeilDiv(|body2|) < 0x1_0000 && |Cut(body1)| == |accepted| && |Cut(body2)| >= 1
      && (SecondReplies(op1, body1, accepted, op2, body2) == Silence(|Cut(body2)| - 1) + [Dispatch(op2, body2)]
          <==> !Stranded(accepted))
      && (Stranded(accepted) ==>
            SecondReplies(op1, body1, accepted, op2, body2)
            == [ErrorReply(r1.opId, op1)] + Misses(|Cut(body2)| - 1, op2))
  {
    var (body1, body2) := (Serialize(r1).value, Serialize(r2).value);
    Fits(op1, r1);
    Fits(op2, r2);
    NextByBody(op1, body1, accepted, op2, body2);
  }

  ghost predicate Bounded(body: Bytes)
  {
    4 <= |body| <= MAX_LONG_BUFFER_SIZE && CeilDiv(|body|) <= MAX_TOTAL_PARTS < 0x1_0000
  }

  lemma NextByBody(op1: LongOp, body1: Bytes, accepted: seq<bool>, op2: LongOp, body2: Bytes)
    requires Bounded(body1) && Bounded(body2) && |accepted| == CeilDiv(|body1|) == |Cut(body1)| && |Cut(body2)| >= 1
    ensures
      var (replies, n) := (SecondReplies(op1, body1, accepted, op2, body2), |Cut(body2)| - 1);
      if Stranded(accepted) then
        replies == [ErrorReply(OpIdOf(body1), op1)] + Misses(n, op2) != Silence(n) + [Dispatch(op2, body2)]
      else replies == Silence(n) + [Dispatch(op2, body2)]
  {
    InFlightIffStranded(op1, body1, accepted);
    var (a, n) := (FeedAccepted(EMPTY, op1, Cut(body1), accepted), |Cut(body2)| - 1);
    if Stranded(accepted) {
      NextIsLost(a, op2, body2);
      var (lost, found) := ([ErrorReply(OpIdOf(body1), op1)] + Misses(n, op2), Silence(n) + [Dispatch(op2, body2)]);
      assert lost[n].ErrorReply? && found[n].Dispatch?;
    } else {
      CutRoundTrip(op2, body2);
    }
  }

  /** All that a stranded request and the next are answered with, by the handler and by the worker: the first
      request twice, the second not at all under its own identifier. */
  lemma StrandedAnswers(slot: Option<u32>, op1: LongOp, r1: Request, accepted: seq<bool>, op2: LongOp, r2: Request)
    requires TwoRequests(op1, r1, accepted, op2, r2) && !op1.PathStat? && Stranded(accepted)
    ensures
      var (body1, body2) := (Serialize(r1).value, Serialize(r2).value);
      && CeilDiv(|body1|) < 0x1_0000 && CeilDiv(|body2|) < 0x1_0000 && |Cut(body1)| == |accepted|
      && ForwardParts(slot, op1, Cut(body1), true, accepted).1 == [ErrorAnswer(r1.opId, Long(op1))]
      && var replies := SecondReplies(op1, body1, accepted, op2, body2);
         && replies != [] && replies[0] == ErrorReply(r1.opId, op1)
         && forall k :: 0 < k < |replies| ==> replies[k] == ErrorReply(INVALID, op2)
  {
    NextIsDispatchedIff(op1, r1, accepted, op2, r2);
    SentRequestIsAnsweredOnce(slot, op1, r1, true, accepted);
    CutsRefuses(accepted[1..]);
    assert accepted == [accepted[0]] + accepted[1..];
  }

  lemma {:induction false} CutsRefuses(accepted: seq<bool>)
    requires Cuts(accepted)
    ensures false in accepted
  {
    assert accepted == [accepted[0]] + accepted[1..];
    if accepted[0] { CutsRefuses(accepted[1..]); }
  }
}

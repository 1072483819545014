/** The standalone I/O handler's forwarding of host filesystem requests to the worker's bounded queue,
    and the error responses that it makes up itself when the worker cannot take a request. */
module HostFsForwarding {
  import opened Bytes
  import opened LongRequests
  import opened Wrappers

  /** What a response header says that it answers; requests in parts have the response of their kind. */
  datatype ResponseKind =
    | Long(op: LongOp)
    | Close | Read | Write | Truncate | Flush
    | Lseek | Stat | ReadDir

  /** A host filesystem frame from the guest: one part of a long request, or a whole request whose
      identifier is in its payload and whose header may have a response header. */
  datatype Frame =
    | PartFrame(op: LongOp, part: Part)
    | SingleFrame(opId: u32, response: Option<ResponseKind>)

  /** An error response: header, identifier, and the payload behind them. */
  datatype Answer = Answer(opId: u32, kind: ResponseKind, data: Bytes)

  /** The request kinds that the handler recognises as coming in parts. */
  predicate Listed(op: LongOp)
  {
    !op.PathStat?
  }

  /** Bytes 2 to 5 of the payload; in a part these are the part count and the part number. */
  function PayloadOpId(f: Frame): u32
  {
    match f
    case SingleFrame(opId, _) => opId
    case PartFrame(_, part) => part.total + 0x1_0000 * part.number
  }

  /** `hostfs_error_target`: the identifier to answer with, if this frame is to be answered at all. */
  function ErrorTarget(f: Frame): Option<u32>
  {
    if f.PartFrame? && Listed(f.op) then
      if f.part.number != 0 then None else Some(LogicalOpId(f.part))
    else Some(PayloadOpId(f))
  }

  /** `hostfs_part_info`: part number and part count. */
  function PartInfo(f: Frame): Option<(int, int)>
  {
    if f.PartFrame? && Listed(f.op) then Some((f.part.number, f.part.total)) else None
  }

  function ResponseOf(f: Frame): Option<ResponseKind>
  {
    match f
    case PartFrame(op, _) => Some(Long(op))
    case SingleFrame(_, response) => response
  }

  /** `HOSTFS_ERR_IO`, as the unsigned words of its two's complement. */
  const ERR_IO_LOW: u32 := 0xFFFF_FFFB
  const ERR_IO_HIGH: u32 := 0xFFFF_FFFF

  /** `Message::PAYLOAD_SIZE - HOSTFS_DATA_START`. */
  const DATA_SIZE := 45

  /** The error indicator for each kind of response. */
  function ErrorData(kind: ResponseKind): (data: Bytes)
    ensures |data| == DATA_SIZE
  {
    match kind
    case Lseek => U32ToLe(ERR_IO_LOW) + U32ToLe(ERR_IO_HIGH) + seq(DATA_SIZE - 8, _ => 0)
    case Stat => seq(DATA_SIZE, _ => 0)
    case ReadDir => seq(DATA_SIZE, _ => 0)
    case _ => U32ToLe(ERR_IO_LOW) + seq(DATA_SIZE - 4, _ => 0)
  }

  /** The indicator is -5, little-endian and as wide as the field that it stands in, or no indicator at all. */
  lemma ErrorBytes(kind: ResponseKind, i: nat)
    requires i < DATA_SIZE
    ensures
      var width := match kind case Lseek => 8 case Stat => 0 case ReadDir => 0 case _ => 4;
      ErrorData(kind)[i] == if i >= width then 0 else if i == 0 then 0xFB else 0xFF
  {
    assert U32ToLe(ERR_IO_LOW) == [0xFB, 0xFF, 0xFF, 0xFF] && U32ToLe(ERR_IO_HIGH) == [0xFF, 0xFF, 0xFF, 0xFF];
  }

  function ErrorAnswer(opId: u32, kind: ResponseKind): Answer
  {
    Answer(opId, kind, ErrorData(kind))
  }

  function SendError(f: Frame, target: Option<u32>): seq<Answer>
  {
    if target.Some? && ResponseOf(f).Some? then [ErrorAnswer(target.value, ResponseOf(f).value)] else []
  }

  /** What one frame does to the tracked identifier, and the errors sent. `accepted`
      is whether the worker's queue took the frame; without a mount there is no worker. */
  function Forward(slot: Option<u32>, f: Frame, mounted: bool, accepted: bool): (r: (Option<u32>, seq<Answer>))
  {
    var target := ErrorTarget(f);
    var info := PartInfo(f);
    var tracked := if info.Some? && info.value.0 == 0 then target else slot;
    if !mounted then (tracked, SendError(f, target))
    else if !accepted then (None, SendError(f, if target.Some? then target else tracked))
    else if info.Some? && info.value.0 + 1 == info.value.1 && info.value.0 + 1 < 0x1_0000 then (None, [])
    else (tracked, [])
  }

  function ForwardParts(slot: Option<u32>, op: LongOp, parts: seq<Part>, mounted: bool, accepted: seq<bool>)
    : (r: (Option<u32>, seq<Answer>))
    requires |accepted| == |parts|
    decreases |parts|
  {
    if parts == [] then (slot, []) else
    var (slot', errors) := Forward(slot, PartFrame(op, parts[0]), mounted, accepted[0]);
    var (final, more) := ForwardParts(slot', op, parts[1..], mounted, accepted[1..]);
    (final, errors + more)
  }

  //
  // One long request
  //

  /** All the parts of a long request, in order. */
  ghost predicate WholeRequest(parts: seq<Part>)
  {
    && 1 <= |parts| < 0x1_0000
    && forall i :: 0 <= i < |parts| ==> parts[i].number == i && parts[i].total == |parts|
  }

  /** Parts `i` and on of a long request. */
  ghost predicate RestOfRequest(parts: seq<Part>, i: nat)
  {
    && i + |parts| < 0x1_0000
    && forall j :: 0 <= j < |parts| ==> parts[j].number == i + j && parts[j].total == i + |parts|
  }

  /** What a request is answered with by the handler: an error, if the worker does not get all of it. */
  function ExpectedErrors(error: Answer, mounted: bool, accepted: seq<bool>): seq<Answer>
  {
    if !mounted || false in accepted then [error] else []
  }

  function LongError(op: LongOp, first: Part): Answer
  {
    ErrorAnswer(LogicalOpId(first), Long(op))
  }

  lemma {:induction false} RestIsSilent(op: LongOp, parts: seq<Part>, i: nat, mounted: bool, accepted: seq<bool>)
    requires Listed(op) && |accepted| == |parts| && i > 0 && RestOfRequest(parts, i)
    ensures mounted ==> ForwardParts(None, op, parts, mounted, accepted).0 == None
    ensures mounted ==> ForwardParts(None, op, parts, mounted, accepted).1 == []
    ensures !mounted ==> forall slot :: ForwardParts(slot, op, parts, mounted, accepted).1 == []
    decreases |parts|
  {
    if parts != [] {
      RestIsSilent(op, parts[1..], i + 1, mounted, accepted[1..]);
      assert [] + ForwardParts(None, op, parts[1..], mounted, accepted[1..]).1 == [];
    }
  }

  lemma {:induction false} RestIsAnsweredOnce(op: LongOp, parts: seq<Part>, i: nat, id: u32, accepted: seq<bool>)
    requires Listed(op) && |accepted| == |parts| && i > 0 && parts != [] && RestOfRequest(parts, i)
    ensures ForwardParts(Some(id), op, parts, true, accepted).0 == None
    ensures ForwardParts(Some(id), op, parts, true, accepted).1 == ExpectedErrors(ErrorAnswer(id, Long(op)), true, accepted)
    decreases |parts|
  {
    var error := ErrorAnswer(id, Long(op));
    assert accepted == [accepted[0]] + accepted[1..];
    if !accepted[0] {
      RestIsSilent(op, parts[1..], i + 1, true, accepted[1..]);
      assert [error] + [] == [error];
    } else if |parts| == 1 {
      assert accepted[1..] == [];
      assert ForwardParts(None, op, parts[1..], true, accepted[1..]) == (None, []);
    } else {
      RestIsAnsweredOnce(op, parts[1..], i + 1, id, accepted[1..]);
      assert [] + ExpectedErrors(error, true, accepted[1..]) == ExpectedErrors(error, true, accepted);
    }
  }

  lemma FirstPart(slot: Option<u32>, op: LongOp, p: Part, mounted: bool, accepted: bool)
    requires Listed(op) && p.number == 0
    ensures
      var id := LogicalOpId(p);
      Forward(slot, PartFrame(op, p), mounted, accepted)
      == if !mounted then (Some(id), [LongError(op, p)])
         else if !accepted then (None, [LongError(op, p)])
         else if p.total == 1 then (None, []) else (Some(id), [])
  {
  }

  /** Whichever parts of a long request the queue refuses, the guest gets exactly one error from the
      handler, with the request's own identifier, if any part is refused or there is no mount, and none
      otherwise; the handler has forgotten the request when its last part has passed. */
  lemma LongRequestIsAnsweredOnce(slot: Option<u32>, op: LongOp, parts: seq<Part>, mounted: bool, accepted: seq<bool>)
    requires !op.PathStat? && WholeRequest(parts) && |accepted| == |parts|
    ensures ForwardParts(slot, op, parts, mounted, accepted).1
         == ExpectedErrors(LongError(op, parts[0]), mounted, accepted)
    ensures mounted ==> ForwardParts(slot, op, parts, mounted, accepted).0 == None
  {
    var (id, error) := (LogicalOpId(parts[0]), LongError(op, parts[0]));
    var (rest, oks) := (parts[1..], accepted[1..]);
    assert accepted == [accepted[0]] + oks;
    assert RestOfRequest(rest, 1);
    FirstPart(slot, op, parts[0], mounted, accepted[0]);
    if !mounted || !accepted[0] {
      RestIsSilent(op, rest, 1, mounted, oks);
      assert [error] + [] == [error];
    } else if rest == [] {
      assert oks == [];
    } else {
      RestIsAnsweredOnce(op, rest, 1, id, oks);
      assert [] + ExpectedErrors(error, true, oks) == ExpectedErrors(error, true, accepted);
    }
  }

  /** In particular, a request that a sender has serialized and cut is answered with its identifier. */
  lemma SentRequestIsAnsweredOnce(slot: Option<u32>, op: LongOp, r: Request, mounted: bool, accepted: seq<bool>)
    requires !op.PathStat? && HasShape(op, r.args) && Serialize(r).Some?
    requires |accepted| == CeilDiv(|Serialize(r).value|)
    ensures CeilDiv(|Serialize(r).value|) < 0x1_0000 && |Cut(Serialize(r).value)| == |accepted|
    ensures ForwardParts(slot, op, Cut(Serialize(r).value), mounted, accepted).1
         == ExpectedErrors(ErrorAnswer(r.opId, Long(op)), mounted, accepted)
  {
    var body := Serialize(r).value;
    RequestArrives(op, r);
    CutFromNumbered(body, CeilDiv(|body|), 0);
    FirstCarriesId(body);
    var parts := Cut(body);
    LongRequestIsAnsweredOnce(slot, op, parts, mounted, accepted);
  }

  //
  // Whole sessions
  //

  /** What the guest sends: single requests, and long requests whose parts are not interleaved. */
  datatype Item =
    | Single(opId: u32, response: Option<ResponseKind>)
    | LongRequest(op: LongOp, parts: seq<Part>)

  function Frames(item: Item): nat
  {
    if item.Single? then 1 else |item.parts|
  }

  ghost predicate WellFormed(item: Item)
  {
    item.LongRequest? ==> !item.op.PathStat? && WholeRequest(item.parts)
  }

  function ForwardItem(slot: Option<u32>, item: Item, mounted: bool, accepted: seq<bool>): (r: (Option<u32>, seq<Answer>))
    requires |accepted| == Frames(item)
  {
    match item
    case Single(opId, response) => Forward(slot, SingleFrame(opId, response), mounted, accepted[0])
    case LongRequest(op, parts) => ForwardParts(slot, op, parts, mounted, accepted)
  }

  function ExpectedOf(item: Item, mounted: bool, accepted: seq<bool>): seq<Answer>
    requires item.LongRequest? ==> item.parts != []
  {
    match item
    case Single(opId, response) =>
      if response.Some? then ExpectedErrors(ErrorAnswer(opId, response.value), mounted, accepted) else []
    case LongRequest(op, parts) => ExpectedErrors(LongError(op, parts[0]), mounted, accepted)
  }

  ghost predicate Session(items: seq<Item>, accepted: seq<seq<bool>>)
  {
    && |accepted| == |items|
    && forall i :: 0 <= i < |items| ==> WellFormed(items[i]) && |accepted[i]| == Frames(items[i])
  }

  ghost function ForwardAll(slot: Option<u32>, items: seq<Item>, mounted: bool, accepted: seq<seq<bool>>): seq<Answer>
    requires Session(items, accepted)
    decreases |items|
  {
    if items == [] then [] else
    var (slot', errors) := ForwardItem(slot, items[0], mounted, accepted[0]);
    errors + ForwardAll(slot', items[1..], mounted, accepted[1..])
  }

  ghost function ExpectedAll(items: seq<Item>, mounted: bool, accepted: seq<seq<bool>>): seq<Answer>
    requires Session(items, accepted)
    decreases |items|
  {
    if items == [] then [] else
    ExpectedOf(items[0], mounted, accepted[0]) + ExpectedAll(items[1..], mounted, accepted[1..])
  }

  /** Over a whole session, each request that the worker did not get in full is answered exactly once, in
      order, and no other: no state left over from one request affects another. */
  lemma {:induction false} EveryRequestIsAnsweredOnce(slot: Option<u32>, items: seq<Item>, mounted: bool, accepted: seq<seq<bool>>)
    requires Session(items, accepted)
    ensures ForwardAll(slot, items, mounted, accepted) == ExpectedAll(items, mounted, accepted)
    decreases |items|
  {
    if items != [] {
      var item := items[0];
      if item.LongRequest? {
        LongRequestIsAnsweredOnce(slot, item.op, item.parts, mounted, accepted[0]);
      }
      EveryRequestIsAnsweredOnce(ForwardItem(slot, item, mounted, accepted[0]).0, items[1..], mounted, accepted[1..]);
    }
  }

  //
  // The kind that is not listed
  //

  /** Each refused part of a path-stat request is answered, with its part count and number for an
      identifier. */
  lemma UnlistedPartIsAnsweredWrongly(slot: Option<u32>, part: Part)
    ensures
      var answer := ErrorAnswer(part.total + 0x1_0000 * part.number, Long(PathStat));
      && Forward(slot, PartFrame(PathStat, part), true, false).1 == [answer]
      && Forward(slot, PartFrame(PathStat, part), false, false).1 == [answer]
  {
  }

  ghost predicate AnswersOnce(op: LongOp)
  {
    forall slot, parts, mounted, accepted |
      WholeRequest(parts) && |accepted| == |parts| ::
      ForwardParts(slot, op, parts, mounted, accepted).1 == ExpectedErrors(LongError(op, parts[0]), mounted, accepted)
  }

  /** The promise of one answer per long request holds for exactly eight of the nine kinds. */
  lemma AnswersOnceIff(op: LongOp)
    ensures AnswersOnce(op) <==> op in {Open, Rename, Unlink, Mkdir, Rmdir, Symlink, Readlink, Lstat}
  {
    if !op.PathStat? {
      forall slot, parts, mounted, accepted | WholeRequest(parts) && |accepted| == |parts|
        ensures ForwardParts(slot, op, parts, mounted, accepted).1 == ExpectedErrors(LongError(op, parts[0]), mounted, accepted)
      {
        LongRequestIsAnsweredOnce(slot, op, parts, mounted, accepted);
      }
    } else {
      var blank := seq(PAYLOAD_SIZE, _ => 0);
      var (p0: Part, p1: Part) := (Part(2, 0, 44, blank), Part(2, 1, 1, blank));
      assert WholeRequest([p0, p1]);
      assert [p0, p1][1..] == [p1] && [p1][1..] == [];
      assert [false, false][1..] == [false];
      assert |ForwardParts(None, op, [p1], true, [false]).1| == 1;
      assert |ForwardParts(None, op, [p0, p1], true, [false, false]).1| == 2;
    }
  }

  //
  // Single requests between the parts
  //

  /** The errors sent on parts, and those sent on single requests. */
  function ForwardFrames(slot: Option<u32>, frames: seq<Frame>, accepted: seq<bool>): (r: (seq<Answer>, seq<Answer>))
    requires |accepted| == |frames|
    decreases |frames|
  {
    if frames == [] then ([], []) else
    var (slot', errors) := Forward(slot, frames[0], true, accepted[0]);
    var (parts, singles) := ForwardFrames(slot', frames[1..], accepted[1..]);
    if frames[0].PartFrame? then (errors + parts, singles) else (parts, errors + singles)
  }

  /** The parts among some frames, and whether each was accepted. */
  function PartsOf(frames: seq<Frame>): seq<Part>
  {
    if frames == [] then [] else (if frames[0].PartFrame? then [frames[0].part] else []) + PartsOf(frames[1..])
  }

  predicate SomePartRefused(frames: seq<Frame>, accepted: seq<bool>)
    requires |accepted| == |frames|
  {
    frames != [] && ((frames[0].PartFrame? && !accepted[0]) || SomePartRefused(frames[1..], accepted[1..]))
  }

  /** The first frame that the queue refused, if any, is a part. */
  predicate FirstRefusedIsPart(frames: seq<Frame>, accepted: seq<bool>)
    requires |accepted| == |frames|
  {
    frames != [] && if accepted[0] then FirstRefusedIsPart(frames[1..], accepted[1..]) else frames[0].PartFrame?
  }

  function SinglesExpected(frames: seq<Frame>, accepted: seq<bool>): seq<Answer>
    requires |accepted| == |frames|
  {
    if frames == [] then [] else
    (if frames[0].SingleFrame? && !accepted[0] then SendError(frames[0], Some(frames[0].opId)) else [])
    + SinglesExpected(frames[1..], accepted[1..])
  }

  lemma {:induction false} SinglesAreAnswered(slot: Option<u32>, frames: seq<Frame>, accepted: seq<bool>)
    requires |accepted| == |frames|
    ensures ForwardFrames(slot, frames, accepted).1 == SinglesExpected(frames, accepted)
    decreases |frames|
  {
    if frames != [] {
      SinglesAreAnswered(Forward(slot, frames[0], true, accepted[0]).0, frames[1..], accepted[1..]);
      assert [] + SinglesExpected(frames[1..], accepted[1..]) == SinglesExpected(frames[1..], accepted[1..]);
    }
  }

  /** Frames of one long request after its part `i - 1`, with any single requests between them. */
  ghost predicate RestWithSingles(op: LongOp, frames: seq<Frame>, i: nat, total: nat)
    decreases |frames|
  {
    if frames == [] then i == total
    else if frames[0].SingleFrame? then RestWithSingles(op, frames[1..], i, total)
    else
      && frames[0].op == op && frames[0].part.number == i < total && frames[0].part.total == total
      && RestWithSingles(op, frames[1..], i + 1, total)
  }

  lemma {:induction false} UntrackedPartsAreSilent(op: LongOp, frames: seq<Frame>, accepted: seq<bool>, i: nat, total: nat)
    requires Listed(op) && |accepted| == |frames| && i > 0 && total < 0x1_0000 && RestWithSingles(op, frames, i, total)
    ensures ForwardFrames(None, frames, accepted).0 == []
    decreases |frames|
  {
    if frames != [] {
      UntrackedPartsAreSilent(op, frames[1..], accepted[1..], if frames[0].PartFrame? then i + 1 else i, total);
      assert Forward(None, frames[0], true, accepted[0]).0 == None;
    }
  }

  lemma {:induction false} NoMoreParts(op: LongOp, frames: seq<Frame>, accepted: seq<bool>, i: nat)
    requires |accepted| == |frames| && RestWithSingles(op, frames, i, i)
    ensures !FirstRefusedIsPart(frames, accepted) && !SomePartRefused(frames, accepted)
    decreases |frames|
  {
    if frames != [] { NoMoreParts(op, frames[1..], accepted[1..], i); }
  }

  lemma {:induction false} TrackedPartsAreAnswered(
    op: LongOp, id: u32, frames: seq<Frame>, accepted: seq<bool>, i: nat, total: nat)
    requires Listed(op) && |accepted| == |frames| && 0 < i < total < 0x1_0000 && RestWithSingles(op, frames, i, total)
    ensures ForwardFrames(Some(id), frames, accepted).0
         == if FirstRefusedIsPart(frames, accepted) then [ErrorAnswer(id, Long(op))] else []
    decreases |frames|
  {
    var (f, rest, oks) := (frames[0], frames[1..], accepted[1..]);
    var (j, error) := (if f.PartFrame? then i + 1 else i, ErrorAnswer(id, Long(op)));
    if !accepted[0] {
      UntrackedPartsAreSilent(op, rest, oks, j, total);
      assert [error] + [] == [error];
    } else if j == total {
      UntrackedPartsAreSilent(op, rest, oks, j, total);
      NoMoreParts(op, rest, oks, total);
    } else {
      TrackedPartsAreAnswered(op, id, rest, oks, j, total);
      assert [] + ForwardFrames(Some(id), rest, oks).0 == ForwardFrames(Some(id), rest, oks).0;
    }
  }

  /** Single requests may come between the parts of a long request. They are always answered as they should
      be; the long request is if and only if no refused single request comes before its first refused part,
      because that makes the handler forget the long request. */
  lemma AnsweredBetweenSinglesIff(slot: Option<u32>, op: LongOp, frames: seq<Frame>, accepted: seq<bool>, total: nat)
    requires !op.PathStat? && |accepted| == |frames| && 1 <= total < 0x1_0000
    requires frames != [] && frames[0].PartFrame? && RestWithSingles(op, frames, 0, total)
    ensures
      var expected := if SomePartRefused(frames, accepted) then [LongError(op, frames[0].part)] else [];
      && ForwardFrames(slot, frames, accepted).1 == SinglesExpected(frames, accepted)
      && (ForwardFrames(slot, frames, accepted).0 == expected
          <==> (SomePartRefused(frames, accepted) ==> FirstRefusedIsPart(frames, accepted)))
  {
    SinglesAreAnswered(slot, frames, accepted);
    var (p, rest, oks) := (frames[0].part, frames[1..], accepted[1..]);
    FirstPart(slot, op, p, true, accepted[0]);
    if !accepted[0] {
      UntrackedPartsAreSilent(op, rest, oks, 1, total);
      assert [LongError(op, p)] + [] == [LongError(op, p)];
    } else if total == 1 {
      UntrackedPartsAreSilent(op, rest, oks, 1, total);
      NoMoreParts(op, rest, oks, 1);
    } else {
      TrackedPartsAreAnswered(op, LogicalOpId(p), rest, oks, 1, total);
      FirstRefusedIsRefused(rest, oks);
      assert [] + ForwardFrames(Some(LogicalOpId(p)), rest, oks).0 == ForwardFrames(Some(LogicalOpId(p)), rest, oks).0;
    }
  }

  lemma {:induction false} FirstRefusedIsRefused(frames: seq<Frame>, accepted: seq<bool>)
    requires |accepted| == |frames|
    ensures FirstRefusedIsPart(frames, accepted) ==> SomePartRefused(frames, accepted)
    decreases |frames|
  {
    if frames != [] { FirstRefusedIsRefused(frames[1..], accepted[1..]); }
  }

  /** Part 0 accepted, a single request refused, part 1 refused: the long request is never answered. */
  lemma ForgottenRequest(slot: Option<u32>, opId: u32)
    ensures
      var blank := seq(PAYLOAD_SIZE, _ => 0);
      var frames := [PartFrame(Open, Part(2, 0, 44, blank)), SingleFrame(opId, Some(Close)), PartFrame(Open, Part(2, 1, 44, blank))];
      && ForwardFrames(slot, frames, [true, false, false]).0 == []
      && ForwardFrames(slot, frames, [true, false, false]).1 == [ErrorAnswer(opId, Close)]
  {
    var blank: Bytes := seq(PAYLOAD_SIZE, _ => 0);
    var (f0, f1, f2) := (PartFrame(Open, Part(2, 0, 44, blank)), SingleFrame(opId, Some(Close)), PartFrame(Open, Part(2, 1, 44, blank)));
    assert [f0, f1, f2][1..] == [f1, f2] && [f1, f2][1..] == [f2] && [f2][1..] == [];
    assert [true, false, false][1..] == [false, false] && [false, false][1..] == [false] && [false][1..] == [];
    FirstPart(slot, Open, f0.part, true, true);
    var id := Some(LogicalOpId(f0.part));
    assert ForwardFrames(None, [f2], [false]).0 == [] && ForwardFrames(None, [f2], [false]).1 == [];
    assert ForwardFrames(id, [f1, f2], [false, false]).0 == [];
    assert ForwardFrames(id, [f1, f2], [false, false]).1 == [ErrorAnswer(opId, Close)];
  }

  //
  // What the virtual filesystem daemon makes of an error
  //

  /** `i32::from_le_bytes` on the first four bytes, and `i64::from_le_bytes` on the first eight. */
  function LeadingI32(data: Bytes): int
    requires |data| >= 4
  {
    var n := U32FromLe(data[..4]);
    if n < 0x8000_0000 then n else n - 0x1_0000_0000
  }

  function LeadingI64(data: Bytes): int
    requires |data| >= 8
  {
    U32FromLe(data[..4]) + 0x1_0000_0000 * LeadingI32(data[4..8])
  }

  /** Each completion decides by one leading field, except that of a directory read, which only knows an
      entry and the end of the directory. */
  predicate TakenForFailure(kind: ResponseKind, data: Bytes)
    requires |data| == DATA_SIZE
  {
    match kind
    case Lseek => LeadingI64(data) < 0
    case ReadDir => false
    case _ => LeadingI32(data) < 0
  }

  /** Every kind of request sees that it has failed, but for two: a stat is told of an empty regular file,
      and a directory read of the end of the directory. */
  lemma ErrorIsSeenIff(kind: ResponseKind)
    ensures TakenForFailure(kind, ErrorData(kind)) <==> !kind.Stat? && !kind.ReadDir?
  {
    U32FromLeInvertsToLe(ERR_IO_LOW);
    U32FromLeInvertsToLe(ERR_IO_HIGH);
    var data := ErrorData(kind);
    match kind {
      case Lseek =>
        assert data[..4] == U32ToLe(ERR_IO_LOW) && data[4..8] == U32ToLe(ERR_IO_HIGH);
        assert data[4..8][..4] == data[4..8];
      case Stat => assert data[..4] == [0, 0, 0, 0];
      case ReadDir =>
      case _ => assert data[..4] == U32ToLe(ERR_IO_LOW);
    }
  }

  //
  // The handler, as it keeps its slot
  //

  class IoHandler {
    var workerLongOpId: Option<u32>
    /** The errors sent to the guest. */
    var errors: seq<Answer>

    constructor ()
      ensures workerLongOpId == None && errors == []
    {
      workerLongOpId, errors := None, [];
    }

    method SendHostFsError(f: Frame, opId: u32)
      modifies this`errors
      ensures errors == old(errors) + SendError(f, Some(opId))
    {
      var response := ResponseOf(f);
      if response.None? {
        return;
      }
      var data := Payload(response.value);
      errors := errors + [Answer(opId, response.value, data)];
    }

    /** Zeros, with the error indicator of the kind written over their beginning. */
    static method Payload(kind: ResponseKind) returns (data: Bytes)
      ensures data == ErrorData(kind)
    {
      match kind {
        case Lseek => data := Indicator(U32ToLe(ERR_IO_LOW) + U32ToLe(ERR_IO_HIGH));
        case Stat => data := Indicator([]);
        case ReadDir => data := Indicator([]);
        case _ => data := Indicator(U32ToLe(ERR_IO_LOW));
      }
    }

    static method Indicator(bytes: Bytes) returns (data: Bytes)
      requires |bytes| <= DATA_SIZE
      ensures data == bytes + seq(DATA_SIZE - |bytes|, _ => 0)
    {
      var payload := new byte[DATA_SIZE](_ => 0);
      forall i | 0 <= i < |bytes| {
        payload[i] := bytes[i];
      }
      data := payload[..];
    }

    method OnHostFsFrame(f: Frame, mounted: bool, accepted: bool)
      modifies this
      ensures workerLongOpId == Forward(old(workerLongOpId), f, mounted, accepted).0
      ensures errors == old(errors) + Forward(old(workerLongOpId), f, mounted, accepted).1
    {
      var errorTarget := ErrorTarget(f);
      var partInfo := PartInfo(f);
      if partInfo.Some? && partInfo.value.0 == 0 {
        workerLongOpId := errorTarget;
      }
      if mounted {
        if !accepted {
          var effective := if errorTarget.Some? then errorTarget else workerLongOpId;
          if effective.Some? {
            SendHostFsError(f, effective.value);
          }
          workerLongOpId := None;
        } else if partInfo.Some? {
          var (number, total) := partInfo.value;
          if number + 1 < 0x1_0000 && number + 1 == total {
            workerLongOpId := None;
          }
        }
        return;
      }
      if errorTarget.Some? {
        SendHostFsError(f, errorTarget.value);
      }
    }
  }
}

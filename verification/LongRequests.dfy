/** Host filesystem requests that carry paths: the wire format of their bodies, how a sender cuts a
    body into parts, and the daemon's assembler that puts it together again. */
module LongRequests {
  import opened Bytes
  import opened Utf8
  import opened Wrappers

  /** The request kinds that travel in parts; a kind also names its response header. */
  datatype LongOp = Open | Rename | Unlink | Mkdir | Rmdir | Symlink | Readlink | Lstat | PathStat

  /** `SystemCallMessagePart::PAYLOAD_SIZE`. */
  const PAYLOAD_SIZE := 44

  const MAX_PATH_LEN := 0xFFFF

  const RENAME_HEADER_SIZE := 8

  const MAX_LONG_BUFFER_SIZE := RENAME_HEADER_SIZE + 2 * MAX_PATH_LEN

  function CeilDiv(n: nat): nat
  {
    (n + PAYLOAD_SIZE - 1) / PAYLOAD_SIZE
  }

  const MAX_TOTAL_PARTS: nat := CeilDiv(MAX_LONG_BUFFER_SIZE)

  /** `OperationId::INVALID`. */
  const INVALID: u32 := 0xFFFF_FFFF

  /** `size` is what the part declares; only the first `PAYLOAD_SIZE` bytes can be meant. */
  datatype RawPart = Part(total: u16, number: u16, size: byte, payload: Bytes)

  type Part = p: RawPart | |p.payload| == PAYLOAD_SIZE witness Part(1, 0, 0, seq(PAYLOAD_SIZE, _ => 0))

  function Chunk(p: Part): (s: Bytes)
    ensures |s| <= PAYLOAD_SIZE
  {
    p.payload[..if p.size <= PAYLOAD_SIZE then p.size as int else PAYLOAD_SIZE]
  }

  //
  // The assembler, on values
  //

  datatype Status = NeedMore | Complete | Error

  datatype Assembler = Assembler(header: Option<LongOp>, total: u16, received: u16, next: u16, buffer: Bytes)

  const EMPTY := Assembler(None, 0, 0, 0, [])

  /** Between two calls: nothing in flight, or a strict beginning of a request. */
  predicate Settled(a: Assembler)
  {
    || a == EMPTY
    || (a.header.Some? && 1 <= a.received == a.next < a.total <= MAX_TOTAL_PARTS && |a.buffer| <= MAX_LONG_BUFFER_SIZE)
  }

  /** The checks against the request in flight, and the append. */
  function Appending(a: Assembler, op: LongOp, p: Part): (r: (Assembler, Status))
    requires a.received < MAX_TOTAL_PARTS && a.next < MAX_TOTAL_PARTS
  {
    if a.header != Some(op) || p.total != a.total || p.number != a.next then (a, Error)
    else if |a.buffer| + |Chunk(p)| > MAX_LONG_BUFFER_SIZE then (a, Error)
    else
      var a' := a.(buffer := a.buffer + Chunk(p), received := a.received + 1, next := a.next + 1);
      (a', if a'.received >= a'.total then Complete else NeedMore)
  }

  function Adding(a: Assembler, op: LongOp, p: Part): (r: (Assembler, Status))
    requires Settled(a)
  {
    if p.total == 0 || p.total > MAX_TOTAL_PARTS then (a, Error)
    else if a.header.Some? && p.number == 0 && a.received < a.total then (a, Error)
    else Appending(if a.header.None? then Assembler(Some(op), p.total, 0, 0, []) else a, op, p)
  }

  /** All wire formats start with the operation identifier. */
  function OpIdOf(buffer: Bytes): u32
  {
    if |buffer| >= 4 then U32FromLe(buffer[..4]) else INVALID
  }

  function RecordedHeader(a: Assembler): LongOp
  {
    if a.header.Some? then a.header.value else Open
  }

  /** What the daemon makes of one part: nothing yet, an error response under a response header, or a
      request to carry out and answer. */
  datatype Reply =
    | NoReply
    | ErrorReply(opId: u32, response: LongOp)
    | Dispatch(op: LongOp, body: Bytes)

  function Handling(a: Assembler, op: LongOp, p: Part): (r: (Assembler, Reply))
    requires Settled(a)
    ensures Settled(r.0)
    ensures r.1.NoReply? <==> r.0 != EMPTY
  {
    var (a', status) := Adding(a, op, p);
    match status
    case NeedMore => (a', NoReply)
    case Error => (EMPTY, ErrorReply(OpIdOf(a'.buffer), RecordedHeader(a')))
    case Complete => (EMPTY, Dispatch(RecordedHeader(a'), a'.buffer))
  }

  /** A stream of parts as the daemon receives it, however malformed. */
  datatype Arrival = Arrival(op: LongOp, part: Part)

  function After(arrivals: seq<Arrival>): (a: Assembler)
    ensures Settled(a)
  {
    if arrivals == [] then EMPTY else
    var last := arrivals[|arrivals| - 1];
    Handling(After(arrivals[..|arrivals| - 1]), last.op, last.part).0
  }

  function ReplyTo(arrivals: seq<Arrival>): Reply
    requires arrivals != []
  {
    var last := arrivals[|arrivals| - 1];
    Handling(After(arrivals[..|arrivals| - 1]), last.op, last.part).1
  }

  //
  // What the assembler holds is what has just arrived
  //

  function Chunks(arrivals: seq<Arrival>): (s: Bytes)
  {
    if arrivals == [] then [] else Chunks(arrivals[..|arrivals| - 1]) + Chunk(arrivals[|arrivals| - 1].part)
  }

  /** Parts `0 .. |arrivals|` of one request, in order. */
  ghost predicate Consecutive(arrivals: seq<Arrival>, op: LongOp, total: u16)
  {
    forall i :: 0 <= i < |arrivals| ==>
      arrivals[i].op == op && arrivals[i].part.total == total && arrivals[i].part.number == i
  }

  /** The assembler for parts `0 .. i` of a request. */
  function Holding(op: LongOp, total: u16, i: u16, done: Bytes): Assembler
  {
    if i == 0 then EMPTY else Assembler(Some(op), total, i, i, done)
  }

  /** `p` is what an assembler that holds parts `0 .. i` waits for. */
  predicate Awaited(total: u16, i: u16, done: Bytes, p: Part)
  {
    && p.total == total && p.number == i < total <= MAX_TOTAL_PARTS
    && |done| + |Chunk(p)| <= MAX_LONG_BUFFER_SIZE
    && (i == 0 ==> done == [])
  }

  /** The awaited part goes at the end of what is in flight, and any other part is an error. */
  lemma AcceptedPart(op: LongOp, total: u16, i: u16, done: Bytes, p: Part)
    requires Awaited(total, i, done, p)
    ensures Settled(Holding(op, total, i, done))
    ensures Handling(Holding(op, total, i, done), op, p)
         == if i + 1 == total then (EMPTY, Dispatch(op, done + Chunk(p)))
            else (Holding(op, total, i + 1, done + Chunk(p)), NoReply)
  {
    assert [] + Chunk(p) == Chunk(p);
  }

  lemma OnlyAcceptedParts(a: Assembler, op: LongOp, p: Part)
    requires Settled(a) && !Handling(a, op, p).1.ErrorReply?
    ensures a == Holding(op, p.total, p.number, a.buffer) && Awaited(p.total, p.number, a.buffer, p)
  {
  }

  /** The last `i` arrivals are parts `0 .. i` of one request, and `buffer` is what they carry. */
  ghost predicate Recent(arrivals: seq<Arrival>, op: LongOp, total: u16, i: nat, buffer: Bytes)
  {
    && i <= |arrivals|
    && Consecutive(arrivals[|arrivals| - i..], op, total)
    && buffer == Chunks(arrivals[|arrivals| - i..])
  }

  lemma RecentAppend(before: seq<Arrival>, last: Arrival, i: nat, buffer: Bytes)
    requires Recent(before, last.op, last.part.total, i, buffer) && last.part.number == i
    ensures Recent(before + [last], last.op, last.part.total, i + 1, buffer + Chunk(last.part))
  {
    var recent := before[|before| - i..];
    assert (before + [last])[|before| - i..] == recent + [last];
    assert (recent + [last])[..|recent|] == recent;
  }

  lemma {:induction false} BufferIsRecent(arrivals: seq<Arrival>)
    requires After(arrivals) != EMPTY
    ensures
      var a := After(arrivals);
      Recent(arrivals, a.header.value, a.total, a.received, a.buffer)
    decreases |arrivals|, 1
  {
    var (init, last) := (arrivals[..|arrivals| - 1], arrivals[|arrivals| - 1]);
    AcceptedIsRecent(arrivals, init, last);
    AcceptedPart(last.op, last.part.total, last.part.number, After(init).buffer, last.part);
  }

  /** One more part on top of what is in flight. */
  lemma {:induction false} AcceptedIsRecent(arrivals: seq<Arrival>, init: seq<Arrival>, last: Arrival)
    requires arrivals == init + [last] && !Handling(After(init), last.op, last.part).1.ErrorReply?
    ensures After(init) == Holding(last.op, last.part.total, last.part.number, After(init).buffer)
    ensures Awaited(last.part.total, last.part.number, After(init).buffer, last.part)
    ensures Recent(arrivals, last.op, last.part.total, last.part.number + 1, After(init).buffer + Chunk(last.part))
    decreases |arrivals|, 0
  {
    var a := After(init);
    OnlyAcceptedParts(a, last.op, last.part);
    if a == EMPTY {
      assert Recent(init, last.op, last.part.total, 0, []);
    } else {
      BufferIsRecent(init);
    }
    RecentAppend(init, last, last.part.number, a.buffer);
  }

  /** A request is only ever dispatched as the concatenation of the parts that have just arrived: all
      of them, in order, under one header, with no other part between. */
  lemma DispatchIsConcatenation(arrivals: seq<Arrival>)
    requires arrivals != [] && ReplyTo(arrivals).Dispatch?
    ensures
      var (n, r) := (arrivals[|arrivals| - 1].part.total, ReplyTo(arrivals));
      && 1 <= n <= |arrivals|
      && Consecutive(arrivals[|arrivals| - n..], r.op, n)
      && r.body == Chunks(arrivals[|arrivals| - n..])
      && |r.body| <= MAX_LONG_BUFFER_SIZE
  {
    var (init, last) := (arrivals[..|arrivals| - 1], arrivals[|arrivals| - 1]);
    AcceptedIsRecent(arrivals, init, last);
    AcceptedPart(last.op, last.part.total, last.part.number, After(init).buffer, last.part);
  }

  //
  // Errors
  //

  /** An error reply drops the request in flight and names it: by the identifier in its first four
      bytes, if they have arrived, and by its header. */
  lemma ErrorNamesRequestInFlight(a: Assembler, op: LongOp, p: Part)
    requires Settled(a) && a != EMPTY && Handling(a, op, p).1.ErrorReply?
    ensures Handling(a, op, p) == (EMPTY, ErrorReply(OpIdOf(a.buffer), a.header.value))
  {
  }

  /** With nothing in flight there is no identifier to echo. The reply carries the response header of
      the part's own request if and only if the part count was acceptable or the request is an open:
      otherwise the header of an open request is the default and the part's own is never looked at. */
  lemma ErrorOnFirstPart(op: LongOp, p: Part)
    requires Handling(EMPTY, op, p).1.ErrorReply?
    ensures Handling(EMPTY, op, p).1.opId == INVALID
    ensures Handling(EMPTY, op, p).1.response == op
       <==> 1 <= p.total <= MAX_TOTAL_PARTS || op.Open?
  {
  }

  /** A rename whose first part declares no parts at all is answered as an open. */
  lemma ErrorHeaderCounterexample()
    ensures
      var p: Part := Part(0, 0, 0, seq(PAYLOAD_SIZE, _ => 0));
      Handling(EMPTY, Rename, p).1 == ErrorReply(INVALID, Open)
  {
  }

  //
  // Cutting a body into parts
  //

  function Pad(chunk: Bytes): (payload: Bytes)
    requires |chunk| <= PAYLOAD_SIZE
    ensures |payload| == PAYLOAD_SIZE
  {
    chunk + seq(PAYLOAD_SIZE - |chunk|, _ => 0)
  }

  /** The parts of `body` from number `i` on. */
  function CutFrom(body: Bytes, total: u16, i: u16): (parts: seq<Part>)
    requires i + CeilDiv(|body|) == total
    decreases |body|
  {
    if body == [] then []
    else if |body| <= PAYLOAD_SIZE then [Part(total, i, |body|, Pad(body))]
    else [Part(total, i, PAYLOAD_SIZE, body[..PAYLOAD_SIZE])] + CutFrom(body[PAYLOAD_SIZE..], total, i + 1)
  }

  function Cut(body: Bytes): (parts: seq<Part>)
    requires CeilDiv(|body|) < 0x1_0000
  {
    CutFrom(body, CeilDiv(|body|), 0)
  }

  function Feed(a: Assembler, op: LongOp, parts: seq<Part>): (r: (Assembler, seq<Reply>))
    requires Settled(a)
    ensures Settled(r.0) && |r.1| == |parts|
    decreases |parts|
  {
    if parts == [] then (a, []) else
    var (a1, reply) := Handling(a, op, parts[0]);
    var (a2, replies) := Feed(a1, op, parts[1..]);
    (a2, [reply] + replies)
  }

  function Silence(n: nat): (s: seq<Reply>)
    ensures |s| == n
  {
    if n == 0 then [] else [NoReply] + Silence(n - 1)
  }

  lemma CutFromFirst(rest: Bytes, total: u16, i: u16)
    requires rest != [] && i + CeilDiv(|rest|) == total
    ensures
      var parts := CutFrom(rest, total, i);
      var n := if |rest| <= PAYLOAD_SIZE then |rest| else PAYLOAD_SIZE;
      && parts != [] && parts[0].total == total && parts[0].number == i < total && Chunk(parts[0]) == rest[..n]
      && (i + 1 == total <==> n == |rest|)
      && i + 1 + CeilDiv(|rest[n..]|) == total && parts[1..] == CutFrom(rest[n..], total, i + 1)
  {
  }

  /** The parts are numbered on from `i`, declare the total and carry no more than a part can. */
  lemma {:induction false} CutFromNumbered(body: Bytes, total: u16, i: u16)
    requires i + CeilDiv(|body|) == total
    ensures
      var parts := CutFrom(body, total, i);
      && |parts| == total - i
      && forall k :: 0 <= k < |parts| ==>
           parts[k].number == i + k && parts[k].total == total && parts[k].size <= PAYLOAD_SIZE
    decreases |body|
  {
    if body != [] {
      CutFromFirst(body, total, i);
      var n := if |body| <= PAYLOAD_SIZE then |body| else PAYLOAD_SIZE;
      CutFromNumbered(body[n..], total, i + 1);
      var parts := CutFrom(body, total, i);
      assert parts == [parts[0]] + parts[1..];
    }
  }

  /** The identifier in the first four bytes that a stream's first part carries, if it carries them. */
  function LogicalOpId(first: Part): u32
  {
    if first.size < 4 then INVALID else U32FromLe(first.payload[..4])
  }

  /** Part 0 starts with the body's first four bytes. */
  lemma FirstCarriesId(body: Bytes)
    requires 4 <= |body| && CeilDiv(|body|) < 0x1_0000
    ensures
      var parts := Cut(body);
      parts != [] && parts[0].size >= 4 && LogicalOpId(parts[0]) == U32FromLe(body[..4]) == OpIdOf(body)
  {
    CutFromFirst(body, CeilDiv(|body|), 0);
    var first := Cut(body)[0];
    assert first.payload[..4] == Chunk(first)[..4] == body[..4];
  }

  lemma FeedFirst(op: LongOp, total: u16, i: u16, done: Bytes, parts: seq<Part>) returns (a: Assembler, reply: Reply)
    requires parts != [] && Awaited(total, i, done, parts[0])
    ensures Settled(Holding(op, total, i, done))
    ensures i + 1 == total ==> a == EMPTY && reply == Dispatch(op, done + Chunk(parts[0]))
    ensures i + 1 != total ==> a == Holding(op, total, i + 1, done + Chunk(parts[0])) && reply == NoReply
    ensures Settled(a)
    ensures Feed(Holding(op, total, i, done), op, parts) == (Feed(a, op, parts[1..]).0, [reply] + Feed(a, op, parts[1..]).1)
  {
    AcceptedPart(op, total, i, done, parts[0]);
    var r := Handling(Holding(op, total, i, done), op, parts[0]);
    a, reply := r.0, r.1;
  }

  /** What a stream of parts that makes up `rest` is answered with. */
  ghost predicate Answers(op: LongOp, total: u16, i: u16, done: Bytes, parts: seq<Part>, rest: Bytes)
    requires i < total
  {
    && Settled(Holding(op, total, i, done))
    && Feed(Holding(op, total, i, done), op, parts) == (EMPTY, Silence(total - i - 1) + [Dispatch(op, done + rest)])
  }

  lemma AnswersLast(op: LongOp, total: u16, i: u16, done: Bytes, parts: seq<Part>)
    requires |parts| == 1 && Awaited(total, i, done, parts[0]) && i + 1 == total
    ensures Answers(op, total, i, done, parts, Chunk(parts[0]))
  {
    var a, reply := FeedFirst(op, total, i, done, parts);
    assert parts[1..] == [];
    assert Silence(0) + [reply] == [reply] + [];
  }

  lemma AnswersMore(op: LongOp, total: u16, i: u16, done: Bytes, parts: seq<Part>, rest: Bytes)
    requires parts != [] && Awaited(total, i, done, parts[0]) && i + 1 < total
    requires Answers(op, total, i + 1, done + Chunk(parts[0]), parts[1..], rest)
    ensures Answers(op, total, i, done, parts, Chunk(parts[0]) + rest)
  {
    var a, reply := FeedFirst(op, total, i, done, parts);
    ConcatAssoc(done, Chunk(parts[0]), rest);
    ConcatAssoc([NoReply], Silence(total - i - 2), [Dispatch(op, done + (Chunk(parts[0]) + rest))]);
  }

  lemma {:induction false} FeedCutFrom(op: LongOp, done: Bytes, rest: Bytes, total: u16, i: u16)
    requires rest != [] && i + CeilDiv(|rest|) == total <= MAX_TOTAL_PARTS
    requires |done| + |rest| <= MAX_LONG_BUFFER_SIZE
    requires i == 0 ==> done == []
    ensures i < total && Answers(op, total, i, done, CutFrom(rest, total, i), rest)
    decreases |rest|
  {
    var parts := CutFrom(rest, total, i);
    CutFromFirst(rest, total, i);
    if i + 1 == total {
      assert rest[..|rest|] == rest && rest[|rest|..] == [];
      AnswersLast(op, total, i, done, parts);
    } else {
      var (head, tail) := (rest[..PAYLOAD_SIZE], rest[PAYLOAD_SIZE..]);
      FeedCutFrom(op, done + head, tail, total, i + 1);
      AnswersMore(op, total, i, done, parts, tail);
      assert head + tail == rest;
    }
  }

  /** A body within the limit is never refused, however it fills its last part: the daemon is silent
      until the last part and then has the body. */
  lemma CutRoundTrip(op: LongOp, body: Bytes)
    requires 1 <= |body| <= MAX_LONG_BUFFER_SIZE
    ensures CeilDiv(|body|) <= MAX_TOTAL_PARTS
    ensures Feed(EMPTY, op, Cut(body)) == (EMPTY, Silence(|Cut(body)| - 1) + [Dispatch(op, body)])
  {
    FeedCutFrom(op, [], body, CeilDiv(|body|), 0);
    assert [] + body == body;
  }

  //
  // Bodies on the wire
  //

  /** What a request says besides its kind and identifier; `word` is an open's flags or a mkdir's mode. */
  datatype Args =
    | OnePath(path: Bytes)
    | WordAndPath(word: u32, path: Bytes)
    | TwoPaths(first: Bytes, second: Bytes)

  datatype Request = Request(opId: u32, args: Args)

  predicate HasShape(op: LongOp, args: Args)
  {
    match op
    case Open => args.WordAndPath?
    case Mkdir => args.WordAndPath?
    case Rename => args.TwoPaths?
    case Symlink => args.TwoPaths?
    case _ => args.OnePath?
  }

  /** Each sender refuses a path whose length does not fit its 16-bit field. */
  function Serialize(r: Request): (body: Option<Bytes>)
  {
    match r.args
    case OnePath(path) =>
      if |path| > MAX_PATH_LEN then None
      else Some(U32ToLe(r.opId) + U16ToLe(|path|) + path)
    case WordAndPath(word, path) =>
      if |path| > MAX_PATH_LEN then None
      else Some(U32ToLe(r.opId) + U32ToLe(word) + U16ToLe(|path|) + path)
    case TwoPaths(first, second) =>
      if |first| > MAX_PATH_LEN || |second| > MAX_PATH_LEN then None
      else Some(U32ToLe(r.opId) + U16ToLe(|first|) + U16ToLe(|second|) + first + second)
  }

  /** Where everything is in a body; lengths and words are little-endian. */
  lemma BodyLayout(r: Request)
    requires Serialize(r).Some?
    ensures
      var s := Serialize(r).value;
      && |s| >= 6 && s[..4] == U32ToLe(r.opId)
      && match r.args
         case OnePath(path) => s[4..6] == U16ToLe(|path|) && s[6..] == path
         case WordAndPath(word, path) =>
           |s| >= 10 && s[4..8] == U32ToLe(word) && s[8..10] == U16ToLe(|path|) && s[10..] == path
         case TwoPaths(first, second) =>
           && |s| == 8 + |first| + |second| && s[4..6] == U16ToLe(|first|) && s[6..8] == U16ToLe(|second|)
           && s[8..8 + |first|] == first && s[8 + |first|..] == second
  {
  }

  function Text(s: Bytes, start: nat, len: nat): (path: Option<Bytes>)
    requires start + len <= |s|
  {
    if IsUtf8(s[start..start + len]) then Some(s[start..start + len]) else None
  }

  function Deserialize(op: LongOp, s: Bytes): (r: Option<Request>)
  {
    if op.Open? || op.Mkdir? then
      if |s| < 10 then None else
      var len := U16FromLe(s[8..10]);
      if |s| < 10 + len then None else
      var path := Text(s, 10, len);
      if path.None? then None else Some(Request(U32FromLe(s[..4]), WordAndPath(U32FromLe(s[4..8]), path.value)))
    else if op.Rename? || op.Symlink? then
      if |s| < 8 then None else
      var len1 := U16FromLe(s[4..6]);
      var len2 := U16FromLe(s[6..8]);
      if |s| < 8 + len1 + len2 then None else
      var first := Text(s, 8, len1);
      var second := Text(s, 8 + len1, len2);
      if first.None? || second.None? then None else
      Some(Request(U32FromLe(s[..4]), TwoPaths(first.value, second.value)))
    else
      if |s| < 6 then None else
      var len := U16FromLe(s[4..6]);
      if |s| < 6 + len then None else
      var path := Text(s, 6, len);
      if path.None? then None else Some(Request(U32FromLe(s[..4]), OnePath(path.value)))
  }

  predicate PathsAreText(args: Args)
  {
    match args
    case OnePath(path) => IsUtf8(path)
    case WordAndPath(_, path) => IsUtf8(path)
    case TwoPaths(first, second) => IsUtf8(first) && IsUtf8(second)
  }

  lemma DeserializeOnePath(op: LongOp, r: Request)
    requires r.args.OnePath? && HasShape(op, r.args) && |r.args.path| <= MAX_PATH_LEN
    ensures Deserialize(op, Serialize(r).value) == if IsUtf8(r.args.path) then Some(r) else None
    ensures OpIdOf(Serialize(r).value) == r.opId
  {
    var (id, path) := (U32ToLe(r.opId), r.args.path);
    var len := U16ToLe(|path|);
    var s := id + len + path;
    U32FromLeInvertsToLe(r.opId);
    U16FromLeInvertsToLe(|path|);
    assert s[..4] == id;
    assert s[4..6] == len;
    assert s[6..6 + |path|] == path;
  }

  lemma DeserializeWordAndPath(op: LongOp, r: Request)
    requires r.args.WordAndPath? && HasShape(op, r.args) && |r.args.path| <= MAX_PATH_LEN
    ensures Deserialize(op, Serialize(r).value) == if IsUtf8(r.args.path) then Some(r) else None
    ensures OpIdOf(Serialize(r).value) == r.opId
  {
    var (id, word, path) := (U32ToLe(r.opId), U32ToLe(r.args.word), r.args.path);
    var len := U16ToLe(|path|);
    var s := id + word + len + path;
    U32FromLeInvertsToLe(r.opId);
    U32FromLeInvertsToLe(r.args.word);
    U16FromLeInvertsToLe(|path|);
    assert s[..4] == id;
    assert s[4..8] == word;
    assert s[8..10] == len;
    assert s[10..10 + |path|] == path;
  }

  lemma DeserializeTwoPaths(op: LongOp, r: Request)
    requires r.args.TwoPaths? && HasShape(op, r.args)
    requires |r.args.first| <= MAX_PATH_LEN && |r.args.second| <= MAX_PATH_LEN
    ensures Deserialize(op, Serialize(r).value) == if PathsAreText(r.args) then Some(r) else None
    ensures OpIdOf(Serialize(r).value) == r.opId
  {
    var (id, first, second) := (U32ToLe(r.opId), r.args.first, r.args.second);
    var (len1, len2) := (U16ToLe(|first|), U16ToLe(|second|));
    U32FromLeInvertsToLe(r.opId);
    U16FromLeInvertsToLe(|first|);
    U16FromLeInvertsToLe(|second|);
    FieldsOf(id, len1, len2, first, second);
  }

  lemma FieldsOf(id: Bytes, len1: Bytes, len2: Bytes, first: Bytes, second: Bytes)
    requires |id| == 4 && |len1| == 2 && |len2| == 2
    ensures
      var s := id + len1 + len2 + first + second;
      && s[..4] == id && s[4..6] == len1 && s[6..8] == len2
      && s[8..8 + |first|] == first && s[8 + |first|..8 + |first| + |second|] == second
  {
  }

  /** From sender to handler: any request that can be serialized is carried by its parts through an
      idle assembler without a single refusal; it is dispatched under its own header with its own
      identifier, and it decodes to itself exactly if its paths are text. */
  lemma RequestArrives(op: LongOp, r: Request)
    requires HasShape(op, r.args) && Serialize(r).Some?
    ensures
      var body := Serialize(r).value;
      && CeilDiv(|body|) < 0x1_0000
      && Feed(EMPTY, op, Cut(body)) == (EMPTY, Silence(|Cut(body)| - 1) + [Dispatch(op, body)])
      && OpIdOf(body) == r.opId
      && Deserialize(op, body) == (if PathsAreText(r.args) then Some(r) else None)
  {
    CutRoundTrip(op, Serialize(r).value);
    match r.args {
      case OnePath(_) => DeserializeOnePath(op, r);
      case WordAndPath(_, _) => DeserializeWordAndPath(op, r);
      case TwoPaths(_, _) => DeserializeTwoPaths(op, r);
    }
  }

  //
  // The assembler, as it is updated in place
  //

  class HostFsAssembler {
    var header: Option<LongOp>
    var totalParts: u16
    var partsReceived: u16
    var nextPartNumber: u16
    var buffer: Bytes

    ghost function State(): Assembler
      reads this
    {
      Assembler(header, totalParts, partsReceived, nextPartNumber, buffer)
    }

    constructor ()
      ensures State() == EMPTY
    {
      header, totalParts, partsReceived, nextPartNumber, buffer := None, 0, 0, 0, [];
    }

    method AddPart(op: LongOp, part: Part) returns (status: Status)
      requires Settled(State())
      modifies this
      ensures (State(), status) == Adding(old(State()), op, part)
    {
      var (total, number) := (part.total, part.number);
      if total == 0 {
        return Error;
      }
      if total > MAX_TOTAL_PARTS {
        return Error;
      }
      if header.Some? && number == 0 && partsReceived < totalParts {
        return Error;
      }
      if header.None? {
        header, totalParts, partsReceived, nextPartNumber, buffer := Some(op), total, 0, 0, [];
      }
      status := AppendPart(op, part);
    }

    /** The second half of adding a part. */
    method AppendPart(op: LongOp, part: Part) returns (status: Status)
      requires partsReceived < MAX_TOTAL_PARTS && nextPartNumber < MAX_TOTAL_PARTS
      modifies this
      ensures (State(), status) == Appending(old(State()), op, part)
    {
      if header != Some(op) {
        return Error;
      }
      if part.total != totalParts {
        return Error;
      }
      if part.number != nextPartNumber {
        return Error;
      }
      var payloadLen: nat := if part.size <= PAYLOAD_SIZE then part.size else PAYLOAD_SIZE;
      if |buffer| + payloadLen > MAX_LONG_BUFFER_SIZE {
        return Error;
      }
      buffer := buffer + part.payload[..payloadLen];
      partsReceived, nextPartNumber := partsReceived + 1, nextPartNumber + 1;
      status := if partsReceived >= totalParts then Complete else NeedMore;
    }

    method TakeAssembled() returns (taken: Bytes)
      modifies this
      ensures taken == old(buffer) && State() == EMPTY
    {
      taken := buffer;
      header, totalParts, partsReceived, nextPartNumber, buffer := None, 0, 0, 0, [];
    }

    method HandleLongPart(op: LongOp, part: Part) returns (reply: Reply)
      requires Settled(State())
      modifies this
      ensures (State(), reply) == Handling(old(State()), op, part)
    {
      var status := AddPart(op, part);
      if status.NeedMore? {
        return NoReply;
      }
      var recorded := if header.Some? then header.value else Open;
      var taken := TakeAssembled();
      if status.Error? {
        var opId := if |taken| >= 4 then U32FromLe(taken[..4]) else INVALID;
        return ErrorReply(opId, recorded);
      }
      return Dispatch(recorded, taken);
    }
  }
}

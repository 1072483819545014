/** The framing protocol between a user VM's I/O thread and the system VM: the outbound
    encoders and the resumable inbound decoder, which sees the byte stream in whatever
    fragments the socket hands over. */
module Framing {
  import opened Bytes

  const MESSAGE_FRAME: byte := 0x01
  const DATA_CHUNK_FRAME: byte := 0x02

  /** `size_of::<Message>()`. */
  const MESSAGE_SIZE := 64

  /** `DataChunkHeader::SIZE`. */
  const CHUNK_HEADER_SIZE := 24

  /** A message and a chunk header are fixed-size byte images: their conversions to and from
      bytes are reinterpretations that never fail. */
  datatype RawFrame =
    | Message(image: Bytes)
    | Bulk(header: Bytes, data: Bytes)

  predicate FrameShape(f: RawFrame)
  {
    match f
    case Message(image) => |image| == MESSAGE_SIZE
    case Bulk(header, _) => |header| == CHUNK_HEADER_SIZE
  }

  type IkcFrame = f: RawFrame | FrameShape(f) witness Message(seq(MESSAGE_SIZE, _ => 0))

  //
  // Outbound: one frame at a time
  //

  /** `bulk payload length exceeds u32` is the only way an encoder refuses a frame. */
  predicate Encodable(f: IkcFrame)
  {
    f.Bulk? ==> |f.header + f.data| < 0x1_0000_0000
  }

  function Encode(f: IkcFrame): (wire: Bytes)
    requires Encodable(f)
  {
    match f
    case Message(image) => [MESSAGE_FRAME] + image
    case Bulk(header, data) => [DATA_CHUNK_FRAME] + U32ToLe(|header + data|) + (header + data)
  }

  ghost predicate AllEncodable(fs: seq<IkcFrame>)
  {
    forall i :: 0 <= i < |fs| ==> Encodable(fs[i])
  }

  function EncodeAll(fs: seq<IkcFrame>): (wire: Bytes)
    requires AllEncodable(fs)
  {
    if fs == [] then [] else EncodeAll(fs[..|fs| - 1]) + Encode(fs[|fs| - 1])
  }

  /** Where everything is in an encoded frame; the length counts the chunk header too. */
  lemma WireLayout(f: IkcFrame)
    requires Encodable(f)
    ensures f.Message? ==> Encode(f) == [0x01] + f.image
    ensures f.Bulk? ==>
              && |Encode(f)| == 29 + |f.data| && Encode(f)[0] == 0x02
              && U32FromLe(Encode(f)[1..5]) == 24 + |f.data|
              && Encode(f)[5..29] == f.header && Encode(f)[29..] == f.data
  {
    if f.Bulk? {
      U32FromLeInvertsToLe(|f.header + f.data|);
      assert Encode(f)[1..5] == U32ToLe(|f.header + f.data|);
    }
  }

  /** The write side of the system VM socket; `wire` is every byte written so far. */
  class SystemVmWriter {
    var wire: Bytes

    constructor ()
      ensures wire == []
    {
      wire := [];
    }

    method ForwardMessage(image: Bytes, frameType: byte)
      requires |image| == MESSAGE_SIZE
      modifies this
      ensures wire == old(wire) + [frameType] + image
    {
      var buf := new byte[1 + MESSAGE_SIZE];
      buf[0] := frameType;
      forall i | 0 <= i < MESSAGE_SIZE {
        buf[1 + i] := image[i];
      }
      assert buf[..] == [frameType] + image;
      wire := wire + buf[..];
    }

    method ForwardBulk(header: Bytes, data: Bytes, frameType: byte) returns (ok: bool)
      modifies this
      ensures ok <==> |header + data| < 0x1_0000_0000
      ensures ok ==> wire == old(wire) + ([frameType] + U32ToLe(|header + data|) + (header + data))
      ensures !ok ==> wire == old(wire)
    {
      var payload := header + data;
      if |payload| >= 0x1_0000_0000 {
        return false;
      }
      var lenPrefix := U32ToLe(|payload|);
      wire := wire + ([frameType] + lenPrefix + payload);
      return true;
    }

    method ForwardTransfer(f: IkcFrame) returns (ok: bool)
      modifies this
      ensures ok <==> Encodable(f)
      ensures ok ==> wire == old(wire) + Encode(f)
      ensures !ok ==> wire == old(wire)
    {
      match f {
        case Message(image) =>
          ForwardMessage(image, MESSAGE_FRAME);
          assert wire == old(wire) + ([MESSAGE_FRAME] + image);
          ok := true;
        case Bulk(header, data) =>
          ok := ForwardBulk(header, data, DATA_CHUNK_FRAME);
      }
    }
  }

  //
  // Inbound: the state machine, on values
  //

  datatype Inbound =
    | FrameType
    | InMessage(got: Bytes)
    | InBulkLength(got: Bytes)
    | InBulkPayload(expected: u32, got: Bytes)

  /** Everything the inbound arm keeps: where it is in the current frame, the frames handed to
      the memory thread, and whether the loop has been left with an error. */
  datatype Decoder = Decoder(state: Inbound, delivered: seq<IkcFrame>, failed: bool)

  const START := Decoder(FrameType, [], false)

  predicate ValidState(st: Inbound)
  {
    match st
    case FrameType => true
    case InMessage(got) => |got| < MESSAGE_SIZE
    case InBulkLength(got) => |got| < 4
    case InBulkPayload(expected, got) => |got| < expected || (expected == 0 && got == [])
  }

  /** Length of the slice offered to the next socket read. */
  function Room(st: Inbound): (n: nat)
    requires ValidState(st)
    ensures n == 0 <==> st == InBulkPayload(0, [])
  {
    match st
    case FrameType => 1
    case InMessage(got) => MESSAGE_SIZE - |got|
    case InBulkLength(got) => 4 - |got|
    case InBulkPayload(expected, got) => expected - |got|
  }

  predicate Valid(d: Decoder)
  {
    !d.failed ==> ValidState(d.state)
  }

  /** A socket read returns at most what the offered slice holds. */
  predicate Fits(d: Decoder, read: Bytes)
    requires Valid(d)
  {
    !d.failed && |read| <= Room(d.state)
  }

  /** Leaving the loop with an error drops the frame in progress. */
  function Fail(d: Decoder): Decoder
  {
    Decoder(FrameType, d.delivered, true)
  }

  function Deliver(d: Decoder, f: IkcFrame): Decoder
  {
    d.(state := FrameType, delivered := d.delivered + [f])
  }

  /** What the inbound arm does with one completed read. */
  function Receive(d: Decoder, read: Bytes): (d': Decoder)
    requires Valid(d) && Fits(d, read)
    ensures Valid(d')
  {
    if read == [] then
      Fail(d)  // an empty read means that the peer has closed the socket
    else
      match d.state
      case FrameType =>
        if read[0] == MESSAGE_FRAME then d.(state := InMessage([]))
        else if read[0] == DATA_CHUNK_FRAME then d.(state := InBulkLength([]))
        else Fail(d)
      case InMessage(got) =>
        var all := got + read;
        if |all| == MESSAGE_SIZE then Deliver(d, Message(all)) else d.(state := InMessage(all))
      case InBulkLength(got) =>
        var all := got + read;
        if |all| == 4 then d.(state := InBulkPayload(U32FromLe(all), [])) else d.(state := InBulkLength(all))
      case InBulkPayload(expected, got) =>
        var all := got + read;
        if |all| != expected then d.(state := InBulkPayload(expected, all))
        else if |all| < CHUNK_HEADER_SIZE then Fail(d)
        else Deliver(d, Bulk(all[..CHUNK_HEADER_SIZE], all[CHUNK_HEADER_SIZE..]))
  }

  /** A run is a list of reads, each of which fits where the decoder is and is not empty. */
  ghost predicate IsRun(d: Decoder, cuts: seq<Bytes>)
    requires Valid(d)
    decreases |cuts|
  {
    cuts != [] ==>
      && cuts[0] != []
      && Fits(d, cuts[0])
      && IsRun(Receive(d, cuts[0]), cuts[1..])
  }

  ghost function Feed(d: Decoder, cuts: seq<Bytes>): (d': Decoder)
    requires Valid(d) && IsRun(d, cuts)
    ensures Valid(d')
    decreases |cuts|
  {
    if cuts == [] then d else Feed(Receive(d, cuts[0]), cuts[1..])
  }

  lemma ReceiveDeliversOne(d: Decoder, read: Bytes)
    requires Valid(d) && Fits(d, read)
    ensures
      var d' := Receive(d, read);
      || d'.delivered == d.delivered
      || (!d'.failed && d'.delivered != [] && d'.delivered == d.delivered + [d'.delivered[|d'.delivered| - 1]])
  {
  }

  /** Exactly when a read makes the decoder leave its loop: the peer has closed, the frame type is unknown, or
      a bulk payload is complete that is too short for its header. Nothing is delivered then. */
  lemma FailsIff(d: Decoder, read: Bytes)
    requires Valid(d) && Fits(d, read)
    ensures Receive(d, read).failed
       <==> || read == []
            || (d.state.FrameType? && read[0] != 0x01 && read[0] != 0x02)
            || (d.state.InBulkPayload? && |d.state.got| + |read| == d.state.expected < CHUNK_HEADER_SIZE)
    ensures Receive(d, read).failed ==> Receive(d, read).delivered == d.delivered
  {
  }

  /** The slice offered is what is missing of the field being read: a read that fills it ends the field. */
  lemma FullReadEndsField(d: Decoder, read: Bytes)
    requires Valid(d) && Fits(d, read) && read != []
    ensures
      var d' := Receive(d, read);
      |read| == Room(d.state)
      <==> || d'.failed || d'.delivered != d.delivered
           || (match d.state
               case FrameType => !d'.state.FrameType?
               case InMessage(_) => !d'.state.InMessage?
               case InBulkLength(_) => !d'.state.InBulkLength?
               case InBulkPayload(_, _) => !d'.state.InBulkPayload?)
  {
  }

  lemma {:induction false} FeedAppend(d: Decoder, cuts: seq<Bytes>, read: Bytes)
    requires Valid(d) && IsRun(d, cuts) && read != [] && Fits(Feed(d, cuts), read)
    ensures IsRun(d, cuts + [read]) && Feed(d, cuts + [read]) == Receive(Feed(d, cuts), read)
    decreases |cuts|
  {
    if cuts == [] {
      assert (cuts + [read])[1..] == [];
    } else {
      assert (cuts + [read])[1..] == cuts[1..] + [read];
      FeedAppend(Receive(d, cuts[0]), cuts[1..], read);
    }
  }

  //
  // Fragmentation does not matter
  //

  /** The reference decoder: it takes the stream one byte at a time, and stops at the first byte
      that it has no room for. */
  ghost predicate Accepts(d: Decoder, bytes: Bytes)
    requires Valid(d)
    decreases |bytes|
  {
    bytes != [] ==> Fits(d, bytes[..1]) && Accepts(Receive(d, bytes[..1]), bytes[1..])
  }

  ghost function Bytewise(d: Decoder, bytes: Bytes): (d': Decoder)
    requires Valid(d) && Accepts(d, bytes)
    ensures Valid(d')
    decreases |bytes|
  {
    if bytes == [] then d else Bytewise(Receive(d, bytes[..1]), bytes[1..])
  }

  lemma ReceiveSplit(d: Decoder, a: Bytes, b: Bytes)
    requires Valid(d) && a != [] && b != [] && Fits(d, a + b)
    ensures Fits(d, a) && Fits(Receive(d, a), b)
    ensures Receive(d, a + b) == Receive(Receive(d, a), b)
  {
    match d.state {
      case FrameType =>
      case InMessage(got) => assert got + (a + b) == (got + a) + b;
      case InBulkLength(got) => assert got + (a + b) == (got + a) + b;
      case InBulkPayload(expected, got) => assert got + (a + b) == (got + a) + b;
    }
  }

  lemma {:induction false} ReceiveIsBytewise(d: Decoder, read: Bytes)
    requires Valid(d) && read != [] && Fits(d, read)
    ensures Accepts(d, read) && Bytewise(d, read) == Receive(d, read)
    decreases |read|
  {
    if |read| == 1 {
      assert read[..1] == read;
    } else {
      assert read == read[..1] + read[1..];
      ReceiveSplit(d, read[..1], read[1..]);
      ReceiveIsBytewise(Receive(d, read[..1]), read[1..]);
    }
  }

  lemma {:induction false} BytewiseConcat(d: Decoder, a: Bytes, b: Bytes)
    requires Valid(d) && Accepts(d, a) && Accepts(Bytewise(d, a), b)
    ensures Accepts(d, a + b) && Bytewise(d, a + b) == Bytewise(Bytewise(d, a), b)
    decreases |a|
  {
    if a == [] {
      assert a + b == b;
    } else {
      assert (a + b)[..1] == a[..1] && (a + b)[1..] == a[1..] + b;
      BytewiseConcat(Receive(d, a[..1]), a[1..], b);
    }
  }

  lemma {:induction false} FeedIsBytewise(d: Decoder, cuts: seq<Bytes>)
    requires Valid(d) && IsRun(d, cuts)
    ensures Accepts(d, Flatten(cuts)) && Bytewise(d, Flatten(cuts)) == Feed(d, cuts)
    decreases |cuts|
  {
    if cuts != [] {
      ReceiveIsBytewise(d, cuts[0]);
      FeedIsBytewise(Receive(d, cuts[0]), cuts[1..]);
      BytewiseConcat(d, cuts[0], Flatten(cuts[1..]));
    }
  }

  /** However the socket cuts a byte stream, well formed or not, the decoder ends up in the same
      place, having delivered the same frames and failed or not failed alike. */
  lemma FragmentationIndependence(d: Decoder, cuts: seq<Bytes>, cuts': seq<Bytes>)
    requires Valid(d) && IsRun(d, cuts) && IsRun(d, cuts')
    requires Flatten(cuts) == Flatten(cuts')
    ensures Feed(d, cuts) == Feed(d, cuts')
  {
    FeedIsBytewise(d, cuts);
    FeedIsBytewise(d, cuts');
  }

  //
  // Round trip
  //

  lemma EncodeAllAppend(fs: seq<IkcFrame>, f: IkcFrame)
    requires AllEncodable(fs) && Encodable(f)
    ensures AllEncodable(fs + [f]) && EncodeAll(fs + [f]) == EncodeAll(fs) + Encode(f)
  {
    assert (fs + [f])[..|fs|] == fs;
  }

  lemma BytewiseMessage(d: Decoder, f: IkcFrame)
    requires !d.failed && d.state.FrameType? && f.Message?
    ensures Accepts(d, Encode(f)) && Bytewise(d, Encode(f)) == Deliver(d, f)
  {
    var tag := [MESSAGE_FRAME];
    ReceiveIsBytewise(d, tag);
    var d1 := Receive(d, tag);
    assert [] + f.image == f.image;
    ReceiveIsBytewise(d1, f.image);
    BytewiseConcat(d, tag, f.image);
  }

  lemma BytewiseBulk(d: Decoder, f: IkcFrame)
    requires !d.failed && d.state.FrameType? && f.Bulk? && Encodable(f)
    ensures Accepts(d, Encode(f)) && Bytewise(d, Encode(f)) == Deliver(d, f)
  {
    var tag := [DATA_CHUNK_FRAME];
    var payload := f.header + f.data;
    var len := U32ToLe(|payload|);
    U32FromLeInvertsToLe(|payload|);
    ReceiveIsBytewise(d, tag);
    var d1 := Receive(d, tag);
    assert [] + len == len && [] + payload == payload;
    ReceiveIsBytewise(d1, len);
    var d2 := Receive(d1, len);
    assert d2 == d.(state := InBulkPayload(|payload|, []));
    ReceiveIsBytewise(d2, payload);
    assert payload[..CHUNK_HEADER_SIZE] == f.header && payload[CHUNK_HEADER_SIZE..] == f.data;
    BytewiseConcat(d1, len, payload);
    BytewiseConcat(d, tag, len + payload);
    assert tag + len + payload == tag + (len + payload);
  }

  lemma BytewiseFrame(d: Decoder, f: IkcFrame)
    requires !d.failed && d.state.FrameType? && Encodable(f)
    ensures Accepts(d, Encode(f)) && Bytewise(d, Encode(f)) == Deliver(d, f)
  {
    if f.Message? { BytewiseMessage(d, f); } else { BytewiseBulk(d, f); }
  }

  lemma {:induction false} BytewiseEncodeAll(d: Decoder, fs: seq<IkcFrame>)
    requires !d.failed && d.state.FrameType? && AllEncodable(fs)
    ensures Accepts(d, EncodeAll(fs))
    ensures Bytewise(d, EncodeAll(fs)) == d.(delivered := d.delivered + fs)
    decreases |fs|
  {
    if fs == [] {
      assert d.delivered + fs == d.delivered;
    } else {
      var (init, last) := (fs[..|fs| - 1], fs[|fs| - 1]);
      assert fs == init + [last];
      BytewiseEncodeAll(d, init);
      BytewiseOneMore(d, EncodeAll(init), d.delivered + init, last);
      ConcatAssoc(d.delivered, init, [last]);
    }
  }

  lemma BytewiseOneMore(d: Decoder, wire: Bytes, delivered: seq<IkcFrame>, f: IkcFrame)
    requires !d.failed && d.state.FrameType? && Encodable(f)
    requires Accepts(d, wire) && Bytewise(d, wire) == d.(delivered := delivered)
    ensures Accepts(d, wire + Encode(f)) && Bytewise(d, wire + Encode(f)) == d.(delivered := delivered + [f])
  {
    BytewiseFrame(d.(delivered := delivered), f);
    BytewiseConcat(d, wire, Encode(f));
  }

  /** The bytes of the frame in progress. */
  function Pending(st: Inbound): (s: Bytes)
  {
    match st
    case FrameType => []
    case InMessage(got) => [MESSAGE_FRAME] + got
    case InBulkLength(got) => [DATA_CHUNK_FRAME] + got
    case InBulkPayload(expected, got) => [DATA_CHUNK_FRAME] + U32ToLe(expected) + got
  }

  /** A read either extends the frame in progress or completes it. */
  lemma ReceiveExtendsPending(d: Decoder, read: Bytes)
    requires Valid(d) && Fits(d, read) && !Receive(d, read).failed
    ensures
      var d' := Receive(d, read);
      || (d'.delivered == d.delivered && Pending(d'.state) == Pending(d.state) + read)
      || exists f :: d' == Deliver(d, f) && Encodable(f) && Encode(f) == Pending(d.state) + read
  {
    var d' := Receive(d, read);
    match d.state {
      case FrameType =>
        assert Pending(d'.state) == read;
      case InMessage(got) =>
        assert [MESSAGE_FRAME] + (got + read) == Pending(d.state) + read;
        if d'.state.FrameType? {
          var f: IkcFrame := Message(got + read);
          assert d' == Deliver(d, f) && Encode(f) == Pending(d.state) + read;
        }
      case InBulkLength(got) =>
        if |got + read| == 4 { U32ToLeInvertsFromLe(got + read); }
        assert Pending(d'.state) == [DATA_CHUNK_FRAME] + (got + read);
      case InBulkPayload(expected, got) =>
        var all := got + read;
        assert [DATA_CHUNK_FRAME] + U32ToLe(expected) + all == Pending(d.state) + read;
        if d'.state.FrameType? {
          var f: IkcFrame := Bulk(all[..CHUNK_HEADER_SIZE], all[CHUNK_HEADER_SIZE..]);
          assert f.header + f.data == all;
          assert d' == Deliver(d, f) && Encode(f) == Pending(d.state) + read;
        }
    }
  }

  /** What the decoder has taken in: the encodings of what it delivered, then what it holds. */
  ghost function Taken(d: Decoder): Bytes
    requires AllEncodable(d.delivered)
  {
    EncodeAll(d.delivered) + Pending(d.state)
  }

  lemma DeliverKeepsBytes(d: Decoder, f: IkcFrame, read: Bytes)
    requires AllEncodable(d.delivered) && Encodable(f) && Encode(f) == Pending(d.state) + read
    ensures AllEncodable(Deliver(d, f).delivered)
    ensures Taken(Deliver(d, f)) == Taken(d) + read
  {
    EncodeAllAppend(d.delivered, f);
    var (encoded, pending) := (EncodeAll(d.delivered), Pending(d.state));
    ConcatAssoc(encoded, pending, read);
    assert encoded + (pending + read) + [] == encoded + (pending + read);
  }

  lemma ReceiveKeepsBytes(d: Decoder, read: Bytes, d': Decoder)
    requires Valid(d) && Fits(d, read) && AllEncodable(d.delivered)
    requires d' == Receive(d, read) && !d'.failed
    ensures AllEncodable(d'.delivered) && Taken(d') == Taken(d) + read
  {
    ReceiveExtendsPending(d, read);
    if d'.delivered == d.delivered && Pending(d'.state) == Pending(d.state) + read {
      assert EncodeAll(d.delivered) + (Pending(d.state) + read) == Taken(d) + read;
    } else {
      var f :| d' == Deliver(d, f) && Encodable(f) && Encode(f) == Pending(d.state) + read;
      DeliverKeepsBytes(d, f, read);
    }
  }

  /** Nothing is lost or invented on the way in: while the decoder has not failed, the bytes read
      are the encoding of what it delivered followed by what it holds. */
  lemma {:induction false} FeedKeepsBytes(d: Decoder, cuts: seq<Bytes>)
    requires Valid(d) && IsRun(d, cuts) && !Feed(d, cuts).failed && AllEncodable(d.delivered)
    ensures AllEncodable(Feed(d, cuts).delivered)
    ensures Taken(Feed(d, cuts)) == Taken(d) + Flatten(cuts)
    decreases |cuts|
  {
    if cuts == [] {
      assert Taken(d) + [] == Taken(d);
    } else {
      var d' := Receive(d, cuts[0]);
      if d'.failed {
        FailureIsFinal(d', cuts[1..]);
        assert false;
      }
      ReceiveKeepsBytes(d, cuts[0], d');
      FeedKeepsBytes(d', cuts[1..]);
      ConcatAssoc(Taken(d), cuts[0], Flatten(cuts[1..]));
    }
  }

  lemma FailureIsFinal(d: Decoder, cuts: seq<Bytes>)
    requires Valid(d) && d.failed && IsRun(d, cuts)
    ensures cuts == [] && Feed(d, cuts) == d
  {
  }

  lemma {:induction false} BytewiseSplit(d: Decoder, a: Bytes, b: Bytes)
    requires Valid(d) && Accepts(d, a + b)
    ensures Accepts(d, a) && Accepts(Bytewise(d, a), b)
    decreases |a|
  {
    if a == [] {
      assert a + b == b;
    } else {
      assert (a + b)[..1] == a[..1] && (a + b)[1..] == a[1..] + b;
      BytewiseSplit(Receive(d, a[..1]), a[1..], b);
    }
  }

  lemma BytewisePending(d: Decoder, st: Inbound)
    requires !d.failed && d.state.FrameType? && ValidState(st)
    ensures Accepts(d, Pending(st)) && Bytewise(d, Pending(st)) == d.(state := st)
  {
    match st {
      case FrameType =>
      case InMessage(got) => BytewisePart(d, MESSAGE_FRAME, got);
      case InBulkLength(got) => BytewisePart(d, DATA_CHUNK_FRAME, got);
      case InBulkPayload(expected, got) =>
        BytewisePart(d, DATA_CHUNK_FRAME, U32ToLe(expected));
        U32FromLeInvertsToLe(expected);
        var d' := d.(state := InBulkPayload(expected, []));
        assert [] + got == got;
        if got != [] { ReceiveIsBytewise(d', got); }
        BytewiseConcat(d, [DATA_CHUNK_FRAME] + U32ToLe(expected), got);
    }
  }

  /** A frame type byte and, if there is any, one read of the field after it. */
  lemma BytewisePart(d: Decoder, tag: byte, got: Bytes)
    requires !d.failed && d.state.FrameType? && tag in {MESSAGE_FRAME, DATA_CHUNK_FRAME}
    requires |got| < (if tag == MESSAGE_FRAME then MESSAGE_SIZE else 5)
    ensures Accepts(d, [tag] + got)
    ensures Bytewise(d, [tag] + got)
         == d.(state := if tag == MESSAGE_FRAME then InMessage(got)
                        else if |got| < 4 then InBulkLength(got) else InBulkPayload(U32FromLe(got), []))
  {
    ReceiveIsBytewise(d, [tag]);
    var d' := Receive(d, [tag]);
    assert [] + got == got;
    if got != [] { ReceiveIsBytewise(d', got); }
    BytewiseConcat(d, [tag], got);
  }

  /** Where the decoder is after a fragmented stream, for every stream that has not made it fail:
      it holds `st` and has delivered `fs` if and only if the stream is the encoding of `fs`
      followed by the bytes of `st`. */
  lemma LiveStates(cuts: seq<Bytes>, st: Inbound, fs: seq<IkcFrame>)
    requires IsRun(START, cuts) && ValidState(st)
    ensures Feed(START, cuts) == Decoder(st, fs, false)
       <==> AllEncodable(fs) && Flatten(cuts) == EncodeAll(fs) + Pending(st)
  {
    if AllEncodable(fs) && Flatten(cuts) == EncodeAll(fs) + Pending(st) {
      FeedIsBytewise(START, cuts);
      BytewiseEncodeAll(START, fs);
      assert [] + fs == fs;
      BytewisePending(Decoder(FrameType, fs, false), st);
      BytewiseConcat(START, EncodeAll(fs), Pending(st));
    }
    if Feed(START, cuts) == Decoder(st, fs, false) {
      FeedKeepsBytes(START, cuts);
      assert Taken(START) == [];
      assert [] + Flatten(cuts) == Flatten(cuts);
    }
  }

  /** The decoder is the exact inverse of the encoder: a fragmented stream leaves it between frames
      with `fs` delivered if and only if the stream is the encoding of `fs`. */
  lemma RoundTrip(cuts: seq<Bytes>, fs: seq<IkcFrame>)
    requires IsRun(START, cuts)
    ensures Feed(START, cuts) == Decoder(FrameType, fs, false)
       <==> AllEncodable(fs) && Flatten(cuts) == EncodeAll(fs)
  {
    LiveStates(cuts, FrameType, fs);
    if AllEncodable(fs) { assert EncodeAll(fs) + [] == EncodeAll(fs); }
  }

  /** Part way through a well-formed stream, the rest of it takes the decoder to its end. */
  lemma PartWay(cuts: seq<Bytes>, fs: seq<IkcFrame>) returns (rest: Bytes)
    requires IsRun(START, cuts) && AllEncodable(fs) && Flatten(cuts) <= EncodeAll(fs)
    ensures Accepts(Feed(START, cuts), rest) && Bytewise(Feed(START, cuts), rest) == Decoder(FrameType, fs, false)
  {
    FeedIsBytewise(START, cuts);
    AllDecoded(fs);
    rest := BytewiseRest(START, Flatten(cuts), EncodeAll(fs));
  }

  lemma AllDecoded(fs: seq<IkcFrame>)
    requires AllEncodable(fs)
    ensures Accepts(START, EncodeAll(fs)) && Bytewise(START, EncodeAll(fs)) == Decoder(FrameType, fs, false)
  {
    BytewiseEncodeAll(START, fs);
    assert [] + fs == fs;
  }

  lemma BytewiseRest(d: Decoder, taken: Bytes, all: Bytes) returns (rest: Bytes)
    requires Valid(d) && Accepts(d, all) && taken <= all
    ensures Accepts(d, taken) && Accepts(Bytewise(d, taken), rest)
    ensures Bytewise(Bytewise(d, taken), rest) == Bytewise(d, all)
  {
    rest := all[|taken|..];
    assert all == taken + rest;
    BytewiseSplit(d, taken, rest);
    BytewiseConcat(d, taken, rest);
  }

  /** Part way through a well-formed stream the decoder is alive and offers the socket a slice that
      is not empty. */
  lemma WellFormedNeverWedges(cuts: seq<Bytes>, fs: seq<IkcFrame>)
    requires IsRun(START, cuts) && AllEncodable(fs) && Flatten(cuts) <= EncodeAll(fs)
    ensures !Feed(START, cuts).failed && Room(Feed(START, cuts).state) > 0
  {
    var rest := PartWay(cuts, fs);
  }

  lemma {:induction false} BytewiseDeliversMore(d: Decoder, bytes: Bytes)
    requires Valid(d) && Accepts(d, bytes)
    ensures d.delivered <= Bytewise(d, bytes).delivered
    decreases |bytes|
  {
    if bytes != [] {
      ReceiveDeliversOne(d, bytes[..1]);
      BytewiseDeliversMore(Receive(d, bytes[..1]), bytes[1..]);
    }
  }

  /** Part way through a well-formed stream, what has been delivered is a prefix of what was sent. */
  lemma PrefixDeliversPrefix(cuts: seq<Bytes>, fs: seq<IkcFrame>)
    requires IsRun(START, cuts) && AllEncodable(fs) && Flatten(cuts) <= EncodeAll(fs)
    ensures Feed(START, cuts).delivered <= fs
  {
    var rest := PartWay(cuts, fs);
    BytewiseDeliversMore(Feed(START, cuts), rest);
  }

  /** A bulk length prefix of zero, and only that, leaves the decoder with an empty slice to read
      into: the read then returns no bytes, which it takes for the peer having closed. */
  lemma ZeroLengthPrefixWedges(cuts: seq<Bytes>)
    requires IsRun(START, cuts) && !Feed(START, cuts).failed
    ensures Room(Feed(START, cuts).state) == 0
       <==> exists fs :: AllEncodable(fs) && Flatten(cuts) == EncodeAll(fs) + [DATA_CHUNK_FRAME, 0, 0, 0, 0]
    ensures Room(Feed(START, cuts).state) == 0 ==>
              forall read :: Fits(Feed(START, cuts), read) ==> Receive(Feed(START, cuts), read).failed
  {
    var d := Feed(START, cuts);
    var wedged := InBulkPayload(0, []);
    assert Pending(wedged) == [DATA_CHUNK_FRAME, 0, 0, 0, 0];
    if Room(d.state) == 0 {
      LiveStates(cuts, wedged, d.delivered);
    }
    forall fs | AllEncodable(fs) && Flatten(cuts) == EncodeAll(fs) + Pending(wedged)
      ensures d.state == wedged
    {
      LiveStates(cuts, wedged, fs);
    }
  }

  //
  // Which streams are refused
  //

  /** The last bytes of a stream that is refused: an unknown frame type, or a bulk frame whose payload is
      shorter than a chunk header. */
  ghost predicate Offends(bytes: Bytes)
  {
    || (|bytes| == 1 && bytes[0] != 0x01 && bytes[0] != 0x02)
    || (exists payload: Bytes :: 0 < |payload| < 24 && bytes == [0x02] + U32ToLe(|payload|) + payload)
  }

  lemma OffenceFails(d: Decoder, bytes: Bytes)
    requires !d.failed && d.state.FrameType? && Offends(bytes)
    ensures Accepts(d, bytes) && Bytewise(d, bytes) == Fail(d)
  {
    if |bytes| == 1 && bytes[0] != 0x01 && bytes[0] != 0x02 {
      ReceiveIsBytewise(d, bytes);
    } else {
      var payload: Bytes :| 0 < |payload| < 24 && bytes == [0x02] + U32ToLe(|payload|) + payload;
      BytewisePart(d, DATA_CHUNK_FRAME, U32ToLe(|payload|));
      U32FromLeInvertsToLe(|payload|);
      var d' := d.(state := InBulkPayload(|payload|, []));
      assert [] + payload == payload;
      ReceiveIsBytewise(d', payload);
      BytewiseConcat(d, [DATA_CHUNK_FRAME] + U32ToLe(|payload|), payload);
    }
  }

  /** What a failing read leaves behind the frames delivered. */
  lemma FailingReadOffends(d: Decoder, read: Bytes)
    requires Valid(d) && Fits(d, read) && read != [] && Receive(d, read).failed
    ensures Offends(Pending(d.state) + read)
  {
    FailsIff(d, read);
    if d.state.FrameType? {
      assert [] + read == read;
    } else {
      var payload := d.state.got + read;
      ConcatAssoc([DATA_CHUNK_FRAME] + U32ToLe(d.state.expected), d.state.got, read);
      assert Pending(d.state) + read == [0x02] + U32ToLe(|payload|) + payload;
    }
  }

  /** The decoder refuses a stream, however fragmented, if and only if that is whole frames and then an
      offence; it has delivered those frames. */
  lemma RefusedStreams(cuts: seq<Bytes>, fs: seq<IkcFrame>)
    requires IsRun(START, cuts)
    ensures Feed(START, cuts) == Decoder(FrameType, fs, true)
       <==> AllEncodable(fs) && exists bad :: Offends(bad) && Flatten(cuts) == EncodeAll(fs) + bad
  {
    if Feed(START, cuts) == Decoder(FrameType, fs, true) {
      RefusedByLastRead(cuts, fs);
    }
    if AllEncodable(fs) {
      forall bad | Offends(bad) && Flatten(cuts) == EncodeAll(fs) + bad
        ensures Feed(START, cuts) == Decoder(FrameType, fs, true)
      {
        FeedIsBytewise(START, cuts);
        AllDecoded(fs);
        OffenceFails(Decoder(FrameType, fs, false), bad);
        BytewiseConcat(START, EncodeAll(fs), bad);
      }
    }
  }

  lemma RefusedByLastRead(cuts: seq<Bytes>, fs: seq<IkcFrame>)
    requires IsRun(START, cuts) && Feed(START, cuts) == Decoder(FrameType, fs, true)
    ensures AllEncodable(fs) && exists bad :: Offends(bad) && Flatten(cuts) == EncodeAll(fs) + bad
  {
    var init, read := LastRead(START, cuts);
    var d := Feed(START, init);
    FailsIff(d, read);
    FeedKeepsBytes(START, init);
    FailingReadOffends(d, read);
    FlattenAppend(init, read);
    assert [] + Flatten(init) == Flatten(init);
    ConcatAssoc(EncodeAll(fs), Pending(d.state), read);
  }

  /** A failed run has failed at its last read. */
  lemma {:induction false} LastRead(d: Decoder, cuts: seq<Bytes>) returns (init: seq<Bytes>, read: Bytes)
    requires Valid(d) && !d.failed && IsRun(d, cuts) && Feed(d, cuts).failed
    ensures read != [] && cuts == init + [read] && IsRun(d, init) && !Feed(d, init).failed
    ensures Fits(Feed(d, init), read) && Feed(d, cuts) == Receive(Feed(d, init), read)
    decreases |cuts|
  {
    var d' := Receive(d, cuts[0]);
    if d'.failed {
      FailureIsFinal(d', cuts[1..]);
      init, read := [], cuts[0];
    } else {
      init, read := LastRead(d', cuts[1..]);
      assert ([cuts[0]] + init)[1..] == init;
      init := [cuts[0]] + init;
    }
  }

  //
  // Inbound: the code, on buffers
  //

  datatype Phase = AtFrameType | AtMessage | AtBulkLength | AtBulkPayload

  class InboundReader {
    var phase: Phase
    const frameTypeBuf: array<byte>
    var frameTypeBufLen: nat
    const msgBuf: array<byte>
    var msgBufLen: nat
    const bulkLenBuf: array<byte>
    var bulkLenBufLen: nat
    var bulkPayloadBuf: array<byte>
    var bulkPayloadLen: nat
    var bulkExpectedLen: u32
    var delivered: seq<IkcFrame>
    var failed: bool

    ghost predicate WellFormed()
      reads this, frameTypeBuf, msgBuf, bulkLenBuf, bulkPayloadBuf
    {
      && frameTypeBuf.Length == 1 && msgBuf.Length == MESSAGE_SIZE && bulkLenBuf.Length == 4
      && frameTypeBuf != msgBuf && frameTypeBuf != bulkLenBuf && msgBuf != bulkLenBuf
      && bulkPayloadBuf !in {frameTypeBuf, msgBuf, bulkLenBuf}
      && (!failed ==>
            match phase
            case AtFrameType => frameTypeBufLen == 0
            case AtMessage => frameTypeBufLen == 0 && msgBufLen < MESSAGE_SIZE
            case AtBulkLength => frameTypeBufLen == 0 && bulkLenBufLen < 4
            case AtBulkPayload =>
              && frameTypeBufLen == 0
              && bulkPayloadBuf.Length == bulkExpectedLen
              && (bulkPayloadLen < bulkExpectedLen || bulkPayloadLen == bulkExpectedLen == 0))
    }

    /** The value that the fields stand for. */
    ghost function State(): (d: Decoder)
      requires WellFormed()
      reads this, frameTypeBuf, msgBuf, bulkLenBuf, bulkPayloadBuf
      ensures Valid(d)
    {
      var st :=
        if failed then FrameType else
        match phase
        case AtFrameType => FrameType
        case AtMessage => InMessage(msgBuf[..msgBufLen])
        case AtBulkLength => InBulkLength(bulkLenBuf[..bulkLenBufLen])
        case AtBulkPayload => InBulkPayload(bulkExpectedLen, bulkPayloadBuf[..bulkPayloadLen]);
      Decoder(st, delivered, failed)
    }

    constructor ()
      ensures WellFormed() && State() == START
      ensures fresh(frameTypeBuf) && fresh(msgBuf) && fresh(bulkLenBuf) && fresh(bulkPayloadBuf)
    {
      phase, delivered, failed := AtFrameType, [], false;
      frameTypeBuf, frameTypeBufLen := new byte[1](_ => 0), 0;
      msgBuf, msgBufLen := new byte[MESSAGE_SIZE](_ => 0), 0;
      bulkLenBuf, bulkLenBufLen := new byte[4](_ => 0), 0;
      bulkPayloadBuf, bulkPayloadLen, bulkExpectedLen := new byte[0], 0, 0;
    }

    /** One completed read, `read` being the bytes that the socket put into the offered slice. */
    method OnRead(read: Bytes)
      requires WellFormed() && Fits(State(), read)
      modifies this, frameTypeBuf, msgBuf, bulkLenBuf, bulkPayloadBuf
      ensures WellFormed() && State() == Receive(old(State()), read)
      ensures read == [] ==> failed && delivered == old(delivered)
      ensures bulkPayloadBuf == old(bulkPayloadBuf) || fresh(bulkPayloadBuf)
    {
      var n := |read|;
      if n == 0 {
        failed := true;
        return;
      }
      match phase {
        case AtFrameType => OnFrameType(read);
        case AtMessage => OnMessage(read);
        case AtBulkLength => OnBulkLength(read);
        case AtBulkPayload => OnBulkPayload(read);
      }
    }

    method OnFrameType(read: Bytes)
      requires WellFormed() && Fits(State(), read) && read != [] && phase.AtFrameType?
      modifies this, frameTypeBuf, msgBuf, bulkLenBuf
      ensures WellFormed() && State() == Receive(old(State()), read)
      ensures bulkPayloadBuf == old(bulkPayloadBuf)
    {
      frameTypeBuf[frameTypeBufLen] := read[0];
      frameTypeBufLen := frameTypeBufLen + |read|;
      if frameTypeBuf[0] == MESSAGE_FRAME {
        phase, msgBufLen := AtMessage, 0;
        forall i | 0 <= i < MESSAGE_SIZE { msgBuf[i] := 0; }
      } else if frameTypeBuf[0] == DATA_CHUNK_FRAME {
        phase, bulkLenBufLen := AtBulkLength, 0;
        forall i | 0 <= i < 4 { bulkLenBuf[i] := 0; }
      } else {
        failed := true;
        return;
      }
      frameTypeBufLen := 0;
    }

    method OnMessage(read: Bytes)
      requires WellFormed() && Fits(State(), read) && read != [] && phase.AtMessage?
      modifies this, msgBuf
      ensures WellFormed() && State() == Receive(old(State()), read)
      ensures bulkPayloadBuf == old(bulkPayloadBuf)
    {
      Fill(msgBuf, msgBufLen, read);
      msgBufLen := msgBufLen + |read|;
      if msgBufLen == msgBuf.Length {
        assert msgBuf[..msgBufLen] == msgBuf[..];
        delivered := delivered + [Message(msgBuf[..])];
        phase := AtFrameType;
      }
    }

    method OnBulkLength(read: Bytes)
      requires WellFormed() && Fits(State(), read) && read != [] && phase.AtBulkLength?
      modifies this, bulkLenBuf
      ensures WellFormed() && State() == Receive(old(State()), read)
      ensures bulkPayloadBuf == old(bulkPayloadBuf) || fresh(bulkPayloadBuf)
    {
      Fill(bulkLenBuf, bulkLenBufLen, read);
      bulkLenBufLen := bulkLenBufLen + |read|;
      if bulkLenBufLen == 4 {
        assert bulkLenBuf[..bulkLenBufLen] == bulkLenBuf[..];
        bulkExpectedLen := U32FromLe(bulkLenBuf[..]);
        bulkPayloadBuf := new byte[bulkExpectedLen](_ => 0);
        bulkPayloadLen := 0;
        phase := AtBulkPayload;
      }
    }

    method OnBulkPayload(read: Bytes)
      requires WellFormed() && Fits(State(), read) && read != [] && phase.AtBulkPayload?
      modifies this, bulkPayloadBuf
      ensures WellFormed() && State() == Receive(old(State()), read)
      ensures bulkPayloadBuf == old(bulkPayloadBuf)
    {
      Fill(bulkPayloadBuf, bulkPayloadLen, read);
      bulkPayloadLen := bulkPayloadLen + |read|;
      if bulkPayloadLen == bulkExpectedLen {
        assert bulkPayloadBuf[..bulkPayloadLen] == bulkPayloadBuf[..];
        if bulkPayloadBuf.Length < CHUNK_HEADER_SIZE {
          failed := true;
          return;
        }
        delivered := delivered + [Bulk(bulkPayloadBuf[..CHUNK_HEADER_SIZE], bulkPayloadBuf[CHUNK_HEADER_SIZE..])];
        phase := AtFrameType;
      }
    }

    /** The socket's side of a read: `read` lands at the start of the offered slice. */
    static method Fill(buf: array<byte>, start: nat, read: Bytes)
      requires start + |read| <= buf.Length
      modifies buf
      ensures buf[..start + |read|] == old(buf[..start]) + read
    {
      forall i | 0 <= i < |read| {
        buf[start + i] := read[i];
      }
    }
  }
}

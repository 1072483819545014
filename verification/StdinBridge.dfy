/** The standalone I/O handler's side of guest reads from standard input: chunks arrive on a channel and
    are handed to the guest in pieces of the sizes that it asks for. */
module StdinBridge {
  import opened Bytes

  /** `channel` is what the input channel yields before it turns out to be closed. */
  datatype State = State(buffer: Bytes, closed: bool, channel: seq<Bytes>)

  /** A guest read of standard input: its byte count and the length in the pull header. */
  datatype Pull = Pull(count: u32, dataLen: u32)

  function MaxBytes(p: Pull): (m: u32)
    ensures m <= p.count && m <= p.dataLen && (m == p.count || m == p.dataLen)
  {
    if p.count <= p.dataLen then p.count else p.dataLen
  }

  /** Wait for a chunk, if nothing is buffered and the channel is not known to be closed. */
  function Refill(s: State): State
  {
    if s.buffer != [] || s.closed then s
    else if s.channel == [] then s.(closed := true)
    else State(s.channel[0], false, s.channel[1..])
  }

  function Take(s: State, p: Pull): (r: (State, Bytes))
  {
    var s1 := Refill(s);
    var n := if |s1.buffer| <= MaxBytes(p) then |s1.buffer| else MaxBytes(p);
    (s1.(buffer := s1.buffer[n..]), s1.buffer[..n])
  }

  /** A read gets what is buffered, up to what it asked for; if nothing is, the next chunk is waited for first,
      and only one. Nothing else is taken off the channel. */
  lemma TakeInFull(s: State, p: Pull)
    ensures
      var (s', frame) := Take(s, p);
      var waits := s.buffer == [] && !s.closed;
      var ready := if waits && s.channel != [] then s.channel[0] else s.buffer;
      && frame <= ready && s'.buffer == ready[|frame|..]
      && |frame| == (if |ready| <= p.count && |ready| <= p.dataLen then |ready| else if p.count <= p.dataLen then p.count else p.dataLen)
      && s'.channel == (if waits && s.channel != [] then s.channel[1..] else s.channel)
      && (s'.closed <==> s.closed || (waits && s.channel == []))
  {
  }

  /** The data frames that a sequence of reads is answered with, and what is left. */
  function Serve(s: State, pulls: seq<Pull>): (r: (State, seq<Bytes>))
    ensures |r.1| == |pulls|
    decreases |pulls|
  {
    if pulls == [] then (s, []) else
    var (s1, frame) := Take(s, pulls[0]);
    var (s2, frames) := Serve(s1, pulls[1..]);
    (s2, [frame] + frames)
  }

  /** Everything that the guest has still to get. */
  function Input(s: State): Bytes
  {
    s.buffer + if s.closed then [] else Flatten(s.channel)
  }

  lemma RefillConserves(s: State)
    requires s.closed ==> s.channel == []
    ensures (Refill(s).closed ==> Refill(s).channel == []) && Input(Refill(s)) == Input(s)
  {
    if s.buffer == [] && !s.closed && s.channel != [] {
      assert [] + Flatten(s.channel) == s.channel[0] + Flatten(s.channel[1..]);
    }
  }

  lemma TakeConserves(s: State, p: Pull)
    requires s.closed ==> s.channel == []
    ensures
      var (s', frame) := Take(s, p);
      && (s'.closed ==> s'.channel == [])
      && frame + Input(s') == Input(s)
      && |frame| <= MaxBytes(p)
  {
    RefillConserves(s);
    var (s1, (s', frame)) := (Refill(s), Take(s, p));
    assert frame + s'.buffer == s1.buffer;
    ConcatAssoc(frame, s'.buffer, if s1.closed then [] else Flatten(s1.channel));
  }

  /** Over any run of reads, the frames followed by what is left are the input, in order; and no frame is
      longer than the read asked for, so its length always fits the 32-bit field of its header. */
  lemma {:induction false} StdinConserved(s: State, pulls: seq<Pull>)
    requires s.closed ==> s.channel == []
    ensures
      var (s', frames) := Serve(s, pulls);
      && (s'.closed ==> s'.channel == [])
      && Flatten(frames) + Input(s') == Input(s)
      && forall i :: 0 <= i < |pulls| ==> |frames[i]| <= MaxBytes(pulls[i]) < 0x1_0000_0000
    decreases |pulls|
  {
    if pulls != [] {
      TakeConserves(s, pulls[0]);
      var (s1, frame) := Take(s, pulls[0]);
      StdinConserved(s1, pulls[1..]);
      var (s2, frames) := Serve(s1, pulls[1..]);
      assert ([frame] + frames)[1..] == frames;
      ConcatAssoc(frame, Flatten(frames), Input(s2));
    } else {
      assert [] + Input(s) == Input(s);
    }
  }

  ghost predicate NoEmptyChunk(channel: seq<Bytes>)
  {
    forall i :: 0 <= i < |channel| ==> channel[i] != []
  }

  /** A read is answered with no bytes, which the guest takes for the end of input, if and only if it
      asked for none, the input is over, or an empty chunk was next on the channel. */
  lemma EmptyFrameIff(s: State, p: Pull)
    requires s.closed ==> s.channel == []
    ensures Take(s, p).1 == []
       <==> || MaxBytes(p) == 0
            || (s.buffer == [] && s.channel == [])
            || (s.buffer == [] && s.channel != [] && s.channel[0] == [])
  {
  }

  /** With no empty chunks, the end of input is reported exactly when all of it has been delivered. */
  lemma {:induction false} EndOfInputIsExact(s: State, pulls: seq<Pull>, i: nat)
    requires (s.closed ==> s.channel == []) && NoEmptyChunk(s.channel)
    requires i < |pulls| && MaxBytes(pulls[i]) > 0
    ensures Serve(s, pulls).1[i] == [] <==> Flatten(Serve(s, pulls).1[..i]) == Input(s)
    decreases i
  {
    if i == 0 {
      EmptyFrameIff(s, pulls[0]);
      InputEmptyIff(s);
      assert Serve(s, pulls).1[..0] == [];
    } else {
      var s1 := Take(s, pulls[0]).0;
      TakeConserves(s, pulls[0]);
      EndOfInputIsExact(s1, pulls[1..], i - 1);
      FirstFrame(s, pulls, i);
      SamePrefix(Take(s, pulls[0]).1, Flatten(Serve(s1, pulls[1..]).1[..i - 1]), Input(s1));
    }
  }

  lemma FirstFrame(s: State, pulls: seq<Pull>, i: nat)
    requires 0 < i < |pulls|
    ensures
      var ((s1, frame), frames) := (Take(s, pulls[0]), Serve(Take(s, pulls[0]).0, pulls[1..]).1);
      Serve(s, pulls).1[i] == frames[i - 1] && Flatten(Serve(s, pulls).1[..i]) == frame + Flatten(frames[..i - 1])
  {
    var ((s1, frame), frames) := (Take(s, pulls[0]), Serve(Take(s, pulls[0]).0, pulls[1..]).1);
    assert Serve(s, pulls).1 == [frame] + frames;
    assert ([frame] + frames)[..i] == [frame] + frames[..i - 1];
    assert ([frame] + frames[..i - 1])[1..] == frames[..i - 1];
  }

  lemma SamePrefix(a: Bytes, b: Bytes, c: Bytes)
    ensures a + b == a + c <==> b == c
  {
    if a + b == a + c {
      assert b == (a + b)[|a|..] == (a + c)[|a|..] == c;
    }
  }

  lemma InputEmptyIff(s: State)
    requires (s.closed ==> s.channel == []) && NoEmptyChunk(s.channel)
    ensures Input(s) == [] <==> s.buffer == [] && s.channel == []
  {
    if s.channel != [] {
      assert |Flatten(s.channel)| >= |s.channel[0]|;
    }
  }

  /** The handler's buffer, as it is updated in place. */
  class Bridge {
    var inputBuffer: Bytes
    var inputClosed: bool
    var inputRx: seq<Bytes>

    ghost function Value(): State
      reads this
    {
      State(inputBuffer, inputClosed, inputRx)
    }

    constructor (inputRx: seq<Bytes>)
      ensures Value() == State([], false, inputRx)
    {
      inputBuffer, inputClosed := [], false;
      this.inputRx := inputRx;
    }

    method HandleReadRequest(p: Pull) returns (data: Bytes, actualLen: u32)
      modifies this
      ensures (Value(), data) == Take(old(Value()), p)
      ensures actualLen == |data|
    {
      var maxBytes := if p.count <= p.dataLen then p.count else p.dataLen;
      if inputBuffer == [] && !inputClosed {
        if inputRx != [] {
          assert inputBuffer + inputRx[0] == inputRx[0];
          inputBuffer, inputRx := inputBuffer + inputRx[0], inputRx[1..];
        } else {
          inputClosed := true;
        }
      }
      var available := if |inputBuffer| <= maxBytes then |inputBuffer| else maxBytes;
      data, inputBuffer := inputBuffer[..available], inputBuffer[available..];
      actualLen := |data|;  // always in range: the frame is no longer than a 32-bit count
    }
  }
}

/** The multi-part responses of the host filesystem daemon: the answer to a `readlink` whose target does
    not fit one message, and the queue that holds the parts after the first. */
module LongResponses {
  import opened Bytes
  import opened LongRequests
  import opened Wrappers

  datatype ReadlinkResponse = ReadlinkResponse(opId: u32, status: u32, target: Bytes)

  function SerializeResponse(r: ReadlinkResponse): (body: Option<Bytes>)
  {
    if |r.target| > MAX_PATH_LEN then None
    else Some(U32ToLe(r.opId) + U32ToLe(r.status) + U16ToLe(|r.target|) + r.target)
  }

  lemma ResponseLayout(r: ReadlinkResponse)
    requires SerializeResponse(r).Some?
    ensures
      var s := SerializeResponse(r).value;
      && |s| == 10 + |r.target| && s[..4] == U32ToLe(r.opId) && s[4..8] == U32ToLe(r.status)
      && s[8..10] == U16ToLe(|r.target|) && s[10..] == r.target
  {
  }

  function DeserializeResponse(s: Bytes): (r: Option<ReadlinkResponse>)
  {
    if |s| < 10 then None else
    var len := U16FromLe(s[8..10]);
    if |s| < 10 + len then None
    else Some(ReadlinkResponse(U32FromLe(s[..4]), U32FromLe(s[4..8]), s[10..10 + len]))
  }

  /** `chunk_long_response`: parts of the same shape as a request's, unless there would be too many. */
  function ChunkLongResponse(body: Bytes): (parts: Option<seq<Part>>)
  {
    if CeilDiv(|body|) > 0xFFFF then None else Some(Cut(body))
  }

  /** What the receiver puts together. */
  function Gather(parts: seq<Part>): Bytes
  {
    if parts == [] then [] else Chunk(parts[0]) + Gather(parts[1..])
  }

  lemma {:induction false} GatherCutFrom(body: Bytes, total: u16, i: u16)
    requires i + CeilDiv(|body|) == total
    ensures Gather(CutFrom(body, total, i)) == body
    decreases |body|
  {
    if body != [] {
      CutFromFirst(body, total, i);
      var n := if |body| <= PAYLOAD_SIZE then |body| else PAYLOAD_SIZE;
      GatherCutFrom(body[n..], total, i + 1);
      assert body[..n] + body[n..] == body;
    }
  }

  lemma DeserializeInverts(r: ReadlinkResponse)
    requires |r.target| <= MAX_PATH_LEN
    ensures DeserializeResponse(SerializeResponse(r).value) == Some(r)
  {
    var (id, status, target) := (U32ToLe(r.opId), U32ToLe(r.status), r.target);
    var len := U16ToLe(|target|);
    var s := id + status + len + target;
    U32FromLeInvertsToLe(r.opId);
    U32FromLeInvertsToLe(r.status);
    U16FromLeInvertsToLe(|target|);
    assert s[..4] == id;
    assert s[4..8] == status;
    assert s[8..10] == len;
    assert s[10..10 + |target|] == target;
  }

  /** Any response that can be serialized fits the part limit, and comes out of its parts as it went in. */
  lemma ResponseArrives(r: ReadlinkResponse)
    requires |r.target| <= MAX_PATH_LEN
    ensures
      var parts := ChunkLongResponse(SerializeResponse(r).value);
      && parts.Some? && parts.value != []
      && DeserializeResponse(Gather(parts.value)) == Some(r)
  {
    var body := SerializeResponse(r).value;
    CutFromFirst(body, CeilDiv(|body|), 0);
    GatherCutFrom(body, CeilDiv(|body|), 0);
    DeserializeInverts(r);
  }

  class HostFsHandler {
    var extraResponses: seq<Part>

    constructor ()
      ensures extraResponses == []
    {
      extraResponses := [];
    }

    /** Both debug assertions hold for any target that the length field can describe, so in particular for
        those that callers let through. */
    method EmitLongReadlinkResponse(opId: u32, status: u32, target: Bytes) returns (first: Part)
      requires |target| <= MAX_PATH_LEN
      modifies this
      ensures
        var parts := ChunkLongResponse(SerializeResponse(ReadlinkResponse(opId, status, target)).value).value;
        ChunkLongResponse(SerializeResponse(ReadlinkResponse(opId, status, target)).value).Some? && parts != []
        && first == parts[0] && extraResponses == old(extraResponses) + parts[1..]
    {
      var r := ReadlinkResponse(opId, status, target);
      ResponseArrives(r);
      var parts := ChunkLongResponse(SerializeResponse(r).value).value;
      first, extraResponses := parts[0], extraResponses + parts[1..];
    }

    method TakeNextResponsePart() returns (r: Option<Part>)
      modifies this
      ensures old(extraResponses) == [] ==> r == None && extraResponses == []
      ensures old(extraResponses) != [] ==> r == Some(old(extraResponses)[0]) && extraResponses == old(extraResponses)[1..]
    {
      if extraResponses == [] {
        return None;
      }
      r := Some(extraResponses[0]);
      extraResponses := extraResponses[1..];
    }

    /** The worker's turn: the first part and everything queued behind it go out together, so that the
        queue is empty when the next request is taken up. */
    method Respond(opId: u32, status: u32, target: Bytes) returns (out: seq<Part>)
      requires extraResponses == [] && |target| <= MAX_PATH_LEN
      modifies this
      ensures extraResponses == []
      ensures Some(out) == ChunkLongResponse(SerializeResponse(ReadlinkResponse(opId, status, target)).value)
    {
      var first := EmitLongReadlinkResponse(opId, status, target);
      ghost var parts := ChunkLongResponse(SerializeResponse(ReadlinkResponse(opId, status, target)).value).value;
      out := [first];
      var extra := TakeNextResponsePart();
      while extra.Some?
        invariant out + (if extra.Some? then [extra.value] else []) + extraResponses == parts
        invariant extra.None? ==> extraResponses == []
        decreases |extraResponses|, extra.Some?
      {
        out := out + [extra.value];
        extra := TakeNextResponsePart();
      }
      assert out == parts;
    }
  }
}

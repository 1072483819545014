/** The kernel log buffer: log strings are batched in a fixed-size byte buffer and written to the debug
    device in bulk, through an unchecked conversion of the buffered bytes to a string. */
module Klog {
  import opened Bytes
  import opened Utf8

  /** Concatenations of consecutive runs of strings, and the strings not yet written. */
  ghost predicate WholeStrings(appended: seq<Bytes>, writes: seq<Bytes>, groups: seq<seq<Bytes>>, held: seq<Bytes>)
  {
    && |groups| == |writes|
    && (forall i :: 0 <= i < |writes| ==> writes[i] == Flatten(groups[i]))
    && Flatten(groups) + held == appended
  }

  lemma HoldMore(appended: seq<Bytes>, writes: seq<Bytes>, groups: seq<seq<Bytes>>, held: seq<Bytes>, s: Bytes)
    requires WholeStrings(appended, writes, groups, held)
    ensures WholeStrings(appended + [s], writes, groups, held + [s])
    ensures Flatten(held + [s]) == Flatten(held) + s
  {
    ConcatAssoc(Flatten(groups), held, [s]);
    FlattenAppend(held, s);
  }

  lemma WriteHeld(appended: seq<Bytes>, writes: seq<Bytes>, groups: seq<seq<Bytes>>, held: seq<Bytes>)
    requires WholeStrings(appended, writes, groups, held)
    ensures WholeStrings(appended, writes + [Flatten(held)], groups + [held], [])
  {
    FlattenAppend(groups, held);
    assert Flatten(groups) + held + [] == appended;
  }

  lemma {:induction false} FlattenGroups(groups: seq<seq<Bytes>>, writes: seq<Bytes>)
    requires |groups| == |writes| && forall i :: 0 <= i < |writes| ==> writes[i] == Flatten(groups[i])
    ensures Flatten(writes) == Flatten(Flatten(groups))
  {
    if groups != [] {
      FlattenGroups(groups[1..], writes[1..]);
      FlattenConcat(groups[0], Flatten(groups[1..]));
    }
  }

  /** Bytes come out in the order in which they went in, none lost and none repeated. */
  lemma OutputFollowsInput(appended: seq<Bytes>, writes: seq<Bytes>, groups: seq<seq<Bytes>>, held: seq<Bytes>)
    requires WholeStrings(appended, writes, groups, held)
    ensures Flatten(writes) + Flatten(held) == Flatten(appended)
  {
    FlattenGroups(groups, writes);
    FlattenConcat(Flatten(groups), held);
  }

  lemma {:induction false} GroupText(groups: seq<seq<Bytes>>, i: nat, strings: seq<Bytes>)
    requires Flatten(groups) <= strings && i < |groups|
    requires forall k :: 0 <= k < |strings| ==> IsUtf8(strings[k])
    ensures forall k :: 0 <= k < |groups[i]| ==> IsUtf8(groups[i][k])
    decreases |groups|
  {
    var first := groups[0];
    assert Flatten(groups) == first + Flatten(groups[1..]);
    if i == 0 {
      forall k | 0 <= k < |first| ensures IsUtf8(first[k]) { assert first[k] == strings[k]; }
    } else {
      var rest := strings[|first|..];
      assert Flatten(groups[1..]) <= rest by { assert Flatten(groups[1..]) == Flatten(groups)[|first|..]; }
      GroupText(groups[1..], i - 1, rest);
    }
  }

  /** Every write is well-formed text if every string was: no write ends or starts inside a character. */
  lemma WritesAreText(appended: seq<Bytes>, writes: seq<Bytes>, groups: seq<seq<Bytes>>, held: seq<Bytes>)
    requires WholeStrings(appended, writes, groups, held)
    requires forall k :: 0 <= k < |appended| ==> IsUtf8(appended[k])
    ensures forall i :: 0 <= i < |writes| ==> IsUtf8(writes[i])
  {
    forall i | 0 <= i < |writes| ensures IsUtf8(writes[i]) {
      GroupText(groups, i, appended);
      Utf8Flatten(groups[i]);
    }
  }

  class KlogBuffer {
    const data: array<byte>
    var len: nat
    /** What the debug device has been given, one element per write. */
    var device: seq<Bytes>
    /** The strings appended so far, how the writes group them, and those still buffered. */
    ghost var appended: seq<Bytes>
    ghost var groups: seq<seq<Bytes>>
    ghost var held: seq<Bytes>

    /** `BUFFER_SIZE` is the length of `data`; logging is off when it is zero. */
    ghost predicate Valid()
      reads this, data
    {
      && data.Length > 0
      && len < data.Length
      && data[..len] == Flatten(held)
      && WholeStrings(appended, device, groups, held)
    }

    constructor (bufferSize: nat)
      requires bufferSize > 0
      ensures Valid() && data.Length == bufferSize && appended == [] && device == []
      ensures fresh(data)
    {
      data := new byte[bufferSize](_ => 0);
      len, device, appended, groups, held := 0, [], [], [], [];
    }

    method RawPuts(s: Bytes)
      modifies this`device
      ensures device == old(device) + [s]
    {
      device := device + [s];
    }

    /** All but the bound on `len`, which an append may reach before it flushes. */
    ghost predicate Sound()
      reads this, data
    {
      && data.Length > 0
      && len <= data.Length
      && data[..len] == Flatten(held)
      && WholeStrings(appended, device, groups, held)
    }

    method Flush()
      requires Sound()
      modifies this
      ensures Valid() && len == 0 && appended == old(appended)
      ensures device == if old(len) == 0 then old(device) else old(device) + [old(data[..len])]
      ensures data[..] == old(data[..])
    {
      if len == 0 {
        return;
      }
      RawPuts(data[..len]);
      WriteHeld(appended, old(device), groups, held);
      groups, held := groups + [held], [];
      len := 0;
    }

    /** The device and the buffer after `s` was appended to `buffer`: batched while there is room, written out
        together when that fills the buffer exactly; otherwise what was buffered is written first, and `s` is
        then buffered, or written too if the buffer has no room to spare for it. */
    ghost predicate Appended(s: Bytes, written: seq<Bytes>, buffer: Bytes)
      requires len <= data.Length
      reads this, data
    {
      var flushed := if buffer == [] then written else written + [buffer];
      if |buffer| + |s| < data.Length then device == written && data[..len] == buffer + s
      else if |buffer| + |s| == data.Length then device == written + [buffer + s] && len == 0
      else if |s| >= data.Length then device == flushed + [s] && len == 0
      else device == flushed && data[..len] == s
    }

    method Append(s: Bytes)
      requires Valid()
      modifies this, data
      ensures Valid() && appended == old(appended) + [s]
      ensures Appended(s, old(device), old(data[..len]))
    {
      if |s| > data.Length {
        Flush();
        RawPuts(s);
        Direct(s);
        return;
      }
      if len + |s| > data.Length {
        Flush();
        assert data[..len] + s == s;
      }
      Store(s);
      if len == data.Length {
        Flush();
      }
    }

    method Store(s: Bytes)
      requires Valid() && len + |s| <= data.Length
      modifies this`len, this`appended, this`held, data
      ensures Sound() && appended == old(appended) + [s] && len == old(len) + |s|
      ensures data[..len] == old(data[..len]) + s
    {
      forall i | 0 <= i < |s| {
        data[len + i] := s[i];
      }
      assert data[..len + |s|] == old(data[..len]) + s;
      HoldMore(appended, device, groups, held, s);
      appended, held := appended + [s], held + [s];
      len := len + |s|;
    }

    /** Bookkeeping for a string that went straight to the device. */
    ghost method Direct(s: Bytes)
      requires data.Length > 0 && len == 0 && Flatten(held) == []
      requires device != [] && device[|device| - 1] == s
      requires WholeStrings(appended, device[..|device| - 1], groups, held)
      modifies this`appended, this`groups, this`held
      ensures Valid() && appended == old(appended) + [s]
    {
      HoldMore(appended, device[..|device| - 1], groups, held, s);
      WriteHeld(appended + [s], device[..|device| - 1], groups, held + [s]);
      assert device == device[..|device| - 1] + [s];
      assert [] + s == s;
      appended, groups, held := appended + [s], groups + [held + [s]], [];
    }
  }
}

/** Well-formed UTF-8, as `core::str::from_utf8` accepts it (section 4 of RFC 3629). */
module Utf8 {
  import opened Bytes

  predicate Tail(b: byte)
  {
    0x80 <= b <= 0xBF
  }

  /** Length of the well-formed character at the start of `s`, or 0 if there is none. */
  function FirstChar(s: Bytes): (n: nat)
    ensures n <= |s| && n <= 4
  {
    if |s| >= 1 && s[0] <= 0x7F then 1
    else if |s| >= 2 && 0xC2 <= s[0] <= 0xDF && Tail(s[1]) then 2
    else if |s| >= 3 && Tail(s[2])
      && ( || (s[0] == 0xE0 && 0xA0 <= s[1] <= 0xBF)
           || (s[0] == 0xED && 0x80 <= s[1] <= 0x9F)
           || (0xE1 <= s[0] <= 0xEF && s[0] != 0xED && Tail(s[1]))) then 3
    else if |s| >= 4 && Tail(s[2]) && Tail(s[3])
      && ( || (s[0] == 0xF0 && 0x90 <= s[1] <= 0xBF)
           || (0xF1 <= s[0] <= 0xF3 && Tail(s[1]))
           || (s[0] == 0xF4 && 0x80 <= s[1] <= 0x8F)) then 4
    else 0
  }

  predicate IsUtf8(s: Bytes)
    decreases |s|
  {
    s == [] || (FirstChar(s) > 0 && IsUtf8(s[FirstChar(s)..]))
  }

  lemma {:induction false} Utf8Concat(a: Bytes, b: Bytes)
    requires IsUtf8(a) && IsUtf8(b)
    ensures IsUtf8(a + b)
    decreases |a|
  {
    if a == [] {
      assert a + b == b;
    } else {
      var n := FirstChar(a);
      Utf8Concat(a[n..], b);
      assert FirstChar(a + b) == n;
      DropConcat(a, b, n);
    }
  }

  lemma {:induction false} Utf8Flatten(parts: seq<Bytes>)
    requires forall i :: 0 <= i < |parts| ==> IsUtf8(parts[i])
    ensures IsUtf8(Flatten(parts))
  {
    if parts != [] {
      Utf8Flatten(parts[1..]);
      Utf8Concat(parts[0], Flatten(parts[1..]));
    }
  }

  //
  // Well-formed is what encodes some text
  //

  /** A Unicode scalar value. */
  predicate Scalar(c: int)
  {
    0 <= c < 0x11_0000 && !(0xD800 <= c <= 0xDFFF)
  }

  function EncodeChar(c: int): (s: Bytes)
    requires Scalar(c)
    ensures 1 <= |s| <= 4
  {
    if c < 0x80 then [c]
    else if c < 0x800 then [0xC0 + c / 64, 0x80 + c % 64]
    else if c < 0x1_0000 then [0xE0 + c / 4096, 0x80 + c / 64 % 64, 0x80 + c % 64]
    else [0xF0 + c / 26_2144, 0x80 + c / 4096 % 64, 0x80 + c / 64 % 64, 0x80 + c % 64]
  }

  ghost predicate AllScalar(text: seq<int>)
  {
    forall i :: 0 <= i < |text| ==> Scalar(text[i])
  }

  function Encode(text: seq<int>): (s: Bytes)
    requires AllScalar(text)
  {
    if text == [] then [] else EncodeChar(text[0]) + Encode(text[1..])
  }

  lemma Digits(a: nat, b: nat, c: nat, d: nat)
    requires b < 64 && c < 64 && d < 64
    ensures
      var n := 26_2144 * a + 4096 * b + 64 * c + d;
      n % 64 == d && n / 64 % 64 == c && n / 4096 % 64 == b && n / 26_2144 == a
  {
    var n := 26_2144 * a + 4096 * b + 64 * c + d;
    assert n == 64 * (4096 * a + 64 * b + c) + d;
    assert n / 64 == 4096 * a + 64 * b + c;
    assert n / 64 == 64 * (64 * a + b) + c;
    assert n == 4096 * (64 * a + b) + (64 * c + d);
    assert n / 4096 == 64 * a + b;
    assert n == 26_2144 * a + (4096 * b + 64 * c + d);
  }

  lemma CharIsFirst(c: int, rest: Bytes)
    requires Scalar(c)
    ensures FirstChar(EncodeChar(c) + rest) == |EncodeChar(c)|
  {
    var (s, e) := (EncodeChar(c) + rest, EncodeChar(c));
    assert forall i :: 0 <= i < |e| ==> s[i] == e[i];
  }

  /** The character at the start of a string that starts with one. */
  lemma FirstIsChar(s: Bytes) returns (c: int)
    requires FirstChar(s) > 0
    ensures Scalar(c) && s[..FirstChar(s)] == EncodeChar(c)
  {
    var n := FirstChar(s);
    if n == 1 {
      c := s[0];
    } else if n == 2 {
      var (b0: int, b1: int) := (s[0], s[1]);
      c := 64 * (b0 - 0xC0) + (b1 - 0x80);
      Digits(0, 0, b0 - 0xC0, b1 - 0x80);
    } else if n == 3 {
      var (b0: int, b1: int, b2: int) := (s[0], s[1], s[2]);
      c := 4096 * (b0 - 0xE0) + 64 * (b1 - 0x80) + (b2 - 0x80);
      Digits(0, b0 - 0xE0, b1 - 0x80, b2 - 0x80);
    } else {
      var (b0: int, b1: int, b2: int, b3: int) := (s[0], s[1], s[2], s[3]);
      c := 26_2144 * (b0 - 0xF0) + 4096 * (b1 - 0x80) + 64 * (b2 - 0x80) + (b3 - 0x80);
      Digits(b0 - 0xF0, b1 - 0x80, b2 - 0x80, b3 - 0x80);
    }
  }

  lemma {:induction false} EncodedIsUtf8(text: seq<int>)
    requires AllScalar(text)
    ensures IsUtf8(Encode(text))
  {
    if text != [] {
      var (e, rest) := (EncodeChar(text[0]), Encode(text[1..]));
      EncodedIsUtf8(text[1..]);
      CharIsFirst(text[0], rest);
      assert (e + rest)[|e|..] == rest;
    }
  }

  lemma {:induction false} Utf8IsEncoded(s: Bytes) returns (text: seq<int>)
    requires IsUtf8(s)
    ensures AllScalar(text) && Encode(text) == s
    decreases |s|
  {
    if s == [] {
      text := [];
    } else {
      var n := FirstChar(s);
      var c := FirstIsChar(s);
      var rest := Utf8IsEncoded(s[n..]);
      text := [c] + rest;
      assert text[1..] == rest && s == s[..n] + s[n..];
    }
  }

  /** The bytes accepted are exactly the encodings of sequences of Unicode scalar values. */
  lemma IsUtf8Iff(s: Bytes)
    ensures IsUtf8(s) <==> exists text :: AllScalar(text) && Encode(text) == s
  {
    if IsUtf8(s) {
      var text := Utf8IsEncoded(s);
    }
    forall text | AllScalar(text) && Encode(text) == s ensures IsUtf8(s) { EncodedIsUtf8(text); }
  }
}

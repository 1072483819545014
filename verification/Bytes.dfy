/** Byte strings and the little-endian words that the wire formats are built from. */
module Bytes {

  type byte = b: int | 0 <= b < 256

  type Bytes = seq<byte>

  type u32 = n: int | 0 <= n < 0x1_0000_0000

  /** `u32::to_le_bytes`. */
  function U32ToLe(n: u32): (s: Bytes)
    ensures |s| == 4
  {
    [n % 256, n / 0x100 % 256, n / 0x1_0000 % 256, n / 0x100_0000]
  }

  /** `u32::from_le_bytes`. */
  function U32FromLe(s: Bytes): (n: u32)
    requires |s| == 4
  {
    var (b0: int, b1: int, b2: int, b3: int) := (s[0], s[1], s[2], s[3]);
    b0 + 0x100 * b1 + 0x1_0000 * b2 + 0x100_0000 * b3
  }

  lemma U32FromLeInvertsToLe(n: u32)
    ensures U32FromLe(U32ToLe(n)) == n
  {
    var q1 := n / 0x100;
    var q2 := n / 0x1_0000;
    assert q2 == q1 / 0x100;
    assert n / 0x100_0000 == q2 / 0x100;
  }

  lemma U32ToLeInvertsFromLe(s: Bytes)
    requires |s| == 4
    ensures U32ToLe(U32FromLe(s)) == s
  {
    var (b0: int, b1: int, b2: int, b3: int) := (s[0], s[1], s[2], s[3]);
    var n := U32FromLe(s);
    var q2 := b2 + 0x100 * b3;
    var q1 := b1 + 0x100 * q2;
    assert n == b0 + 0x100 * q1 && n / 0x100 == q1;
    assert n == (b0 + 0x100 * b1) + 0x1_0000 * q2 && n / 0x1_0000 == q2;
    assert n == (b0 + 0x100 * b1 + 0x1_0000 * b2) + 0x100_0000 * b3 && n / 0x100_0000 == b3;
  }

  /** The least significant byte comes first. */
  lemma LeastSignificantFirst(n: u32, m: u16)
    ensures U32ToLe(n)[0] == n % 256 && U32ToLe(n)[3] == n / 0x100_0000
    ensures U16ToLe(m)[0] == m % 256 && U16ToLe(m)[1] == m / 256
  {
  }

  type u16 = n: int | 0 <= n < 0x1_0000

  /** `u16::to_le_bytes`. */
  function U16ToLe(n: u16): (s: Bytes)
    ensures |s| == 2
  {
    [n % 256, n / 256]
  }

  /** `u16::from_le_bytes`. */
  function U16FromLe(s: Bytes): (n: u16)
    requires |s| == 2
  {
    var (b0: int, b1: int) := (s[0], s[1]);
    b0 + 256 * b1
  }

  lemma U16FromLeInvertsToLe(n: u16)
    ensures U16FromLe(U16ToLe(n)) == n
  {
  }

  /** The concatenation of a list of sequences. */
  function Flatten<T>(parts: seq<seq<T>>): (r: seq<T>)
  {
    if parts == [] then [] else parts[0] + Flatten(parts[1..])
  }

  lemma {:induction false} FlattenConcat<T>(a: seq<seq<T>>, b: seq<seq<T>>)
    ensures Flatten(a + b) == Flatten(a) + Flatten(b)
  {
    if a == [] {
      assert a + b == b;
    } else {
      assert (a + b)[1..] == a[1..] + b;
      FlattenConcat(a[1..], b);
    }
  }

  lemma ConcatAssoc<T>(a: seq<T>, b: seq<T>, c: seq<T>)
    ensures a + b + c == a + (b + c)
  {
  }

  lemma DropConcat<T>(a: seq<T>, b: seq<T>, n: nat)
    requires n <= |a|
    ensures (a + b)[n..] == a[n..] + b
  {
  }

  lemma FlattenAppend<T>(a: seq<seq<T>>, x: seq<T>)
    ensures Flatten(a + [x]) == Flatten(a) + x
  {
    FlattenConcat(a, [x]);
    assert Flatten([x]) == x + Flatten<T>([]);
  }
}

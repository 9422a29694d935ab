/** Byte strings and their unsigned big-endian reading. */
module Bytes {
  type Byte = b: int | 0 <= b < 256

  type ByteString = seq<Byte>

  /** The number a byte string denotes, most significant byte first. */
  function BigEndian(b: ByteString): nat {
    if |b| == 0 then 0 else BigEndian(b[..|b| - 1]) * 256 + b[|b| - 1]
  }

  function Pow256(n: nat): (p: nat)
    ensures p >= 1
  {
    if n == 0 then 1 else 256 * Pow256(n - 1)
  }

  lemma {:induction false} BigEndianBound(b: ByteString)
    ensures BigEndian(b) < Pow256(|b|)
  {
    if |b| > 0 {
      BigEndianBound(b[..|b| - 1]);
    }
  }

  lemma ShiftSum(x: nat, p: nat, y: nat)
    ensures (x * p + y) * 256 == x * (256 * p) + y * 256
  {
  }

  lemma {:induction false} BigEndianAppend(a: ByteString, b: ByteString)
    ensures BigEndian(a + b) == BigEndian(a) * Pow256(|b|) + BigEndian(b)
  {
    if |b| == 0 {
      assert a + b == a;
    } else {
      var c := b[..|b| - 1];
      assert (a + b)[..|a + b| - 1] == a + c;
      BigEndianAppend(a, c);
      calc {
        BigEndian(a + b);
        BigEndian(a + c) * 256 + b[|b| - 1];
        (BigEndian(a) * Pow256(|c|) + BigEndian(c)) * 256 + b[|b| - 1];
        { ShiftSum(BigEndian(a), Pow256(|c|), BigEndian(c)); }
        BigEndian(a) * Pow256(|b|) + BigEndian(c) * 256 + b[|b| - 1];
      }
    }
  }

  /** Two byte strings of one length denote the same number only when they are equal. */
  lemma {:induction false} BigEndianInjective(a: ByteString, b: ByteString)
    requires |a| == |b| && BigEndian(a) == BigEndian(b)
    ensures a == b
  {
    if |a| > 0 {
      var n := |a| - 1;
      assert BigEndian(a) == BigEndian(a[..n]) * 256 + a[n];
      assert BigEndian(b) == BigEndian(b[..n]) * 256 + b[n];
      assert BigEndian(a[..n]) == BigEndian(b[..n]) && a[n] == b[n];
      BigEndianInjective(a[..n], b[..n]);
      assert a == a[..n] + [a[n]] && b == b[..n] + [b[n]];
    }
  }

  lemma BigEndian1(b: ByteString)
    requires |b| == 1
    ensures BigEndian(b) == b[0]
  {
    assert BigEndian(b[..0]) == 0;
  }

  lemma BigEndian2(b: ByteString)
    requires |b| == 2
    ensures BigEndian(b) == (b[0] as int) * 256 + b[1]
  {
    BigEndian1(b[..1]);
  }

  lemma BigEndian4(b: ByteString)
    requires |b| == 4
    ensures BigEndian(b) == (b[0] as int) * 0x100_0000 + (b[1] as int) * 0x1_0000 + (b[2] as int) * 256 + b[3]
  {
    var c := b[..3];
    assert c[..2] == b[..2];
    BigEndian2(c[..2]);
    assert BigEndian(c) == BigEndian(c[..2]) * 256 + c[2];
  }

  /** The two-byte big-endian form of the low sixteen bits. */
  function U16Bytes(n: nat): (b: ByteString)
    ensures |b| == 2
    ensures BigEndian(b) == n % 0x1_0000
  {
    var b: ByteString := [n / 256 % 256, n % 256];
    BigEndian2(b);
    b
  }

  lemma HalvesMakeWord(n: nat)
    ensures n / 0x1_0000 % 0x1_0000 * 0x1_0000 + n % 0x1_0000 == n % 0x1_0000_0000
  {
    var q, low := n / 0x1_0000, n % 0x1_0000;
    var a, high := q / 0x1_0000, q % 0x1_0000;
    assert n == 0x1_0000_0000 * a + (high * 0x1_0000 + low);
  }

  /** The four-byte big-endian form of the low thirty-two bits. */
  function U32Bytes(n: nat): (b: ByteString)
    ensures |b| == 4
    ensures BigEndian(b) == n % 0x1_0000_0000
  {
    var high, low := U16Bytes(n / 0x1_0000), U16Bytes(n);
    assert BigEndian(high + low) == BigEndian(high) * 0x1_0000 + BigEndian(low) by {
      BigEndianAppend(high, low);
      assert Pow256(2) == 256 * Pow256(1);
    }
    HalvesMakeWord(n);
    high + low
  }

  /** The concatenation of byte strings, in order. */
  function Concat(chunks: seq<ByteString>): ByteString {
    if |chunks| == 0 then [] else chunks[0] + Concat(chunks[1..])
  }

  lemma {:induction false} ConcatAppend(a: seq<ByteString>, b: seq<ByteString>)
    ensures Concat(a + b) == Concat(a) + Concat(b)
  {
    if |a| == 0 {
      assert a + b == b;
    } else {
      assert (a + b)[1..] == a[1..] + b;
      ConcatAppend(a[1..], b);
    }
  }

  /** Four adjacent parts, regrouped from the left and cut after the first and the second. */
  lemma Regroup(a: ByteString, b: ByteString, c: ByteString, d: ByteString)
    ensures var all := a + b + c + d;
      all == a + (b + (c + d)) && all[|a|..] == b + (c + d) && all[|a| + |b|..] == c + d
  {
  }

  /** Where `x + y + z` lies in `b`, each part lies in its place. */
  lemma PartsInPlace(b: ByteString, offset: nat, x: ByteString, y: ByteString, z: ByteString)
    requires offset + |x| + |y| + |z| <= |b|
    requires b[offset..offset + |x| + |y| + |z|] == x + y + z
    ensures b[offset..offset + |x|] == x
    ensures b[offset + |x|..offset + |x| + |y|] == y
    ensures b[offset + |x| + |y|..offset + |x| + |y| + |z|] == z
  {
    var all := x + y + z;
    assert forall i :: 0 <= i < |all| ==> b[offset + i] == b[offset..offset + |x| + |y| + |z|][i] == all[i];
    assert forall i :: 0 <= i < |x| ==> b[offset + i] == all[i] == x[i];
    assert forall i :: 0 <= i < |y| ==> b[offset + |x| + i] == all[|x| + i] == y[i];
    assert forall i :: 0 <= i < |z| ==> b[offset + |x| + |y| + i] == all[|x| + |y| + i] == z[i];
  }

  /** The bytes of a text of ASCII characters. */
  function Ascii(s: string): (b: ByteString)
    ensures |b| == |s|
  {
    seq(|s|, i requires 0 <= i < |s| => (s[i] as int) % 256)
  }
}

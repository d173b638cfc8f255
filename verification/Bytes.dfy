/** Bytes, big-endian numbers and the masking XOR that the wire formats share. */
module Bytes {

  type byte = x: int | 0 <= x < 256

  const MAX_LEN := 0x8000_0000_0000_0000 // lengths are 64-bit signed integers

  datatype Option<+T> = None | Some(value: T)

  function Pow2(n: nat): (r: nat)
    ensures r >= 1
  {
    if n == 0 then 1 else 2 * Pow2(n - 1)
  }

  /** Exclusive or of the n low-order bits of a and b, bit by bit. */
  function XorBits(a: nat, b: nat, n: nat): (r: nat)
    ensures r < Pow2(n)
  {
    if n == 0 then 0 else 2 * XorBits(a / 2, b / 2, n - 1) + (a + b) % 2
  }

  function Xor(a: byte, b: byte): (r: byte)
  {
    assert Pow2(8) == 256;
    XorBits(a, b, 8)
  }

  lemma HalfAndBit(q: nat, bit: nat)
    requires bit < 2
    ensures (2 * q + bit) / 2 == q && (2 * q + bit) % 2 == bit
  {
  }

  /** Adding b twice leaves the lowest bit as it was. */
  lemma BitReturns(a: nat, b: nat, q: nat)
    ensures (2 * q + (a + b) % 2 + b) % 2 == a % 2
  {
  }

  lemma {:induction false} XorBitsInvolution(a: nat, b: nat, n: nat)
    requires a < Pow2(n)
    ensures XorBits(XorBits(a, b, n), b, n) == a
  {
    if n > 0 {
      var q := XorBits(a / 2, b / 2, n - 1);
      XorBitsInvolution(a / 2, b / 2, n - 1);
      HalfAndBit(q, (a + b) % 2);
      BitReturns(a, b, q);
    }
  }

  lemma XorInvolution(a: byte, b: byte)
    ensures Xor(Xor(a, b), b) == a
  {
    assert Pow2(8) == 256;
    XorBitsInvolution(a, b, 8);
  }

  /** The k-th bit of x, from the lowest. */
  function Bit(x: nat, k: nat): (b: nat)
    ensures b < 2
  {
    x / Pow2(k) % 2
  }

  lemma LowBit(x: nat)
    ensures Bit(x, 0) == x % 2
  {
  }

  lemma BitOfHalf(x: nat, k: nat)
    ensures Bit(x, k + 1) == Bit(x / 2, k)
  {
    HalfThen(x, Pow2(k));
  }

  lemma MulGrows(d: nat, p: nat)
    ensures d == 0 || d * p >= p
  {
    if d > 0 {
      assert d * p == p + (d - 1) * p;
      assert (d - 1) * p >= 0;
    }
  }

  lemma DivMod(q: nat, p: nat, d: nat)
    requires d < p
    ensures (q * p + d) / p == q && (q * p + d) % p == d
  {
    var v := q * p + d;
    var t := v / p - q;
    assert p * t == d - v % p by {
      assert v == p * (v / p) + v % p;
      assert p * t == p * (v / p) - p * q;
    }
    MulGrows(if t < 0 then -t else t, p);
    assert p * (-t) == -(p * t);
    assert t == 0;
  }

  lemma HalfThen(x: nat, p: nat)
    requires p > 0
    ensures x / (2 * p) == (x / 2) / p
  {
    var q, r := (x / 2) / p, (x / 2) % p;
    assert x / 2 == p * q + r;
    assert x == q * (2 * p) + (2 * r + x % 2);
    DivMod(q, 2 * p, 2 * r + x % 2);
  }

  lemma SumBit(a: nat, b: nat)
    ensures (a + b) % 2 == (a % 2 + b % 2) % 2
  {
  }

  lemma {:induction false} XorBitsBit(a: nat, b: nat, n: nat, k: nat)
    requires k < n
    ensures Bit(XorBits(a, b, n), k) == (Bit(a, k) + Bit(b, k)) % 2
  {
    hide Bit;
    var q := XorBits(a / 2, b / 2, n - 1);
    HalfAndBit(q, (a + b) % 2);
    if k == 0 {
      SumBit(a, b);
      LowBit(a);
      LowBit(b);
      LowBit(XorBits(a, b, n));
    } else {
      XorBitsBit(a / 2, b / 2, n - 1, k - 1);
      BitOfHalf(a, k - 1);
      BitOfHalf(b, k - 1);
      BitOfHalf(XorBits(a, b, n), k - 1);
    }
  }

  /** Each bit of the result is set exactly when one of the two bits is. */
  lemma XorFlips(a: byte, b: byte, k: nat)
    requires k < 8
    ensures Bit(Xor(a, b), k) == if Bit(b, k) == 1 then 1 - Bit(a, k) else Bit(a, k)
  {
    XorBitsBit(a, b, 8, k);
  }

  lemma Assoc<T>(a: seq<T>, b: seq<T>, c: seq<T>)
    ensures (a + b) + c == a + (b + c)
  {
  }

  /** Taking n elements off the front of s leaves the rest of s in front of what follows. */
  lemma Front<T>(s: seq<T>, n: nat, rest: seq<T>)
    requires n <= |s|
    ensures s[..n] + (s[n..] + rest) == s + rest
  {
  }

  lemma Extend<T>(s: seq<T>, n: nat, k: nat)
    requires n + k <= |s|
    ensures s[..n] + s[n..][..k] == s[..n + k] && s[n..][k..] == s[n + k..]
  {
  }

  /** What was added since a is what was added up to b and then since b. */
  lemma Suffixes<T>(a: seq<T>, b: seq<T>, c: seq<T>)
    requires a <= b <= c
    ensures c[|a|..] == b[|a|..] + c[|b|..]
  {
  }

  lemma HeadTail<T>(s: seq<T>, rest: seq<T>)
    requires s != []
    ensures (s + rest)[0] == s[0] && (s + rest)[1..] == s[1..] + rest
  {
  }

  lemma TakeOne<T>(s: seq<T>, n: nat)
    requires n < |s|
    ensures s[..n + 1] == s[..n] + [s[n]]
  {
  }

  /** A sequence that is one longer than its prefix is the prefix and one more. */
  lemma OneMore<T>(xs: seq<T>, ys: seq<T>)
    requires xs <= ys && |ys| == |xs| + 1
    ensures ys == xs + [ys[|xs|]]
  {
  }

  /** Dropping the last element of a concatenation drops it from the second part. */
  lemma InitOfSum<T>(xs: seq<T>, ys: seq<T>)
    requires ys != []
    ensures (xs + ys)[..|xs + ys| - 1] == xs + ys[..|ys| - 1] && (xs + ys)[|xs + ys| - 1] == ys[|ys| - 1]
  {
  }

  function Pow256(n: nat): (r: nat)
    ensures r >= 1
  {
    if n == 0 then 1 else 256 * Pow256(n - 1)
  }

  lemma Pow256Values()
    ensures Pow256(0) == 1 && Pow256(1) == 0x100 && Pow256(2) == 0x1_0000 && Pow256(3) == 0x100_0000
    ensures Pow256(7) == 0x100_0000_0000_0000 && Pow256(8) == 0x1_0000_0000_0000_0000
  {
    assert Pow256(4) == 0x1_0000_0000;
    assert Pow256(5) == 0x100_0000_0000;
    assert Pow256(6) == 0x1_0000_0000_0000;
  }

  function Zeros(n: nat): (s: seq<byte>)
    ensures |s| == n
  {
    seq(n, _ => 0)
  }

  /** The number whose big-endian digits are s: the value of v = v<<8 | b over s. */
  function BigEndian(s: seq<byte>): (v: nat)
  {
    if s == [] then 0 else 256 * BigEndian(s[..|s| - 1]) + s[|s| - 1]
  }

  /** The n low-order bytes of v, most significant first. */
  function ToBigEndian(v: nat, n: nat): (s: seq<byte>)
    ensures |s| == n
  {
    if n == 0 then [] else ToBigEndian(v / 256, n - 1) + [v % 256]
  }

  lemma {:induction false} BigEndianRoundTrip(v: nat, n: nat)
    requires v < Pow256(n)
    ensures BigEndian(ToBigEndian(v, n)) == v
  {
    if n > 0 {
      BigEndianRoundTrip(v / 256, n - 1);
      assert ToBigEndian(v, n)[..n - 1] == ToBigEndian(v / 256, n - 1);
    }
  }

  lemma {:induction false} BigEndianBound(s: seq<byte>)
    ensures BigEndian(s) < Pow256(|s|)
  {
    if s != [] {
      BigEndianBound(s[..|s| - 1]);
    }
  }

  lemma LastDigit(q: nat, d: byte)
    ensures (256 * q + d) / 256 == q && (256 * q + d) % 256 == d
  {
  }

  lemma {:induction false} FirstDigit(x: byte, t: seq<byte>)
    ensures BigEndian([x] + t) == x * Pow256(|t|) + BigEndian(t)
  {
    var s := [x] + t;
    if t == [] {
      assert s[..0] == [];
    } else {
      var n := |t| - 1;
      FirstDigit(x, t[..n]);
      assert s[..|s| - 1] == [x] + t[..n];
      assert 256 * (x * Pow256(n)) == x * (256 * Pow256(n));
    }
  }

  /** A big-endian number is fixed by its digits and their count. */
  lemma {:induction false} ToBigEndianOfBigEndian(s: seq<byte>)
    ensures ToBigEndian(BigEndian(s), |s|) == s
  {
    if s != [] {
      var q, d := BigEndian(s[..|s| - 1]), s[|s| - 1];
      ToBigEndianOfBigEndian(s[..|s| - 1]);
      LastDigit(q, d);
      assert s == s[..|s| - 1] + [d];
    }
  }

  /** Concatenation of a list of byte strings, in order. */
  function Concat(parts: seq<seq<byte>>): (s: seq<byte>)
  {
    if parts == [] then [] else parts[0] + Concat(parts[1..])
  }

  lemma {:induction false} ConcatSnoc(parts: seq<seq<byte>>, last: seq<byte>)
    ensures Concat(parts + [last]) == Concat(parts) + last
  {
    if parts == [] {
      assert parts + [last] == [last];
      assert [last][1..] == [];
    } else {
      ConcatSnoc(parts[1..], last);
      assert (parts + [last])[1..] == parts[1..] + [last];
    }
  }
}

/** QUIC variable-length integers (section 16 of RFC 9000). */
module Varint {
  import opened Bytes
  import opened Streams

  const TWO_62 := 0x4000_0000_0000_0000

  /** Encodes a 64-bit value; a value of 2^62 or more loses its top two bits to the length tag. */
  function Encode(v: nat): (s: seq<byte>)
    requires v < 0x1_0000_0000_0000_0000
  {
    if v <= 63 then Tagged(v, 1, 0)
    else if v <= 16383 then Tagged(v, 2, 0x40)
    else if v <= 1073741823 then Tagged(v, 4, 0x80)
    else Tagged(v, 8, 0xC0)
  }

  /** The n bytes of v with the two top bits replaced by the tag. */
  function Tagged(v: nat, n: nat, tag: byte): (s: seq<byte>)
    requires n > 0 && tag % 64 == 0
    ensures |s| == n && tag <= s[0] < tag + 64
  {
    var d := ToBigEndian(v, n);
    [d[0] % 64 + tag] + d[1..]
  }

  /** Number of bytes announced by the first one. */
  function Size(first: byte): (n: nat)
  {
    if first < 0x40 then 1 else if first < 0x80 then 2 else if first < 0xC0 then 4 else 8
  }

  datatype Parsed = Short | Value(v: nat, rest: seq<byte>)

  /** Reads one integer off the front of s. */
  function Decode(s: seq<byte>): (r: Parsed)
    ensures r.Value? ==> |r.rest| < |s|
  {
    if s == [] || |s| < Size(s[0]) then Short
    else Value(BigEndian(Digits(s)), s[Size(s[0])..])
  }

  /** The bytes of the leading integer with the tag cleared. */
  function Digits(s: seq<byte>): (d: seq<byte>)
    requires s != [] && |s| >= Size(s[0])
    ensures |d| == Size(s[0]) && d[0] < 64
  {
    [s[0] % 64] + s[1..Size(s[0])]
  }

  lemma {:induction false} TopDigit(v: nat, n: nat)
    requires n > 0 && v < 64 * Pow256(n - 1)
    ensures ToBigEndian(v, n)[0] < 64
  {
    if n == 1 {
      assert ToBigEndian(v, 1) == [v % 256];
    } else {
      TopDigit(v / 256, n - 1);
    }
  }

  lemma {:induction false} DigitsBound(d: seq<byte>)
    requires d != [] && d[0] < 64
    ensures BigEndian(d) < 64 * Pow256(|d| - 1)
  {
    if |d| == 1 {
      assert d[..0] == [];
    } else {
      DigitsBound(d[..|d| - 1]);
    }
  }

  lemma TaggedRoundTrip(v: nat, n: nat, tag: byte, rest: seq<byte>)
    requires n > 0 && tag % 64 == 0 && Size(tag) == n && v < 64 * Pow256(n - 1)
    ensures Decode(Tagged(v, n, tag) + rest) == Value(v, rest)
  {
    var d, s := ToBigEndian(v, n), Tagged(v, n, tag) + rest;
    TopDigit(v, n);
    assert Size(s[0]) == n;
    assert Digits(s) == d;
    BigEndianRoundTrip(v, n);
    assert s[n..] == rest;
  }

  /** Self-delimiting inverse: reading an encoding followed by anything gives back the value and
      exactly what followed, precisely for the values that fit in 62 bits. */
  lemma RoundTrip(v: nat, rest: seq<byte>)
    requires v < 0x1_0000_0000_0000_0000
    ensures Decode(Encode(v) + rest) == Value(v, rest) <==> v < TWO_62
  {
    Pow256Values();
    if v <= 63 {
      TaggedRoundTrip(v, 1, 0, rest);
    } else if v <= 16383 {
      TaggedRoundTrip(v, 2, 0x40, rest);
    } else if v <= 1073741823 {
      TaggedRoundTrip(v, 4, 0x80, rest);
    } else if v < TWO_62 {
      TaggedRoundTrip(v, 8, 0xC0, rest);
    } else if Decode(Encode(v) + rest).Value? {
      DecodeBound(Encode(v) + rest);
    }
  }

  lemma DecodeBound(s: seq<byte>)
    requires Decode(s).Value?
    ensures Decode(s).v < 64 * Pow256(Size(s[0]) - 1)
    ensures Decode(s).v < TWO_62
  {
    DigitsBound(Digits(s));
    Pow256Values();
  }

  /** What a byte string says, by section 16 of RFC 9000: the two top bits are the base-2 logarithm of the length, and
      the other bits, most significant first, are the value. */
  lemma DecodeMeaning(s: seq<byte>)
    requires s != []
    ensures var tag := s[0] / 64;
            var n := Pow2(tag);
            match Decode(s)
            case Short => |s| < n
            case Value(v, rest) => |s| >= n && BigEndian(s[..n]) == tag * 64 * Pow256(n - 1) + v && rest == s[n..]
  {
    hide BigEndian, Pow256, Pow2, Size;
    var n := Size(s[0]);
    TagIsLog(s[0]);
    if |s| >= n {
      assert s[..n] == [s[0]] + s[1..n];
      TagAdds(s[0], s[1..n]);
    }
  }

  lemma TagAdds(first: byte, t: seq<byte>)
    ensures BigEndian([first] + t) == first / 64 * 64 * Pow256(|t|) + BigEndian([first % 64] + t)
  {
    hide BigEndian, Pow256;
    FirstDigit(first, t);
    FirstDigit(first % 64, t);
    Distributes(first / 64 * 64, first % 64, Pow256(|t|));
  }

  lemma Distributes(x: nat, y: nat, p: nat)
    ensures (x + y) * p == x * p + y * p
  {
  }

  lemma TagIsLog(first: byte)
    ensures Size(first) == Pow2(first / 64)
  {
    assert Pow2(1) == 2 && Pow2(2) == 4 && Pow2(3) == 8;
  }

  lemma Truncated(v: nat, n: nat)
    requires v < TWO_62 && n < |Encode(v)|
    ensures Decode(Encode(v)[..n]) == Short
  {
  }

  /** The encoder's choice is the shortest: no byte string read as v is shorter. */
  lemma Shortest(s: seq<byte>)
    requires Decode(s).Value? && Decode(s).rest == []
    ensures Decode(s).v < TWO_62 && |Encode(Decode(s).v)| <= |s|
  {
    DecodeBound(s);
    Pow256Values();
  }

  /** readVarint over a stream that may split the bytes anywhere. */
  method ReadVarint(r: Stream) returns (ok: bool, v: nat)
    modifies r`incoming
    ensures ok <==> Decode(old(r.incoming)).Value?
    ensures ok ==> Decode(old(r.incoming)) == Value(v, r.incoming)
    ensures !ok ==> r.incoming == []
  {
    ghost var all := r.incoming;
    v := 0;
    var first := new byte[1];
    ok := ReadFull(r, first, 0, 1);
    if !ok { return; }
    assert first[..][0] == all[0];
    var n := Size(first[0]);
    var buf := new byte[n];
    buf[0] := first[0];
    if n > 1 {
      ok := ReadFull(r, buf, 1, n);
      if !ok { return; }
      assert buf[1..n] == all[1..][..n - 1] == all[1..n];
    }
    assert r.incoming == all[n..] && buf[1..n] == all[1..n];
    ghost var tail := buf[1..n];
    buf[0] := buf[0] % 64;
    ghost var digits := Digits(all);
    assert buf[1..n] == tail;
    assert buf[..] == digits;
    for i := 0 to n
      invariant v == BigEndian(digits[..i])
      invariant buf[..] == digits && r.incoming == all[n..]
    {
      assert digits[..i + 1][..i] == digits[..i];
      v := v * 256 + buf[i];
    }
    assert digits[..n] == digits;
  }
}

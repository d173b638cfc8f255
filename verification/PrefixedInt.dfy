/** QPACK prefixed integers and strings (sections 4.1.1 and 4.1.2 of RFC 9204) in 64-bit arithmetic. */
module PrefixedInt {
  import opened Bytes

  const TWO_63 := 0x8000_0000_0000_0000
  const TWO_64 := 0x1_0000_0000_0000_0000
  const MAX_ALLOC := 0x1_0000_0000_0000 // a longer byte slice cannot be made

  /** Two's-complement wrap-around of a 64-bit signed result. */
  function Wrap(x: int): (r: int)
    ensures -TWO_63 <= r < TWO_63
    ensures -TWO_63 <= x < TWO_63 ==> r == x
  {
    (x + TWO_63) % TWO_64 - TWO_63
  }

  /** The result differs by a multiple of 2^64. */
  lemma WrapCongruent(x: int)
    ensures x - Wrap(x) == TWO_64 * ((x + TWO_63) / TWO_64)
  {
  }

  /** x << m on 64 bits. */
  function Shl(x: nat, m: nat): (r: int)
  {
    if m >= 64 then 0 else Wrap(x * Pow2(m))
  }

  /** Failed is the decoder's error; Crashed is an input on which it would panic. */
  datatype Result<+T> = Failed | Crashed | Value(v: T, rest: seq<byte>)

  // ---- integers ----

  function EncodeRest(v: nat): (s: seq<byte>)
    ensures s != []
  {
    if v >= 128 then [v % 128 + 128] + EncodeRest(v / 128) else [v]
  }

  /** The number that continuation bytes stand for: seven bits each, lowest first. */
  function Groups(s: seq<byte>): (v: nat) {
    if s == [] then 0 else s[0] % 128 + 128 * Groups(s[1..])
  }

  /** The bytes behind a full prefix, as section 5.1 of RFC 7541 has them: all but the last have their top bit set. */
  lemma {:induction false} RestMeaning(v: nat)
    ensures var s := EncodeRest(v);
            Groups(s) == v && s[|s| - 1] < 128 && forall i | 0 <= i < |s| - 1 :: s[i] >= 128
  {
    var s := EncodeRest(v);
    if v >= 128 {
      RestMeaning(v / 128);
      assert s[1..] == EncodeRest(v / 128);
    } else {
      assert s[1..] == [];
    }
  }

  /** The form tag `first` occupies the bits above the prefix. */
  predicate ValidPrefix(first: byte, prefix: nat) {
    0 < prefix <= 8 && first % Pow2(prefix) == 0
  }

  function EncodeInt(first: byte, prefix: nat, v: nat): (s: seq<byte>)
    requires ValidPrefix(first, prefix)
    ensures s != [] && first <= s[0] < first + Pow2(prefix)
  {
    FirstFits(first, prefix);
    var mask := Pow2(prefix) - 1;
    if v < mask then [first + v] else [first + mask] + EncodeRest(v - mask)
  }

  /** A small value is in the prefix of the first byte; for any other the prefix is full and the excess follows. */
  lemma IntMeaning(first: byte, prefix: nat, v: nat)
    requires ValidPrefix(first, prefix)
    ensures var s, full := EncodeInt(first, prefix, v), Pow2(prefix) - 1;
            if v < full then s == [first + v] else s[0] == first + full && Groups(s[1..]) == v - full
  {
    var full := Pow2(prefix) - 1;
    if v >= full {
      RestMeaning(v - full);
      assert EncodeInt(first, prefix, v)[1..] == EncodeRest(v - full);
    }
  }

  lemma Powers()
    ensures Pow2(1) == 2 && Pow2(2) == 4 && Pow2(3) == 8 && Pow2(4) == 16
    ensures Pow2(5) == 32 && Pow2(6) == 64 && Pow2(7) == 128 && Pow2(8) == 256
  {
    assert Pow2(3) == 8;
    assert Pow2(6) == 64;
  }

  lemma FirstFits(first: byte, prefix: nat)
    requires ValidPrefix(first, prefix)
    ensures first + Pow2(prefix) <= 256
  {
    Powers();
  }

  /** Adding a value to a tag touches only the prefix bits. */
  lemma TagSplit(first: byte, prefix: nat, d: nat)
    requires ValidPrefix(first, prefix) && d < Pow2(prefix)
    ensures (first + d) % Pow2(prefix) == d && (first + d) / Pow2(prefix) == first / Pow2(prefix)
  {
    MultipleSplit(first, Pow2(prefix), d);
  }

  lemma MultipleSplit(x: nat, p: nat, d: nat)
    requires d < p && x % p == 0
    ensures (x + d) % p == d && (x + d) / p == x / p
  {
    DivMod(x / p, p, d);
    assert x == x / p * p;
  }

  /** Continuation bytes: v grows by 7 bits at a time from bit m up. */
  function DecodeRest(s: seq<byte>, v: int, m: nat): (r: Result<int>)
    ensures r.Value? ==> |r.rest| < |s|
  {
    if s == [] then Failed
    else
      var v' := Wrap(v + Shl(s[0] % 128, m));
      if s[0] < 128 then Value(v', s[1..]) else DecodeRest(s[1..], v', m + 7)
  }

  /** The integer whose first byte is b and whose further bytes are at the front of s. */
  function DecodeInt(b: byte, s: seq<byte>, prefix: nat): (r: Result<int>)
    requires 0 < prefix <= 8
    ensures r.Value? ==> |r.rest| <= |s|
  {
    var v := b % Pow2(prefix);
    if v != Pow2(prefix) - 1 then Value(v, s) else DecodeRest(s, v, 0)
  }

  lemma {:induction false} Pow2Add7(m: nat)
    ensures Pow2(m + 7) == 128 * Pow2(m)
  {
    assert Pow2(m + 1) == 2 * Pow2(m);
    assert Pow2(m + 2) == 4 * Pow2(m);
    assert Pow2(m + 3) == 8 * Pow2(m);
    assert Pow2(m + 4) == 16 * Pow2(m);
    assert Pow2(m + 5) == 32 * Pow2(m);
    assert Pow2(m + 6) == 64 * Pow2(m);
  }

  lemma Pow2At28()
    ensures Pow2(28) == 0x1000_0000
  {
    Pow2Add7(0); assert Pow2(7) == 0x80;
    Pow2Add7(7); assert Pow2(14) == 0x4000;
    Pow2Add7(14); assert Pow2(21) == 0x20_0000;
    Pow2Add7(21);
  }

  lemma {:induction false} Pow2Grows(m: nat)
    requires m >= 63
    ensures Pow2(m) >= TWO_63
  {
    if m > 63 {
      Pow2Grows(m - 1);
    } else {
      Pow2At28();
      Pow2Add7(28); assert Pow2(35) == 0x8_0000_0000;
      Pow2Add7(35); assert Pow2(42) == 0x400_0000_0000;
      Pow2Add7(42); assert Pow2(49) == 0x2_0000_0000_0000;
      Pow2Add7(49); assert Pow2(56) == 0x100_0000_0000_0000;
      Pow2Add7(56);
    }
  }

  lemma SplitProduct(w: nat, p: nat)
    ensures w * p == (w % 128) * p + (w / 128) * (128 * p)
    ensures 0 <= (w % 128) * p <= w * p
  {
    assert w == w % 128 + 128 * (w / 128);
    assert w * p == (w % 128) * p + (128 * (w / 128)) * p;
    assert (128 * (w / 128)) * p == (w / 128) * (128 * p);
    assert (w / 128) * (128 * p) >= 0;
  }

  lemma ShlExact(d: nat, m: nat)
    requires d * Pow2(m) < TWO_63
    ensures Shl(d, m) == d * Pow2(m)
  {
    if m >= 64 {
      Pow2Grows(m);
      MulGrows(d, Pow2(m));
    }
  }

  /** The continuation bytes of w, read from bit m up on top of v, give v + w * 2^m. */
  lemma {:induction false} RestRoundTrip(w: nat, rest: seq<byte>, v: nat, m: nat)
    requires v + w * Pow2(m) < TWO_63
    ensures DecodeRest(EncodeRest(w) + rest, v, m) == Value(v + w * Pow2(m), rest)
    decreases w
  {
    var p := Pow2(m);
    var s := EncodeRest(w) + rest;
    if w < 128 {
      ShlExact(w, m);
      assert s[1..] == rest;
    } else {
      SplitProduct(w, p);
      ShlExact(w % 128, m);
      Pow2Add7(m);
      assert s[0] % 128 == w % 128;
      assert s[1..] == EncodeRest(w / 128) + rest;
      RestRoundTrip(w / 128, rest, v + (w % 128) * p, m + 7);
    }
  }

  lemma OnTop(w: nat, rest: seq<byte>, v: nat)
    requires v + w < TWO_63
    ensures DecodeRest(EncodeRest(w) + rest, v, 0) == Value(v + w, rest)
  {
    assert Pow2(0) == 1;
    RestRoundTrip(w, rest, v, 0);
  }

  /** Self-delimiting inverse for every prefix length and every value below 2^63. */
  lemma IntRoundTrip(first: byte, prefix: nat, v: nat, rest: seq<byte>)
    requires ValidPrefix(first, prefix) && v < TWO_63
    ensures var s := EncodeInt(first, prefix, v); DecodeInt(s[0], s[1..] + rest, prefix) == Value(v, rest)
  {
    var s, mask := EncodeInt(first, prefix, v), Pow2(prefix) - 1;
    TagSplit(first, prefix, s[0] - first);
    if v < mask {
      assert s[1..] + rest == rest;
    } else {
      HeadTail([first + mask], EncodeRest(v - mask));
      assert s[1..] == EncodeRest(v - mask);
      OnTop(v - mask, rest, mask);
    }
  }

  // ---- strings ----

  type Text = s: seq<byte> | |s| < MAX_ALLOC

  function EncodeText(first: byte, prefix: nat, t: Text): (s: seq<byte>)
    requires ValidPrefix(first, prefix)
    ensures s != [] && first <= s[0] < first + Pow2(prefix)
  {
    EncodeInt(first, prefix, |t|) + t
  }

  /** bytes.Reader.Read into n fresh bytes: an error at the end of input even for n = 0; a short
      read leaves zeros. */
  function TakeText(n: nat, s: seq<byte>): (r: Result<seq<byte>>)
    ensures r.Value? ==> |r.rest| <= |s| && |r.v| == n
  {
    if s == [] then Failed
    else if n <= |s| then Value(s[..n], s[n..])
    else Value(s + Zeros(n - |s|), [])
  }

  /** The Huffman decoder is a library function that the caller supplies. */
  type Huffman = seq<byte> -> Option<seq<byte>>

  function DecodeText(b: byte, s: seq<byte>, prefix: nat, huffman: Huffman): (r: Result<seq<byte>>)
    requires 0 < prefix < 8
    ensures r.Value? ==> |r.rest| <= |s|
  {
    match DecodeInt(b, s, prefix)
    case Failed => Failed
    case Crashed => Crashed
    case Value(n, s1) =>
      if n < 0 || n >= MAX_ALLOC then Crashed
      else match TakeText(n, s1)
        case Failed => Failed
        case Crashed => Crashed
        case Value(t, s2) => Plain(b / Pow2(prefix) % 2 == 1, t, s2, huffman)
  }

  /** The text that t stands for, decoded if it is coded. */
  function Plain(coded: bool, t: seq<byte>, rest: seq<byte>, huffman: Huffman): (r: Result<seq<byte>>) {
    if !coded then Value(t, rest)
    else match huffman(t)
      case None => Failed
      case Some(u) => Value(u, rest)
  }

  /** A string announced with n bytes: too long for memory it panics, at the end of the input it is an error, and when
      only part of it is left that part is taken and filled up with zeros. */
  lemma AnnouncedText(first: byte, prefix: nat, n: nat, rest: seq<byte>, huffman: Huffman)
    requires ValidPrefix(first, prefix) && prefix < 8 && n < TWO_63
    ensures var s, coded := EncodeInt(first, prefix, n), first / Pow2(prefix) % 2 == 1;
            DecodeText(s[0], s[1..] + rest, prefix, huffman)
            == if n >= 0x1_0000_0000_0000 then Crashed
               else if rest == [] then Failed
               else if n <= |rest| then Plain(coded, rest[..n], rest[n..], huffman)
               else Plain(coded, rest + seq(n - |rest|, _ => 0), [], huffman)
  {
    IntRoundTrip(first, prefix, n, rest);
    TagSplit(first, prefix, EncodeInt(first, prefix, n)[0] - first);
    hide EncodeInt, DecodeInt, Pow2, Plain;
    if n > |rest| { assert Zeros(n - |rest|) == seq(n - |rest|, _ => 0); }
  }

  /** A string reads back exactly, through the Huffman decoder if its bit is set, except that an empty one at the very
      end of the input is an error. */
  lemma TextDecodes(first: byte, prefix: nat, t: Text, rest: seq<byte>, huffman: Huffman)
    requires ValidPrefix(first, prefix) && prefix < 8
    ensures var s := EncodeText(first, prefix, t);
            DecodeText(s[0], s[1..] + rest, prefix, huffman)
            == if t == [] && rest == [] then Failed
               else if first / Pow2(prefix) % 2 == 0 then Value(t, rest)
               else match huffman(t) case None => Failed case Some(u) => Value(u, rest)
  {
    var i := EncodeInt(first, prefix, |t|);
    AnnouncedText(first, prefix, |t|, t + rest, huffman);
    HeadTail(i, t);
    Assoc(i[1..], t, rest);
    hide EncodeInt, DecodeText, Pow2;
    assert (t + rest)[..|t|] == t && (t + rest)[|t|..] == rest;
  }

  /** Without the Huffman bit that is the text itself. */
  lemma TextRoundTrip(first: byte, prefix: nat, t: Text, rest: seq<byte>, huffman: Huffman)
    requires ValidPrefix(first, prefix) && prefix < 8 && first / Pow2(prefix) % 2 == 0
    ensures var s := EncodeText(first, prefix, t);
            DecodeText(s[0], s[1..] + rest, prefix, huffman)
            == if t == [] && rest == [] then Failed else Value(t, rest)
  {
    hide DecodeText, EncodeText;
    TextDecodes(first, prefix, t, rest, huffman);
  }

  // ---- the loops ----

  method AppendPrefixedInt(b: seq<byte>, first: byte, prefix: nat, v: nat) returns (out: seq<byte>)
    requires ValidPrefix(first, prefix)
    ensures out == b + EncodeInt(first, prefix, v)
  {
    FirstFits(first, prefix);
    var mask := Pow2(prefix) - 1;
    if v < mask { return b + [first + v]; }
    out := b + [first + mask];
    var w := v - mask;
    ghost var all := b + EncodeInt(first, prefix, v);
    Assoc(b, [first + mask], EncodeRest(w));
    hide EncodeInt, Pow2, ValidPrefix;
    while w >= 128
      invariant w >= 0 && out + EncodeRest(w) == all
    {
      Assoc(out, [w % 128 + 128], EncodeRest(w / 128));
      out := out + [w % 128 + 128];
      w := w / 128;
    }
    out := out + [w];
  }

  /** bytes.Reader over what is left to read. */
  class ByteReader {
    var left: seq<byte>

    constructor (s: seq<byte>)
      ensures left == s
    {
      left := s;
    }

    method ReadByte() returns (failed: bool, b: byte)
      modifies this
      ensures failed <==> old(left) == []
      ensures !failed ==> old(left) == [b] + left
      ensures failed ==> left == []
    {
      failed, b := left == [], 0;
      if !failed { b, left := left[0], left[1..]; }
    }
  }

  method ReadPrefixedIntWithFirst(r: ByteReader, b: byte, prefix: nat) returns (failed: bool, v: int)
    requires 0 < prefix <= 8
    modifies r
    ensures match DecodeInt(b, old(r.left), prefix)
            case Failed => failed
            case Crashed => false
            case Value(w, rest) => !failed && v == w && r.left == rest
  {
    v := b % Pow2(prefix);
    if v != Pow2(prefix) - 1 { return false, v; }
    var m := 0;
    while true
      invariant DecodeInt(b, old(r.left), prefix) == DecodeRest(r.left, v, m)
      decreases |r.left|
    {
      var x;
      failed, x := r.ReadByte();
      if failed { return true, 0; }
      v := Wrap(v + Shl(x % 128, m));
      if x < 128 { return false, v; }
      m := m + 7;
    }
  }
}

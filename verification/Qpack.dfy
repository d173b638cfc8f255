/** The static-table QPACK codec (sections 4.5.1, 4.5.2, 4.5.4 and 4.5.6 of RFC 9204), for any table. */
module Qpack {
  import opened Bytes
  import opened PrefixedInt

  datatype Field = Field(name: Text, value: Text)

  type Table = t: seq<Field> | |t| < 0x1_0000 witness []

  /** The first entry that satisfies a test, or the table's length. */
  function FirstName(t: Table, name: Text): (i: nat)
    ensures i <= |t| && (i < |t| ==> t[i].name == name)
    ensures forall j | 0 <= j < i :: t[j].name != name
  {
    if t == [] then 0 else if t[0].name == name then 0 else 1 + FirstName(t[1..], name)
  }

  function FirstField(t: Table, f: Field): (i: nat)
    ensures i <= |t| && (i < |t| ==> t[i] == f)
    ensures forall j | 0 <= j < i :: t[j] != f
  {
    if t == [] then 0 else if t[0] == f then 0 else 1 + FirstField(t[1..], f)
  }

  const INDEXED: byte := 0xC0      // 1 T: indexed field line, static
  const NAME_REF: byte := 0x50     // 01 N T: literal with name reference, static
  const LITERAL_NAME: byte := 0x20 // 001 N H: literal with literal name

  lemma Forms()
    ensures ValidPrefix(INDEXED, 6) && ValidPrefix(NAME_REF, 4) && ValidPrefix(LITERAL_NAME, 3) && ValidPrefix(0, 7)
    ensures Pow2(6) == 64 && Pow2(4) == 16 && Pow2(3) == 8 && Pow2(7) == 128 && Pow2(8) == 256
  {
    Powers();
  }

  /** One field line, in the most compact of the three forms that applies. */
  function EncodeLine(t: Table, f: Field): (s: seq<byte>)
    ensures s != []
  {
    Forms();
    var exact, named := FirstField(t, f), FirstName(t, f.name);
    if exact < |t| then EncodeInt(INDEXED, 6, exact)
    else if named < |t| then EncodeInt(NAME_REF, 4, named) + EncodeText(0, 7, f.value)
    else EncodeText(LITERAL_NAME, 3, f.name) + EncodeText(0, 7, f.value)
  }

  /** The forms of section 4.5 of RFC 9204 by their first bits: 11 for a static entry, 0101 for a value with a static
      name, 00100 for a name and a value written out. */
  lemma LineForms(t: Table, f: Field)
    ensures var b := EncodeLine(t, f)[0];
            && (f in t ==> b / 64 == 3)
            && (f !in t && FirstName(t, f.name) < |t| ==> b / 16 == 5)
            && (FirstName(t, f.name) == |t| ==> b / 8 == 4)
  {
    Forms();
    if f in t {
      var i :| 0 <= i < |t| && t[i] == f;
      assert t[i].name == f.name;
    }
  }

  /** Decodes the string whose first byte is also still to be read. */
  function DecodeValue(s: seq<byte>, huffman: Huffman): (r: Result<seq<byte>>)
    ensures r.Value? ==> |r.rest| < |s|
  {
    if s == [] then Failed else DecodeText(s[0], s[1..], 7, huffman)
  }

  /** Header names and values as the decoder produces them. */
  datatype Pair = Pair(name: seq<byte>, value: seq<byte>)

  function WithName(name: seq<byte>, r: Result<seq<byte>>): (p: Result<Pair>) {
    match r
    case Failed => Failed
    case Crashed => Crashed
    case Value(v, rest) => Value(Pair(name, v), rest)
  }

  /** The table entry at a decoded index. */
  function Entry(t: Table, r: Result<int>): (f: Result<Field>) {
    match r
    case Failed => Failed
    case Crashed => Crashed
    case Value(i, rest) => if i >= |t| then Failed else if i < 0 then Crashed else Value(t[i], rest)
  }

  function DecodeIndexed(t: Table, b: byte, s: seq<byte>): (r: Result<Pair>)
    ensures r.Value? ==> |r.rest| <= |s|
  {
    match Entry(t, DecodeInt(b, s, 6))
    case Failed => Failed
    case Crashed => Crashed
    case Value(f, rest) => Value(Pair(f.name, f.value), rest)
  }

  function DecodeNameRef(t: Table, b: byte, s: seq<byte>, huffman: Huffman): (r: Result<Pair>)
    ensures r.Value? ==> |r.rest| <= |s|
  {
    if b / 16 % 2 == 0 then Failed // a dynamic name reference
    else match Entry(t, DecodeInt(b, s, 4))
      case Failed => Failed
      case Crashed => Crashed
      case Value(f, rest) => WithName(f.name, DecodeValue(rest, huffman))
  }

  function DecodeLiteral(b: byte, s: seq<byte>, huffman: Huffman): (r: Result<Pair>)
    ensures r.Value? ==> |r.rest| <= |s|
  {
    match DecodeText(b, s, 3, huffman)
    case Failed => Failed
    case Crashed => Crashed
    case Value(name, rest) => WithName(name, DecodeValue(rest, huffman))
  }

  /** The form of a line is decided by its first byte. */
  function DecodeLine(t: Table, s: seq<byte>, huffman: Huffman): (r: Result<Pair>)
    requires s != []
    ensures r.Value? ==> |r.rest| < |s|
  {
    var b := s[0];
    if b >= 0x80 then DecodeIndexed(t, b, s[1..])
    else if b / 32 == 2 then DecodeNameRef(t, b, s[1..], huffman)
    else if b / 32 == 1 then DecodeLiteral(b, s[1..], huffman)
    else Failed
  }

  /** The decoder knows no dynamic table: it refuses dynamic name references and every post-base form, and also name
      references with the never-index bit. For an indexed line it does not look at the bit that tells the tables apart,
      and for a literal name not at the never-index bit. */
  lemma OtherForms(t: Table, b: byte, s: seq<byte>, huffman: Huffman)
    ensures b / 32 == 0 || b / 16 == 4 || b / 32 == 3 ==> DecodeLine(t, [b] + s, huffman) == Failed
    ensures b / 64 == 2 ==> DecodeLine(t, [b] + s, huffman) == DecodeLine(t, [b + 64] + s, huffman)
    ensures b / 16 == 2 ==> DecodeLine(t, [b] + s, huffman) == DecodeLine(t, [b + 16] + s, huffman)
  {
    Forms();
    hide DecodeInt, DecodeText, DecodeValue, Pow2;
    assert ([b] + s)[1..] == s;
    if b / 64 == 2 {
      assert ([b + 64] + s)[1..] == s;
      SameInt(b, b + 64, s, 6);
    }
    if b / 16 == 2 {
      assert ([b + 16] + s)[1..] == s;
      SameText(b, b + 16, s, 3, huffman);
    }
  }

  lemma SameInt(b: byte, c: byte, s: seq<byte>, prefix: nat)
    requires 0 < prefix <= 8 && b % Pow2(prefix) == c % Pow2(prefix)
    ensures DecodeInt(b, s, prefix) == DecodeInt(c, s, prefix)
  {
  }

  lemma SameText(b: byte, c: byte, s: seq<byte>, prefix: nat, huffman: Huffman)
    requires 0 < prefix < 8 && b % Pow2(prefix) == c % Pow2(prefix)
    requires b / Pow2(prefix) % 2 == c / Pow2(prefix) % 2
    ensures DecodeText(b, s, prefix, huffman) == DecodeText(c, s, prefix, huffman)
  {
    SameInt(b, c, s, prefix);
  }

  /** An empty value that has to be written out, with nothing after it: the decoder's reader reports
      the end of input instead of the empty string. */
  predicate Truncated(t: Table, f: Field, rest: seq<byte>) {
    f.value == [] && f !in t && rest == []
  }

  lemma ValueRoundTrip(v: Text, rest: seq<byte>, huffman: Huffman)
    requires ValidPrefix(0, 7)
    ensures DecodeValue(EncodeText(0, 7, v) + rest, huffman)
         == if v == [] && rest == [] then Failed else Value(v, rest)
  {
    var s := EncodeText(0, 7, v);
    TextRoundTrip(0, 7, v, rest, huffman);
    HeadTail(s, rest);
  }

  lemma IndexedRoundTrip(t: Table, i: nat, rest: seq<byte>, huffman: Huffman)
    requires i < |t| && ValidPrefix(INDEXED, 6)
    ensures DecodeLine(t, EncodeInt(INDEXED, 6, i) + rest, huffman) == Value(Pair(t[i].name, t[i].value), rest)
  {
    Forms();
    var s := EncodeInt(INDEXED, 6, i);
    IntRoundTrip(INDEXED, 6, i, rest);
    HeadTail(s, rest);
  }

  lemma NameRefRoundTrip(t: Table, i: nat, tail: seq<byte>, huffman: Huffman)
    requires i < |t| && ValidPrefix(NAME_REF, 4)
    ensures DecodeLine(t, EncodeInt(NAME_REF, 4, i) + tail, huffman)
         == WithName(t[i].name, DecodeValue(tail, huffman))
  {
    Forms();
    var s := EncodeInt(NAME_REF, 4, i);
    IntRoundTrip(NAME_REF, 4, i, tail);
    HeadTail(s, tail);
    hide EncodeInt, DecodeInt, DecodeValue, ValidPrefix, Pow2;
  }

  lemma LiteralRoundTrip(t: Table, name: Text, tail: seq<byte>, huffman: Huffman)
    requires tail != [] && ValidPrefix(LITERAL_NAME, 3)
    ensures DecodeLine(t, EncodeText(LITERAL_NAME, 3, name) + tail, huffman)
         == WithName(name, DecodeValue(tail, huffman))
  {
    Forms();
    var s := EncodeText(LITERAL_NAME, 3, name);
    TextRoundTrip(LITERAL_NAME, 3, name, tail, huffman);
    HeadTail(s, tail);
  }

  /** Every line is told apart by its first byte and delimits itself: whatever follows, the decoder
      recovers the field and stops exactly at the end of the line, unless the line is truncated. */
  lemma LineRoundTrip(t: Table, f: Field, rest: seq<byte>, huffman: Huffman)
    ensures DecodeLine(t, EncodeLine(t, f) + rest, huffman)
         == if Truncated(t, f, rest) then Failed else Value(Pair(f.name, f.value), rest)
  {
    Forms();
    var exact, named := FirstField(t, f), FirstName(t, f.name);
    if exact < |t| {
      IndexedRoundTrip(t, exact, rest, huffman);
      assert f in t;
    } else {
      var value := EncodeText(0, 7, f.value);
      ValueRoundTrip(f.value, rest, huffman);
      if named < |t| {
        NameRefRoundTrip(t, named, value + rest, huffman);
        Assoc(EncodeInt(NAME_REF, 4, named), value, rest);
      } else {
        LiteralRoundTrip(t, f.name, value + rest, huffman);
        Assoc(EncodeText(LITERAL_NAME, 3, f.name), value, rest);
      }
    }
  }

  // ---- whole header blocks ----

  type Headers = map<seq<byte>, seq<byte>>

  datatype Decoded = Bad | Panic | Ok(headers: Headers)

  function EncodeLines(t: Table, fs: seq<Field>): (s: seq<byte>)
    ensures fs != [] ==> s != []
  {
    if fs == [] then [] else EncodeLine(t, fs[0]) + EncodeLines(t, fs[1..])
  }

  function EncodeHeaders(t: Table, fs: seq<Field>): (s: seq<byte>) {
    [0, 0] + EncodeLines(t, fs)
  }

  function DecodeLines(t: Table, s: seq<byte>, h: Headers, huffman: Huffman): (r: Decoded)
    decreases |s|
  {
    if s == [] then Ok(h)
    else match DecodeLine(t, s, huffman)
      case Failed => Bad
      case Crashed => Panic
      case Value(p, rest) => DecodeLines(t, rest, h[p.name := p.value], huffman)
  }

  function DecodeHeaders(t: Table, s: seq<byte>, huffman: Huffman): (r: Decoded)
  {
    if s == [] then Bad
    else match DecodeInt(s[0], s[1..], 8)
      case Failed => Bad
      case Crashed => Panic
      case Value(_, s1) =>
        if s1 == [] then Bad
        else match DecodeInt(s1[0], s1[1..], 7)
          case Failed => Bad
          case Crashed => Panic
          case Value(_, s2) => DecodeLines(t, s2, map[], huffman)
  }

  /** The map a list of fields stands for: a later field replaces an earlier one of the same name. */
  function LastWins(fs: seq<Field>, h: Headers): (r: Headers)
  {
    if fs == [] then h else LastWins(fs[1..], h[fs[0].name := fs[0].value])
  }

  predicate EndsTruncated(t: Table, fs: seq<Field>) {
    fs != [] && Truncated(t, fs[|fs| - 1], [])
  }

  lemma DecodeOne(t: Table, s: seq<byte>, h: Headers, huffman: Huffman)
    requires s != []
    ensures DecodeLine(t, s, huffman) == Failed ==> DecodeLines(t, s, h, huffman) == Bad
    ensures var r := DecodeLine(t, s, huffman);
            r.Value? ==> DecodeLines(t, s, h, huffman) == DecodeLines(t, r.rest, h[r.v.name := r.v.value], huffman)
  {
  }

  lemma {:induction false} LinesRoundTrip(t: Table, fs: seq<Field>, h: Headers, huffman: Huffman)
    ensures DecodeLines(t, EncodeLines(t, fs), h, huffman)
         == if EndsTruncated(t, fs) then Bad else Ok(LastWins(fs, h))
  {
    hide DecodeLine, EncodeLine;
    if fs != [] {
      var f, rest := fs[0], EncodeLines(t, fs[1..]);
      LineRoundTrip(t, f, rest, huffman);
      DecodeOne(t, EncodeLine(t, f) + rest, h, huffman);
      LinesRoundTrip(t, fs[1..], h[f.name := f.value], huffman);
    }
  }

  lemma PrefixSkipped(t: Table, lines: seq<byte>, huffman: Huffman)
    ensures DecodeHeaders(t, [0, 0] + lines, huffman) == DecodeLines(t, lines, map[], huffman)
  {
    Forms();
    assert ([0, 0] + lines)[1..] == [0] + lines;
    assert ([0] + lines)[1..] == lines;
    assert DecodeInt(0, [0] + lines, 8) == Value(0, [0] + lines);
    assert DecodeInt(0, lines, 7) == Value(0, lines);
  }

  /** The decoder returns the last-wins map of what was encoded, if and only if the last field is not
      an empty value that had to be written out; in that case it reports an error. */
  lemma RoundTrip(t: Table, fs: seq<Field>, huffman: Huffman)
    ensures DecodeHeaders(t, EncodeHeaders(t, fs), huffman)
         == if EndsTruncated(t, fs) then Bad else Ok(LastWins(fs, map[]))
  {
    PrefixSkipped(t, EncodeLines(t, fs), huffman);
    LinesRoundTrip(t, fs, map[], huffman);
  }

  /** A block of one empty value that the table does not hold comes back as an error. */
  lemma LoneEmptyValueFails(t: Table, name: Text, huffman: Huffman)
    requires Field(name, []) !in t
    ensures DecodeHeaders(t, EncodeHeaders(t, [Field(name, [])]), huffman) == Bad
  {
    RoundTrip(t, [Field(name, [])], huffman);
  }

  /** The map a decoder should produce, without reference to order of insertion: each name has the
      value of its last field, and no other name appears. */
  lemma {:induction false} LastWinsMeaning(fs: seq<Field>, h: Headers, name: seq<byte>)
    ensures (exists i :: 0 <= i < |fs| && fs[i].name == name) ==>
              exists i :: 0 <= i < |fs| && fs[i].name == name && name in LastWins(fs, h)
                       && LastWins(fs, h)[name] == fs[i].value && forall j | i < j < |fs| :: fs[j].name != name
    ensures (forall i | 0 <= i < |fs| :: fs[i].name != name) ==>
              (name in LastWins(fs, h) <==> name in h) && (name in h ==> LastWins(fs, h)[name] == h[name])
  {
    if fs != [] {
      var rest, h' := fs[1..], h[fs[0].name := fs[0].value];
      LastWinsMeaning(rest, h', name);
      if i :| 0 <= i < |rest| && rest[i].name == name && name in LastWins(rest, h')
              && LastWins(rest, h')[name] == rest[i].value && forall j | i < j < |rest| :: rest[j].name != name {
        assert fs[i + 1].name == name;
        assert forall j | i + 1 < j < |fs| :: fs[j] == rest[j - 1];
      } else if fs[0].name == name {
        assert forall j | 0 < j < |fs| :: fs[j] == rest[j - 1];
      } else {
        assert forall j | 0 < j < |fs| :: fs[j] == rest[j - 1];
      }
    }
  }

  // ---- the loops ----

  /** The search over the table: the first entry with the name, and the first exact one. */
  method FindEntry(t: Table, f: Field) returns (idxName: int, idxNameVal: int)
    ensures idxNameVal == if FirstField(t, f) < |t| then FirstField(t, f) else -1
    ensures idxNameVal < 0 ==> idxName == if FirstName(t, f.name) < |t| then FirstName(t, f.name) else -1
  {
    idxName, idxNameVal := -1, -1;
    for i := 0 to |t|
      invariant idxNameVal == -1 && FirstField(t, f) >= i
      invariant if idxName < 0 then idxName == -1 && FirstName(t, f.name) >= i else idxName == FirstName(t, f.name) < i
    {
      if idxName < 0 && t[i].name == f.name {
        idxName := i;
      }
      if t[i] == f {
        idxNameVal := i;
        break;
      }
    }
  }

  method AppendPrefixedText(b: seq<byte>, first: byte, prefix: nat, x: Text) returns (out: seq<byte>)
    requires ValidPrefix(first, prefix)
    ensures out == b + EncodeText(first, prefix, x)
  {
    out := AppendPrefixedInt(b, first, prefix, |x|);
    Assoc(b, EncodeInt(first, prefix, |x|), x);
    out := out + x;
  }

  method AppendLine(b: seq<byte>, t: Table, f: Field) returns (out: seq<byte>)
    ensures out == b + EncodeLine(t, f)
  {
    Forms();
    var idxName, idxNameVal := FindEntry(t, f);
    if idxNameVal >= 0 {
      out := AppendPrefixedInt(b, INDEXED, 6, idxNameVal);
    } else if idxName >= 0 {
      out := AppendPrefixedInt(b, NAME_REF, 4, idxName);
      out := AppendPrefixedText(out, 0, 7, f.value);
      Assoc(b, EncodeInt(NAME_REF, 4, idxName), EncodeText(0, 7, f.value));
    } else {
      out := AppendPrefixedText(b, LITERAL_NAME, 3, f.name);
      out := AppendPrefixedText(out, 0, 7, f.value);
      Assoc(b, EncodeText(LITERAL_NAME, 3, f.name), EncodeText(0, 7, f.value));
    }
  }

  method EncodeBlock(t: Table, headers: seq<Field>) returns (b: seq<byte>)
    ensures b == EncodeHeaders(t, headers)
  {
    b := [0, 0];
    for i := 0 to |headers|
      invariant b + EncodeLines(t, headers[i..]) == EncodeHeaders(t, headers)
    {
      Assoc(b, EncodeLine(t, headers[i]), EncodeLines(t, headers[i + 1..]));
      assert headers[i..][1..] == headers[i + 1..];
      b := AppendLine(b, t, headers[i]);
    }
  }

  datatype Outcome<+T> = Err | Panicked | Got(v: T)

  /** A step of the reader agrees with the function that describes it. */
  ghost predicate Matches<T>(o: Outcome<T>, left: seq<byte>, r: Result<T>)
  {
    match r
    case Failed => o == Err
    case Crashed => o == Panicked
    case Value(v, rest) => o == Got(v) && left == rest
  }

  method ReadPrefixedTextWithFirst(r: ByteReader, b: byte, prefix: nat, huffman: Huffman)
    returns (o: Outcome<seq<byte>>)
    requires 0 < prefix < 8
    modifies r
    ensures Matches(o, r.left, DecodeText(b, old(r.left), prefix, huffman))
  {
    var failed, n := ReadPrefixedIntWithFirst(r, b, prefix);
    if failed { return Err; }
    if n < 0 || n >= MAX_ALLOC { return Panicked; }
    if r.left == [] { return Err; }
    var s: seq<byte>;
    if n <= |r.left| {
      s, r.left := r.left[..n], r.left[n..];
    } else {
      s, r.left := r.left + Zeros(n - |r.left|), [];
    }
    if b / Pow2(prefix) % 2 == 0 { return Got(s); }
    var u := huffman(s);
    return if u.None? then Err else Got(u.value);
  }

  method ReadValue(r: ByteReader, huffman: Huffman) returns (o: Outcome<seq<byte>>)
    modifies r
    ensures Matches(o, r.left, DecodeValue(old(r.left), huffman))
  {
    var failed, b := r.ReadByte();
    if failed { return Err; }
    o := ReadPrefixedTextWithFirst(r, b, 7, huffman);
  }

  method ReadLine(t: Table, r: ByteReader, huffman: Huffman) returns (o: Outcome<Pair>)
    requires r.left != []
    modifies r
    ensures Matches(o, r.left, DecodeLine(t, old(r.left), huffman))
  {
    hide DecodeInt, DecodeText, DecodeValue;
    var _, b := r.ReadByte();
    if b >= 0x80 {
      var failed, i := ReadPrefixedIntWithFirst(r, b, 6);
      if failed || i >= |t| { return Err; }
      if i < 0 { return Panicked; }
      return Got(Pair(t[i].name, t[i].value));
    }
    var name: seq<byte>;
    if b / 32 == 2 {
      if b / 16 % 2 == 0 { return Err; }
      var failed, i := ReadPrefixedIntWithFirst(r, b, 4);
      if failed || i >= |t| { return Err; }
      if i < 0 { return Panicked; }
      name := t[i].name;
    } else if b / 32 == 1 {
      var n := ReadPrefixedTextWithFirst(r, b, 3, huffman);
      if n.Err? { return Err; }
      if n.Panicked? { return Panicked; }
      name := n.v;
    } else {
      return Err;
    }
    var v := ReadValue(r, huffman);
    if v.Err? { return Err; }
    if v.Panicked? { return Panicked; }
    return Got(Pair(name, v.v));
  }

  method DecodeBlock(t: Table, block: seq<byte>, huffman: Huffman) returns (d: Decoded)
    ensures d == DecodeHeaders(t, block, huffman)
  {
    var r := new ByteReader(block);
    var failed, b := r.ReadByte();
    if failed { return Bad; }
    var ignored;
    failed, ignored := ReadPrefixedIntWithFirst(r, b, 8);
    if failed { return Bad; }
    failed, b := r.ReadByte();
    if failed { return Bad; }
    failed, ignored := ReadPrefixedIntWithFirst(r, b, 7);
    if failed { return Bad; }
    var h: Headers := map[];
    while r.left != []
      invariant DecodeLines(t, r.left, h, huffman) == DecodeHeaders(t, block, huffman)
      decreases |r.left|
    {
      var o := ReadLine(t, r, huffman);
      if o.Err? { return Bad; }
      if o.Panicked? { return Panic; }
      h := h[o.v.name := o.v.value];
    }
    return Ok(h);
  }
}

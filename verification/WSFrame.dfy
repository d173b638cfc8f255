/** RFC 6455 frames (sections 5.2 and 5.3): the codec and the loops that implement it. */
module WSFrame {
  import opened Bytes
  import opened Transport

  const CONTINUATION := 0
  const TEXT := 1
  const BINARY := 2
  const CLOSE := 8
  const PING := 9
  const PONG := 10

  const MAX_PAYLOAD := 0x400_0000 // 64 MiB cap on one frame

  type Key = k: seq<byte> | |k| == 4 witness [0, 0, 0, 0]

  function Mask(p: seq<byte>, key: Key): (m: seq<byte>)
    ensures |m| == |p|
  {
    seq(|p|, i requires 0 <= i < |p| => Xor(p[i], key[i % 4]))
  }

  /** Masking twice with the same key restores the payload. */
  lemma MaskInvolution(p: seq<byte>, key: Key)
    ensures Mask(Mask(p, key), key) == p
  {
    forall i | 0 <= i < |p|
      ensures Mask(Mask(p, key), key)[i] == p[i]
    {
      XorInvolution(p[i], key[i % 4]);
    }
  }

  /** How many bytes of extended length follow a 7-bit length field. */
  function ExtendedLen(ln: nat): (n: nat) {
    if ln == 126 then 2 else if ln == 127 then 8 else 0
  }

  datatype Frame = Frame(fin: bool, op: byte, payload: seq<byte>)

  datatype FrameError = Short | BadMasking | TooLarge

  datatype Parse = Failed(error: FrameError) | Parsed(frame: Frame, rest: seq<byte>)

  /** One frame off the front of s. */
  function ParseFrame(s: seq<byte>, expectMasked: bool): (r: Parse)
    ensures r.Parsed? ==> |r.rest| < |s| && r.frame.op < 16
  {
    if |s| < 2 then Failed(Short)
    else if (s[1] >= 128) != expectMasked then Failed(BadMasking)
    else
      var ext := ExtendedLen(s[1] % 128);
      if |s| < 2 + ext then Failed(Short)
      else
        var plen := if ext == 0 then s[1] % 128 else BigEndian(s[2..2 + ext]);
        ParseBody(s[0] >= 128, s[0] % 16, expectMasked, plen, s[2 + ext..])
  }

  /** The mask key and payload that follow the header. */
  function ParseBody(fin: bool, op: byte, masked: bool, plen: nat, s: seq<byte>): (r: Parse)
    ensures r.Parsed? ==> |r.rest| <= |s| && r.frame.op == op
  {
    var k := if masked then 4 else 0;
    if |s| < k then Failed(Short)
    else if plen > MAX_PAYLOAD then Failed(TooLarge)
    else if |s| < k + plen then Failed(Short)
    else
      var p := s[k..k + plen];
      Parsed(Frame(fin, op, if masked then Mask(p, s[..4]) else p), s[k + plen..])
  }

  /** A frame with the shortest length form, masked when a key is given. */
  function EncodeFrame(f: Frame, key: Option<Key>): (s: seq<byte>)
    requires |f.payload| < MAX_LEN
    ensures |f.payload| < |s| <= |f.payload| + 14
  {
    [(if f.fin then 0x80 else 0) + f.op % 16] + EncodeLen(|f.payload|, key.Some?) + EncodeBody(f.payload, key)
  }

  /** The 7-bit length field for a payload of n bytes. */
  function LenField(n: nat): (b: byte)
    ensures b < 128
  {
    if n < 126 then n else if n <= 0xFFFF then 126 else 127
  }

  function LenExtension(n: nat): (s: seq<byte>)
    ensures |s| == ExtendedLen(LenField(n))
  {
    if n < 126 then [] else if n <= 0xFFFF then ToBigEndian(n, 2) else ToBigEndian(n, 8)
  }

  function EncodeLen(n: nat, masked: bool): (s: seq<byte>)
  {
    [SecondByte(masked, LenField(n))] + LenExtension(n)
  }

  function EncodeBody(payload: seq<byte>, key: Option<Key>): (s: seq<byte>)
  {
    match key
    case None => payload
    case Some(k) => k + Mask(payload, k)
  }

  lemma BodyRoundTrip(f: Frame, key: Option<Key>, rest: seq<byte>)
    ensures ParseBody(f.fin, f.op, key.Some?, |f.payload|, EncodeBody(f.payload, key) + rest)
         == if |f.payload| <= MAX_PAYLOAD then Parsed(f, rest) else Failed(TooLarge)
  {
    var p := f.payload;
    var s := EncodeBody(p, key) + rest;
    if key.None? {
      assert s[..|p|] == p && s[|p|..] == rest;
    } else {
      assert s[..4] == key.value;
      assert s[4..4 + |p|] == Mask(p, key.value) && s[4 + |p|..] == rest;
      MaskInvolution(p, key.value);
    }
  }

  function SecondByte(masked: bool, ln: byte): (b: byte)
    requires ln < 128
    ensures (b >= 128) == masked && b % 128 == ln
  {
    (if masked then 0x80 else 0) + ln
  }

  lemma ParseHeader(b0: byte, masked: bool, ln: byte, ext: seq<byte>, body: seq<byte>)
    requires ln < 128 && |ext| == ExtendedLen(ln)
    ensures ParseFrame([b0, SecondByte(masked, ln)] + ext + body, masked)
         == ParseBody(b0 >= 128, b0 % 16, masked, if ext == [] then ln else BigEndian(ext), body)
  {
    var s := [b0, SecondByte(masked, ln)] + ext + body;
    assert s[2..2 + |ext|] == ext;
    assert s[2 + |ext|..] == body;
  }

  lemma LenRoundTrip(n: nat)
    requires n < MAX_LEN
    ensures n == if LenExtension(n) == [] then LenField(n) else BigEndian(LenExtension(n))
  {
    Pow256Values();
    if 126 <= n <= 0xFFFF {
      BigEndianRoundTrip(n, 2);
    } else if n > 0xFFFF {
      BigEndianRoundTrip(n, 8);
    }
  }

  /** The header in front of a body announces that body and its length. */
  lemma HeaderRoundTrip(b0: byte, n: nat, masked: bool, body: seq<byte>)
    requires n < MAX_LEN
    ensures ParseFrame([b0] + EncodeLen(n, masked) + body, masked)
         == ParseBody(b0 >= 128, b0 % 16, masked, n, body)
  {
    var b1 := SecondByte(masked, LenField(n));
    ParseHeader(b0, masked, LenField(n), LenExtension(n), body);
    LenRoundTrip(n);
    Assoc([b0], [b1], LenExtension(n));
    assert [b0] + [b1] == [b0, b1];
  }

  /** A frame followed by anything is read back with its opcode, payload and FIN bit, and exactly
      what followed is left, if and only if the payload is within the cap. */
  lemma RoundTrip(f: Frame, key: Option<Key>, rest: seq<byte>)
    requires |f.payload| < MAX_LEN && f.op < 16
    ensures ParseFrame(EncodeFrame(f, key) + rest, key.Some?)
         == if |f.payload| <= 0x400_0000 then Parsed(f, rest) else Failed(TooLarge)
  {
    var b0: byte := (if f.fin then 0x80 else 0) + f.op;
    assert (b0 >= 128) == f.fin && b0 % 16 == f.op;
    var head := [b0] + EncodeLen(|f.payload|, key.Some?);
    var body := EncodeBody(f.payload, key);
    assert EncodeFrame(f, key) == head + body;
    Assoc(head, body, rest);
    HeaderRoundTrip(b0, |f.payload|, key.Some?, body + rest);
    BodyRoundTrip(f, key, rest);
  }

  // ---- the bytes of a frame, as sections 5.2 and 5.3 of RFC 6455 draw them ----

  /** A masked byte has the bits of the payload byte, flipped where the key byte at that position has ones. */
  lemma MaskFlips(p: seq<byte>, key: Key, i: nat, k: nat)
    requires i < |p| && k < 8
    ensures Bit(Mask(p, key)[i], k) == if Bit(key[i % 4], k) == 1 then 1 - Bit(p[i], k) else Bit(p[i], k)
  {
    XorFlips(p[i], key[i % 4], k);
  }

  /** How many bytes of header come before the mask key. */
  function HeaderLen(n: nat): (h: nat) {
    if n < 126 then 2 else if n < 0x1_0000 then 4 else 10
  }

  lemma HeaderBytes(f: Frame, key: Option<Key>)
    requires |f.payload| < MAX_LEN
    ensures var s, h := EncodeFrame(f, key), HeaderLen(|f.payload|);
            && |s| >= h && s[0] == (if f.fin then 0x80 else 0) + f.op % 16
            && s[1..h] == EncodeLen(|f.payload|, key.Some?) && s[h..] == EncodeBody(f.payload, key)
  {
  }

  /** The first byte holds FIN, three zero bits and the opcode. The second holds the mask bit and a 7-bit length; from
      126 bytes on, and again from 2^16 on, the length follows in 2 or 8 big-endian bytes. */
  lemma FrameHeader(f: Frame, key: Option<Key>)
    requires |f.payload| < MAX_LEN && f.op < 16
    ensures var s, n := EncodeFrame(f, key), |f.payload|;
            && |s| == HeaderLen(n) + (if key.Some? then 4 else 0) + n
            && (s[0] / 128 == 1 <==> f.fin) && s[0] / 16 % 8 == 0 && s[0] % 16 == f.op
            && (s[1] / 128 == 1 <==> key.Some?)
            && (n < 126 ==> s[1] % 128 == n)
            && (126 <= n < 0x1_0000 ==> s[1] % 128 == 126 && BigEndian(s[2..4]) == n)
            && (0x1_0000 <= n ==> s[1] % 128 == 127 && BigEndian(s[2..10]) == n)
  {
    var s, n := EncodeFrame(f, key), |f.payload|;
    HeaderBytes(f, key);
    LenRoundTrip(n);
    assert s[1] == s[1..HeaderLen(n)][0];
    assert s[2..HeaderLen(n)] == s[1..HeaderLen(n)][1..] == LenExtension(n);
  }

  /** An unmasked payload stands as it is. A masked one stands behind its key, each byte with the bits flipped where the
      key has ones. */
  lemma FramePayload(f: Frame, key: Option<Key>)
    requires |f.payload| < MAX_LEN
    ensures var s, h := EncodeFrame(f, key), HeaderLen(|f.payload|);
            match key
            case None => s[h..] == f.payload
            case Some(x) =>
              && |s| == h + 4 + |f.payload| && s[h..h + 4] == x
              && forall i, k {:trigger Bit(s[h + 4 + i], k)} | 0 <= i < |f.payload| && 0 <= k < 8 ::
                   Bit(s[h + 4 + i], k) == if Bit(x[i % 4], k) == 1 then 1 - Bit(f.payload[i], k) else Bit(f.payload[i], k)
  {
    hide Mask, Bit, EncodeLen;
    var s, h := EncodeFrame(f, key), HeaderLen(|f.payload|);
    HeaderBytes(f, key);
    hide EncodeFrame, HeaderLen;
    if key.Some? {
      var body := s[h..];
      assert body == key.value + Mask(f.payload, key.value);
      assert body[..4] == key.value && s[h..h + 4] == body[..4];
      forall i, k | 0 <= i < |f.payload| && 0 <= k < 8
        ensures Bit(s[h + 4 + i], k)
             == if Bit(key.value[i % 4], k) == 1 then 1 - Bit(f.payload[i], k) else Bit(f.payload[i], k)
      {
        assert s[h + 4 + i] == body[4 + i] == Mask(f.payload, key.value)[i];
        MaskFlips(f.payload, key.value, i, k);
      }
    }
  }

  /** A frame masked the other way than expected is refused. */
  lemma WrongMasking(f: Frame, key: Option<Key>, rest: seq<byte>)
    requires |f.payload| < MAX_LEN && f.op < 16
    ensures ParseFrame(EncodeFrame(f, key) + rest, key.None?) == Failed(BadMasking)
  {
    FrameHeader(f, key);
  }

  /** Every part of a frame short of the whole is waited for. */
  lemma TruncatedFrame(f: Frame, key: Option<Key>, n: nat)
    requires |f.payload| <= MAX_PAYLOAD && f.op < 16 && n < |EncodeFrame(f, key)|
    ensures ParseFrame(EncodeFrame(f, key)[..n], key.Some?) == Failed(Short)
  {
    var s, h := EncodeFrame(f, key), HeaderLen(|f.payload|);
    FrameHeader(f, key);
    HeaderBytes(f, key);
    if n >= h {
      var body := EncodeBody(f.payload, key)[..n - h];
      CutBehind(s, h, n);
      HeaderRoundTrip(s[0], |f.payload|, key.Some?, body);
      hide EncodeFrame, EncodeLen, EncodeBody, ParseFrame, BigEndian;
      assert |body| < (if key.Some? then 4 else 0) + |f.payload|;
    } else {
      hide EncodeFrame, EncodeLen, EncodeBody, BigEndian;
    }
  }

  lemma CutBehind(s: seq<byte>, h: nat, n: nat)
    requires 1 <= h <= n <= |s|
    ensures s[..n] == [s[0]] + s[1..h] + s[h..][..n - h]
  {
  }

  /** bufio.Reader: what has been read ahead, and the transport it comes from. */
  class BufReader {
    const rd: Transport
    var buf: seq<byte>

    constructor (rd: Transport)
      requires rd.Valid()
      ensures this.rd == rd && Valid() && Rest() == rd.Pending()
    {
      this.rd := rd;
      buf := [];
    }

    ghost predicate Valid()
      reads rd, rd.Repr
    {
      rd.Valid() && this !in rd.Repr
    }

    /** Every byte not yet handed out, up to the transport's first failure. */
    ghost function Rest(): seq<byte>
      reads this, rd, rd.s`incoming, rd.Repr
      requires Valid()
    {
      buf + rd.Pending()
    }

    /** Hands out up to max of the buffered bytes, refilling once when there are none. A large read with
        nothing buffered goes straight to the transport. No bytes means failure, and there were none. */
    method Read(max: nat) returns (data: seq<byte>)
      requires Valid() && max > 0
      modifies this, rd.s`incoming, rd.Repr
      ensures Valid() && old(rd.Repr) <= rd.Repr && fresh(rd.Repr - old(rd.Repr))
      ensures |data| <= max
      ensures data != [] ==> data + Rest() == old(Rest())
      ensures data == [] ==> old(Rest()) == [] && (rd.h3 == null ==> Rest() == [])
    {
      if buf == [] {
        if max >= 0x8000 {
          data := Bypass(max);
          return;
        }
        Refill();
      }
      data := HandOut(max);
    }

    /** A read of the transport past the empty buffer. */
    method Bypass(max: nat) returns (data: seq<byte>)
      requires Valid() && max > 0 && buf == []
      modifies rd.s`incoming, rd.Repr
      ensures Valid() && old(rd.Repr) <= rd.Repr && fresh(rd.Repr - old(rd.Repr)) && buf == []
      ensures |data| <= max
      ensures data != [] ==> data + Rest() == old(Rest())
      ensures data == [] ==> old(Rest()) == [] && (rd.h3 == null ==> Rest() == [])
    {
      data := rd.Receive(max);
      assert Rest() == rd.Pending();
    }

    /** One read of the transport into the empty buffer. */
    method Refill()
      requires Valid() && buf == []
      modifies this, rd.s`incoming, rd.Repr
      ensures Valid() && old(rd.Repr) <= rd.Repr && fresh(rd.Repr - old(rd.Repr))
      ensures buf != [] ==> Rest() == old(Rest())
      ensures buf == [] ==> old(Rest()) == [] && (rd.h3 == null ==> Rest() == [])
    {
      var data := Bypass(0x8000);
      ghost var rest := Rest();
      buf := data;
      assert rest == rd.Pending();
    }

    /** Hands out up to max of the buffered bytes. */
    method HandOut(max: nat) returns (data: seq<byte>)
      requires Valid() && max > 0
      modifies this`buf
      ensures Valid() && |data| <= max && data + Rest() == old(Rest())
      ensures data == [] <==> old(buf) == []
    {
      var n := if max < |buf| then max else |buf|;
      data := buf[..n];
      Front(buf, n, rd.Pending());
      buf := buf[n..];
    }
  }

  /** io.ReadFull: the next n bytes, if there are so many. */
  method Take(r: BufReader, n: nat) returns (data: Option<seq<byte>>)
    requires r.Valid()
    modifies r, r.rd.s`incoming, r.rd.Repr
    ensures r.Valid() && old(r.rd.Repr) <= r.rd.Repr && fresh(r.rd.Repr - old(r.rd.Repr))
    ensures data.Some? <==> n <= |old(r.Rest())|
    ensures data.Some? ==> |data.value| == n && data.value + r.Rest() == old(r.Rest())
    ensures data.None? && r.rd.h3 == null ==> r.Rest() == []
  {
    ghost var all := r.Rest();
    var got: seq<byte> := [];
    while |got| < n
      invariant r.Valid() && old(r.rd.Repr) <= r.rd.Repr && fresh(r.rd.Repr - old(r.rd.Repr))
      invariant |got| <= n && got + r.Rest() == all
    {
      var more := r.Read(n - |got|);
      if more == [] { return None; }
      Assoc(got, more, r.Rest());
      got := got + more;
    }
    data := Some(got);
  }

  /** The masking loop, in place. */
  method MaskInPlace(p: array<byte>, key: Key)
    modifies p
    ensures p[..] == Mask(old(p[..]), key)
  {
    for i := 0 to p.Length
      invariant forall j | 0 <= j < i :: p[j] == Xor(old(p[j]), key[j % 4])
      invariant forall j | i <= j < p.Length :: p[j] == old(p[j])
    {
      p[i] := Xor(p[i], key[i % 4]);
    }
  }

  lemma ParseTwo(hdr: seq<byte>, rest: seq<byte>, masked: bool)
    requires |hdr| == 2
    ensures ParseFrame(hdr + rest, masked)
         == if (hdr[1] >= 128) != masked then Failed(BadMasking) else ParseLength(hdr[0], hdr[1] % 128, masked, rest)
  {
    var s, ext := hdr + rest, ExtendedLen(hdr[1] % 128);
    assert s[0] == hdr[0] && s[1] == hdr[1];
    if |s| >= 2 + ext {
      assert s[2..2 + ext] == rest[..ext] && s[2 + ext..] == rest[ext..];
    }
  }

  /** What follows the two fixed bytes of a header. */
  function ParseLength(b0: byte, ln: byte, masked: bool, s: seq<byte>): (r: Parse) {
    var ext := ExtendedLen(ln);
    if |s| < ext then Failed(Short)
    else ParseBody(b0 >= 128, b0 % 16, masked, if ext == 0 then ln else BigEndian(s[..ext]), s[ext..])
  }

  /** The payload length, from the 7-bit field or the bytes that extend it. */
  method ReadLength(r: BufReader, ln: byte) returns (plen: Option<nat>)
    requires r.Valid()
    modifies r, r.rd.s`incoming, r.rd.Repr
    ensures r.Valid() && old(r.rd.Repr) <= r.rd.Repr && fresh(r.rd.Repr - old(r.rd.Repr))
    ensures plen.Some? <==> ExtendedLen(ln) <= |old(r.Rest())|
    ensures plen.Some? ==> r.Rest() == old(r.Rest())[ExtendedLen(ln)..]
    ensures plen.Some? ==>
              plen.value == if ExtendedLen(ln) == 0 then ln else BigEndian(old(r.Rest())[..ExtendedLen(ln)])
  {
    if ExtendedLen(ln) == 0 { return Some(ln); }
    var ext := Take(r, ExtendedLen(ln));
    if ext.None? { return None; }
    plen := Some(BigEndian(ext.value));
  }

  method ReadFrame(r: BufReader, expectMasked: bool) returns (err: Option<FrameError>, f: Frame)
    requires r.Valid()
    modifies r, r.rd.s`incoming, r.rd.Repr
    ensures r.Valid() && old(r.rd.Repr) <= r.rd.Repr && fresh(r.rd.Repr - old(r.rd.Repr))
    ensures match ParseFrame(old(r.Rest()), expectMasked)
            case Failed(e) => err == Some(e)
            case Parsed(g, rest) => err == None && f == g && r.Rest() == rest
  {
    f := Frame(false, 0, []);
    var hdr := Take(r, 2);
    if hdr.None? { return Some(Short), f; }
    var b0, b1 := hdr.value[0], hdr.value[1];
    ParseTwo(hdr.value, r.Rest(), expectMasked);
    if (b1 >= 128) != expectMasked { return Some(BadMasking), f; }
    var plen := ReadLength(r, b1 % 128);
    if plen.None? { return Some(Short), f; }
    err, f := ReadBody(r, b0 >= 128, b0 % 16, expectMasked, plen.value);
  }

  method ReadBody(r: BufReader, fin: bool, op: byte, masked: bool, plen: nat)
    returns (err: Option<FrameError>, f: Frame)
    requires r.Valid()
    modifies r, r.rd.s`incoming, r.rd.Repr
    ensures r.Valid() && old(r.rd.Repr) <= r.rd.Repr && fresh(r.rd.Repr - old(r.rd.Repr))
    ensures match ParseBody(fin, op, masked, plen, old(r.Rest()))
            case Failed(e) => err == Some(e)
            case Parsed(g, rest) => err == None && f == g && r.Rest() == rest
  {
    f := Frame(fin, op, []);
    var key: Key := [0, 0, 0, 0];
    if masked {
      var k := Take(r, 4);
      if k.None? { return Some(Short), f; }
      key := k.value;
    }
    ghost var body := r.Rest();
    ParseKey(fin, op, masked, plen, if masked then key else [], body);
    if plen > MAX_PAYLOAD { return Some(TooLarge), f; }
    var payload := Take(r, plen);
    if payload.None? { return Some(Short), f; }
    var p := payload.value;
    assert p == body[..plen] && r.Rest() == body[plen..];
    if masked {
      p := MaskCopy(p, key);
    }
    return None, Frame(fin, op, p);
  }

  lemma ParseKey(fin: bool, op: byte, masked: bool, plen: nat, key: seq<byte>, s: seq<byte>)
    requires |key| == if masked then 4 else 0
    ensures ParseBody(fin, op, masked, plen, key + s)
         == if plen > MAX_PAYLOAD then Failed(TooLarge)
            else if |s| < plen then Failed(Short)
            else Parsed(Frame(fin, op, if masked then Mask(s[..plen], key) else s[..plen]), s[plen..])
  {
    hide Mask;
    var t, k := key + s, |key|;
    if plen <= |s| {
      assert t[k..k + plen] == s[..plen] && t[k + plen..] == s[plen..];
    }
    assert masked ==> t[..4] == key;
  }

  /** XORs a copy of p in place. */
  method MaskCopy(p: seq<byte>, key: Key) returns (out: seq<byte>)
    ensures out == Mask(p, key)
  {
    var a := new byte[|p|](i requires 0 <= i < |p| => p[i]);
    assert a[..] == p;
    MaskInPlace(a, key);
    out := a[..];
  }

  method BuildFrame(typ: byte, payload: seq<byte>, key: Option<Key>) returns (out: seq<byte>)
    requires |payload| < MAX_LEN
    ensures out == EncodeFrame(Frame(true, typ, payload), key)
  {
    var plen := |payload|;
    var hdr: seq<byte>;
    if plen < 126 {
      hdr := [0x80 + typ % 16, plen];
    } else if plen <= 0xFFFF {
      hdr := [0x80 + typ % 16, 126] + ToBigEndian(plen, 2);
    } else {
      hdr := [0x80 + typ % 16, 127] + ToBigEndian(plen, 8);
    }
    if key.None? {
      out := hdr + payload;
    } else {
      hdr := hdr[1 := hdr[1] + 0x80];
      var masked := MaskCopy(payload, key.value);
      out := hdr + key.value + masked;
    }
    assert hdr == [hdr[0]] + EncodeLen(plen, key.Some?);
  }
}

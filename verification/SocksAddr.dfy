/** SOCKS address headers (section 5 of RFC 1928): the plain parser and the keyed fast path. */
module SocksAddr {
  import opened Bytes

  const IPV4 := 1
  const DOMAIN := 3
  const IPV6 := 4

  datatype Host = V4(ip: seq<byte>) | V6(ip: seq<byte>) | Name(name: seq<byte>)

  datatype Parsed = Rejected | Addr(host: Host, port: nat, off: nat)

  /** The address that starts at b[off]: type, address, port. `off` in the result is just past it. */
  function ParseAt(b: seq<byte>, off: nat): (r: Parsed)
  {
    if |b| < off + 1 then Rejected
    else if b[off] == IPV4 then
      if |b| < off + 7 then Rejected
      else Addr(V4(b[off + 1..off + 5]), BigEndian(b[off + 5..off + 7]), off + 7)
    else if b[off] == IPV6 then
      if |b| < off + 19 then Rejected
      else Addr(V6(b[off + 1..off + 17]), BigEndian(b[off + 17..off + 19]), off + 19)
    else if b[off] == DOMAIN then
      if |b| < off + 2 then Rejected
      else
        var end := off + 2 + b[off + 1];
        if |b| < end + 2 then Rejected
        else Addr(Name(b[off + 2..end]), BigEndian(b[end..end + 2]), end + 2)
    else Rejected
  }

  // ---- the grammar of section 5 of RFC 1928, read the other way ----

  predicate ValidHost(h: Host) {
    match h
    case V4(ip) => |ip| == 4
    case V6(ip) => |ip| == 16
    case Name(name) => |name| < 256
  }

  /** The header of a host and a port: a type byte, the address, the port in two bytes. */
  function Header(h: Host, port: nat): (s: seq<byte>)
    requires ValidHost(h)
  {
    Address(h) + ToBigEndian(port, 2)
  }

  function Address(h: Host): (s: seq<byte>)
    requires ValidHost(h)
  {
    match h
    case V4(ip) => [1] + ip
    case V6(ip) => [4] + ip
    case Name(name) => [3, |name|] + name
  }

  lemma Within(pre: seq<byte>, s: seq<byte>, rest: seq<byte>, i: nat, j: nat)
    requires i <= j <= |s|
    ensures (pre + s + rest)[|pre| + i..|pre| + j] == s[i..j]
  {
  }

  lemma AcceptsIP(pre: seq<byte>, h: Host, port: nat, rest: seq<byte>)
    requires ValidHost(h) && !h.Name? && port < 0x1_0000
    ensures ParseAt(pre + Header(h, port) + rest, |pre|) == Addr(h, port, |pre| + |Header(h, port)|)
  {
    hide BigEndian, ToBigEndian, Pow256;
    var s, n := Header(h, port), |h.ip|;
    PortReads(port);
    HeaderParts(h, port);
    HeadOf(pre, s, rest);
    hide Header, Address;
    Within(pre, s, rest, 1, 1 + n);
    Within(pre, s, rest, 1 + n, 3 + n);
  }

  lemma AcceptsName(pre: seq<byte>, h: Host, port: nat, rest: seq<byte>)
    requires ValidHost(h) && h.Name? && port < 0x1_0000
    ensures ParseAt(pre + Header(h, port) + rest, |pre|) == Addr(h, port, |pre| + |Header(h, port)|)
  {
    hide BigEndian, ToBigEndian, Pow256;
    var s, n := Header(h, port), |h.name|;
    PortReads(port);
    HeaderParts(h, port);
    HeadOf(pre, s, rest);
    hide Header, Address;
    Within(pre, s, rest, 2, 2 + n);
    Within(pre, s, rest, 2 + n, 4 + n);
  }

  lemma PortReads(port: nat)
    requires port < 0x1_0000
    ensures BigEndian(ToBigEndian(port, 2)) == port
  {
    hide BigEndian, ToBigEndian;
    Pow256Values();
    BigEndianRoundTrip(port, 2);
  }

  /** Every header is accepted, wherever it stands and whatever follows. */
  lemma AcceptsHeader(pre: seq<byte>, h: Host, port: nat, rest: seq<byte>)
    requires ValidHost(h) && port < 0x1_0000
    ensures ParseAt(pre + Header(h, port) + rest, |pre|) == Addr(h, port, |pre| + |Header(h, port)|)
  {
    hide ParseAt, Header;
    if h.Name? { AcceptsName(pre, h, port, rest); } else { AcceptsIP(pre, h, port, rest); }
  }

  lemma HeadOf(pre: seq<byte>, s: seq<byte>, rest: seq<byte>)
    requires |s| >= 2
    ensures var b := pre + s + rest;
            |b| >= |pre| + |s| && b[|pre|] == s[0] && b[|pre| + 1] == s[1]
  {
  }

  lemma HeaderParts(h: Host, port: nat)
    requires ValidHost(h)
    ensures var s := Header(h, port);
            var n := |s|;
            && n >= 4
            && match h
               case V4(ip) => n == 7 && s[0] == 1 && s[1..5] == ip && s[5..7] == ToBigEndian(port, 2)
               case V6(ip) => n == 19 && s[0] == 4 && s[1..17] == ip && s[17..19] == ToBigEndian(port, 2)
               case Name(name) =>
                 && n == |name| + 4 && s[0] == 3 && s[1] == |name| && s[2..2 + |name|] == name
                 && s[2 + |name|..4 + |name|] == ToBigEndian(port, 2)
  {
    hide ToBigEndian;
  }

  /** And nothing else is. */
  lemma AcceptsOnlyHeaders(b: seq<byte>, off: nat)
    requires ParseAt(b, off).Addr?
    ensures var a := ParseAt(b, off);
            off <= a.off <= |b| && ValidHost(a.host) && a.port < 0x1_0000 && b[off..a.off] == Header(a.host, a.port)
  {
    var a := ParseAt(b, off);
    AddressRead(b, off);
    hide ParseAt, Address, BigEndian, ToBigEndian;
    Pow256Values();
    BigEndianBound(b[a.off - 2..a.off]);
    ToBigEndianOfBigEndian(b[a.off - 2..a.off]);
    TwoSlices(b, off, a.off - 2, a.off);
  }

  lemma AddressRead(b: seq<byte>, off: nat)
    requires ParseAt(b, off).Addr?
    ensures var a := ParseAt(b, off);
            && off + 2 <= a.off <= |b| && a.port == BigEndian(b[a.off - 2..a.off])
            && ValidHost(a.host) && b[off..a.off - 2] == Address(a.host)
  {
    hide BigEndian;
  }

  lemma TwoSlices(b: seq<byte>, i: nat, j: nat, k: nat)
    requires i <= j <= k <= |b|
    ensures b[i..k] == b[i..j] + b[j..k]
  {
  }

  /** The host is kept as its bytes; rendering an IP address as text is left to the library. */
  method ParseSocksAddrAt(b: seq<byte>, start: nat) returns (failed: bool, host: Host, port: nat, newOff: nat)
    ensures match ParseAt(b, start)
            case Rejected => failed
            case Addr(h, p, o) => !failed && host == h && port == p && newOff == o
  {
    failed, host, port, newOff := true, Name([]), 0, 0;
    var off := start;
    if |b| < off + 1 { return; }
    var atyp := b[off];
    off := off + 1;
    if atyp == IPV4 {
      if |b| < off + 4 + 2 { return; }
      host := V4(b[off..off + 4]);
      off := off + 4;
    } else if atyp == DOMAIN {
      if |b| < off + 1 { return; }
      var l := b[off] as int;
      off := off + 1;
      if |b| < off + l + 2 { return; }
      host := Name(b[off..off + l]);
      off := off + l;
    } else if atyp == IPV6 {
      if |b| < off + 16 + 2 { return; }
      host := V6(b[off..off + 16]);
      off := off + 16;
    } else {
      return;
    }
    port := BigEndian(b[off..off + 2]);
    off := off + 2;
    return false, host, port, off;
  }

  /** A comparable key: a fixed 16-byte address field, padded with zeros for IPv4. */
  datatype AddrKey = AddrKey(atyp: byte, ip: seq<byte>, port: nat, domain: seq<byte>)

  /** The key of a parsed address. */
  function KeyOf(host: Host, port: nat): (k: AddrKey)
  {
    match host
    case V4(ip) => AddrKey(IPV4, ip + Zeros(12), port, [])
    case V6(ip) => AddrKey(IPV6, ip, port, [])
    case Name(name) => AddrKey(DOMAIN, Zeros(16), port, name)
  }

  /** The fast path accepts exactly what the plain parser accepts at offset 0, ends at the same place,
      and computes the key of the same host and port. */
  method ParseAddrKeyFromPlain(plain: seq<byte>) returns (k: AddrKey, off: nat, ok: bool)
    ensures ok <==> ParseAt(plain, 0).Addr?
    ensures ok ==> var a := ParseAt(plain, 0); off == a.off && k == KeyOf(a.host, a.port)
  {
    k, off, ok := AddrKey(0, Zeros(16), 0, []), 0, false;
    if |plain| < 1 { return; }
    k := k.(atyp := plain[0]);
    off := 1;
    if k.atyp == IPV4 {
      if |plain| < off + 4 + 2 { return k, 0, false; }
      k := k.(ip := plain[off..off + 4] + k.ip[4..]);
      assert k.ip[4..] == Zeros(12);
      off := off + 4;
    } else if k.atyp == IPV6 {
      if |plain| < off + 16 + 2 { return k, 0, false; }
      k := k.(ip := plain[off..off + 16]);
      off := off + 16;
    } else if k.atyp == DOMAIN {
      if |plain| < off + 1 { return k, 0, false; }
      var l := plain[off] as int;
      off := off + 1;
      if |plain| < off + l + 2 { return k, 0, false; }
      k := k.(domain := plain[off..off + l]);
      off := off + l;
    } else {
      return k, 0, false;
    }
    TwoBytes(plain[off..off + 2]);
    k := k.(port := plain[off] as int * 256 + plain[off + 1] as int);
    off := off + 2;
    ok := true;
  }

  lemma TwoBytes(s: seq<byte>)
    requires |s| == 2
    ensures BigEndian(s) == s[0] as int * 256 + s[1] as int
  {
    var first := s[..1];
    assert first[..0] == [];
    assert BigEndian(first) == s[0];
    assert s[..|s| - 1] == first;
  }

  /** The header bytes a key stands for. */
  function HeaderOf(k: AddrKey): (s: seq<byte>)
    requires |k.ip| == 16 && |k.domain| < 256
  {
    [k.atyp] + AddressOf(k) + ToBigEndian(k.port, 2)
  }

  function AddressOf(k: AddrKey): (s: seq<byte>)
    requires |k.ip| == 16 && |k.domain| < 256
  {
    if k.atyp == IPV4 then k.ip[..4] else if k.atyp == IPV6 then k.ip else [|k.domain|] + k.domain
  }

  lemma KeyKeepsAddress(plain: seq<byte>)
    requires ParseAt(plain, 0).Addr?
    ensures var a := ParseAt(plain, 0); var k := KeyOf(a.host, a.port);
            && 3 <= a.off <= |plain| && a.port == BigEndian(plain[a.off - 2..a.off])
            && k.atyp == plain[0] && k.port == a.port && |k.ip| == 16 && |k.domain| < 256
            && AddressOf(k) == plain[1..a.off - 2]
  {
    hide BigEndian;
    if plain[0] == IPV4 {
      assert (plain[1..5] + Zeros(12))[..4] == plain[1..5];
    } else if plain[0] == DOMAIN {
      var end := 2 + plain[1] as int;
      assert plain[1..end] == [plain[1]] + plain[2..end];
    }
  }

  lemma ThreeParts(s: seq<byte>, n: nat)
    requires 3 <= n <= |s|
    ensures s[..n] == [s[0]] + s[1..n - 2] + s[n - 2..n]
  {
  }

  /** Nothing of the header is lost in the key. */
  lemma KeyKeepsHeader(plain: seq<byte>)
    requires ParseAt(plain, 0).Addr?
    ensures var a := ParseAt(plain, 0); var k := KeyOf(a.host, a.port);
            |k.ip| == 16 && |k.domain| < 256 && a.off <= |plain| && HeaderOf(k) == plain[..a.off]
  {
    KeyKeepsAddress(plain);
    hide ParseAt, KeyOf, AddressOf, BigEndian, ToBigEndian;
    var a := ParseAt(plain, 0);
    ThreeParts(plain, a.off);
    ToBigEndianOfBigEndian(plain[a.off - 2..a.off]);
  }

  /** Two accepted packets get the same key exactly when their headers are the same bytes. */
  lemma KeysEqualIff(p: seq<byte>, q: seq<byte>)
    requires ParseAt(p, 0).Addr? && ParseAt(q, 0).Addr?
    ensures var a, b := ParseAt(p, 0), ParseAt(q, 0);
            && a.off <= |p| && b.off <= |q|
            && (KeyOf(a.host, a.port) == KeyOf(b.host, b.port) <==> p[..a.off] == q[..b.off])
  {
    KeyKeepsHeader(p);
    KeyKeepsHeader(q);
    var a, b := ParseAt(p, 0), ParseAt(q, 0);
    if p[..a.off] == q[..b.off] {
      HeaderDecides(p, q);
    }
  }

  lemma HeaderDecides(p: seq<byte>, q: seq<byte>)
    requires ParseAt(p, 0).Addr? && ParseAt(q, 0).Addr?
    requires var m, n := ParseAt(p, 0).off, ParseAt(q, 0).off; m <= |p| && n <= |q| && p[..m] == q[..n]
    ensures ParseAt(p, 0) == ParseAt(q, 0)
  {
    var n := ParseAt(p, 0).off;
    assert |q[..ParseAt(q, 0).off]| == n;
    var h := p[..n];
    assert forall i | 0 <= i < n :: p[i] == h[i] && q[i] == h[i];
    assert p[n - 2..n] == h[n - 2..] && q[n - 2..n] == h[n - 2..];
    if h[0] == IPV4 {
      assert p[1..5] == h[1..5] && q[1..5] == h[1..5];
    } else if h[0] == IPV6 {
      assert p[1..17] == h[1..17] && q[1..17] == h[1..17];
    } else {
      assert p[2..n - 2] == h[2..n - 2] && q[2..n - 2] == h[2..n - 2];
    }
  }
}

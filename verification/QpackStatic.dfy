/** The 99-entry static table (appendix A of RFC 9204) and the Extended CONNECT request built on it. */
module QpackStatic {
  import opened PrefixedInt
  import opened Qpack

  /** The bytes of an ASCII literal. */
  function Ascii(s: string): (t: Text)
    ensures |s| < 0x1000 ==> |t| == |s| && forall i | 0 <= i < |s| :: t[i] == s[i] as int % 256
  {
    if |s| < 0x1000 then seq(|s|, i requires 0 <= i < |s| => s[i] as int % 256) else []
  }

  function F(name: string, value: string): (f: Field) {
    Field(Ascii(name), Ascii(value))
  }

  function Entries0(): (s: seq<Field>)
    ensures |s| == 11 && LongNames(s)
  {
    [
      F(":authority", ""),
      F(":path", "/"),
      F("age", "0"),
      F("content-disposition", ""),
      F("content-length", "0"),
      F("cookie", ""),
      F("date", ""),
      F("etag", ""),
      F("if-modified-since", ""),
      F("if-none-match", ""),
      F("last-modified", "")
    ]
  }

  function Entries11(): (s: seq<Field>)
    ensures |s| == 11 && LongNames(s)
  {
    [
      F("link", ""),
      F("location", ""),
      F("referer", ""),
      F("set-cookie", ""),
      F(":method", "CONNECT"),
      F(":method", "DELETE"),
      F(":method", "GET"),
      F(":method", "HEAD"),
      F(":method", "OPTIONS"),
      F(":method", "POST"),
      F(":method", "PUT")
    ]
  }

  function Entries22(): (s: seq<Field>)
    ensures |s| == 11 && LongNames(s)
  {
    [
      F(":scheme", "http"),
      F(":scheme", "https"),
      F(":status", "103"),
      F(":status", "200"),
      F(":status", "304"),
      F(":status", "404"),
      F(":status", "503"),
      F("accept", "*/*"),
      F("accept", "application/dns-message"),
      F("accept-encoding", "gzip, deflate, br"),
      F("accept-ranges", "bytes")
    ]
  }

  function Entries33(): (s: seq<Field>)
    ensures |s| == 11 && LongNames(s)
  {
    [
      F("access-control-allow-headers", "cache-control"),
      F("access-control-allow-headers", "content-type"),
      F("access-control-allow-origin", "*"),
      F("cache-control", "max-age=0"),
      F("cache-control", "max-age=2592000"),
      F("cache-control", "max-age=604800"),
      F("cache-control", "no-cache"),
      F("cache-control", "no-store"),
      F("cache-control", "public, max-age=31536000"),
      F("content-encoding", "br"),
      F("content-encoding", "gzip")
    ]
  }

  function Entries44(): (s: seq<Field>)
    ensures |s| == 11 && LongNames(s)
  {
    [
      F("content-type", "application/dns-message"),
      F("content-type", "application/javascript"),
      F("content-type", "application/json"),
      F("content-type", "application/x-www-form-urlencoded"),
      F("content-type", "image/gif"),
      F("content-type", "image/jpeg"),
      F("content-type", "image/png"),
      F("content-type", "text/css"),
      F("content-type", "text/html; charset=utf-8"),
      F("content-type", "text/plain"),
      F("content-type", "text/plain;charset=utf-8")
    ]
  }

  function Entries55(): (s: seq<Field>)
    ensures |s| == 11 && LongNames(s)
  {
    [
      F("range", "bytes=0-"),
      F("strict-transport-security", "max-age=31536000"),
      F("strict-transport-security", "max-age=31536000; includesubdomains"),
      F("strict-transport-security", "max-age=31536000; includesubdomains; preload"),
      F("vary", "accept-encoding"),
      F("vary", "origin"),
      F("x-content-type-options", "nosniff"),
      F("x-xss-protection", "1; mode=block"),
      F(":status", "100"),
      F(":status", "204"),
      F(":status", "206")
    ]
  }

  function Entries66(): (s: seq<Field>)
    ensures |s| == 11 && LongNames(s)
  {
    [
      F(":status", "302"),
      F(":status", "400"),
      F(":status", "403"),
      F(":status", "421"),
      F(":status", "425"),
      F(":status", "500"),
      F("accept-language", ""),
      F("access-control-allow-credentials", "FALSE"),
      F("access-control-allow-credentials", "TRUE"),
      F("access-control-allow-headers", "*"),
      F("access-control-allow-methods", "get")
    ]
  }

  function Entries77(): (s: seq<Field>)
    ensures |s| == 11 && LongNames(s)
  {
    [
      F("access-control-allow-methods", "get, post, options"),
      F("access-control-allow-methods", "options"),
      F("access-control-expose-headers", "content-length"),
      F("access-control-request-headers", "content-type"),
      F("access-control-request-method", "get"),
      F("access-control-request-method", "post"),
      F("alt-svc", "clear"),
      F("authorization", ""),
      F("content-security-policy", "script-src 'none'; object-src 'none'; base-uri 'none'"),
      F("early-data", "1"),
      F("expect-ct", "")
    ]
  }

  function Entries88(): (s: seq<Field>)
    ensures |s| == 11 && LongNames(s)
  {
    [
      F("forwarded", ""),
      F("if-range", ""),
      F("origin", ""),
      F("purpose", "prefetch"),
      F("server", ""),
      F("timing-allow-origin", "*"),
      F("upgrade-insecure-requests", "1"),
      F("user-agent", ""),
      F("x-forwarded-for", ""),
      F("x-frame-options", "deny"),
      F("x-frame-options", "sameorigin")
    ]
  }

  const STATIC_TABLE: Table :=
    Entries0() + Entries11() + Entries22() + Entries33() + Entries44() +
    Entries55() + Entries66() + Entries77() + Entries88()

  /** The request fields: pseudo-headers, protocol, version, and an origin when there is one. */
  function ConnectFields(authority: Text, path: Text, origin: Text): (fs: seq<Field>)
  {
    [F(":method", "CONNECT"), F(":scheme", "https"), Field(Ascii(":authority"), authority),
     Field(Ascii(":path"), path), F(":protocol", "websocket"), F("sec-websocket-version", "13")]
    + if origin == [] then [] else [Field(Ascii("origin"), origin)]
  }

  /** Whatever the authority, path and origin, even empty ones, the request decodes to its fields. */
  lemma ConnectRoundTrip(authority: Text, path: Text, origin: Text, huffman: Huffman)
    ensures var fs := ConnectFields(authority, path, origin);
            DecodeHeaders(STATIC_TABLE, EncodeHeaders(STATIC_TABLE, fs), huffman) == Ok(LastWins(fs, map[]))
  {
    var fs := ConnectFields(authority, path, origin);
    assert fs[|fs| - 1].value != [] by {
      assert Ascii("13") != [];
    }
    RoundTrip(STATIC_TABLE, fs, huffman);
  }

  /** Not every block decodes: one field named x with an empty value is encoded, and comes back as an error. */
  lemma EmptyValueFails(huffman: Huffman)
    ensures DecodeHeaders(STATIC_TABLE, EncodeHeaders(STATIC_TABLE, [Field(Ascii("x"), [])]), huffman) == Bad
  {
    TableHasLongNames();
    LoneEmptyValueFails(STATIC_TABLE, Ascii("x"), huffman);
  }

  /** No name of the table is a single letter. */
  predicate LongNames(s: seq<Field>) {
    forall i | 0 <= i < |s| :: |s[i].name| > 1
  }

  lemma TableHasLongNames()
    ensures LongNames(STATIC_TABLE)
  {
    var a := Entries0() + Entries11() + Entries22();
    var b := a + Entries33() + Entries44() + Entries55();
    assert LongNames(a);
    assert LongNames(b);
    assert STATIC_TABLE == b + Entries66() + Entries77() + Entries88();
  }
}

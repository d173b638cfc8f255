/** The HTTP/3 side of the handshake: waiting for response HEADERS, and reading peer SETTINGS. */
module H3Handshake {
  import opened Bytes
  import opened Streams
  import opened PrefixedInt
  import Varint
  import Qpack

  const HEADERS := 1
  const ENABLE_CONNECT_PROTOCOL := 8
  const MAX_SETTINGS := 32

  // ---- response headers ----

  /** NoResponse: the stream ended first. Panicked: a frame announced more than can be allocated. */
  datatype Response = NoResponse | Panicked | Response(headers: Qpack.Decoded)

  datatype Next = Ended | TooBig | Next(kind: nat, payload: seq<byte>, rest: seq<byte>)

  function NextFrame(q: seq<byte>): (r: Next)
    ensures r.Next? ==> |r.rest| < |q|
  {
    match Varint.Decode(q)
    case Short => Ended
    case Value(kind, q1) =>
      match Varint.Decode(q1)
      case Short => Ended
      case Value(n, q2) =>
        if n >= MAX_ALLOC then TooBig
        else if |q2| < n then Ended
        else Next(kind, q2[..n], q2[n..])
  }

  /** Skips frames until the first HEADERS frame and decodes that. */
  function AwaitHeaders(t: Qpack.Table, q: seq<byte>, huffman: Huffman): (r: Response)
    decreases |q|
  {
    match NextFrame(q)
    case Ended => NoResponse
    case TooBig => Panicked
    case Next(kind, payload, rest) =>
      if kind == HEADERS then Response(Qpack.DecodeHeaders(t, payload, huffman))
      else AwaitHeaders(t, rest, huffman)
  }

  datatype Frame = Frame(kind: nat, payload: Text)

  function EncodeFrame(f: Frame): (s: seq<byte>)
    requires f.kind < Varint.TWO_62
  {
    Varint.Encode(f.kind) + (Varint.Encode(|f.payload|) + f.payload)
  }

  function EncodeFrames(fs: seq<Frame>): (s: seq<byte>)
    requires forall i | 0 <= i < |fs| :: fs[i].kind < Varint.TWO_62
  {
    if fs == [] then [] else EncodeFrame(fs[0]) + EncodeFrames(fs[1..])
  }

  lemma NextFrameRoundTrip(f: Frame, rest: seq<byte>)
    requires f.kind < Varint.TWO_62
    ensures NextFrame(EncodeFrame(f) + rest) == Next(f.kind, f.payload, rest)
  {
    var n, p := Varint.Encode(|f.payload|), f.payload;
    Assoc(Varint.Encode(f.kind), n + p, rest);
    Assoc(n, p, rest);
    Varint.RoundTrip(f.kind, n + (p + rest));
    Varint.RoundTrip(|p|, p + rest);
    assert (p + rest)[..|p|] == p && (p + rest)[|p|..] == rest;
  }

  lemma AwaitFrame(t: Qpack.Table, f: Frame, rest: seq<byte>, huffman: Huffman)
    requires f.kind < Varint.TWO_62
    ensures AwaitHeaders(t, EncodeFrame(f) + rest, huffman)
         == if f.kind == HEADERS then Response(Qpack.DecodeHeaders(t, f.payload, huffman))
            else AwaitHeaders(t, rest, huffman)
  {
    NextFrameRoundTrip(f, rest);
  }

  /** A frame that announces n bytes of which fewer are left: too long for memory it panics, otherwise there is no
      response. */
  lemma AwaitEnds(t: Qpack.Table, kind: nat, n: nat, rest: seq<byte>, huffman: Huffman)
    requires kind < Varint.TWO_62 && |rest| < n < Varint.TWO_62
    ensures AwaitHeaders(t, Varint.Encode(kind) + (Varint.Encode(n) + rest), huffman)
         == if n >= 0x1_0000_0000_0000 then Panicked else NoResponse
  {
    Varint.RoundTrip(kind, Varint.Encode(n) + rest);
    Varint.RoundTrip(n, rest);
  }

  /** Whatever other frames come first, the client gets the fields the server put in HEADERS, last one
      winning, unless the block ends in an empty value that is not in the table. */
  lemma {:induction false} ResponseRoundTrip(t: Qpack.Table, before: seq<Frame>, fs: seq<Qpack.Field>,
                                             rest: seq<byte>, huffman: Huffman)
    requires forall i | 0 <= i < |before| :: before[i].kind < Varint.TWO_62 && before[i].kind != 0x1
    requires |Qpack.EncodeHeaders(t, fs)| < MAX_ALLOC
    ensures AwaitHeaders(t, EncodeFrames(before) + (EncodeFrame(Frame(0x1, Qpack.EncodeHeaders(t, fs))) + rest), huffman)
         == Response(if Qpack.EndsTruncated(t, fs) then Qpack.Bad else Qpack.Ok(Qpack.LastWins(fs, map[])))
  {
    var answer := EncodeFrame(Frame(HEADERS, Qpack.EncodeHeaders(t, fs))) + rest;
    if before == [] {
      assert EncodeFrames(before) + answer == answer;
      AwaitFrame(t, Frame(HEADERS, Qpack.EncodeHeaders(t, fs)), rest, huffman);
      Qpack.RoundTrip(t, fs, huffman);
    } else {
      Assoc(EncodeFrame(before[0]), EncodeFrames(before[1..]), answer);
      AwaitFrame(t, before[0], EncodeFrames(before[1..]) + answer, huffman);
      ResponseRoundTrip(t, before[1..], fs, rest, huffman);
    }
  }

  method ReadFrame(r: Stream) returns (f: Next)
    modifies r`incoming
    ensures f == NextFrame(old(r.incoming))
    ensures f.Next? ==> f.rest == r.incoming
  {
    var ok, kind := Varint.ReadVarint(r);
    if !ok { return Ended; }
    var n;
    ok, n := Varint.ReadVarint(r);
    if !ok { return Ended; }
    if n >= MAX_ALLOC { return TooBig; }
    var buf := new byte[n];
    ok := ReadFull(r, buf, 0, n);
    if !ok { return Ended; }
    f := Next(kind, buf[..n], r.incoming);
  }

  method ReadResponseHeaders(t: Qpack.Table, r: Stream, huffman: Huffman) returns (res: Response)
    modifies r`incoming
    ensures res == AwaitHeaders(t, old(r.incoming), huffman)
  {
    while true
      invariant AwaitHeaders(t, r.incoming, huffman) == AwaitHeaders(t, old(r.incoming), huffman)
      decreases |r.incoming|
    {
      var f := ReadFrame(r);
      match f
      case Ended => return NoResponse;
      case TooBig => return Panicked;
      case Next(kind, payload, _) =>
        if kind == HEADERS {
          var h := Qpack.DecodeBlock(t, payload, huffman);
          return Response(h);
        }
    }
  }

  // ---- settings ----

  datatype Setting = Setting(id: nat, val: nat)

  /** A setting whose two integers can be encoded. */
  type WireSetting = x: Setting | x.id < Varint.TWO_62 && x.val < Varint.TWO_62 witness Setting(0, 0)

  datatype NextSetting = NoSetting | NextSetting(x: Setting, rest: seq<byte>)

  function TakeSetting(s: seq<byte>): (r: NextSetting)
    ensures r.NextSetting? ==> |r.rest| < |s|
  {
    match Varint.Decode(s)
    case Short => NoSetting
    case Value(id, s1) =>
      match Varint.Decode(s1)
      case Short => NoSetting
      case Value(val, s2) => NextSetting(Setting(id, val), s2)
  }

  /** Reads identifier/value pairs until they run out, stop decoding, or `left` have been read. */
  function Settings(s: seq<byte>, left: nat, enabled: bool): (r: bool)
    decreases |s|
  {
    if left == 0 || s == [] then enabled
    else match TakeSetting(s)
      case NoSetting => enabled
      case NextSetting(x, rest) => Settings(rest, left - 1, Update(x, enabled))
  }

  function EncodeSetting(x: WireSetting): (s: seq<byte>) {
    Varint.Encode(x.id) + Varint.Encode(x.val)
  }

  function EncodeSettings(xs: seq<WireSetting>): (s: seq<byte>) {
    if xs == [] then [] else EncodeSetting(xs[0]) + EncodeSettings(xs[1..])
  }

  /** What the last SETTINGS_ENABLE_CONNECT_PROTOCOL (0x8 in RFC 8441 and RFC 9220) says. */
  ghost predicate Says(xs: seq<Setting>, otherwise: bool)
  {
    if xs == [] then otherwise
    else if xs[|xs| - 1].id == 0x8 then xs[|xs| - 1].val == 1
    else Says(xs[..|xs| - 1], otherwise)
  }

  lemma {:induction false} SaysFirst(xs: seq<Setting>, otherwise: bool)
    requires xs != []
    ensures Says(xs, otherwise)
         == Says(xs[1..], Update(xs[0], otherwise))
  {
    var n := |xs| - 1;
    if n > 0 {
      SaysFirst(xs[..n], otherwise);
      assert xs[..n][1..] == xs[1..][..n - 1];
    }
  }

  function Update(x: Setting, enabled: bool): (r: bool) {
    if x.id == ENABLE_CONNECT_PROTOCOL then x.val == 1 else enabled
  }

  lemma TakeSettingRoundTrip(x: WireSetting, rest: seq<byte>)
    ensures TakeSetting(EncodeSetting(x) + rest) == NextSetting(x, rest)
  {
    Assoc(Varint.Encode(x.id), Varint.Encode(x.val), rest);
    Varint.RoundTrip(x.id, Varint.Encode(x.val) + rest);
    Varint.RoundTrip(x.val, rest);
  }

  lemma SettingsUnfold(s: seq<byte>, left: nat, enabled: bool, x: Setting, rest: seq<byte>)
    requires TakeSetting(s) == NextSetting(x, rest) && left > 0
    ensures Settings(s, left, enabled) == Settings(rest, left - 1, Update(x, enabled))
  {
  }

  function Fold(xs: seq<Setting>, left: nat, enabled: bool): (r: bool)
    decreases |xs|
  {
    if left == 0 || xs == [] then enabled else Fold(xs[1..], left - 1, Update(xs[0], enabled))
  }

  lemma {:induction false} SettingsRoundTrip(xs: seq<WireSetting>, left: nat, enabled: bool)
    ensures Settings(EncodeSettings(xs), left, enabled) == Fold(xs, left, enabled)
    decreases left
  {
    hide TakeSetting, EncodeSetting;
    if left > 0 && xs != [] {
      var rest := EncodeSettings(xs[1..]);
      TakeSettingRoundTrip(xs[0], rest);
      SettingsUnfold(EncodeSetting(xs[0]) + rest, left, enabled, xs[0], rest);
      SettingsRoundTrip(xs[1..], left - 1, Update(xs[0], enabled));
    }
  }

  lemma {:induction false} FoldSays(xs: seq<Setting>, left: nat, enabled: bool)
    ensures Fold(xs, left, enabled) == Says(if |xs| <= left then xs else xs[..left], enabled)
    decreases left
  {
    var seen := if |xs| <= left then xs else xs[..left];
    if left == 0 || xs == [] {
      assert seen == [];
    } else {
      FoldSays(xs[1..], left - 1, Update(xs[0], enabled));
      assert seen[1..] == if |xs[1..]| <= left - 1 then xs[1..] else xs[1..][..left - 1];
      SaysFirst(seen, enabled);
    }
  }

  /** Extended CONNECT counts as enabled exactly when the last such setting among the first 32 is 1. */
  lemma ExtendedConnectDetected(xs: seq<WireSetting>)
    ensures Settings(EncodeSettings(xs), MAX_SETTINGS, false) == Says(if |xs| <= 32 then xs else xs[..32], false)
  {
    SettingsRoundTrip(xs, MAX_SETTINGS, false);
    FoldSays(xs, MAX_SETTINGS, false);
  }

  method ReadSetting(r: Stream, ghost left: nat, enabled: bool) returns (ok: bool, now: bool)
    requires left > 0 && r.incoming != []
    modifies r`incoming
    ensures Settings(old(r.incoming), left, enabled) == if ok then Settings(r.incoming, left - 1, now) else now
  {
    ghost var s := r.incoming;
    now := enabled;
    var id, val;
    ok, id := Varint.ReadVarint(r);
    if !ok { return; }
    ok, val := Varint.ReadVarint(r);
    if !ok { return; }
    SettingsUnfold(s, left, enabled, Setting(id, val), r.incoming);
    if id == ENABLE_CONNECT_PROTOCOL {
      now := val == 1;
    }
  }

  method ReadSettings(r: Stream, limit: nat) returns (enabled: bool)
    modifies r`incoming
    ensures enabled == Settings(old(r.incoming), limit, false)
  {
    enabled := false;
    var idx := 0;
    while r.incoming != [] && idx < limit
      invariant idx <= limit && Settings(r.incoming, limit - idx, enabled) == Settings(old(r.incoming), limit, false)
      decreases limit - idx
    {
      var ok;
      ok, enabled := ReadSetting(r, limit - idx, enabled);
      if !ok { return; }
      idx := idx + 1;
    }
  }

  method ParseSettingsPayload(payload: seq<byte>) returns (enabled: bool)
    ensures enabled == Settings(payload, MAX_SETTINGS, false)
  {
    var r := new Stream(payload);
    enabled := ReadSettings(r, MAX_SETTINGS);
  }
}

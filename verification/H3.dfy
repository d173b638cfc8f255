/** WebSocket bytes inside HTTP/3 DATA frames (section 7.2.1 of RFC 9114, RFC 9220). */
module H3 {
  import opened Bytes
  import opened Streams
  import Varint

  const DATA := 0
  const MAX_DATA_FRAME := 0x400_0000     // 64 MiB cap on one frame
  const FRAME_BUF_RETAIN := 0x1_0000     // frames up to 64 KiB share one buffer

  datatype Frame = Ended | TooLarge(rest: seq<byte>) | Frame(kind: nat, payload: seq<byte>, rest: seq<byte>)

  /** One frame off the front of q: type, length, cap, payload, in that order. */
  function ParseFrame(q: seq<byte>): (f: Frame)
    ensures !f.Ended? ==> |f.rest| < |q|
  {
    match Varint.Decode(q)
    case Short => Ended
    case Value(kind, q1) =>
      match Varint.Decode(q1)
      case Short => Ended
      case Value(n, q2) =>
        if n > MAX_DATA_FRAME then TooLarge(q2)
        else if |q2| < n then Ended
        else Frame(kind, q2[..n], q2[n..])
  }

  datatype Cause = StreamEnd | FrameTooLarge | NotData

  /** What a reader of the DATA payloads gets: the bytes, why it then fails, and what it leaves unread. */
  datatype Delivery = Delivery(data: seq<byte>, cause: Cause, rest: seq<byte>)

  function Prepend(p: seq<byte>, d: Delivery): Delivery {
    d.(data := p + d.data)
  }

  function Deliver(q: seq<byte>): (d: Delivery)
    decreases |q|
  {
    match ParseFrame(q)
    case Ended => Delivery([], StreamEnd, [])
    case TooLarge(rest) => Delivery([], FrameTooLarge, rest)
    case Frame(kind, payload, rest) =>
      if kind != DATA then Delivery([], NotData, rest) else Prepend(payload, Deliver(rest))
  }

  function DataFrame(p: seq<byte>): (s: seq<byte>)
    requires |p| < MAX_LEN
  {
    Varint.Encode(DATA) + Varint.Encode(|p|) + p
  }

  /** A frame of any type. */
  function AnyFrame(kind: nat, p: seq<byte>): (s: seq<byte>)
    requires kind < Varint.TWO_62 && |p| < Varint.TWO_62
  {
    Varint.Encode(kind) + (Varint.Encode(|p|) + p)
  }

  lemma ParseAnyFrame(kind: nat, p: seq<byte>, rest: seq<byte>)
    requires kind < Varint.TWO_62 && |p| < Varint.TWO_62
    ensures ParseFrame(AnyFrame(kind, p) + rest)
         == if |p| <= MAX_DATA_FRAME then Frame(kind, p, rest) else TooLarge(p + rest)
  {
    var k, size := Varint.Encode(kind), Varint.Encode(|p|);
    Assoc(k, size + p, rest);
    Assoc(size, p, rest);
    Varint.RoundTrip(kind, size + (p + rest));
    Varint.RoundTrip(|p|, p + rest);
    assert (p + rest)[..|p|] == p && (p + rest)[|p|..] == rest;
  }

  /** A frame in front: beyond the cap it is an error, and so is any type but 0; otherwise its payload is delivered. */
  lemma DeliverFrame(kind: nat, p: seq<byte>, rest: seq<byte>)
    requires kind < Varint.TWO_62 && |p| < Varint.TWO_62
    ensures Deliver(AnyFrame(kind, p) + rest)
         == if |p| > 0x400_0000 then Delivery([], FrameTooLarge, p + rest)
            else if kind != 0x0 then Delivery([], NotData, rest)
            else Prepend(p, Deliver(rest))
  {
    ParseAnyFrame(kind, p, rest);
  }

  lemma {:induction false} FrontPart(a: seq<byte>, b: seq<byte>, n: nat)
    requires n <= |a + b|
    ensures (a + b)[..n] == if n <= |a| then a[..n] else a + b[..n - |a|]
  {
  }

  /** Part of a frame delivers nothing, and the reader sees the end of the stream. */
  lemma TruncatedFrame(kind: nat, p: seq<byte>, n: nat)
    requires kind < Varint.TWO_62 && |p| <= MAX_DATA_FRAME && n < |AnyFrame(kind, p)|
    ensures Deliver(AnyFrame(kind, p)[..n]) == Delivery([], StreamEnd, [])
  {
    var k, size := Varint.Encode(kind), Varint.Encode(|p|);
    FrontPart(k, size + p, n);
    if n < |k| {
      Varint.Truncated(kind, n);
    } else {
      var m := n - |k|;
      assert n == |k| ==> k[..n] == k + (size + p)[..m];
      FrontPart(size, p, m);
      Varint.RoundTrip(kind, (size + p)[..m]);
      if m < |size| {
        Varint.Truncated(|p|, m);
      } else {
        assert m == |size| ==> size[..m] == size + p[..m - |size|];
        Varint.RoundTrip(|p|, p[..m - |size|]);
      }
    }
  }

  /** One DATA frame in front adds exactly its payload, if and only if it is within the cap. */
  lemma DeliverDataFrame(p: seq<byte>, rest: seq<byte>)
    requires |p| < Varint.TWO_62
    ensures |p| <= MAX_DATA_FRAME ==> Deliver(DataFrame(p) + rest) == Prepend(p, Deliver(rest))
    ensures |p| > MAX_DATA_FRAME ==> Deliver(DataFrame(p) + rest) == Delivery([], FrameTooLarge, p + rest)
  {
    Assoc(Varint.Encode(DATA), Varint.Encode(|p|), p);
    DeliverFrame(DATA, p, rest);
  }

  function DataFrames(chunks: seq<seq<byte>>): (q: seq<byte>)
    requires forall c | c in chunks :: |c| <= MAX_DATA_FRAME
  {
    if chunks == [] then [] else DataFrame(chunks[0]) + DataFrames(chunks[1..])
  }

  /** However a byte string is cut into DATA frames, the reader gets that byte string. */
  lemma {:induction false} DeliverChunks(chunks: seq<seq<byte>>, rest: seq<byte>)
    requires forall c | c in chunks :: |c| <= MAX_DATA_FRAME
    ensures Deliver(DataFrames(chunks) + rest) == Prepend(Concat(chunks), Deliver(rest))
  {
    if chunks == [] {
      assert DataFrames(chunks) + rest == rest;
    } else {
      var first, more := chunks[0], chunks[1..];
      DeliverChunks(more, rest);
      Assoc(DataFrame(first), DataFrames(more), rest);
      DeliverDataFrame(first, DataFrames(more) + rest);
      Assoc(first, Concat(more), Deliver(rest).data);
    }
  }

  class H3Stream {
    const s: Stream
    // readBuf is the slice readArr[readLo..readHi]; it may alias frameBuf.
    var readArr: array<byte>
    var readLo: nat
    var readHi: nat
    var frameBuf: array<byte>

    ghost predicate Valid()
      reads this
    {
      readLo <= readHi <= readArr.Length
    }

    /** Everything the next reads will return, what ends it, and where a later read goes on. */
    ghost function Pending(): Delivery
      reads this, s`incoming, readArr
      requires Valid()
    {
      Prepend(readArr[readLo..readHi], Deliver(s.incoming))
    }

    constructor (s: Stream)
      ensures Valid() && this.s == s && fresh(readArr) && fresh(frameBuf)
      ensures Pending() == Deliver(s.incoming)
    {
      this.s := s;
      readArr := new byte[0];
      frameBuf := new byte[0];
      readLo, readHi := 0, 0;
    }

    /** Loads the next frame into readBuf, through the reused buffer when it is small. */
    method LoadFrame() returns (failed: Option<Cause>)
      requires Valid() && readLo == readHi
      modifies this, s`incoming, frameBuf
      ensures Valid()
      ensures readArr == old(readArr) || readArr == old(frameBuf) || fresh(readArr)
      ensures frameBuf == old(frameBuf) || fresh(frameBuf)
      ensures failed.None? ==> |s.incoming| < |old(s.incoming)|
      ensures failed.None? ==> Pending() == old(Deliver(s.incoming))
      ensures failed.Some? ==> old(Deliver(s.incoming)) == Delivery([], failed.value, s.incoming)
      ensures failed.Some? ==> readLo == readHi
    {
      ghost var q := s.incoming;
      var ok, kind := Varint.ReadVarint(s);
      if !ok { return Some(StreamEnd); }
      var size;
      ok, size := Varint.ReadVarint(s);
      if !ok { return Some(StreamEnd); }
      if size > MAX_DATA_FRAME { return Some(FrameTooLarge); }

      var payload := BufferFor(size);
      ok := ReadFull(s, payload, 0, size);
      if !ok { return Some(StreamEnd); }
      assert ParseFrame(q) == Frame(kind, payload[..size], s.incoming);
      hide ParseFrame;
      if kind != DATA { return Some(NotData); }
      readArr, readLo, readHi := payload, 0, size;
      return None;
    }

    /** The reused buffer, grown if need be, when the frame is small. */
    method BufferFor(size: nat) returns (payload: array<byte>)
      modifies this`frameBuf
      ensures payload.Length >= size
      ensures payload == old(frameBuf) || fresh(payload)
      ensures frameBuf == old(frameBuf) || fresh(frameBuf)
      ensures size <= FRAME_BUF_RETAIN <==> payload == frameBuf
    {
      if size <= FRAME_BUF_RETAIN {
        if frameBuf.Length < size {
          frameBuf := new byte[size];
        }
        payload := frameBuf;
      } else {
        payload := new byte[size];
      }
    }

    /** Copies what fits of readBuf into p. */
    method CopyOut(p: array<byte>) returns (n: nat)
      requires Valid() && p != readArr
      modifies this`readLo, p
      ensures Valid() && n <= p.Length
      ensures p[..n] + readArr[readLo..readHi] == old(readArr[readLo..readHi])
      ensures p[n..] == old(p[..])[n..]
      ensures n == p.Length || readLo == readHi
    {
      n := if p.Length < readHi - readLo then p.Length else readHi - readLo;
      forall i | 0 <= i < n {
        p[i] := readArr[readLo + i];
      }
      readLo := readLo + n;
    }

    /** Loads frames until there is something to hand out. */
    method Advance() returns (failed: Option<Cause>)
      requires Valid()
      modifies this, s`incoming, frameBuf
      ensures Valid()
      ensures readArr == old(readArr) || readArr == old(frameBuf) || fresh(readArr)
      ensures frameBuf == old(frameBuf) || fresh(frameBuf)
      ensures failed.None? ==> readLo < readHi && Pending() == old(Pending())
      ensures failed.Some? ==> readLo == readHi && old(Pending()) == Delivery([], failed.value, s.incoming)
    {
      failed := None;
      while readLo == readHi
        invariant Valid() && failed.None? && Pending() == old(Pending())
        invariant readArr == old(readArr) || readArr == old(frameBuf) || fresh(readArr)
        invariant frameBuf == old(frameBuf) || fresh(frameBuf)
        decreases |s.incoming|
      {
        failed := LoadFrame();
        if failed.Some? { return; }
      }
    }

    /**
     Each successful read returns the next bytes of what was pending and leaves the rest pending,
     although the frame buffer is reused: no byte still unread is ever overwritten. A failed one has
     found nothing pending, and the next read goes on behind the frame that made it fail.
     */
    method Read(p: array<byte>) returns (n: nat, failed: Option<Cause>)
      requires Valid() && p != frameBuf && p != readArr
      modifies this, s`incoming, frameBuf, p
      ensures Valid() && p != frameBuf && p != readArr
      ensures readArr == old(readArr) || readArr == old(frameBuf) || fresh(readArr)
      ensures frameBuf == old(frameBuf) || fresh(frameBuf)
      ensures failed.None? ==> n <= p.Length && Prepend(p[..n], Pending()) == old(Pending())
      ensures failed.None? ==> p[n..] == old(p[..])[n..] && (p.Length > 0 ==> n > 0)
      ensures failed.Some? ==> n == 0 && p[..] == old(p[..])
      ensures failed.Some? ==> old(Pending()) == Delivery([], failed.value, s.incoming)
      ensures failed.Some? ==> Pending() == Deliver(s.incoming)
    {
      n := 0;
      failed := Advance();
      if failed.None? {
        n := CopyOut(p);
        Assoc(p[..n], readArr[readLo..readHi], Deliver(s.incoming).data);
      }
    }

    /** Puts the whole frame on the wire, or a prefix of it when a write fails or makes no progress. */
    method WriteLoop(frame: seq<byte>) returns (failed: bool)
      modifies s`outgoing, s`faults
      ensures s.faults == old(s.faults) + if failed then 1 else 0
      ensures !failed ==> s.outgoing == old(s.outgoing) + frame
      ensures failed ==> old(s.outgoing) <= s.outgoing <= old(s.outgoing) + frame
    {
      var sent := 0; // remaining is frame[sent..]
      while sent < |frame|
        invariant sent <= |frame| && s.faults == old(s.faults)
        invariant s.outgoing == old(s.outgoing) + frame[..sent]
      {
        var k, err := s.Write(frame[sent..]);
        assert frame[..sent] + frame[sent..][..k] == frame[..sent + k];
        if err || k == 0 { return true; }
        sent := sent + k;
      }
      return false;
    }

    /** A successful write puts one whole DATA frame on the wire. A failed one, and it fails only when the
        stream does, reports no byte and leaves a prefix of the frame: all of it if the flush failed. */
    method Write(p: seq<byte>) returns (n: nat, failed: bool)
      requires |p| < MAX_LEN
      modifies s`outgoing, s`faults
      ensures s.faults == old(s.faults) + if failed then 1 else 0
      ensures !failed ==> n == |p| && s.outgoing == old(s.outgoing) + DataFrame(p)
      ensures failed ==> n == 0 && old(s.outgoing) <= s.outgoing <= old(s.outgoing) + DataFrame(p)
    {
      failed := WriteLoop(DataFrame(p));
      if !failed && |p| > 0 {
        failed := s.Flush();
      }
      n := if failed then 0 else |p|;
    }
  }
}

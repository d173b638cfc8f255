/** What a framed connection is built on: a byte stream, or one wrapped in HTTP/3 DATA frames. */
module Transport {
  import opened Bytes
  import opened Streams
  import opened H3

  datatype Framing = Plain | Wrapped

  /** What the wire holds for bytes that were written in one piece. */
  function OnWire(f: Framing, p: seq<byte>): (s: seq<byte>)
    requires |p| < MAX_LEN
  {
    if f.Plain? then p else DataFrame(p)
  }

  class Transport {
    const s: Stream
    const h3: H3Stream? // wraps s when present
    ghost var Repr: set<object> // this object and what reading goes through, except s itself

    constructor Bare(s: Stream)
      ensures this.s == s && h3 == null && Valid() && Pending() == s.incoming && fresh(Repr)
    {
      this.s := s;
      h3 := null;
      Repr := {this};
    }

    constructor InData(h: H3Stream)
      requires h.Valid()
      ensures h3 == h && s == h.s && Valid() && Pending() == h.Pending().data
      ensures fresh(Repr - {h, h.readArr, h.frameBuf})
    {
      s := h.s;
      h3 := h;
      Repr := {this, h, h.readArr, h.frameBuf};
    }

    ghost predicate Valid()
      reads this, Repr
    {
      && this in Repr && s !in Repr
      && (h3 != null ==> h3 in Repr && h3.readArr in Repr && h3.frameBuf in Repr && h3.s == s && h3.Valid())
    }

    /** Every byte that reads deliver before the first one that fails. */
    ghost function Pending(): seq<byte>
      reads this, s`incoming, Repr
      requires Valid()
    {
      if h3 == null then s.incoming else h3.Pending().data
    }

    /** The next bytes, at most max of them; none when the transport fails, which it does only when
        nothing is pending. */
    method Receive(max: nat) returns (data: seq<byte>)
      requires Valid() && max > 0
      modifies s`incoming, Repr
      ensures Valid() && old(Repr) <= Repr && fresh(Repr - old(Repr))
      ensures |data| <= max
      ensures data != [] ==> data + Pending() == old(Pending())
      ensures data == [] ==> old(Pending()) == [] && (h3 == null ==> Pending() == [])
    {
      var p := new byte[max];
      if h3 == null {
        var n, _ := s.Read(p, 0, max);
        data := p[..n];
      } else {
        var n, failed := h3.Read(p);
        Repr := Repr + {h3.readArr, h3.frameBuf};
        data := p[..n];
      }
    }

    function Style(): (f: Framing) {
      if h3 == null then Plain else Wrapped
    }

    /** A bare stream takes any prefix of p; over HTTP/3 all of p goes out in one DATA frame, or the
        write fails with no byte reported. */
    method Write(p: seq<byte>) returns (n: nat, failed: bool)
      requires Valid() && |p| < MAX_LEN
      modifies s`outgoing, s`faults
      ensures n <= |p|
      ensures s.faults == old(s.faults) + if failed || (n == 0 && p != []) then 1 else 0
      ensures h3 == null ==> s.outgoing == old(s.outgoing) + p[..n]
      ensures h3 != null && !failed ==> n == |p| && s.outgoing == old(s.outgoing) + DataFrame(p)
      ensures h3 != null && failed ==> n == 0 && old(s.outgoing) <= s.outgoing <= old(s.outgoing) + DataFrame(p)
    {
      if h3 == null {
        n, failed := s.Write(p);
      } else {
        n, failed := h3.Write(p);
      }
    }

    method Close()
      modifies s`closed
      ensures s.closed
    {
      s.Close();
    }
  }
}

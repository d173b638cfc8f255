/**
 A byte stream that cuts reads and writes wherever it likes, and io.ReadFull over it.

 `incoming` is what the peer delivers before the stream fails, `outgoing` is what has
 reached the wire. Chunk sizes and write failures are chosen freely at every call, so
 what is proved about a caller holds for every chunking.
 */
module Streams {
  import opened Bytes

  class Stream {
    var incoming: seq<byte>
    var outgoing: seq<byte>
    var closed: bool
    var faults: nat // writes and flushes that failed or made no progress

    constructor (incoming: seq<byte>)
      ensures this.incoming == incoming && outgoing == [] && !closed && faults == 0
    {
      this.incoming := incoming;
      outgoing := [];
      closed := false;
      faults := 0;
    }

    /** Reads into dst[lo..hi]; fails only once everything has been delivered. */
    method Read(dst: array<byte>, lo: nat, hi: nat) returns (n: nat, failed: bool)
      requires lo <= hi <= dst.Length
      modifies this`incoming, dst
      ensures n <= hi - lo && n <= |old(incoming)|
      ensures incoming == old(incoming)[n..]
      ensures dst[lo..lo + n] == old(incoming)[..n]
      ensures forall j | 0 <= j < dst.Length && !(lo <= j < lo + n) :: dst[j] == old(dst[j])
      ensures failed ==> incoming == []
      ensures !failed && lo < hi ==> n > 0
    {
      var most := if hi - lo < |incoming| then hi - lo else |incoming|;
      n :| 0 <= n <= most && (most > 0 ==> n > 0);
      forall i | 0 <= i < n {
        dst[lo + i] := incoming[i];
      }
      incoming := incoming[n..];
      failed := *;
      if incoming != [] {
        failed := false;
      } else if n == 0 {
        failed := true;
      }
    }

    /** Puts some prefix of p on the wire. */
    method Write(p: seq<byte>) returns (n: nat, failed: bool)
      modifies this`outgoing, this`faults
      ensures n <= |p|
      ensures outgoing == old(outgoing) + p[..n]
      ensures faults == old(faults) + if failed || (n == 0 && p != []) then 1 else 0
    {
      n :| 0 <= n <= |p|;
      failed := *;
      outgoing := outgoing + p[..n];
      if failed || (n == 0 && p != []) {
        faults := faults + 1;
      }
    }

    method Flush() returns (failed: bool)
      modifies this`faults
      ensures faults == old(faults) + if failed then 1 else 0
    {
      failed := *;
      if failed {
        faults := faults + 1;
      }
    }

    method Close()
      modifies this`closed
      ensures closed
    {
      closed := true;
    }
  }

  /** io.ReadFull: fills dst[lo..hi] however the stream splits it, or reports a short stream. */
  method ReadFull(src: Stream, dst: array<byte>, lo: nat, hi: nat) returns (ok: bool)
    requires lo <= hi <= dst.Length
    modifies src`incoming, dst
    ensures ok <==> hi - lo <= |old(src.incoming)|
    ensures ok ==> src.incoming == old(src.incoming)[hi - lo..]
    ensures ok ==> dst[lo..hi] == old(src.incoming)[..hi - lo]
    ensures forall j | 0 <= j < dst.Length && !(lo <= j < hi) :: dst[j] == old(dst[j])
    ensures !ok ==> src.incoming == []
  {
    ghost var total := src.incoming;
    var n, failed := 0, false;
    while n < hi - lo && !failed
      invariant n <= hi - lo && n <= |total|
      invariant src.incoming == total[n..]
      invariant dst[lo..lo + n] == total[..n]
      invariant forall j | 0 <= j < dst.Length && !(lo <= j < hi) :: dst[j] == old(dst[j])
      invariant failed ==> n == |total|
      decreases hi - lo - n, if failed then 0 else 1
    {
      var k;
      k, failed := ReadMore(src, dst, lo, lo + n, hi);
      Extend(total, n, k);
      n := n + k;
    }
    ok := n == hi - lo;
  }

  /** One read that goes on where dst[lo..mid] ends. */
  method ReadMore(src: Stream, dst: array<byte>, lo: nat, mid: nat, hi: nat) returns (n: nat, failed: bool)
    requires lo <= mid < hi <= dst.Length
    modifies src`incoming, dst
    ensures n <= hi - mid && n <= |old(src.incoming)|
    ensures src.incoming == old(src.incoming)[n..]
    ensures dst[lo..mid + n] == old(dst[lo..mid]) + old(src.incoming)[..n]
    ensures forall j | 0 <= j < dst.Length && !(lo <= j < hi) :: dst[j] == old(dst[j])
    ensures failed ==> src.incoming == []
    ensures !failed ==> n > 0
  {
    n, failed := src.Read(dst, mid, hi);
    assert dst[lo..mid] == old(dst[lo..mid]);
    assert dst[lo..mid + n] == dst[lo..mid] + dst[mid..mid + n];
  }
}

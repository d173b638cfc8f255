/** Sizes of sets and maps, and the two transport protocols that every per-upstream state is kept for. */
module Counting {

  datatype Proto = TCP | UDP

  function One(b: bool): (n: nat) { if b then 1 else 0 }

  lemma {:induction false} SubsetSize<A>(a: set<A>, b: set<A>)
    requires a <= b
    ensures |a| <= |b|
  {
    if a != {} {
      var x :| x in a;
      SubsetSize(a - {x}, b - {x});
    }
  }

  lemma MapRemove<A, B>(m: map<A, B>, a: A)
    requires a in m
    ensures |m - {a}| == |m| - 1
  {
    assert (m - {a}).Keys == m.Keys - {a};
  }

  lemma MapAdd<A, B>(m: map<A, B>, a: A, b: B)
    ensures |m[a := b]| == if a in m then |m| else |m| + 1
  {
    assert m[a := b].Keys == m.Keys + {a};
  }
}

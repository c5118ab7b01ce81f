/** Small shared datatypes and facts about finite sets. */
module Util {

  datatype Option<+T> = None | Some(value: T)

  datatype Result<+T, +E> = Ok(value: T) | Err(error: E)

  function Max(x: real, y: real): real {
    if x >= y then x else y
  }

  /** A list of the elements of a set, each once. */
  ghost predicate Listed<T(!new)>(out: seq<T>, s: set<T>) {
    (forall x :: x in out <==> x in s) && forall i, j :: 0 <= i < j < |out| ==> out[i] != out[j]
  }

  /** The elements of a set, in some order. */
  method InSomeOrder<T(==,!new)>(s: set<T>) returns (out: seq<T>)
    ensures Listed(out, s)
  {
    out := [];
    var rest := s;
    while rest != {}
      invariant rest <= s
      invariant forall x :: x in s ==> (x in out <==> x !in rest)
      invariant forall x :: x in out ==> x in s
      invariant forall i, j :: 0 <= i < j < |out| ==> out[i] != out[j]
      decreases rest
    {
      var k :| k in rest;
      out, rest := out + [k], rest - {k};
    }
  }

  /* ---- sums over a finite set ---- */

  ghost function Pick<K>(s: set<K>): (k: K)
    requires s != {}
    ensures k in s
  {
    var k :| k in s; k
  }

  /** The sum of the sizes of the sets `g(k)`, over `ks`. */
  ghost function SizeSum<K, T>(ks: set<K>, g: K -> set<T>): nat {
    if ks == {} then
      0
    else
      var k := Pick(ks);
      |g(k)| + SizeSum(ks - {k}, g)
  }

  ghost predicate UnionOf<K(!new), T(!new)>(ks: set<K>, u: set<T>, g: K -> set<T>) {
    forall x :: x in u <==> exists k :: k in ks && x in g(k)
  }

  ghost predicate PairwiseApart<K(!new), T(!new)>(ks: set<K>, g: K -> set<T>) {
    forall j, k, x :: j in ks && k in ks && x in g(j) && x in g(k) ==> j == k
  }

  lemma {:induction false} UnionSize<K(!new), T(!new)>(ks: set<K>, u: set<T>, g: K -> set<T>)
    requires UnionOf(ks, u, g) && PairwiseApart(ks, g)
    ensures |u| == SizeSum(ks, g)
    decreases ks
  {
    if ks == {} {
      assert u == {};
    } else {
      var k := Pick(ks);
      UnionLess(ks, u, g, k);
      UnionSize(ks - {k}, u - g(k), g);
      assert u == g(k) + (u - g(k));
    }
  }

  lemma UnionLess<K(!new), T(!new)>(ks: set<K>, u: set<T>, g: K -> set<T>, k: K)
    requires UnionOf(ks, u, g) && PairwiseApart(ks, g) && k in ks
    ensures UnionOf(ks - {k}, u - g(k), g) && PairwiseApart(ks - {k}, g) && g(k) <= u
  {
    forall x
      ensures x in u - g(k) <==> exists j :: j in ks - {k} && x in g(j)
    {
      if x in u - g(k) {
        var j :| j in ks && x in g(j);
        assert j in ks - {k};
      }
    }
  }

  lemma FiveParts<T>(a: set<T>, b: set<T>, p: set<T>, q: set<T>, r: set<T>)
    requires a !! b !! p !! q !! r
    ensures |a + b + p + q + r| == |a| + |b| + |p| + |q| + |r|
  {
    assert |a + b| == |a| + |b|;
    assert |a + b + p| == |a + b| + |p|;
    assert |a + b + p + q| == |a + b + p| + |q|;
  }
}

/** Order-preserving selection from a sequence: the shape of a pandas boolean-mask filter. */
module Sequences {

  /** `sub` is obtained from `xs` by deleting elements, keeping the rest in order. */
  predicate IsSubsequence<T(==)>(sub: seq<T>, xs: seq<T>)
    decreases |xs|
  {
    if |sub| == 0 then true
    else if |xs| == 0 then false
    else
      || (sub[|sub| - 1] == xs[|xs| - 1] && IsSubsequence(sub[..|sub| - 1], xs[..|xs| - 1]))
      || IsSubsequence(sub, xs[..|xs| - 1])
  }

  /** The number of elements of `xs` that satisfy `p`. */
  function Count<T>(xs: seq<T>, p: T -> bool): (n: nat)
    ensures n <= |xs|
  {
    if |xs| == 0 then 0
    else Count(xs[..|xs| - 1], p) + (if p(xs[|xs| - 1]) then 1 else 0)
  }

  /**
   * The elements of `xs` that satisfy `p`, in their original order. The three
   * first postconditions pin the result down: an order-preserving selection of
   * elements that all satisfy `p`, as many as there are such elements in `xs`.
   */
  function Filter<T(==)>(xs: seq<T>, p: T -> bool): (r: seq<T>)
    ensures IsSubsequence(r, xs)
    ensures forall k :: 0 <= k < |r| ==> p(r[k])
    ensures |r| == Count(xs, p)
    ensures forall i :: 0 <= i < |xs| && p(xs[i]) ==> xs[i] in r
    ensures forall k :: 0 <= k < |r| ==> r[k] in xs
  {
    if |xs| == 0 then []
    else
      var init, x := xs[..|xs| - 1], xs[|xs| - 1];
      var f := Filter(init, p);
      assert forall i :: 0 <= i < |init| ==> init[i] == xs[i];
      if p(x) then
        assert (f + [x])[..|f|] == f;
        f + [x]
      else
        f
  }

  /** `f` applied to every element. */
  function Map<A, B>(xs: seq<A>, f: A -> B): (r: seq<B>)
    ensures |r| == |xs|
    ensures forall i :: 0 <= i < |xs| ==> r[i] == f(xs[i])
  {
    seq(|xs|, i requires 0 <= i < |xs| => f(xs[i]))
  }

  /**
   * Selecting by a property of the image and then mapping is the same as
   * mapping and then selecting by that property.
   */
  lemma {:induction false} MapFilter<A, B>(xs: seq<A>, f: A -> B, p: A -> bool, q: B -> bool)
    requires forall x :: p(x) == q(f(x))
    ensures Map(Filter(xs, p), f) == Filter(Map(xs, f), q)
  {
    if |xs| > 0 {
      var init, x := xs[..|xs| - 1], xs[|xs| - 1];
      MapFilter(init, f, p, q);
      var m, mi, fi := Map(xs, f), Map(init, f), Filter(init, p);
      assert m[..|m| - 1] == mi;
      assert m[|m| - 1] == f(x);
      assert Filter(m, q) == if q(f(x)) then Filter(mi, q) + [f(x)] else Filter(mi, q);
      assert Filter(xs, p) == if p(x) then fi + [x] else fi;
      if p(x) {
        assert Map(fi + [x], f) == Map(fi, f) + [f(x)];
      }
    }
  }
}

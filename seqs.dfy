/** Sequence vocabulary shared by the two scripts: Python list comprehensions
    with a filter, flattening of nested lists, and index bookkeeping. */
module Seqs {

  /** Python's `[f(x) for x in xs if keep(x)]`, defined from the last element so
      that a loop appending to a list can keep it as an invariant. */
  function FilterMap<A, B>(xs: seq<A>, keep: A -> bool, f: A -> B): (r: seq<B>)
    ensures |r| <= |xs|
  {
    if |xs| == 0 then []
    else FilterMap(xs[..|xs| - 1], keep, f) + (if keep(xs[|xs| - 1]) then [f(xs[|xs| - 1])] else [])
  }

  /** The positions of `xs` that `keep` accepts, in increasing order. */
  function KeptIndices<A>(xs: seq<A>, keep: A -> bool): (idx: seq<int>)
    ensures |idx| <= |xs|
    ensures forall k :: 0 <= k < |idx| ==> 0 <= idx[k] < |xs| && keep(xs[idx[k]])
    ensures forall k, l :: 0 <= k < l < |idx| ==> idx[k] < idx[l]
    ensures forall i :: 0 <= i < |xs| && keep(xs[i]) ==> i in idx
  {
    if |xs| == 0 then []
    else
      var front := KeptIndices(xs[..|xs| - 1], keep);
      assert forall k :: 0 <= k < |front| ==> xs[..|xs| - 1][front[k]] == xs[front[k]];
      front + (if keep(xs[|xs| - 1]) then [|xs| - 1] else [])
  }

  /** A filtered comprehension is exactly the images of the kept positions, in order:
      nothing is reordered, dropped wrongly or invented. */
  lemma {:induction false} FilterMapIsKeptImages<A, B>(xs: seq<A>, keep: A -> bool, f: A -> B)
    ensures |FilterMap(xs, keep, f)| == |KeptIndices(xs, keep)|
    ensures forall k :: 0 <= k < |KeptIndices(xs, keep)| ==>
              FilterMap(xs, keep, f)[k] == f(xs[KeptIndices(xs, keep)[k]])
  {
    if |xs| > 0 {
      var front := xs[..|xs| - 1];
      FilterMapIsKeptImages(front, keep, f);
      var idx := KeptIndices(front, keep);
      assert forall k :: 0 <= k < |idx| ==> front[idx[k]] == xs[idx[k]];
    }
  }

  /** The comprehension distributes over concatenation of its input. */
  lemma {:induction false} FilterMapAppend<A, B>(xs: seq<A>, ys: seq<A>, keep: A -> bool, f: A -> B)
    ensures FilterMap(xs + ys, keep, f) == FilterMap(xs, keep, f) + FilterMap(ys, keep, f)
    decreases |ys|
  {
    if |ys| == 0 {
      assert xs + ys == xs;
    } else {
      var ys' := ys[..|ys| - 1];
      assert (xs + ys)[..|xs + ys| - 1] == xs + ys';
      FilterMapAppend(xs, ys', keep, f);
    }
  }

  /** Python's `[w for sub in xss for w in sub]`. */
  function Flatten<A>(xss: seq<seq<A>>): (r: seq<A>)
  {
    if |xss| == 0 then [] else Flatten(xss[..|xss| - 1]) + xss[|xss| - 1]
  }

  /** The total number of elements of a nested list. */
  function TotalLength<A>(xss: seq<seq<A>>): nat
  {
    if |xss| == 0 then 0 else TotalLength(xss[..|xss| - 1]) + |xss[|xss| - 1]|
  }

  lemma {:induction false} FlattenLength<A>(xss: seq<seq<A>>)
    ensures |Flatten(xss)| == TotalLength(xss)
  {
    if |xss| > 0 {
      FlattenLength(xss[..|xss| - 1]);
    }
  }

  /** A property of every inner element holds of every element of the flattening. */
  lemma {:induction false} FlattenAll<A>(xss: seq<seq<A>>, p: A -> bool)
    requires forall r, k :: 0 <= r < |xss| && 0 <= k < |xss[r]| ==> p(xss[r][k])
    ensures forall w :: w in Flatten(xss) ==> p(w)
  {
    if |xss| > 0 {
      FlattenAll(xss[..|xss| - 1], p);
    }
  }

  predicate Distinct<A(==)>(s: seq<A>)
  {
    forall k, l :: 0 <= k < l < |s| ==> s[k] != s[l]
  }

  function Reverse<A>(s: seq<A>): (r: seq<A>)
    ensures |r| == |s|
    ensures forall k :: 0 <= k < |s| ==> r[k] == s[|s| - 1 - k]
  {
    if |s| == 0 then [] else [s[|s| - 1]] + Reverse(s[..|s| - 1])
  }

  function Min(a: int, b: int): int
  {
    if a <= b then a else b
  }

  function Max(a: int, b: int): int
  {
    if a <= b then b else a
  }

  /** Python's `s[:n]` for a non-negative `n`. */
  function Take<A>(s: seq<A>, n: nat): (r: seq<A>)
    ensures |r| == Min(n, |s|)
    ensures r == s[..|r|]
  {
    if n <= |s| then s[..n] else s
  }
}

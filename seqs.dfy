/**
 * The shape shared by the cleaner and the loader: a loop over lines that
 * appends what a line yields and skips the lines that yield nothing.
 */
module Seqs {
  import opened Wrappers

  /** The values `f` yields over `xs`, in order, skipping the elements where it yields `None`. */
  function FilterMap<A, B>(f: A -> Option<B>, xs: seq<A>): (ys: seq<B>)
    ensures |ys| <= |xs|
    decreases |xs|
  {
    if xs == [] then []
    else
      var y := f(xs[|xs| - 1]);
      FilterMap(f, xs[..|xs| - 1]) + (if y.Some? then [y.value] else [])
  }

  /** The positions of `xs` where `f` yields a value, in increasing order. */
  function KeptIndices<A, B>(f: A -> Option<B>, xs: seq<A>): seq<int>
    decreases |xs|
  {
    if xs == [] then []
    else KeptIndices(f, xs[..|xs| - 1]) + (if f(xs[|xs| - 1]).Some? then [|xs| - 1] else [])
  }

  /**
   * FilterMap is a filter that keeps order: its k-th value comes from the
   * k-th element that yields one, those positions strictly increase, and no
   * element that yields a value is left out.
   */
  lemma {:induction false} FilterMapSpec<A, B>(f: A -> Option<B>, xs: seq<A>)
    ensures |KeptIndices(f, xs)| == |FilterMap(f, xs)|
    ensures forall k :: 0 <= k < |KeptIndices(f, xs)| ==>
              0 <= KeptIndices(f, xs)[k] < |xs| && f(xs[KeptIndices(f, xs)[k]]) == Some(FilterMap(f, xs)[k])
    ensures forall k, l :: 0 <= k < l < |KeptIndices(f, xs)| ==> KeptIndices(f, xs)[k] < KeptIndices(f, xs)[l]
    ensures forall i :: 0 <= i < |xs| && f(xs[i]).Some? ==> i in KeptIndices(f, xs)
    decreases |xs|
  {
    if xs != [] {
      var n := |xs| - 1;
      var init := xs[..n];
      FilterMapSpec(f, init);
      assert forall i :: 0 <= i < n ==> xs[i] == init[i];
    }
  }

  /** When no element yields a value, nothing is kept. */
  lemma {:induction false} FilterMapNothing<A, B>(f: A -> Option<B>, xs: seq<A>)
    requires forall i :: 0 <= i < |xs| ==> f(xs[i]).None?
    ensures FilterMap(f, xs) == []
    decreases |xs|
  {
    if xs != [] {
      var n := |xs| - 1;
      assert forall i :: 0 <= i < n ==> xs[..n][i] == xs[i];
      FilterMapNothing(f, xs[..n]);
    }
  }

  /** `[g(x) for x in xs]`. */
  function Map<A, B>(g: A -> B, xs: seq<A>): (ys: seq<B>)
    ensures |ys| == |xs|
    decreases |xs|
  {
    if xs == [] then [] else Map(g, xs[..|xs| - 1]) + [g(xs[|xs| - 1])]
  }

  lemma {:induction false} MapAt<A, B>(g: A -> B, xs: seq<A>, k: int)
    requires 0 <= k < |xs|
    ensures Map(g, xs)[k] == g(xs[k])
    decreases |xs|
  {
    if k < |xs| - 1 {
      MapAt(g, xs[..|xs| - 1], k);
    }
  }

  /**
   * When `f` reads back every value `g` writes, filtering the written
   * sequence with `f` gives back the original values, all of them and in order.
   */
  lemma {:induction false} FilterMapOfMap<A, B>(f: B -> Option<A>, g: A -> B, xs: seq<A>)
    requires forall k :: 0 <= k < |xs| ==> f(g(xs[k])) == Some(xs[k])
    ensures FilterMap(f, Map(g, xs)) == xs
    decreases |xs|
  {
    if xs != [] {
      var n := |xs| - 1;
      var ys := Map(g, xs);
      assert ys[..n] == Map(g, xs[..n]);
      assert ys[n] == g(xs[n]);
      assert forall k :: 0 <= k < n ==> xs[..n][k] == xs[k];
      FilterMapOfMap(f, g, xs[..n]);
      assert xs[..n] + [xs[n]] == xs;
    }
  }
}

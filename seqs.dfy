/**
 * `xs.filter(p).map(g)` and the "push what passes" loops of the pipeline, as one
 * filter-map over an `Option`-valued function, with the positions it keeps.
 */
module Seqs {
  import opened Opt

  /** The values `f` yields on the elements of `xs`, in order, skipping the elements it rejects. */
  function FilterMap<T, U>(f: T -> Option<U>, xs: seq<T>): (r: seq<U>)
    ensures |r| <= |xs|
  {
    if xs == [] then []
    else FilterMap(f, xs[..|xs| - 1]) + (match f(xs[|xs| - 1]) case Some(u) => [u] case None => [])
  }

  /** The positions of `xs` that `f` accepts, in ascending order. */
  function KeptIndices<T, U>(f: T -> Option<U>, xs: seq<T>): (idx: seq<nat>)
    ensures forall k :: 0 <= k < |idx| ==> idx[k] < |xs|
  {
    if xs == [] then []
    else KeptIndices(f, xs[..|xs| - 1]) + (if f(xs[|xs| - 1]).Some? then [|xs| - 1] else [])
  }

  ghost predicate StrictlyIncreasing(idx: seq<nat>) {
    forall k, l :: 0 <= k < l < |idx| ==> idx[k] < idx[l]
  }

  /**
   * The filter-map is `f` read at exactly the accepted positions, in order: the k-th
   * output is what `f` yields on the k-th accepted element, and a position is
   * accepted exactly when `f` yields a value there.
   */
  lemma {:induction false} FilterMapAt<T, U>(f: T -> Option<U>, xs: seq<T>)
    ensures var r, idx := FilterMap(f, xs), KeptIndices(f, xs);
      && |idx| == |r|
      && StrictlyIncreasing(idx)
      && (forall k :: 0 <= k < |r| ==> f(xs[idx[k]]) == Some(r[k]))
      && (forall i :: 0 <= i < |xs| ==> (i in idx <==> f(xs[i]).Some?))
  {
    if xs != [] {
      var n := |xs| - 1;
      var init := xs[..n];
      FilterMapAt(f, init);
      assert forall i :: 0 <= i < n ==> init[i] == xs[i];
    }
  }

  /** Filtering the extended sequence extends the filtered one. */
  lemma FilterMapSnoc<T, U>(f: T -> Option<U>, xs: seq<T>, x: T)
    ensures FilterMap(f, xs + [x]) == FilterMap(f, xs) + (match f(x) case Some(u) => [u] case None => [])
  {
    assert (xs + [x])[..|xs|] == xs;
  }
}

/** Generic sequence combinators. */
module Sequences {
  import opened Wrappers

  /** Iterator `filter_map`: the results of `f` that are `Some`, in input order. */
  function FilterMap<A, B>(f: A -> Option<B>, xs: seq<A>): (r: seq<B>)
    ensures |r| <= |xs|
    ensures forall y :: y in r ==> exists i :: 0 <= i < |xs| && f(xs[i]) == Some(y)
    ensures forall i :: 0 <= i < |xs| && f(xs[i]).Some? ==> f(xs[i]).value in r
    decreases |xs|
  {
    if |xs| == 0 then []
    else
      var rest := FilterMap(f, xs[1..]);
      assert forall i :: 1 <= i < |xs| ==> xs[1..][i - 1] == xs[i];
      match f(xs[0])
      case Some(y) => [y] + rest
      case None => rest
  }

  /** `filter_map` keeps relative order: it distributes over concatenation. */
  lemma {:induction false} FilterMapConcat<A, B>(f: A -> Option<B>, xs: seq<A>, ys: seq<A>)
    ensures FilterMap(f, xs + ys) == FilterMap(f, xs) + FilterMap(f, ys)
    decreases |xs|
  {
    if |xs| == 0 {
      assert xs + ys == ys;
    } else {
      assert (xs + ys)[1..] == xs[1..] + ys;
      FilterMapConcat(f, xs[1..], ys);
    }
  }

  /** Nothing is dropped exactly when every input maps to a value. */
  lemma {:induction false} FilterMapKeepsAll<A, B>(f: A -> Option<B>, xs: seq<A>)
    ensures |FilterMap(f, xs)| == |xs| <==> forall i :: 0 <= i < |xs| ==> f(xs[i]).Some?
    decreases |xs|
  {
    if |xs| > 0 {
      FilterMapKeepsAll(f, xs[1..]);
      assert forall i :: 1 <= i < |xs| ==> xs[1..][i - 1] == xs[i];
      if f(xs[0]).None? {
        assert |FilterMap(f, xs[1..])| <= |xs[1..]|;
      }
    }
  }

  /** Iterator `filter`: the elements satisfying `p`, in input order. */
  function Filter<A(!new)>(p: A -> bool, xs: seq<A>): (r: seq<A>)
    ensures |r| <= |xs|
    ensures forall x :: x in r <==> x in xs && p(x)
    decreases |xs|
  {
    if |xs| == 0 then []
    else
      assert forall x :: x in xs <==> x == xs[0] || x in xs[1..];
      (if p(xs[0]) then [xs[0]] else []) + Filter(p, xs[1..])
  }

  /** `filter` keeps relative order: it distributes over concatenation. */
  lemma {:induction false} FilterConcat<A(!new)>(p: A -> bool, xs: seq<A>, ys: seq<A>)
    ensures Filter(p, xs + ys) == Filter(p, xs) + Filter(p, ys)
    decreases |xs|
  {
    if |xs| == 0 {
      assert xs + ys == ys;
    } else {
      assert (xs + ys)[1..] == xs[1..] + ys;
      FilterConcat(p, xs[1..], ys);
    }
  }

  /** Two tests that agree on every element keep the same elements. */
  lemma {:induction false} FilterCongruent<A(!new)>(p: A -> bool, q: A -> bool, xs: seq<A>)
    requires forall i :: 0 <= i < |xs| ==> p(xs[i]) == q(xs[i])
    ensures Filter(p, xs) == Filter(q, xs)
    decreases |xs|
  {
    if |xs| > 0 {
      assert forall i :: 1 <= i < |xs| ==> xs[1..][i - 1] == xs[i];
      FilterCongruent(p, q, xs[1..]);
    }
  }

  /** A test every element passes keeps the whole sequence. */
  lemma {:induction false} FilterKeepsAll<A(!new)>(p: A -> bool, xs: seq<A>)
    requires forall i :: 0 <= i < |xs| ==> p(xs[i])
    ensures Filter(p, xs) == xs
    decreases |xs|
  {
    if |xs| > 0 {
      assert forall i :: 1 <= i < |xs| ==> xs[1..][i - 1] == xs[i];
      FilterKeepsAll(p, xs[1..]);
      assert xs == [xs[0]] + xs[1..];
    }
  }

  /** The position of the first element satisfying `p`. */
  function FirstIndex<A>(p: A -> bool, xs: seq<A>): (r: Option<nat>)
    ensures r.Some? ==> r.value < |xs| && p(xs[r.value]) && forall j :: 0 <= j < r.value ==> !p(xs[j])
    ensures r.None? ==> forall j :: 0 <= j < |xs| ==> !p(xs[j])
    decreases |xs|
  {
    if |xs| == 0 then None
    else if p(xs[0]) then Some(0)
    else
      match FirstIndex(p, xs[1..])
      case Some(k) =>
        assert forall j :: 1 <= j <= k ==> xs[j] == xs[1..][j - 1];
        Some(k + 1)
      case None =>
        assert forall j :: 1 <= j < |xs| ==> xs[j] == xs[1..][j - 1];
        None
  }

  /** Two tests that agree everywhere find the same first position. */
  lemma {:induction false} FirstIndexCongruent<A>(p: A -> bool, q: A -> bool, xs: seq<A>)
    requires forall i :: 0 <= i < |xs| ==> p(xs[i]) == q(xs[i])
    ensures FirstIndex(p, xs) == FirstIndex(q, xs)
    decreases |xs|
  {
    if |xs| > 0 {
      assert forall i :: 1 <= i < |xs| ==> xs[1..][i - 1] == xs[i];
      FirstIndexCongruent(p, q, xs[1..]);
    }
  }
}

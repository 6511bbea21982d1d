/** Sequence helpers used by the equipment diff: the generic `contains`
    scan and an order-preserving filter standing for the append loops. */
module Sequences {

  /** `r` is `xs` with some elements left out and the rest in their order:
      the last element of `xs` is either dropped or is the last of `r`. */
  ghost predicate IsSubsequence<T>(r: seq<T>, xs: seq<T>)
    decreases |xs|
  {
    if |xs| == 0 then r == []
    else
      || IsSubsequence(r, xs[..|xs| - 1])
      || (&& |r| > 0
          && r[|r| - 1] == xs[|xs| - 1]
          && IsSubsequence(r[..|r| - 1], xs[..|xs| - 1]))
  }

  /** Appending one element to `xs` keeps every subsequence, and extends
      each by that element. */
  lemma SubsequenceSnoc<T>(r: seq<T>, xs: seq<T>, x: T)
    requires IsSubsequence(r, xs)
    ensures IsSubsequence(r, xs + [x])
    ensures IsSubsequence(r + [x], xs + [x])
  {
    assert (xs + [x])[..|xs|] == xs;
    assert (r + [x])[..|r|] == r;
  }

  /** Linear scan from the front that stops at the first match
      (main.go:305-312). */
  function Contains<T(==)>(elems: seq<T>, v: T): (r: bool)
    ensures r <==> v in elems
  {
    if |elems| == 0 then false
    else if v == elems[0] then true
    else Contains(elems[1..], v)
  }

  /** The elements of `xs` for which `keep` holds, in their original order:
      what a `for _, x := range xs { if keep(x) { out = append(out, x) } }`
      loop builds, one element appended per kept visit. Every occurrence is
      kept or dropped as a whole. */
  function Filter<T(!new)>(xs: seq<T>, keep: T -> bool): (r: seq<T>)
    ensures |r| <= |xs|
    ensures forall x :: multiset(r)[x] == if keep(x) then multiset(xs)[x] else 0
    ensures IsSubsequence(r, xs)
  {
    if |xs| == 0 then []
    else
      var init := xs[..|xs| - 1];
      var x := xs[|xs| - 1];
      var acc := Filter(init, keep);
      assert xs == init + [x];
      SubsequenceSnoc(acc, init, x);
      assert multiset(xs) == multiset(init) + multiset{x};
      if keep(x) then acc + [x] else acc
  }

  /** Membership read off the multiset contract of Filter. */
  lemma FilterMembers<T(!new)>(xs: seq<T>, keep: T -> bool)
    ensures forall x :: x in Filter(xs, keep) <==> x in xs && keep(x)
  {
    var r := Filter(xs, keep);
    forall x
      ensures x in r <==> x in xs && keep(x)
    {
      assert x in r <==> multiset(r)[x] > 0;
      assert x in xs <==> multiset(xs)[x] > 0;
    }
  }

  /** Two sequences hold the same elements, ignoring order and repetition. */
  predicate SameElements<T(==)>(a: seq<T>, b: seq<T>)
  {
    && (forall x :: x in a ==> x in b)
    && (forall x :: x in b ==> x in a)
  }
}

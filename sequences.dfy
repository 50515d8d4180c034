/**
 * Order-preserving maps and filter-maps over a prefix of a sequence, the
 * two shapes of list building the retriever's loops follow.
 */
module Sequences {
  import opened Wrappers

  /** `[f(x) for x in xs[:i]]`. */
  function MapUpTo<A, B>(xs: seq<A>, i: nat, f: A -> B): (ys: seq<B>)
    requires i <= |xs|
    ensures |ys| == i
    decreases i
  {
    if i == 0 then [] else MapUpTo(xs, i - 1, f) + [f(xs[i - 1])]
  }

  /** Element `j` of a map is `f` of element `j`. */
  lemma {:induction false} MapUpToAt<A, B>(xs: seq<A>, i: nat, j: nat, f: A -> B)
    requires j < i <= |xs|
    ensures MapUpTo(xs, i, f)[j] == f(xs[j])
    decreases i
  {
    if j < i - 1 {
      MapUpToAt(xs, i - 1, j, f);
    }
  }

  /** The values `f` gives for the elements of `xs[:i]`, the `None`s left out, in order. */
  function FilterMapUpTo<A, B>(xs: seq<A>, i: nat, f: A -> Option<B>): (ys: seq<B>)
    requires i <= |xs|
    ensures |ys| <= i
    decreases i
  {
    if i == 0 then []
    else
      FilterMapUpTo(xs, i - 1, f) + match f(xs[i - 1]) { case Some(y) => [y] case None => [] }
  }

  /** Looking at fewer elements gives a prefix of what looking at more gives. */
  lemma {:induction false} FilterMapUpToPrefix<A, B>(xs: seq<A>, i: nat, j: nat, f: A -> Option<B>)
    requires i <= j <= |xs|
    ensures FilterMapUpTo(xs, i, f) <= FilterMapUpTo(xs, j, f)
    decreases j
  {
    if i < j {
      FilterMapUpToPrefix(xs, i, j - 1, f);
    }
  }

  /**
   * A filter-map holds exactly the values `f` gives: each of its elements
   * is `f` of some element looked at, and each value `f` gives for an
   * element looked at is in it.
   */
  lemma {:induction false} FilterMapUpToExactly<A, B>(xs: seq<A>, i: nat, f: A -> Option<B>)
    requires i <= |xs|
    ensures forall y :: y in FilterMapUpTo(xs, i, f) ==> exists k :: 0 <= k < i && f(xs[k]) == Some(y)
    ensures forall k :: 0 <= k < i && f(xs[k]).Some? ==> f(xs[k]).value in FilterMapUpTo(xs, i, f)
    decreases i
  {
    if i > 0 {
      FilterMapUpToExactly(xs, i - 1, f);
    }
  }
}

/** Small sequence helpers the other modules share. */
module Seqs {

  /** No element occurs twice. */
  ghost predicate Distinct<T>(xs: seq<T>) {
    forall i, j :: 0 <= i < j < |xs| ==> xs[i] != xs[j]
  }

  /** The elements of `xs` that satisfy `p`, in their original order. */
  function Filter<T(!new)>(xs: seq<T>, p: T -> bool): (ys: seq<T>)
    ensures |ys| <= |xs|
    ensures forall y :: y in ys <==> y in xs && p(y)
  {
    if xs == [] then []
    else if p(xs[0]) then [xs[0]] + Filter(xs[1..], p)
    else Filter(xs[1..], p)
  }

  /** The tail of a repetition-free sequence is repetition-free and does not
      contain the head. */
  lemma DistinctTail<T>(xs: seq<T>)
    requires Distinct(xs) && xs != []
    ensures Distinct(xs[1..]) && xs[0] !in xs[1..]
  {
    forall i, j | 0 <= i < j < |xs[1..]|
      ensures xs[1..][i] != xs[1..][j]
    {
      assert xs[1..][i] == xs[i + 1] && xs[1..][j] == xs[j + 1];
    }
    forall j | 0 <= j < |xs[1..]|
      ensures xs[1..][j] != xs[0]
    {
      assert xs[1..][j] == xs[j + 1];
    }
  }

  /** Filtering never introduces a repetition. */
  lemma {:induction false} FilterDistinct<T(!new)>(xs: seq<T>, p: T -> bool)
    requires Distinct(xs)
    ensures Distinct(Filter(xs, p))
  {
    if xs != [] {
      DistinctTail(xs);
      FilterDistinct(xs[1..], p);
      if p(xs[0]) {
        var rest := Filter(xs[1..], p);
        assert xs[0] !in rest;
        var ys := [xs[0]] + rest;
        forall i, j | 0 <= i < j < |ys|
          ensures ys[i] != ys[j]
        {
          if i == 0 {
            assert ys[j] == rest[j - 1];
            assert ys[j] in rest;
          } else {
            assert ys[i] == rest[i - 1] && ys[j] == rest[j - 1];
          }
        }
      }
    }
  }
}

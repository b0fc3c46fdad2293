/** The array built-ins the application leans on (`filter`, `map`,
    `reverse`, `slice`), as functions on sequences, with the facts about
    them that the rest of the model uses. */
module Seqs {

  /** `xs.filter(keep)`: the elements satisfying `keep`, in their original order. */
  function Filter<T>(xs: seq<T>, keep: T -> bool): (r: seq<T>)
    ensures |r| <= |xs|
    ensures forall x :: x in r ==> x in xs && keep(x)
    ensures forall x :: x in xs && keep(x) ==> x in r
    decreases |xs|
  {
    if xs == [] then []
    else if keep(xs[0]) then [xs[0]] + Filter(xs[1..], keep)
    else Filter(xs[1..], keep)
  }

  /** `xs.map(f)`. */
  function Map<T, U>(xs: seq<T>, f: T -> U): (r: seq<U>)
    ensures |r| == |xs|
    ensures forall i :: 0 <= i < |xs| ==> r[i] == f(xs[i])
  {
    seq(|xs|, i requires 0 <= i < |xs| => f(xs[i]))
  }

  /** `xs.slice().reverse()`. */
  function Reverse<T>(xs: seq<T>): (r: seq<T>)
    ensures |r| == |xs|
    ensures forall i :: 0 <= i < |xs| ==> r[i] == xs[|xs| - 1 - i]
  {
    seq(|xs|, i requires 0 <= i < |xs| => xs[|xs| - 1 - i])
  }

  /** `xs.slice(0, n)`: at most the first `n` elements. */
  function Take<T>(xs: seq<T>, n: nat): (r: seq<T>)
    ensures |r| == if n < |xs| then n else |xs|
    ensures r == xs[..|r|]
  {
    if n < |xs| then xs[..n] else xs
  }

  /** Every pair of positions, earlier first, is related by `before`. */
  ghost predicate Pairwise<T>(xs: seq<T>, before: (T, T) -> bool) {
    forall i, j :: 0 <= i < j < |xs| ==> before(xs[i], xs[j])
  }

  /** Filtering distributes over concatenation: the order of what is kept
      is the order of the input. */
  lemma {:induction false} FilterAppend<T>(xs: seq<T>, ys: seq<T>, keep: T -> bool)
    ensures Filter(xs + ys, keep) == Filter(xs, keep) + Filter(ys, keep)
    decreases |xs|
  {
    if xs == [] {
      assert xs + ys == ys;
    } else {
      assert (xs + ys)[1..] == xs[1..] + ys;
      FilterAppend(xs[1..], ys, keep);
    }
  }

  /** When everything is kept, filtering is the identity. */
  lemma {:induction false} FilterKeepsAll<T>(xs: seq<T>, keep: T -> bool)
    requires forall x :: x in xs ==> keep(x)
    ensures Filter(xs, keep) == xs
    decreases |xs|
  {
    if xs != [] {
      assert xs[0] in xs;
      assert forall x :: x in xs[1..] ==> x in xs;
      FilterKeepsAll(xs[1..], keep);
    }
  }

  /** When nothing is kept, filtering yields the empty sequence. */
  lemma FilterDropsAll<T>(xs: seq<T>, keep: T -> bool)
    requires forall x :: x in xs ==> !keep(x)
    ensures Filter(xs, keep) == []
  {
    if Filter(xs, keep) != [] {
      assert Filter(xs, keep)[0] in Filter(xs, keep);
    }
  }

  /** Filtering twice with the same test changes nothing the second time. */
  lemma FilterIdempotent<T>(xs: seq<T>, keep: T -> bool)
    ensures Filter(Filter(xs, keep), keep) == Filter(xs, keep)
  {
    FilterKeepsAll(Filter(xs, keep), keep);
  }

  /** Two filters commute. */
  lemma {:induction false} FilterCommutes<T>(xs: seq<T>, p: T -> bool, q: T -> bool)
    ensures Filter(Filter(xs, p), q) == Filter(Filter(xs, q), p)
    decreases |xs|
  {
    if xs != [] {
      FilterCommutes(xs[1..], p, q);
    }
  }

  /** A relation that holds between every earlier and later element still
      holds after filtering. */
  lemma {:induction false} FilterPairwise<T>(xs: seq<T>, keep: T -> bool, before: (T, T) -> bool)
    requires Pairwise(xs, before)
    ensures Pairwise(Filter(xs, keep), before)
    decreases |xs|
  {
    if xs != [] {
      var tail := xs[1..];
      assert Pairwise(tail, before) by {
        forall i, j | 0 <= i < j < |tail| ensures before(tail[i], tail[j]) {
          assert tail[i] == xs[i + 1] && tail[j] == xs[j + 1];
        }
      }
      FilterPairwise(tail, keep, before);
      if keep(xs[0]) {
        var rt := Filter(tail, keep);
        HeadBefore(xs, before);
        ConsPairwise(xs[0], rt, before);
      }
    }
  }

  lemma HeadBefore<T>(xs: seq<T>, before: (T, T) -> bool)
    requires xs != [] && Pairwise(xs, before)
    ensures forall y :: y in xs[1..] ==> before(xs[0], y)
  {
    forall y | y in xs[1..] ensures before(xs[0], y) {
      var k :| 0 <= k < |xs[1..]| && xs[1..][k] == y;
      assert xs[k + 1] == y;
    }
  }

  lemma ConsPairwise<T>(x: T, ys: seq<T>, before: (T, T) -> bool)
    requires Pairwise(ys, before)
    requires forall y :: y in ys ==> before(x, y)
    ensures Pairwise([x] + ys, before)
  {
    var r := [x] + ys;
    forall i, j | 0 <= i < j < |r| ensures before(r[i], r[j]) {
      assert r[j] == ys[j - 1];
      if i > 0 {
        assert r[i] == ys[i - 1];
      } else {
        assert ys[j - 1] in ys;
      }
    }
  }

  lemma SnocPairwise<T>(xs: seq<T>, y: T, before: (T, T) -> bool)
    requires Pairwise(xs, before)
    requires forall x :: x in xs ==> before(x, y)
    ensures Pairwise(xs + [y], before)
  {
    var r := xs + [y];
    forall i, j | 0 <= i < j < |r| ensures before(r[i], r[j]) {
      assert r[i] == xs[i];
      if j < |xs| {
        assert r[j] == xs[j];
      } else {
        assert xs[i] in xs;
      }
    }
  }

  /** Mapping distributes over concatenation. */
  lemma MapAppend<T, U>(xs: seq<T>, ys: seq<T>, f: T -> U)
    ensures Map(xs + ys, f) == Map(xs, f) + Map(ys, f)
  {
  }

  function Not<T>(keep: T -> bool): T -> bool {
    x => !keep(x)
  }

  /** Every element is kept by a test or by its negation, never both. */
  lemma {:induction false} FilterPartition<T>(xs: seq<T>, keep: T -> bool)
    ensures |Filter(xs, keep)| + |Filter(xs, Not(keep))| == |xs|
    decreases |xs|
  {
    if xs != [] {
      FilterPartition(xs[1..], keep);
    }
  }
}

/** How many elements of a sequence satisfy a predicate. */
module Tallies {

  function One(b: bool): nat { if b then 1 else 0 }

  function Tally<T>(xs: seq<T>, p: T -> bool): (n: nat)
    ensures n <= |xs|
  {
    if xs == [] then 0 else Tally(xs[..|xs|-1], p) + One(p(xs[|xs|-1]))
  }

  lemma {:induction false} TallyUpdate<T>(xs: seq<T>, i: nat, x: T, p: T -> bool)
    requires i < |xs|
    ensures Tally(xs[i := x], p) + One(p(xs[i])) == Tally(xs, p) + One(p(x))
  {
    var front := xs[..|xs|-1];
    if i == |front| {
      assert xs[i := x][..|xs|-1] == front;
    } else {
      TallyUpdate(front, i, x, p);
      assert xs[i := x][..|xs|-1] == front[i := x];
    }
  }

  lemma TallyAppend<T>(xs: seq<T>, x: T, p: T -> bool)
    ensures Tally(xs + [x], p) == Tally(xs, p) + One(p(x))
  {
    assert (xs + [x])[..|xs|] == xs;
  }

  lemma {:induction false} TallySome<T>(xs: seq<T>, i: nat, p: T -> bool)
    requires i < |xs| && p(xs[i])
    ensures Tally(xs, p) > 0
  {
    if i < |xs| - 1 { TallySome(xs[..|xs|-1], i, p); }
  }

  lemma {:induction false} TallyWitness<T>(xs: seq<T>, p: T -> bool) returns (i: nat)
    requires Tally(xs, p) > 0
    ensures i < |xs| && p(xs[i])
  {
    if p(xs[|xs|-1]) { i := |xs|-1; } else { i := TallyWitness(xs[..|xs|-1], p); }
  }

  /** When every hit sits at index lo or later. */
  lemma {:induction false} TallyBound<T>(xs: seq<T>, lo: nat, p: T -> bool)
    requires lo <= |xs|
    requires forall i :: 0 <= i < lo ==> !p(xs[i])
    ensures Tally(xs, p) <= |xs| - lo
  {
    if |xs| > lo { TallyBound(xs[..|xs|-1], lo, p); }
    else if xs != [] { TallyBound(xs[..|xs|-1], lo - 1, p); }
  }

  /** Sequences whose elements agree on p, place by place. */
  lemma {:induction false} TallySame<T>(xs: seq<T>, ys: seq<T>, p: T -> bool)
    requires |xs| == |ys| && forall i :: 0 <= i < |xs| ==> p(xs[i]) == p(ys[i])
    ensures Tally(xs, p) == Tally(ys, p)
  {
    if xs != [] { TallySame(xs[..|xs|-1], ys[..|ys|-1], p); }
  }

  /** n more elements that all look like x. */
  lemma {:induction false} TallyMany<T>(xs: seq<T>, ys: seq<T>, x: T, p: T -> bool)
    requires forall i :: 0 <= i < |ys| ==> ys[i] == x
    ensures Tally(xs + ys, p) == Tally(xs, p) + |ys| * One(p(x))
  {
    if ys == [] {
      assert xs + ys == xs;
    } else {
      TallyMany(xs, ys[..|ys|-1], x, p);
      assert (xs + ys)[..|xs| + |ys| - 1] == xs + ys[..|ys|-1];
    }
  }
}

/** Folding a list with steps that commute: the order of the list does not matter. */
module Folding {

  function Fold<S, T>(step: (S, T) -> S, start: S, xs: seq<T>): S {
    if xs == [] then start else step(Fold(step, start, xs[..|xs| - 1]), xs[|xs| - 1])
  }

  ghost predicate Commutes<S(!new), T(!new)>(step: (S, T) -> S) {
    forall s, a, b :: step(step(s, a), b) == step(step(s, b), a)
  }

  lemma FoldPush<S, T>(step: (S, T) -> S, start: S, xs: seq<T>, x: T)
    ensures Fold(step, start, xs + [x]) == step(Fold(step, start, xs), x)
  {
    assert (xs + [x])[..|xs|] == xs;
  }

  lemma {:induction false} FoldMoveLast<S(!new), T(!new)>(step: (S, T) -> S, start: S, p: seq<T>, x: T, q: seq<T>)
    requires Commutes(step)
    ensures Fold(step, start, p + [x] + q) == Fold(step, start, p + q + [x])
    decreases |q|
  {
    if q == [] {
      assert p + [x] + q == p + q + [x];
    } else {
      var front, y := q[..|q| - 1], q[|q| - 1];
      assert p + [x] + q == p + [x] + front + [y];
      assert p + q == p + front + [y];
      FoldPush(step, start, p + [x] + front, y);
      FoldMoveLast(step, start, p, x, front);
      FoldPush(step, start, p + front, x);
      FoldPush(step, start, p + front, y);
      FoldPush(step, start, p + q, x);
    }
  }

  lemma RemoveMiddle<T>(p: seq<T>, x: T, q: seq<T>)
    ensures multiset(p + q) == multiset(p + [x] + q) - multiset{x}
  {
    assert multiset(p + [x] + q) == multiset(p) + multiset{x} + multiset(q);
  }

  lemma {:induction false} FoldPermutes<S(!new), T(!new)>(step: (S, T) -> S, start: S, xs: seq<T>, ys: seq<T>)
    requires Commutes(step) && multiset(xs) == multiset(ys)
    ensures Fold(step, start, xs) == Fold(step, start, ys)
    decreases |xs|
  {
    if xs == [] {
      assert |multiset(ys)| == 0;
    } else {
      var front, x := xs[..|xs| - 1], xs[|xs| - 1];
      assert xs == front + [x];
      assert x in multiset(ys);
      var i :| 0 <= i < |ys| && ys[i] == x;
      var p, q := ys[..i], ys[i + 1..];
      assert ys == p + [x] + q;
      assert multiset(front) == multiset(xs) - multiset{x};
      RemoveMiddle(p, x, q);
      FoldPermutes(step, start, front, p + q);
      FoldMoveLast(step, start, p, x, q);
      FoldPush(step, start, p + q, x);
    }
  }
}

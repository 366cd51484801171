/** Filtering and flattening sequences, in order. */
module Sequences {
  /** The elements that satisfy `keep`, in order. */
  ghost function Filter<T>(xs: seq<T>, keep: T -> bool): seq<T> {
    if xs == [] then [] else (if keep(xs[0]) then [xs[0]] else []) + Filter(xs[1..], keep)
  }

  lemma Assoc<T>(a: seq<T>, b: seq<T>, c: seq<T>)
    ensures a + b + c == a + (b + c)
  {
  }

  lemma {:induction false} FilterConcat<T>(xs: seq<T>, ys: seq<T>, keep: T -> bool)
    ensures Filter(xs + ys, keep) == Filter(xs, keep) + Filter(ys, keep)
  {
    if xs == [] {
      assert xs + ys == ys;
    } else {
      assert (xs + ys)[1..] == xs[1..] + ys && (xs + ys)[0] == xs[0];
      FilterConcat(xs[1..], ys, keep);
      Assoc(if keep(xs[0]) then [xs[0]] else [], Filter(xs[1..], keep), Filter(ys, keep));
    }
  }

  /** The last element comes last. */
  lemma {:induction false} FilterSnoc<T>(xs: seq<T>, keep: T -> bool)
    requires xs != []
    ensures Filter(xs, keep) ==
            Filter(xs[..|xs| - 1], keep) + if keep(xs[|xs| - 1]) then [xs[|xs| - 1]] else []
  {
    var init, x := xs[..|xs| - 1], xs[|xs| - 1];
    assert xs == init + [x];
    FilterConcat(init, [x], keep);
    assert [x][1..] == [];
  }

  /** Tests that agree on the elements keep the same ones. */
  lemma {:induction false} FilterSame<T>(xs: seq<T>, p: T -> bool, q: T -> bool)
    requires forall x :: x in xs ==> p(x) == q(x)
    ensures Filter(xs, p) == Filter(xs, q)
  {
    if xs != [] { FilterSame(xs[1..], p, q); }
  }

  /** What `f` makes of each element, one after the other. */
  ghost function Flat<T, U>(xs: seq<T>, f: T -> seq<U>): seq<U> {
    if xs == [] then [] else f(xs[0]) + Flat(xs[1..], f)
  }

  lemma {:induction false} FlatConcat<T, U>(xs: seq<T>, ys: seq<T>, f: T -> seq<U>)
    ensures Flat(xs + ys, f) == Flat(xs, f) + Flat(ys, f)
  {
    if xs == [] {
      assert xs + ys == ys;
    } else {
      assert (xs + ys)[1..] == xs[1..] + ys && (xs + ys)[0] == xs[0];
      FlatConcat(xs[1..], ys, f);
      Assoc(f(xs[0]), Flat(xs[1..], f), Flat(ys, f));
    }
  }

  lemma {:induction false} FlatSnoc<T, U>(xs: seq<T>, f: T -> seq<U>)
    requires xs != []
    ensures Flat(xs, f) == Flat(xs[..|xs| - 1], f) + f(xs[|xs| - 1])
  {
    var init, x := xs[..|xs| - 1], xs[|xs| - 1];
    assert xs == init + [x];
    FlatConcat(init, [x], f);
    assert [x][1..] == [];
  }

  lemma {:induction false} FlatSame<T, U>(xs: seq<T>, f: T -> seq<U>, g: T -> seq<U>)
    requires forall x :: x in xs ==> f(x) == g(x)
    ensures Flat(xs, f) == Flat(xs, g)
  {
    if xs != [] { FlatSame(xs[1..], f, g); }
  }
}

// Sums over sequences.
module Totals {
  function Total<T>(xs: seq<T>, f: T -> int): int {
    if xs == [] then 0 else f(xs[0]) + Total(xs[1..], f)
  }

  lemma {:induction false} TotalUpdate<T>(xs: seq<T>, i: nat, x: T, f: T -> int)
    requires i < |xs|
    ensures Total(xs[i := x], f) == Total(xs, f) - f(xs[i]) + f(x)
  {
    if i == 0 {
      assert xs[0 := x][1..] == xs[1..];
    } else {
      assert xs[i := x][1..] == xs[1..][i - 1 := x];
      TotalUpdate(xs[1..], i - 1, x, f);
    }
  }

  lemma {:induction false} TotalAppend<T>(xs: seq<T>, x: T, f: T -> int)
    ensures Total(xs + [x], f) == Total(xs, f) + f(x)
  {
    if xs == [] {
      assert (xs + [x])[1..] == [];
    } else {
      assert (xs + [x])[1..] == xs[1..] + [x];
      TotalAppend(xs[1..], x, f);
    }
  }

  lemma {:induction false} TotalConcat<T>(xs: seq<T>, ys: seq<T>, f: T -> int)
    ensures Total(xs + ys, f) == Total(xs, f) + Total(ys, f)
  {
    if xs == [] {
      assert xs + ys == ys;
    } else {
      assert (xs + ys)[1..] == xs[1..] + ys;
      TotalConcat(xs[1..], ys, f);
    }
  }

  lemma TotalOne<T>(x: T, f: T -> int)
    ensures Total([x], f) == f(x)
  {
    assert [x][1..] == [];
  }

  lemma {:induction false} TotalNonNegative<T>(xs: seq<T>, f: T -> int)
    requires forall x: T :: x in xs ==> f(x) >= 0
    ensures Total(xs, f) >= 0
  {
    if xs != [] {
      TotalNonNegative(xs[1..], f);
    }
  }

  lemma {:induction false} TotalZero<T>(xs: seq<T>, f: T -> int)
    requires forall x: T :: x in xs ==> f(x) == 0
    ensures Total(xs, f) == 0
  {
    if xs != [] {
      TotalZero(xs[1..], f);
    }
  }

  lemma {:induction false} TotalAtLeast<T>(xs: seq<T>, i: nat, f: T -> int)
    requires i < |xs| && forall x: T :: x in xs ==> f(x) >= 0
    ensures Total(xs, f) >= f(xs[i])
  {
    if i == 0 {
      TotalNonNegative(xs[1..], f);
    } else {
      TotalAtLeast(xs[1..], i - 1, f);
    }
  }

  lemma {:induction false} TotalAtLeastBoth<T>(xs: seq<T>, i: nat, j: nat, f: T -> int)
    requires i < j < |xs| && forall x: T :: x in xs ==> f(x) >= 0
    ensures Total(xs, f) >= f(xs[i]) + f(xs[j])
  {
    if i == 0 {
      TotalAtLeast(xs[1..], j - 1, f);
    } else {
      TotalAtLeastBoth(xs[1..], i - 1, j - 1, f);
    }
  }
}

/** Sums over the elements of a sequence, and repeated addition. */
module Sums {

  ghost function Total<T>(xs: seq<T>, f: T -> int): int {
    if xs == [] then 0 else f(xs[0]) + Total(xs[1..], f)
  }

  /** `n` times `a`, by repeated addition. */
  function Times(a: nat, n: nat): nat {
    if n == 0 then 0 else a + Times(a, n - 1)
  }

  lemma {:induction false} TotalConcat<T>(a: seq<T>, b: seq<T>, f: T -> int)
    ensures Total(a + b, f) == Total(a, f) + Total(b, f)
  {
    if a == [] {
      assert a + b == b;
    } else {
      TotalConcat(a[1..], b, f);
      assert (a + b)[1..] == a[1..] + b;
    }
  }

  lemma TotalOne<T>(x: T, f: T -> int)
    ensures Total([x], f) == f(x)
  {
    assert [x][1..] == [];
  }

  lemma TotalAppend<T>(xs: seq<T>, x: T, f: T -> int)
    ensures Total(xs + [x], f) == Total(xs, f) + f(x)
  {
    TotalConcat(xs, [x], f);
    TotalOne(x, f);
  }

  /** Replacing one element changes a sum by the difference. */
  lemma TotalUpdate<T>(xs: seq<T>, i: nat, x: T, f: T -> int)
    requires i < |xs|
    ensures Total(xs[i := x], f) == Total(xs, f) - f(xs[i]) + f(x)
  {
    assert xs == xs[..i] + ([xs[i]] + xs[i + 1..]);
    assert xs[i := x] == xs[..i] + ([x] + xs[i + 1..]);
    TotalConcat(xs[..i], [xs[i]] + xs[i + 1..], f);
    TotalConcat(xs[..i], [x] + xs[i + 1..], f);
  }

  /** A sum of non-negative shares is at least each of them. */
  lemma {:induction false} TotalAtLeast<T>(xs: seq<T>, f: T -> int)
    requires forall x | x in xs :: f(x) >= 0
    ensures Total(xs, f) >= 0
    ensures forall i | 0 <= i < |xs| :: Total(xs, f) >= f(xs[i])
  {
    if xs != [] {
      TotalAtLeast(xs[1..], f);
      forall i | 0 <= i < |xs|
        ensures Total(xs, f) >= f(xs[i])
      {
        assert i > 0 ==> xs[i] == xs[1..][i - 1];
      }
    }
  }

  /** A sum that is not zero has a share that is not zero. */
  lemma {:induction false} TotalNonZero<T>(xs: seq<T>, f: T -> int) returns (i: nat)
    requires Total(xs, f) != 0
    ensures i < |xs| && f(xs[i]) != 0
  {
    if f(xs[0]) != 0 {
      i := 0;
    } else {
      i := TotalNonZero(xs[1..], f);
      i := i + 1;
    }
  }
}

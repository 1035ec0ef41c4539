/** Vocabulary shared by the models: optional values, bytes, and weighted
    sums over the threads of a system. */
module Basics {

  datatype Option<+T> = None | Some(value: T)

  type Byte = b: int | 0 <= b < 256

  /** The sum of the weights of all elements, used to count the threads that
      are at a given point of their program. */
  function Total<T>(xs: seq<T>, w: T -> int): int {
    if |xs| == 0 then 0 else w(xs[0]) + Total(xs[1..], w)
  }

  /** Moving one element changes the sum by the difference of its weights. */
  lemma {:induction false} TotalUpdate<T>(xs: seq<T>, i: nat, x: T, w: T -> int)
    requires i < |xs|
    ensures Total(xs[i := x], w) == Total(xs, w) - w(xs[i]) + w(x)
  {
    if i == 0 {
      assert xs[i := x][1..] == xs[1..];
    } else {
      assert xs[i := x][1..] == xs[1..][i - 1 := x];
      TotalUpdate(xs[1..], i - 1, x, w);
    }
  }

  /** A sum of non-negative weights is at least each of them. */
  lemma {:induction false} TotalAtLeast<T>(xs: seq<T>, i: nat, w: T -> int)
    requires i < |xs|
    requires forall j | 0 <= j < |xs| :: w(xs[j]) >= 0
    ensures Total(xs, w) >= w(xs[i])
  {
    TotalNonNegative(xs[1..], w);
    if i > 0 {
      TotalAtLeast(xs[1..], i - 1, w);
    }
  }

  lemma {:induction false} TotalNonNegative<T>(xs: seq<T>, w: T -> int)
    requires forall j | 0 <= j < |xs| :: w(xs[j]) >= 0
    ensures Total(xs, w) >= 0
  {
    if |xs| > 0 {
      TotalNonNegative(xs[1..], w);
    }
  }

  /** A sum of zeros is zero. */
  lemma {:induction false} TotalZero<T>(xs: seq<T>, w: T -> int)
    requires forall j | 0 <= j < |xs| :: w(xs[j]) == 0
    ensures Total(xs, w) == 0
  {
    if |xs| > 0 {
      TotalZero(xs[1..], w);
    }
  }

  /** Two different elements both count. */
  lemma {:induction false} TotalAtLeastTwo<T>(xs: seq<T>, i: nat, k: nat, w: T -> int)
    requires i < k < |xs|
    requires forall j | 0 <= j < |xs| :: w(xs[j]) >= 0
    ensures Total(xs, w) >= w(xs[i]) + w(xs[k])
  {
    if i == 0 {
      TotalAtLeast(xs[1..], k - 1, w);
    } else {
      TotalAtLeastTwo(xs[1..], i - 1, k - 1, w);
    }
  }

  /** A positive sum has a contributor. */
  lemma {:induction false} TotalWitness<T>(xs: seq<T>, w: T -> int) returns (i: nat)
    requires Total(xs, w) > 0
    ensures i < |xs| && w(xs[i]) > 0
  {
    if w(xs[0]) > 0 {
      i := 0;
    } else {
      var j := TotalWitness(xs[1..], w);
      i := j + 1;
    }
  }

  /** The sum is bounded by a common bound of the weights. */
  lemma {:induction false} TotalBound<T>(xs: seq<T>, w: T -> int, bound: int)
    requires forall j | 0 <= j < |xs| :: w(xs[j]) <= bound
    ensures Total(xs, w) <= bound * |xs|
  {
    if |xs| > 0 {
      TotalBound(xs[1..], w, bound);
    }
  }

  /** The sum is at least what a common lower bound of the weights gives. */
  lemma {:induction false} TotalFloor<T>(xs: seq<T>, w: T -> int, floor: int)
    requires forall j | 0 <= j < |xs| :: w(xs[j]) >= floor
    ensures Total(xs, w) >= floor * |xs|
  {
    if |xs| > 0 {
      TotalFloor(xs[1..], w, floor);
    }
  }
}

/** `Primes` of `boundedBuffer/primes.cpp`: trial division by the numbers next to
    multiples of six, and the search for the next prime. */
module Primes {

  const INT_MAX: int := 0x7fff_ffff

  /** The first divisor candidate whose square can be compared with every int
      below it without overflow being possible afterwards. */
  const EDGE: int := 46337

  predicate Divides(d: int, n: int) {
    d != 0 && n % d == 0
  }

  ghost predicate Prime(n: int) {
    n > 1 && forall d | 1 < d < n :: !Divides(d, n)
  }

  ghost predicate NoDivisorBelow(n: int, bound: int) {
    forall d | 2 <= d < bound :: !Divides(d, n)
  }

  lemma Scale(a: int, k: int)
    requires a > 0
    ensures k >= 1 ==> a * k >= a
    ensures k <= -1 ==> a * k <= -a
  {
  }

  lemma ModOfProduct(k: int, a: int)
    requires a > 0
    ensures (a * k) % a == 0
  {
    var q, r := (a * k) / a, (a * k) % a;
    assert a * k == a * q + r && 0 <= r < a;
    assert a * (k - q) == r;
    Scale(a, k - q);
  }

  lemma Quotient(d: int, n: int) returns (q: int)
    requires d > 0 && Divides(d, n)
    ensures n == d * q
  {
    q := n / d;
  }

  lemma DivisorOfDivisor(a: int, d: int, n: int)
    requires a > 0 && d > 0 && Divides(a, d) && Divides(d, n)
    ensures Divides(a, n)
  {
    var p := Quotient(a, d);
    var q := Quotient(d, n);
    assert n == a * (p * q);
    ModOfProduct(p * q, a);
  }

  /** The cofactor of a divisor is a divisor. */
  lemma Cofactor(d: int, n: int) returns (e: int)
    requires 1 < d < n && Divides(d, n)
    ensures 1 < e < n && d * e == n && Divides(e, n)
  {
    e := Quotient(d, n);
    Between(d, e, n);
    assert e * d == n;
    ModOfProduct(d, e);
  }

  lemma Between(d: int, e: int, n: int)
    requires 1 < d < n && d * e == n
    ensures 1 < e < n
  {
    Scale(d, e);
    assert e <= 0 ==> d * e <= 0;
    assert e >= 1 ==> d * e >= 2 * e;
    assert e == 1 ==> d * e == d;
  }

  lemma ProductOfLarge(d: int, e: int, i: int)
    requires i >= 0
    ensures d >= i && e >= i ==> d * e >= i * i
  {
    if d >= i && e >= i {
      assert d * e >= i * e;
      assert i * e >= i * i;
    }
  }

  /** A number without a divisor below `i` and smaller than `i * i` is prime. */
  lemma NoSmallDivisor(n: int, i: int)
    requires n > 1 && i >= 2 && NoDivisorBelow(n, i) && n < i * i
    ensures Prime(n)
  {
    forall d | 1 < d < n ensures !Divides(d, n) {
      if Divides(d, n) {
        var e := Cofactor(d, n);
        ProductOfLarge(d, e, i);
      }
    }
  }

  lemma MultipleDividesLess(a: int, d: int, n: int)
    requires a > 0 && d > 0 && Divides(a, d) && !Divides(a, n)
    ensures !Divides(d, n)
  {
    if Divides(d, n) { DivisorOfDivisor(a, d, n); }
  }

  lemma SixApart(i: int)
    requires i % 6 == 5
    ensures Divides(2, i + 1) && Divides(2, i + 3) && Divides(3, i + 4) && Divides(2, i + 5)
  {
    var q := i / 6;
    assert i == 6 * q + 5;
    ModOfProduct(3 * q + 3, 2);
    ModOfProduct(3 * q + 4, 2);
    ModOfProduct(2 * q + 3, 3);
    ModOfProduct(3 * q + 5, 2);
  }

  /** Six consecutive candidates: two are tried, the others are multiples of 2 or 3. */
  lemma SixMore(n: int, i: int)
    requires i >= 5 && i % 6 == 5 && NoDivisorBelow(n, i)
    requires !Divides(2, n) && !Divides(3, n) && !Divides(i, n) && !Divides(i + 2, n)
    ensures NoDivisorBelow(n, i + 6)
  {
    SixApart(i);
    MultipleDividesLess(2, i + 1, n);
    MultipleDividesLess(2, i + 3, n);
    MultipleDividesLess(3, i + 4, n);
    MultipleDividesLess(2, i + 5, n);
    forall d | 2 <= d < i + 6 ensures !Divides(d, n) {
      assert d < i || d == i || d == i + 1 || d == i + 2 || d == i + 3 || d == i + 4 || d == i + 5;
    }
  }

  lemma SquareAtLeast(i: int)
    requires i >= 1
    ensures i <= i * i
  {
    Scale(i, i);
  }

  lemma Composite(num: int, i: int)
    requires i >= 5 && i * i <= num && (Divides(i, num) || Divides(i + 2, num))
    ensures !Prime(num)
  {
    ProductOfLarge(i, i - 2, 3);
    assert i + 2 < i * i;
  }

  lemma SquaresGrow(a: int, b: int)
    requires 0 <= a <= b
    ensures a * a <= b * b
  {
    ProductOfLarge(b, b, a);
  }

  /** When the loop ends by its condition, the last square overflows exactly for
      the numbers from EDGE * EDGE on. */
  lemma LastSquare(num: int, i: int)
    requires i >= 5 && i % 6 == 5 && i * i > num && (i > 5 ==> (i - 6) * (i - 6) <= num) && num <= INT_MAX
    ensures i * i > INT_MAX <==> num >= EDGE * EDGE
  {
    if i <= EDGE {
      SquaresGrow(i, EDGE);
    } else {
      assert i >= EDGE + 6;
      SquaresGrow(EDGE + 6, i);
      SquaresGrow(EDGE, i - 6);
    }
  }

  /** `peak` is the largest product `i * i` that the loop evaluates: it exceeds a
      signed 32-bit int exactly for the primes from 46337 * 46337 on. */
  method IsPrime(num: int) returns (prime: bool, ghost peak: int)
    ensures prime <==> Prime(num)
    ensures num <= INT_MAX ==> (peak > INT_MAX <==> num >= EDGE * EDGE && Prime(num))
  {
    if num <= 1 {
      return false, 0;
    }
    if num <= 3 {
      return true, 0;
    }
    if Divides(2, num) || Divides(3, num) {
      return false, 0;
    }
    prime, peak := TrialDivision(num);
  }

  method TrialDivision(num: int) returns (prime: bool, ghost peak: int)
    requires num > 3 && !Divides(2, num) && !Divides(3, num)
    ensures prime <==> Prime(num)
    ensures num <= INT_MAX ==> (peak > INT_MAX <==> num >= EDGE * EDGE && Prime(num))
  {
    var i := 5;
    while i * i <= num
      invariant i >= 5 && i % 6 == 5 && NoDivisorBelow(num, i)
      invariant i > 5 ==> (i - 6) * (i - 6) <= num
      decreases num - i
    {
      if Divides(i, num) || Divides(i + 2, num) {
        Composite(num, i);
        return false, i * i;
      }
      SixMore(num, i);
      SquareAtLeast(i);
      i := i + 6;
    }
    NoSmallDivisor(num, i);
    if num <= INT_MAX { LastSquare(num, i); }
    return true, i * i;
  }

  // ---------- there is always a next prime ----------

  function Factorial(n: nat): nat {
    if n == 0 then 1 else n * Factorial(n - 1)
  }

  lemma {:induction false} FactorialDivisible(n: nat, d: nat)
    requires 1 <= d <= n
    ensures Factorial(n) >= 1 && Divides(d, Factorial(n))
  {
    FactorialPositive(n);
    if d == n {
      ModOfProduct(Factorial(n - 1), n);
    } else {
      FactorialDivisible(n - 1, d);
      var q := Factorial(n - 1) / d;
      assert Factorial(n) == d * (n * q) by {
        assert Factorial(n - 1) == d * q;
      }
      ModOfProduct(n * q, d);
    }
  }

  lemma {:induction false} FactorialPositive(n: nat)
    ensures Factorial(n) >= 1
  {
    if n > 0 {
      FactorialPositive(n - 1);
      assert n * Factorial(n - 1) >= 1;
    }
  }

  /** The least divisor above 1 is prime. */
  lemma LeastDivisor(n: int) returns (p: int)
    requires n > 1
    ensures Prime(p) && Divides(p, n) && p <= n
  {
    p := 2;
    while !Divides(p, n)
      invariant 2 <= p <= n && NoDivisorBelow(n, p)
      decreases n - p
    {
      assert Divides(n, n);
      p := p + 1;
    }
    forall d | 1 < d < p ensures !Divides(d, p) {
      if Divides(d, p) { DivisorOfDivisor(d, p, n); }
    }
  }

  lemma ConsecutiveCoprime(d: int, n: int)
    requires d > 1 && Divides(d, n)
    ensures !Divides(d, n + 1)
  {
    if Divides(d, n + 1) {
      var p := Quotient(d, n);
      var q := Quotient(d, n + 1);
      assert d * (q - p) == d * q - d * p;
      Scale(d, q - p);
    }
  }

  /** Euclid: beyond every number there is a prime. */
  lemma PrimeAbove(n: int) returns (p: int)
    ensures p > n && Prime(p)
  {
    var m: nat := if n < 2 then 2 else n;
    FactorialPositive(m);
    p := LeastDivisor(Factorial(m) + 1);
    if p <= m {
      FactorialDivisible(m, p);
      ConsecutiveCoprime(p, Factorial(m));
    }
  }

  ghost predicate NextPrime(n: int, p: int) {
    p > n && Prime(p) && forall k | n < k < p :: !Prime(k)
  }

  /** There is only one next prime. */
  lemma NextPrimeUnique(n: int, p: int, q: int)
    requires NextPrime(n, p) && NextPrime(n, q)
    ensures p == q
  {
    assert p < q ==> !Prime(p);
    assert q < p ==> !Prime(q);
  }

  function Max(a: int, b: int): int {
    if a >= b then a else b
  }

  /** The unbounded search ends, with the least prime above its argument.  `peak`
      is the largest value that `prime++` or `i * i` takes: it exceeds a signed
      32-bit int exactly when no prime lies between the argument and 46337 * 46337. */
  method GetNextPrime(prime: int) returns (p: int, ghost peak: int)
    ensures NextPrime(prime, p)
    ensures peak > INT_MAX <==> forall q | prime < q < EDGE * EDGE :: !Prime(q)
  {
    ghost var limit := PrimeAbove(prime);
    p := prime;
    peak := 0;
    while true
      invariant prime <= p < limit && forall k | prime < k <= p :: !Prime(k)
      invariant peak > INT_MAX ==> p > INT_MAX
      invariant p > INT_MAX && p > prime ==> peak > INT_MAX
      decreases limit - p
    {
      p := p + 1;
      var found, square := IsPrime(p);
      peak := Max(peak, Max(p, square));
      if found {
        assert peak > INT_MAX <==> p >= EDGE * EDGE;
        return;
      }
    }
  }
}

/** The counting helper of dexpy/eval.py: `count_n_choose_k`, the number of
    k-element subsets of an n-element set, written as a chain of factorial
    divisions. The D-optimality criterion `det_xtxi` in the same file is not
    part of this model. */
module Eval {
  import opened Common

  function Factorial(n: nat): (r: nat)
    ensures r >= 1
  {
    if n == 0 then 1 else n * Factorial(n - 1)
  }

  /** Pascal's rule: the reference count of k-subsets of an n-set, defined
      without any division. */
  function Binom(n: nat, k: nat): nat
  {
    if k == 0 then 1
    else if n == 0 then 0
    else Binom(n - 1, k - 1) + Binom(n - 1, k)
  }

  /** `count_n_choose_k(n, k)`: `factorial(n) / factorial(k) / factorial(n - k)`
      with Python's true division (modelled over exact reals). Any negative
      factorial argument raises, so the count exists exactly when 0 <= k <= n,
      and then the chained division is exact and equals Pascal's count. */
  function CountNChooseK(n: int, k: int): (r: Result<real>)
    ensures r.Ok? <==> 0 <= k <= n
    ensures r.Ok? ==> r.value == Binom(n, k) as real
  {
    if n < 0 || k < 0 || n - k < 0 then Err(NegativeFactorial)
    else
      FactorialDivision(n, k);
      Ok(Factorial(n) as real / Factorial(k) as real / Factorial(n - k) as real)
  }

  lemma FactorialDivision(n: nat, k: nat)
    requires k <= n
    ensures Factorial(n) as real / Factorial(k) as real / Factorial(n - k) as real == Binom(n, k) as real
  {
    BinomTimesFactorials(n, k);
    ExactQuotient(Factorial(n), Binom(n, k), Factorial(k), Factorial(n - k));
  }

  lemma ExactQuotient(whole: nat, b: nat, x: nat, y: nat)
    requires x > 0 && y > 0 && whole == b * x * y
    ensures whole as real / x as real / y as real == b as real
  {
    var br, xr, yr := b as real, x as real, y as real;
    assert whole as real == br * xr * yr;
    calc {
      whole as real / xr / yr;
      br * xr * yr / xr / yr;
      { assert br * xr * yr / xr == br * yr; }
      br * yr / yr;
      br;
    }
  }

  /** The factorial formula and Pascal's rule agree: C(n,k)·k!·(n−k)! = n!. */
  lemma {:induction false} BinomTimesFactorials(n: nat, k: nat)
    requires k <= n
    ensures Binom(n, k) * Factorial(k) * Factorial(n - k) == Factorial(n)
  {
    if k == 0 {
      assert Binom(n, 0) == 1 && Factorial(0) == 1;
    } else if k == n {
      BinomDiagonal(n);
      assert Factorial(0) == 1;
    } else {
      BinomTimesFactorials(n - 1, k - 1);
      BinomTimesFactorials(n - 1, k);
      var a, b := Binom(n - 1, k - 1), Binom(n - 1, k);
      var f := Factorial(n - 1);
      var fk1, fnk1 := Factorial(k - 1), Factorial(n - k - 1);
      assert Factorial(k) == k * fk1;
      assert Factorial(n - k) == (n - k) * fnk1;
      assert Factorial(n) == n * f;
      assert a * fk1 * ((n - k) * fnk1) == f;
      assert b * (k * fk1) * fnk1 == f;
      PascalStep(a, b, k, n - k, fk1, fnk1, f);
      assert Binom(n, k) == a + b;
    }
  }

  /** The arithmetic core of one Pascal step, kept free of the recursive
      definitions. */
  lemma PascalStep(a: nat, b: nat, k: nat, m: nat, fk1: nat, fm1: nat, f: nat)
    requires a * fk1 * (m * fm1) == f
    requires b * (k * fk1) * fm1 == f
    ensures (a + b) * (k * fk1) * (m * fm1) == (k + m) * f
  {
    assert a * (k * fk1) * (m * fm1) == k * (a * fk1 * (m * fm1));
    assert b * (k * fk1) * (m * fm1) == m * (b * (k * fk1) * fm1);
  }

  /** There are no subsets larger than the set. */
  lemma {:induction false} BinomAboveIsZero(n: nat, k: nat)
    requires k > n
    ensures Binom(n, k) == 0
  {
    if n > 0 {
      BinomAboveIsZero(n - 1, k - 1);
      BinomAboveIsZero(n - 1, k);
    }
  }

  /** C(n,0) = C(n,n) = 1, and the count is symmetric: C(n,k) = C(n,n−k). */
  lemma CountEdgesAndSymmetry(n: nat, k: nat)
    requires k <= n
    ensures CountNChooseK(n, 0) == Ok(1.0)
    ensures CountNChooseK(n, n) == Ok(1.0)
    ensures CountNChooseK(n, k) == CountNChooseK(n, n - k)
  {
    BinomDiagonal(n);
    BinomSymmetric(n, k);
  }

  lemma {:induction false} BinomDiagonal(n: nat)
    ensures Binom(n, n) == 1
  {
    if n > 0 {
      BinomDiagonal(n - 1);
      BinomAboveIsZero(n - 1, n);
    }
  }

  lemma BinomSymmetric(n: nat, k: nat)
    requires k <= n
    ensures Binom(n, k) == Binom(n, n - k)
  {
    BinomTimesFactorials(n, k);
    BinomTimesFactorials(n, n - k);
    assert n - (n - k) == k;
    SameProduct(Binom(n, k), Binom(n, n - k), Factorial(k), Factorial(n - k), Factorial(n));
  }

  lemma SameProduct(a: nat, b: nat, x: nat, y: nat, whole: nat)
    requires x > 0 && y > 0
    requires a * x * y == whole && b * y * x == whole
    ensures a == b
  {
    Reorder(b, y, x);
    assert a * (x * y) == b * (x * y);
    MultiplicationCancels(a, b, x * y);
  }

  lemma Reorder(a: nat, x: nat, y: nat)
    ensures a * x * y == a * (y * x)
  {
  }

  lemma MultiplicationCancels(a: nat, b: nat, f: nat)
    requires f > 0 && a * f == b * f
    ensures a == b
  {
  }

  /** C(n,0) + C(n,1) + ... + C(n,m). */
  function SumBinom(n: nat, m: nat): nat
  {
    if m == 0 then 1 else SumBinom(n, m - 1) + Binom(n, m)
  }

  /** Pascal's rule lifted to partial row sums. */
  lemma {:induction false} SumBinomStep(n: nat, m: nat)
    requires n > 0 && m > 0
    ensures SumBinom(n, m) == SumBinom(n - 1, m) + SumBinom(n - 1, m - 1)
  {
    assert Binom(n, m) == Binom(n - 1, m - 1) + Binom(n - 1, m);
    if m > 1 {
      SumBinomStep(n, m - 1);
      assert SumBinom(n - 1, m - 1) == SumBinom(n - 1, m - 2) + Binom(n - 1, m - 1);
    } else {
      assert Binom(n - 1, 0) == 1 && Binom(n, 0) == 1;
    }
  }

  /** Row n of Pascal's triangle sums to 2^n. */
  lemma {:induction false} SumBinomRow(n: nat)
    ensures SumBinom(n, n) == Pow2(n)
  {
    if n > 0 {
      SumBinomStep(n, n);
      SumBinomRow(n - 1);
      BinomAboveIsZero(n - 1, n);
    }
  }
}

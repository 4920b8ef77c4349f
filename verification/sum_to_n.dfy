/**
 * Three ways to sum the integers 1..n, each returning 0 when n <= 0:
 * an iterative loop, a recursion and Gauss's closed form. Each entry point
 * first validates its JavaScript number and throws for NaN, the infinities
 * and non-integers; the three sums themselves work on integers.
 */
module SumToN {
  import opened Wrappers

  /** The largest integer a JavaScript number holds exactly (2^53 - 1). */
  const MaxSafeInteger: int := 9_007_199_254_740_991

  /** The largest n whose sum 1 + 2 + ... + n is still at most MaxSafeInteger. */
  const LargestSafeN: int := 134_217_727

  /** For every integer n, n * (n + 1) is even. */
  lemma {:induction false} ConsecutiveProductIsEven(n: int)
    ensures (n * (n + 1)) % 2 == 0
  {
    var q := if n % 2 == 0 then (n / 2) * (n + 1) else n * ((n + 1) / 2);
    assert n * (n + 1) == 2 * q by {
      if n % 2 == 0 {
        assert n == 2 * (n / 2);
      } else {
        assert n + 1 == 2 * ((n + 1) / 2);
      }
    }
  }

  /** `sum_to_n_c`: the closed form n(n+1)/2, or 0 when n <= 0. */
  function SumFormula(n: int): (r: int)
    ensures r >= 0
    ensures n > 0 ==> 2 * r == n * (n + 1)
  {
    if n <= 0 then 0
    else
      ConsecutiveProductIsEven(n);
      n * (n + 1) / 2
  }

  /** `_sum_recursive`: 0 below 1, 1 at 1, and n plus the sum up to n - 1 above. */
  function SumRecursive(n: int): (r: int)
    ensures r >= 0
    ensures n > 0 ==> r >= n
    decreases n
  {
    if n <= 0 then 0
    else if n == 1 then 1
    else n + SumRecursive(n - 1)
  }

  /** Adding the next integer to the closed form gives the closed form of the next n. */
  lemma FormulaStep(n: int)
    requires n >= 1
    ensures SumFormula(n) == SumFormula(n - 1) + n
  {
    assert 2 * SumFormula(n) == n * (n + 1);
    if n > 1 {
      assert 2 * SumFormula(n - 1) == (n - 1) * n;
    }
    assert n * (n + 1) == (n - 1) * n + 2 * n;
  }

  /** `sum_to_n_a`: a loop that adds 1, 2, ..., n to an accumulator. */
  method SumIterative(n: int) returns (sum: int)
    ensures sum == SumFormula(n)
  {
    if n <= 0 {
      return 0;
    }
    sum := 0;
    var i := 1;
    while i <= n
      invariant 1 <= i <= n + 1
      invariant sum == SumFormula(i - 1)
    {
      FormulaStep(i);
      sum := sum + i;
      i := i + 1;
    }
  }

  /** The recursion and the closed form agree on every integer. */
  lemma {:induction false} RecursionMatchesFormula(n: int)
    ensures SumRecursive(n) == SumFormula(n)
    decreases n
  {
    if n > 1 {
      RecursionMatchesFormula(n - 1);
      FormulaStep(n);
    }
  }

  /** Every implementation returns 0 for a non-positive n. */
  lemma NonPositiveSumsToZero(n: int)
    requires n <= 0
    ensures SumRecursive(n) == 0 && SumFormula(n) == 0
  {
  }

  /** The values 1 -> 1, 5 -> 15, 10 -> 55 and 100 -> 5050. */
  lemma KnownValues()
    ensures SumFormula(1) == 1 && SumRecursive(1) == 1
    ensures SumFormula(5) == 15 && SumRecursive(5) == 15
    ensures SumFormula(10) == 55 && SumRecursive(10) == 55
    ensures SumFormula(100) == 5050 && SumRecursive(100) == 5050
  {
    RecursionMatchesFormula(5);
    RecursionMatchesFormula(10);
    RecursionMatchesFormula(100);
  }

  /** The closed form never decreases as n grows. */
  lemma FormulaIsMonotonic(n: int, m: int)
    requires n <= m
    ensures SumFormula(n) <= SumFormula(m)
  {
    if n > 0 {
      assert m * (m + 1) - n * (n + 1) == (m - n) * (m + n + 1);
      assert (m - n) * (m + n + 1) >= 0;
    }
  }

  /**
   * The assumption that the result never exceeds MaxSafeInteger holds
   * exactly when n <= LargestSafeN; within that range the integer model
   * and JavaScript's double arithmetic agree.
   */
  lemma SafeRange(n: int)
    ensures SumFormula(n) <= MaxSafeInteger <==> n <= LargestSafeN
  {
    assert SumFormula(LargestSafeN) == 9_007_199_187_632_128;
    assert SumFormula(LargestSafeN + 1) == 9_007_199_321_849_856;
    if n <= LargestSafeN {
      FormulaIsMonotonic(n, LargestSafeN);
    } else {
      FormulaIsMonotonic(LargestSafeN + 1, n);
    }
  }

  /** A JavaScript number: NaN, one of the infinities, or a finite value. */
  datatype JsNumber = NaN | Infinity | NegativeInfinity | Finite(x: real)

  const NotFiniteMessage: string := "Input must be a finite number"
  const NotIntegerMessage: string := "Input must be an integer"

  /**
   * `validateInput`: a non-finite number is refused first, then a
   * non-integer; an accepted number is returned as the integer it is.
   */
  function ValidateInput(n: JsNumber): (r: Result<int, string>)
    ensures r.Success? <==> n.Finite? && n.x.Floor as real == n.x
    ensures r.Success? ==> r.value as real == n.x
    ensures !n.Finite? ==> r == Failure(NotFiniteMessage)
    ensures n.Finite? && n.x.Floor as real != n.x ==> r == Failure(NotIntegerMessage)
  {
    match n
    case Finite(x) => if x.Floor as real == x then Success(x.Floor) else Failure(NotIntegerMessage)
    case _ => Failure(NotFiniteMessage)
  }

  /** `sum_to_n_a`: validate, then run the loop; the loop's result is the closed form. */
  method SumToNA(n: JsNumber) returns (r: Result<int, string>)
    ensures ValidateInput(n).Failure? ==> r == Failure(ValidateInput(n).error)
    ensures ValidateInput(n).Success? ==> r == Success(SumFormula(ValidateInput(n).value))
  {
    var v := ValidateInput(n);
    if v.Failure? {
      return Failure(v.error);
    }
    var sum := SumIterative(v.value);
    r := Success(sum);
  }

  /** `sum_to_n_b`: validate, then recurse. */
  function SumToNB(n: JsNumber): Result<int, string> {
    match ValidateInput(n)
    case Failure(e) => Failure(e)
    case Success(k) => Success(SumRecursive(k))
  }

  /** `sum_to_n_c`: validate, then apply the closed form. */
  function SumToNC(n: JsNumber): Result<int, string> {
    match ValidateInput(n)
    case Failure(e) => Failure(e)
    case Success(k) => Success(SumFormula(k))
  }

  /**
   * The three entry points agree on every input, errors included (the loop's
   * agreement is `SumToNA`'s own postcondition), and they fail exactly on the
   * inputs `validateInput` refuses.
   */
  lemma EntryPointsAgree(n: JsNumber)
    ensures SumToNB(n) == SumToNC(n)
    ensures SumToNC(n).Failure? <==> !n.Finite? || n.x.Floor as real != n.x
    ensures SumToNC(n).Success? ==> SumToNC(n).value >= 0
  {
    if ValidateInput(n).Success? {
      RecursionMatchesFormula(ValidateInput(n).value);
    }
  }

  /** NaN and the infinities are refused as not finite; 1.5 and -0.1 as not integers; 5.0 is accepted. */
  lemma ValidationExamples()
    ensures SumToNC(NaN) == Failure(NotFiniteMessage)
    ensures SumToNC(Infinity) == Failure(NotFiniteMessage) && SumToNC(NegativeInfinity) == Failure(NotFiniteMessage)
    ensures SumToNC(Finite(1.5)) == Failure(NotIntegerMessage) && SumToNC(Finite(-0.1)) == Failure(NotIntegerMessage)
    ensures SumToNB(Finite(5.0)) == Success(15) && SumToNC(Finite(5.0)) == Success(15)
  {
    assert (1.5).Floor == 1;
    assert (-0.1).Floor == -1;
    assert (5.0).Floor == 5;
    RecursionMatchesFormula(5);
  }
}

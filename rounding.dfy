/**
 * Rounding to a number of decimal places, as Python's built-in `round`
 * does it on an exact value: to the nearest multiple of `10^-digits`,
 * with ties going to the even multiple.
 */
module Rounding {
  import opened Milp

  /** `10^d`. */
  function Pow10(d: nat): (p: real)
    ensures p >= 1.0
  {
    if d == 0 then 1.0 else 10.0 * Pow10(d - 1)
  }

  /** The integer nearest to `s`; a tie goes to the even neighbour. */
  function NearestEven(s: real): (n: int)
    ensures s - 0.5 <= n as real <= s + 0.5
    ensures IsInteger(s) ==> n as real == s
    ensures s >= 0.0 ==> n >= 0
    ensures s - s.Floor as real == 0.5 ==> n % 2 == 0
  {
    var f := s.Floor;
    var frac := s - f as real;
    if frac < 0.5 then f
    else if frac > 0.5 then f + 1
    else if f % 2 == 0 then f
    else f + 1
  }

  /** `x` rounded to a whole number of `1/p` steps: the nearest one, ties to the even count. */
  function RoundToStep(x: real, p: real): real
    requires 1.0 <= p
  {
    NearestEven(x * p) as real / p
  }

  /** `x` rounded to `digits` decimal places, that is, to steps of `10^-digits`. */
  function Round(x: real, digits: nat): real {
    RoundToStep(x, Pow10(digits))
  }

  lemma StepUnfold(x: real, p: real)
    requires 1.0 <= p
    ensures RoundToStep(x, p) == NearestEven(x * p) as real / p
  {
  }

  /** The rounded value lies within half a step of `x`. */
  lemma StepClose(x: real, p: real)
    requires 1.0 <= p
    ensures -0.5 / p <= RoundToStep(x, p) - x <= 0.5 / p
  {
    var s := x * p;
    StepUnfold(x, p);
    NearestHalfStep(x, p, s, NearestEven(s));
  }

  /** A whole number of steps is left alone. */
  lemma StepWhole(n: int, p: real)
    requires 1.0 <= p
    ensures RoundToStep(n as real / p, p) == n as real / p
  {
    var x := n as real / p;
    assert x * p == n as real;
    assert (n as real).Floor == n;
    assert IsInteger(x * p);
    assert NearestEven(x * p) == n;
    StepUnfold(x, p);
  }

  /** Rounding a rounded value again changes nothing. */
  lemma StepIdempotent(x: real, p: real)
    requires 1.0 <= p
    ensures RoundToStep(RoundToStep(x, p), p) == RoundToStep(x, p)
  {
    StepUnfold(x, p);
    StepWhole(NearestEven(x * p), p);
  }

  /** A non-negative value rounds to a non-negative value. */
  lemma StepNonNegative(x: real, p: real)
    requires 1.0 <= p && 0.0 <= x
    ensures 0.0 <= RoundToStep(x, p)
  {
    assert 0.0 <= x * p;
    StepUnfold(x, p);
  }

  /** Zero rounds to zero. */
  lemma StepZero(p: real)
    requires 1.0 <= p
    ensures RoundToStep(0.0, p) == 0.0
  {
    assert IsInteger(0.0 * p);
    StepUnfold(0.0, p);
  }

  /** The rounded value lies within half a step of `x`. */
  lemma RoundClose(x: real, digits: nat)
    ensures -0.5 / Pow10(digits) <= Round(x, digits) - x <= 0.5 / Pow10(digits)
  {
    StepClose(x, Pow10(digits));
  }

  /** A whole number of steps is left alone. */
  lemma RoundSteps(n: int, digits: nat)
    ensures Round(n as real / Pow10(digits), digits) == n as real / Pow10(digits)
  {
    StepWhole(n, Pow10(digits));
  }

  /** Rounding twice to the same number of places is rounding once. */
  lemma RoundIdempotent(x: real, digits: nat)
    ensures Round(Round(x, digits), digits) == Round(x, digits)
  {
    StepIdempotent(x, Pow10(digits));
  }

  /** Rounding a non-negative value never makes it negative. */
  lemma RoundNonNegative(x: real, digits: nat)
    requires 0.0 <= x
    ensures 0.0 <= Round(x, digits)
  {
    StepNonNegative(x, Pow10(digits));
  }

  /** Zero rounds to zero. */
  lemma RoundZero(digits: nat)
    ensures Round(0.0, digits) == 0.0
  {
    StepZero(Pow10(digits));
  }

  /** A whole number within half a unit of `x * p` is, divided by `p`, within half a `p`-th of `x`. */
  lemma NearestHalfStep(x: real, p: real, s: real, n: int)
    requires 0.0 < p && s == x * p && s - 0.5 <= n as real <= s + 0.5
    ensures -0.5 / p <= n as real / p - x <= 0.5 / p
  {
    var r := n as real / p;
    assert r * p == n as real;
    HalfStep(x, r, p);
  }

  /** A value within half a unit of `x` after scaling by `p` is within half a `p`-th of `x`. */
  lemma HalfStep(x: real, r: real, p: real)
    requires 0.0 < p && x * p - 0.5 <= r * p <= x * p + 0.5
    ensures -0.5 / p <= r - x <= 0.5 / p
  {
    assert (r - x) * p == r * p - x * p;
    ScaledBound(r - x, p);
  }

  /** A value whose `p`-fold lies within half a unit lies within half a `p`-th. */
  lemma ScaledBound(e: real, p: real)
    requires 0.0 < p && -0.5 <= e * p <= 0.5
    ensures -0.5 / p <= e <= 0.5 / p
  {
    DivideBothSides(-0.5, e * p, p);
    DivideBothSides(e * p, 0.5, p);
    assert e * p / p == e;
  }

  lemma DivideBothSides(a: real, b: real, p: real)
    requires a <= b && 0.0 < p
    ensures a / p <= b / p
  {
    assert b / p - a / p == (b - a) / p;
  }

  /**
   * A tie goes to the even neighbour: halfway between `n` and `n + 1` steps
   * of `10^-digits`, the result is `n` steps when `n` is even and `n + 1`
   * steps when it is odd.
   */
  lemma RoundHalfToEven(n: int, digits: nat)
    ensures Round((n as real + 0.5) / Pow10(digits), digits)
         == (if n % 2 == 0 then n else n + 1) as real / Pow10(digits)
  {
    var p := Pow10(digits);
    var x := (n as real + 0.5) / p;
    assert x * p == n as real + 0.5;
    NearestEvenTie(n);
    StepUnfold(x, p);
  }

  /** A value exactly halfway between `n` and `n + 1` goes to whichever of the two is even. */
  lemma NearestEvenTie(n: int)
    ensures NearestEven(n as real + 0.5) == if n % 2 == 0 then n else n + 1
  {
    assert (n as real + 0.5).Floor == n;
  }

  /** Three ties: 0.5 rounds to 0, 1.5 to 2, and 0.125 to two places gives 0.12. */
  lemma RoundHalfToEvenExamples()
    ensures Round(0.5, 0) == 0.0
    ensures Round(1.5, 0) == 2.0
    ensures Round(0.125, 2) == 0.12
  {
    assert Pow10(2) == 100.0;
    RoundHalfToEven(0, 0);
    RoundHalfToEven(1, 0);
    RoundHalfToEven(12, 2);
  }
}

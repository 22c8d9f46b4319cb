/** Rounding of exact reals to integers, as the integer carriers use it. */
module Rounding {
  import opened Sums

  /** Round half to even (numpy's rint and round). */
  function Rint(x: real): (n: int)
    ensures Abs(n as real - x) <= 0.5
  {
    var f := x.Floor;
    if x - f as real < 0.5 || (x - f as real == 0.5 && f % 2 == 0) then f else f + 1
  }

  lemma RintEven(x: real)
    ensures Abs(Rint(x) as real - x) == 0.5 ==> Rint(x) % 2 == 0
  {
  }

  function Clip(n: int, lo: int, hi: int): int {
    if n < lo then lo else if n > hi then hi else n
  }

  /** Nothing between two integers rounds outside them. */
  lemma RintWithin(x: real, lo: int, hi: int)
    requires lo as real <= x <= hi as real
    ensures lo <= Rint(x) <= hi
  {
  }

  /** n steps of size s; named so that the proofs treat the product as one quantity. */
  function Steps(n: real, s: real): real {
    n * s
  }

  lemma StepsLess(a: real, b: real, s: real)
    requires a < b && s > 0.0
    ensures Steps(a, s) < Steps(b, s)
  {
    assert (b - a) * s > 0.0;
  }

  lemma StepsAtMost(a: real, b: real, s: real)
    requires a <= b && s >= 0.0
    ensures Steps(a, s) <= Steps(b, s)
  {
    assert (b - a) * s >= 0.0;
  }

  lemma StepsDiff(a: real, b: real, s: real)
    ensures Steps(a - b, s) == Steps(a, s) - Steps(b, s)
  {
  }

  lemma StepsOfQuotient(x: real, s: real)
    requires s > 0.0
    ensures Steps(x / s, s) == x
  {
  }

  lemma StepsCommute(a: real, s: real)
    ensures Steps(a, s) == Steps(s, a)
  {
  }

  lemma StepsUnits(s: real)
    ensures Steps(0.0, s) == 0.0 && Steps(1.0, s) == s && Steps(0.5, s) == 0.5 * s
            && Steps(0.0 - 0.5, s) == 0.0 - 0.5 * s
    ensures Steps(0.000000001, s) == 0.000000001 * s
  {
  }

  lemma QuotientAtMost(x: real, s: real, n: real)
    requires s > 0.0 && x <= Steps(n, s)
    ensures x / s <= n
  {
    hide Steps;
    StepsOfQuotient(x, s);
    if n < x / s { StepsLess(n, x / s, s); }
  }

  lemma QuotientAtLeast(x: real, s: real, n: real)
    requires s > 0.0 && Steps(n, s) <= x
    ensures n <= x / s
  {
    hide Steps;
    StepsOfQuotient(x, s);
    if x / s < n { StepsLess(x / s, n, s); }
  }

  /** The scale covers a bound that took part in it. */
  lemma ScaleCovers(b: real, n: real, s: real)
    requires n > 0.0 && s >= b / n
    ensures b <= Steps(n, s)
  {
    hide Steps;
    StepsOfQuotient(b, n);
    StepsAtMost(b / n, s, n);
    StepsCommute(n, s);
  }

  /** Rounding a ratio moves the value by at most half a step. */
  lemma StepError(q: real, x: real, s: real)
    requires s > 0.0 && Abs(q - x / s) <= 0.5
    ensures Abs(Steps(q, s) - x) <= 0.5 * s
  {
    hide Steps;
    StepsOfQuotient(x, s);
    StepsDiff(q, x / s, s);
    StepsUnits(s);
    StepsAtMost(q - x / s, 0.5, s);
    StepsAtMost(0.0 - 0.5, q - x / s, s);
  }
}

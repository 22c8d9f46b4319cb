/** Rounding an integer to 11 significant bits, as the drain's intermediate does. */
module SigBits {
  import opened Arithmetic

  lemma {:induction false} Pow2Monotone(a: nat, b: nat)
    requires a <= b
    ensures Pow2(a) <= Pow2(b)
  {
    if a < b { Pow2Monotone(a, b - 1); }
  }

  lemma {:induction false} Pow2Adds(a: nat, b: nat)
    ensures Pow2(a + b) == Pow2(a) * Pow2(b)
  {
    if a > 0 { Pow2Adds(a - 1, b); }
  }

  /** The bit length is the only k with 2^(k-1) <= n < 2^k. */
  lemma BitLenUnique(n: nat, k: nat)
    requires k > 0 && Pow2(k - 1) <= n < Pow2(k)
    ensures BitLen(n) == k
  {
    BitLenBounds(n);
    var l := BitLen(n);
    if l < k { Pow2Monotone(l, k - 1); }
    if l > k { Pow2Monotone(k, l - 1); }
  }

  function Shift(n: nat): nat {
    if BitLen(n) > 11 then BitLen(n) - 11 else 0
  }

  /** The multiple of p at or below n + half: ((n + half) >> s) << s for p = 2^s. */
  function MultipleBelow(n: nat, half: nat, p: nat): nat
    requires p > 0
  {
    (n + half) / p * p
  }

  /** n rounded half up to a multiple of 2^s. */
  function RoundTo(n: nat, s: nat): nat {
    MultipleBelow(n, if s > 0 then Pow2(s - 1) else 0, Pow2(s))
  }

  function RoundMagnitude(n: nat): nat {
    RoundTo(n, Shift(n))
  }

  /** sign(net) * rounded magnitude. */
  function RoundSigBits(net: int): int {
    if net < 0 then 0 - RoundMagnitude(-net) else RoundMagnitude(net)
  }

  lemma MultipleBelowFacts(n: nat, half: nat, p: nat)
    requires p > 0
    ensures MultipleBelow(n, half, p) % p == 0
    ensures n + half - p < MultipleBelow(n, half, p) <= n + half
  {
    var q, r := (n + half) / p, (n + half) % p;
    assert q * p == n + half - r;
    Digits(q, p, 0);
    assert q * p + 0 == q * p;
  }

  /** The rounded value is a multiple of the step, within half a step. */
  lemma RoundToNear(n: nat, s: nat)
    ensures RoundTo(n, s) % Pow2(s) == 0
    ensures 2 * Magnitude(RoundTo(n, s) - n) <= Pow2(s)
    ensures s == 0 ==> RoundTo(n, s) == n
  {
    hide MultipleBelow;
    MultipleBelowFacts(n, if s > 0 then Pow2(s - 1) else 0, Pow2(s));
  }

  lemma RoundToMonotone(n: nat, m: nat, s: nat)
    requires n <= m
    ensures RoundTo(n, s) <= RoundTo(m, s)
  {
    hide Pow2;
    MultipleBelowMonotone(n, m, if s > 0 then Pow2(s - 1) else 0, Pow2(s));
  }

  lemma MultipleBelowMonotone(n: nat, m: nat, half: nat, p: nat)
    requires p > 0 && n <= m
    ensures MultipleBelow(n, half, p) <= MultipleBelow(m, half, p)
  {
    DivMonotone(p, n + half, m + half);
    var a, b := (n + half) / p, (m + half) / p;
    assert (b - a) * p >= 0;
  }

  lemma MultipleBelowFixed(n: nat, half: nat, p: nat)
    requires half < p && n % p == 0
    ensures MultipleBelow(n, half, p) == n
  {
    var q := n / p;
    assert n == q * p;
    DivModUnique(n + half, p, q, half);
  }

  lemma RoundToMultiple(n: nat, s: nat)
    requires n % Pow2(s) == 0
    ensures RoundTo(n, s) == n
  {
    hide MultipleBelow;
    MultipleBelowFixed(n, if s > 0 then Pow2(s - 1) else 0, Pow2(s));
  }

  /** A power of two at least the step is a multiple of it. */
  lemma Pow2Multiple(a: nat, s: nat)
    requires s <= a
    ensures Pow2(a) % Pow2(s) == 0
  {
    Pow2Adds(a - s, s);
    Digits(Pow2(a - s), Pow2(s), 0);
  }

  /** Rounding stays inside the binade, its upper end included. */
  lemma RoundStaysInBinade(n: nat)
    requires n > 0
    ensures Pow2(BitLen(n) - 1) <= RoundMagnitude(n) <= Pow2(BitLen(n))
  {
    BitLenBounds(n);
    var l, s := BitLen(n), Shift(n);
    Pow2Multiple(l, s);
    Pow2Multiple(l - 1, s);
    RoundToMultiple(Pow2(l), s);
    RoundToMultiple(Pow2(l - 1), s);
    RoundToMonotone(n, Pow2(l), s);
    RoundToMonotone(Pow2(l - 1), n, s);
  }

  /** Monotone within and across binades. */
  lemma MagnitudeMonotone(n: nat, m: nat)
    requires n <= m
    ensures RoundMagnitude(n) <= RoundMagnitude(m)
  {
    BitLenBounds(n);
    BitLenBounds(m);
    if BitLen(n) == BitLen(m) {
      RoundToMonotone(n, m, Shift(n));
    } else if n > 0 {
      if BitLen(m) < BitLen(n) { Pow2Monotone(BitLen(m), BitLen(n) - 1); }
      RoundStaysInBinade(n);
      RoundStaysInBinade(m);
      Pow2Monotone(BitLen(n), BitLen(m) - 1);
    } else {
      RoundToNear(0, 0);
    }
  }

  lemma MagnitudeIdempotent(n: nat)
    ensures RoundMagnitude(RoundMagnitude(n)) == RoundMagnitude(n)
  {
    if n == 0 {
      RoundToNear(0, 0);
    } else {
      RoundStaysInBinade(n);
      BitLenBounds(n);
      var r, l, s := RoundMagnitude(n), BitLen(n), Shift(n);
      RoundToNear(n, s);
      if r < Pow2(l) {
        BitLenUnique(r, l);
        RoundToMultiple(r, s);
      } else {
        BitLenUnique(r, l + 1);
        Pow2Multiple(l, Shift(r));
        RoundToMultiple(r, Shift(r));
      }
    }
  }

  /** Up to 2^11 nothing is lost. */
  lemma MagnitudeExact(n: nat)
    requires n <= 2048
    ensures RoundMagnitude(n) == n
  {
    assert Pow2(11) == 2048 by { Pow2Eleven(); }
    if n == 2048 {
      BitLenUnique(n, 12);
      Pow2Multiple(11, 1);
      RoundToMultiple(n, 1);
    } else {
      BitLenBounds(n);
      if BitLen(n) > 11 { Pow2Monotone(11, BitLen(n) - 1); }
      RoundToNear(n, 0);
    }
  }

  lemma Pow2Eleven()
    ensures Pow2(11) == 2048 && Pow2(12) == 4096
  {
    assert Pow2(4) == 16;
    Pow2Adds(4, 4);
    Pow2Adds(8, 3);
  }

  /** Within 2^-11 of the value, relatively. */
  lemma MagnitudeError(n: nat)
    ensures 2048 * Magnitude(RoundMagnitude(n) - n) <= n
  {
    var s := Shift(n);
    RoundToNear(n, s);
    if s > 0 {
      BitLenBounds(n);
      Pow2Adds(s, 10);
      Pow2Eleven();
      assert Pow2(10) == 1024;
      assert BitLen(n) - 1 == s + 10;
    }
  }

  /** Odd, monotone, idempotent, exact up to 2^11, and within relative error 2^-11. */
  lemma RoundSigBitsProperties(x: int, y: int)
    ensures RoundSigBits(-x) == -RoundSigBits(x)
    ensures x <= y ==> RoundSigBits(x) <= RoundSigBits(y)
    ensures RoundSigBits(RoundSigBits(x)) == RoundSigBits(x)
    ensures Magnitude(x) <= 2048 ==> RoundSigBits(x) == x
    ensures 2048 * Magnitude(RoundSigBits(x) - x) <= Magnitude(x)
  {
    hide RoundMagnitude;
    MagnitudeExact(0);
    if x <= y {
      if 0 <= x { MagnitudeMonotone(x, y); } else if y < 0 { MagnitudeMonotone(-y, -x); }
    }
    MagnitudeIdempotent(Magnitude(x));
    MagnitudeError(Magnitude(x));
    if Magnitude(x) <= 2048 { MagnitudeExact(Magnitude(x)); }
  }

  /** The unit of the 11th significant bit of x. */
  function Unit(x: int): (p: nat)
    ensures p > 0
  {
    Pow2(if BitLen(Magnitude(x)) > 11 then BitLen(Magnitude(x)) - 11 else 0)
  }

  /** Exactly the nearest multiple of that unit, halves away from zero. */
  lemma RoundSigBitsNearest(x: int)
    ensures var r, p := Magnitude(RoundSigBits(x)), Unit(x);
            r % p == 0 && 2 * r - p <= 2 * Magnitude(x) < 2 * r + p
  {
    var n := Magnitude(x);
    var s := Shift(n);
    hide MultipleBelow, BitLen;
    MultipleBelowFacts(n, if s > 0 then Pow2(s - 1) else 0, Pow2(s));
    assert Magnitude(RoundSigBits(x)) == RoundTo(n, s);
    assert s > 0 ==> Pow2(s) == 2 * Pow2(s - 1);
    assert s == 0 ==> Pow2(s) == 1;
  }
}

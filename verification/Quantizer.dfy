/** Affine activation quantisation, in exact reals. */
module Quantizer {
  import opened Sums
  import opened Rounding

  function MaxReal(a: real, b: real): real {
    if a < b then b else a
  }

  function MinReal(a: real, b: real): real {
    if a < b then a else b
  }

  const EPS := 0.000000000001

  /** Scale of a fixed-zero-point affine code covering [lo, hi]. */
  function AffineScale(lo: real, hi: real, qmin: int, qmax: int, zp: int): (s: real)
    ensures s >= EPS
  {
    var s0 := EPS;
    var s1 := if lo < 0.0 && zp > qmin then MaxReal(s0, -lo / (zp - qmin) as real) else s0;
    if hi > 0.0 && qmax > zp then MaxReal(s1, hi / (qmax - zp) as real) else s1
  }

  /** y puts lo and hi within the codes on their side of the zero point, wherever there are any. */
  ghost predicate CoversRange(y: real, lo: real, hi: real, qmin: int, qmax: int, zp: int) {
    && y >= 0.000000000001
    && (lo < 0.0 && zp > qmin ==> -lo <= Steps((zp - qmin) as real, y))
    && (hi > 0.0 && qmax > zp ==> hi <= Steps((qmax - zp) as real, y))
  }

  /** The scale is the smallest that does. */
  lemma AffineScaleLeast(lo: real, hi: real, qmin: int, qmax: int, zp: int, y: real)
    ensures CoversRange(AffineScale(lo, hi, qmin, qmax, zp), lo, hi, qmin, qmax, zp)
    ensures CoversRange(y, lo, hi, qmin, qmax, zp) ==> AffineScale(lo, hi, qmin, qmax, zp) <= y
  {
    hide Steps;
    var s := AffineScale(lo, hi, qmin, qmax, zp);
    if lo < 0.0 && zp > qmin {
      ScaleCovers(-lo, (zp - qmin) as real, s);
      CoveredBy(-lo, (zp - qmin) as real, y);
    }
    if hi > 0.0 && qmax > zp {
      ScaleCovers(hi, (qmax - zp) as real, s);
      CoveredBy(hi, (qmax - zp) as real, y);
    }
  }

  lemma CoveredBy(x: real, n: real, y: real)
    requires n > 0.0
    ensures x <= Steps(n, y) ==> x / n <= y
  {
    if x <= Steps(n, y) {
      StepsCommute(n, y);
      QuotientAtMost(x, n, y);
    }
  }

  /** round(x / scale - offset), clipped. */
  function Quantize(x: real, scale: real, offset: int, qmin: int, qmax: int): int
    requires scale > 0.0
  {
    Clip(Rint(x / scale - offset as real), qmin, qmax)
  }

  function Dequantize(q: int, scale: real, offset: int): real {
    Steps(q as real + offset as real, scale)
  }

  /** x / scale stays within the code range around the zero point. */
  lemma RatioInRange(x: real, lo: real, hi: real, qmin: int, qmax: int, zp: int)
    requires qmin <= zp <= qmax && lo <= x <= hi
    requires (x < 0.0 ==> zp > qmin) && (x > 0.0 ==> qmax > zp)
    ensures (qmin - zp) as real <= x / AffineScale(lo, hi, qmin, qmax, zp) <= (qmax - zp) as real
  {
    hide Steps;
    var s := AffineScale(lo, hi, qmin, qmax, zp);
    var down, up := (zp - qmin) as real, (qmax - zp) as real;
    StepsUnits(s);
    StepsAtMost(0.0, down, s);
    StepsAtMost(0.0, up, s);
    StepsDiff(0.0, down, s);
    if x < 0.0 { ScaleCovers(-lo, down, s); }
    if x > 0.0 { ScaleCovers(hi, up, s); }
    QuotientAtLeast(x, s, 0.0 - down);
    QuotientAtMost(x, s, up);
  }

  /** Beyond the last code on either side a value takes that code. */
  lemma Saturates(x: real, s: real, qmin: int, qmax: int, zp: int)
    requires s > 0.0 && qmin <= qmax
    ensures qmin <= Quantize(x, s, -zp, qmin, qmax) <= qmax
    ensures x >= Steps((qmax - zp) as real, s) ==> Quantize(x, s, -zp, qmin, qmax) == qmax
    ensures x <= Steps((qmin - zp) as real, s) ==> Quantize(x, s, -zp, qmin, qmax) == qmin
  {
    hide Steps, Rint;
    var y := x / s - (-zp) as real;
    if x >= Steps((qmax - zp) as real, s) {
      QuotientAtLeast(x, s, (qmax - zp) as real);
      RintAtLeast(y, qmax);
    }
    if x <= Steps((qmin - zp) as real, s) {
      QuotientAtMost(x, s, (qmin - zp) as real);
      RintAtMost(y, qmin);
    }
  }

  /** Between the end codes it is the code nearest x / s + zp, the even one of two equally near. */
  lemma QuantizeNearest(x: real, s: real, qmin: int, qmax: int, zp: int)
    requires s > 0.0
    ensures var y := x / s + zp as real; var q := Quantize(x, s, -zp, qmin, qmax);
            qmin as real <= y <= qmax as real ==>
              Abs(q as real - y) <= 0.5 && (Abs(q as real - y) == 0.5 ==> q % 2 == 0)
  {
    hide Rint;
    var y := x / s + zp as real;
    assert y == x / s - (-zp) as real;
    RintEven(y);
    if qmin as real <= y <= qmax as real { RintWithin(y, qmin, qmax); }
  }

  lemma RintAtLeast(y: real, n: int)
    requires y >= n as real
    ensures Rint(y) >= n
  {
  }

  lemma RintAtMost(y: real, n: int)
    requires y <= n as real
    ensures Rint(y) <= n
  {
  }

  /** Nothing in the observed range clips when its sign is representable; the round trip is within half a step. */
  lemma AffineRoundTrip(x: real, lo: real, hi: real, qmin: int, qmax: int, zp: int)
    requires qmin <= zp <= qmax && lo <= x <= hi
    requires (x < 0.0 ==> zp > qmin) && (x > 0.0 ==> qmax > zp)
    ensures var s := AffineScale(lo, hi, qmin, qmax, zp);
            && qmin <= Rint(x / s - (-zp) as real) <= qmax
            && Abs(Dequantize(Quantize(x, s, -zp, qmin, qmax), s, -zp) - x) <= 0.5 * s
  {
    hide Rint, AffineScale, Steps;
    var s := AffineScale(lo, hi, qmin, qmax, zp);
    RatioInRange(x, lo, hi, qmin, qmax, zp);
    var y := x / s - (-zp) as real;
    RintWithin(y, qmin, qmax);
    StepError(Rint(y) as real + (-zp) as real, x, s);
  }

  /** A sign with no codes on its side collapses to the zero point, and dequantises to zero. */
  lemma UnrepresentableSign(x: real, s: real, qmin: int, qmax: int, zp: int)
    requires s > 0.0 && qmin <= zp <= qmax
    requires (x < 0.0 && zp == qmin) || (x > 0.0 && zp == qmax)
    ensures Quantize(x, s, -zp, qmin, qmax) == zp && Dequantize(zp, s, -zp) == 0.0
  {
    if x < 0.0 { QuotientAtMost(x, s, 0.0); } else { QuotientAtLeast(x, s, 0.0); }
    StepsUnits(s);
  }

  /**
   The round trip of a value of the observed range errs by at most half a step exactly when its
   sign has codes, or it is itself within half a step of zero.
   */
  lemma RoundTripIff(x: real, lo: real, hi: real, qmin: int, qmax: int, zp: int)
    requires qmin <= zp <= qmax && lo <= x <= hi
    ensures var s := AffineScale(lo, hi, qmin, qmax, zp);
            Abs(Dequantize(Quantize(x, s, -zp, qmin, qmax), s, -zp) - x) <= 0.5 * s
            <==> ((x < 0.0 ==> zp > qmin) && (x > 0.0 ==> qmax > zp)) || Abs(x) <= 0.5 * s
  {
    hide Quantize, Dequantize, AffineScale;
    var s := AffineScale(lo, hi, qmin, qmax, zp);
    if (x < 0.0 ==> zp > qmin) && (x > 0.0 ==> qmax > zp) {
      AffineRoundTrip(x, lo, hi, qmin, qmax, zp);
    } else {
      UnrepresentableSign(x, s, qmin, qmax, zp);
    }
  }

  /** Rounding a ratio about the zero point lands on it exactly within half a step, the tie decided by parity. */
  lemma RoundsToZero(x: real, s: real, zp: int)
    requires s > 0.0
    ensures Rint(x / s - (-zp) as real) == zp <==> Abs(x) < 0.5 * s || (Abs(x) == 0.5 * s && zp % 2 == 0)
    ensures x <= 0.0 ==> Rint(x / s - (-zp) as real) <= zp
    ensures x >= 0.0 ==> Rint(x / s - (-zp) as real) >= zp
  {
    hide Steps, Rint;
    StepsOfQuotient(x, s);
    StepsUnits(s);
    var r := x / s;
    if r < 0.5 { StepsLess(r, 0.5, s); } else if r > 0.5 { StepsLess(0.5, r, s); }
    if r < -0.5 { StepsLess(r, 0.0 - 0.5, s); } else if r > -0.5 { StepsLess(0.0 - 0.5, r, s); }
    if r < 0.0 { StepsLess(r, 0.0, s); } else if r > 0.0 { StepsLess(0.0, r, s); }
    RintAbout(r, r - (-zp) as real, zp);
  }

  lemma RintAbout(r: real, y: real, zp: int)
    requires y == r + zp as real
    ensures Rint(y) == zp <==> -0.5 < r < 0.5 || (Abs(r) == 0.5 && zp % 2 == 0)
    ensures (r <= 0.0 ==> Rint(y) <= zp) && (r >= 0.0 ==> Rint(y) >= zp)
  {
  }

  /** Exactly when a value of the observed range is not clipped. */
  lemma UnclippedIff(x: real, lo: real, hi: real, qmin: int, qmax: int, zp: int)
    requires qmin <= zp <= qmax && lo <= x <= hi
    ensures var s := AffineScale(lo, hi, qmin, qmax, zp);
            qmin <= Rint(x / s - (-zp) as real) <= qmax
            <==> ((x < 0.0 ==> zp > qmin) && (x > 0.0 ==> qmax > zp))
                 || Abs(x) < 0.5 * s || (Abs(x) == 0.5 * s && zp % 2 == 0)
  {
    hide Rint, AffineScale;
    var s := AffineScale(lo, hi, qmin, qmax, zp);
    RoundsToZero(x, s, zp);
    if (x < 0.0 ==> zp > qmin) && (x > 0.0 ==> qmax > zp) {
      AffineRoundTrip(x, lo, hi, qmin, qmax, zp);
    }
  }
}

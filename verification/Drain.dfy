/** The power-of-two drain of an int32 accumulator into int16 codes. */
module Drain {
  import opened Arithmetic
  import opened Sums
  import opened Rounding
  import opened SigBits

  /** 2^k as a real, for any integer k. */
  function Gain(k: int): (g: real)
    ensures g > 0.0
    decreases if k < 0 then -k else k
  {
    if k == 0 then 1.0 else if k > 0 then 2.0 * Gain(k - 1) else Gain(k + 1) / 2.0
  }

  lemma GainStep(k: int)
    ensures Gain(k + 1) == 2.0 * Gain(k)
  {
  }

  lemma {:induction false} GainAdds(k: int, n: nat)
    ensures Gain(k + n) == Gain(k) * Pow2(n) as real
  {
    hide Gain;
    if n == 0 {
      assert Pow2(0) == 1;
    } else {
      GainAdds(k, n - 1);
      GainStep(k + n - 1);
      Reassociate(Gain(k), Pow2(n - 1), Pow2(n));
    }
  }

  lemma Reassociate(g: real, p: nat, q: nat)
    requires q == 2 * p
    ensures 2.0 * (g * p as real) == g * q as real
  {
  }

  lemma {:induction false} GainOrder(j: int, k: int)
    requires j <= k
    ensures Gain(j) <= Gain(k)
    decreases k - j
  {
    if j < k {
      GainOrder(j, k - 1);
      GainStep(k - 1);
    }
  }

  /** The largest |x|, 0 for an empty tensor. */
  function NetMax(xs: seq<int>): (m: nat)
    ensures forall x :: x in xs ==> Magnitude(x) <= m
    ensures m == 0 || exists x :: x in xs && Magnitude(x) == m
  {
    if xs == [] then 0
    else
      assert forall x :: x in xs <==> x in xs[..|xs| - 1] || x == xs[|xs| - 1];
      Max(NetMax(xs[..|xs| - 1]), Magnitude(xs[|xs| - 1]))
  }

  /** v 2^k. */
  function Times(v: int, k: int): real {
    v as real * Gain(k)
  }

  lemma TimesOrder(v: int, w: int, k: int)
    requires v <= w
    ensures Times(v, k) <= Times(w, k) && (v < w ==> Times(v, k) < Times(w, k))
  {
    ScaleLess(Gain(k), v as real, w as real);
  }

  lemma ScaleLess(g: real, x: real, y: real)
    requires g > 0.0 && x <= y
    ensures x * g <= y * g
    ensures x < y ==> x * g < y * g
  {
  }

  lemma TimesLinear(v: int, k: int)
    ensures Times(-v, k) == -Times(v, k) && Times(2 * v, k) == 2.0 * Times(v, k)
  {
    assert (-v) as real == -(v as real) && (2 * v) as real == 2.0 * v as real;
    ScaleProducts(v as real, Gain(k));
  }

  lemma ScaleProducts(x: real, g: real)
    ensures (-x) * g == -(x * g) && 2.0 * x * g == 2.0 * (x * g)
  {
  }

  /** 2^n scaled by 2^k is 2^(k+n). */
  lemma TimesPower(n: nat, k: int)
    ensures Times(Pow2(n), k) == Gain(k + n)
  {
    GainAdds(k, n);
  }

  /** Scaling c 2^j down by 2^j gives c back, scaling m up by 2^k multiplies. */
  lemma TimesExact(c: nat, j: nat)
    ensures Times(Pow2(j) * c, 0 - j) == c as real
    ensures Times(c, j) == (Pow2(j) * c) as real
  {
    GainAdds(0 - j, j);
    GainAdds(0, j);
    GainZero();
    ProductCast(Pow2(j), c);
    hide Gain, Pow2;
    CancelProduct(Pow2(j) as real, c as real, Gain(0 - j));
    CommuteProduct(c as real, Gain(j));
  }

  lemma ProductCast(p: nat, c: nat)
    ensures (p * c) as real == p as real * c as real
  {
  }

  lemma CommuteProduct(x: real, y: real)
    ensures x * y == y * x
  {
  }

  lemma CancelProduct(p: real, c: real, g: real)
    requires g * p == 1.0
    ensures p * c * g == c
  {
    assert p * c * g == c * (g * p);
  }

  lemma GainZero()
    ensures Gain(0) == 1.0
  {
  }

  /** k is floor(log2(32767 / m)): m 2^k is at most 32767 and more than half of it. */
  ghost predicate FillsRange(m: nat, k: int) {
    16383.5 < Times(m, k) <= 32767.0
  }

  /** floor(log2(32767 / m)), by doubling the value or the limit. */
  function KShift(m: nat): (k: int)
    requires m > 0
  {
    if m <= 32767 then DoublingsOfValue(m) else 0 - DoublingsOfLimit(m, 32767)
  }

  function DoublingsOfValue(m: nat): nat
    requires 0 < m <= 32767
    decreases 32767 - m
  {
    if 2 * m <= 32767 then 1 + DoublingsOfValue(2 * m) else 0
  }

  function DoublingsOfLimit(m: nat, limit: nat): nat
    requires limit > 0
    decreases m - limit
  {
    if m <= limit then 0 else 1 + DoublingsOfLimit(m, 2 * limit)
  }

  lemma {:induction false} ValueDoublings(m: nat)
    requires 0 < m <= 32767
    ensures Pow2(DoublingsOfValue(m)) * m <= 32767 < 2 * (Pow2(DoublingsOfValue(m)) * m)
    decreases 32767 - m
  {
    if 2 * m <= 32767 {
      ValueDoublings(2 * m);
      var p := Pow2(DoublingsOfValue(2 * m));
      assert p * (2 * m) == 2 * p * m;
    }
  }

  lemma {:induction false} LimitDoublings(m: nat, limit: nat)
    requires 0 < limit < m
    ensures DoublingsOfLimit(m, limit) > 0
    ensures m <= Pow2(DoublingsOfLimit(m, limit)) * limit < 2 * m
    decreases m - limit
  {
    var d := DoublingsOfLimit(m, 2 * limit);
    if m > 2 * limit {
      LimitDoublings(m, 2 * limit);
      assert Pow2(d) * (2 * limit) == 2 * Pow2(d) * limit;
    } else {
      assert d == 0 && DoublingsOfLimit(m, limit) == 1 && Pow2(1) == 2;
    }
  }

  /** The shift is the exact integer logarithm. */
  lemma KShiftFills(m: nat)
    requires m > 0
    ensures FillsRange(m, KShift(m))
  {
    hide Times;
    if m <= 32767 {
      ValueDoublings(m);
      TimesExact(m, DoublingsOfValue(m));
    } else {
      var j: int := DoublingsOfLimit(m, 32767);
      LimitDoublings(m, 32767);
      var top := Pow2(j) * 32767;
      TimesExact(32767, j);
      TimesOrder(m, top, 0 - j);
      TimesOrder(top, 2 * m, 0 - j);
      TimesLinear(m, 0 - j);
    }
  }

  /** v times the gain. */
  function Amplified(v: int, gain: real): real {
    v as real * gain
  }

  /** c is x rounded to the nearest integer, halves up. */
  ghost predicate RoundsUp(c: int, x: real) {
    c as real - 0.5 <= x < c as real + 0.5
  }

  /** floor(v * 2^k + 0.5). */
  function Scaled(v: int, k: int): (c: int)
    ensures RoundsUp(c, Times(v, k))
  {
    (Times(v, k) + 0.5).Floor
  }

  datatype Drained = Drained(codes: seq<int>, kshift: int, gain: real)

  function Narrow(v: int, f16: bool): int {
    if f16 then RoundSigBits(v) else v
  }

  /** Codes, shift and gain of one tensor; f16 narrows to 11 significant bits first. */
  function HwDrain(net: seq<int>, f16: bool): (d: Drained)
    ensures |d.codes| == |net|
  {
    var m := NetMax(net);
    if m == 0 then Drained(seq(|net|, i => 0), 0, 1.0)
    else
      var k := KShift(m);
      Drained(seq(|net|, i requires 0 <= i < |net| => Clip(Scaled(Narrow(net[i], f16), k), -32768, 32767)), k, Gain(k))
  }

  /** |v| <= b keeps the scaled value within b's. */
  lemma TimesWithin(v: int, b: int, k: int)
    requires Magnitude(v) <= b
    ensures -Times(b, k) <= Times(v, k) <= Times(b, k)
  {
    hide Times;
    TimesOrder(v, b, k);
    TimesOrder(-b, v, k);
    TimesLinear(b, k);
  }

  /** A value within the tensor's maximum stays inside the code range. */
  lemma ScaledFits(v: int, m: nat, k: int)
    requires FillsRange(m, k) && Magnitude(v) <= m
    ensures -32767 <= Scaled(v, k) <= 32767
  {
    hide Times;
    TimesWithin(v, m, k);
  }

  /** The value of largest magnitude gets a code of at least 16384. */
  lemma ScaledFills(v: int, m: nat, k: int)
    requires FillsRange(m, k) && Magnitude(v) == m
    ensures Magnitude(Scaled(v, k)) >= 16384
  {
    hide Times;
    TimesLinear(m, k);
  }

  /** Undoing the shift is off by at most half a code. */
  lemma ScaledNear(v: int, k: int)
    ensures Abs(Scaled(v, k) as real / Gain(k) - v as real) <= 0.5 / Gain(k)
  {
    hide Gain;
    Unscale(Scaled(v, k) as real, v as real, Gain(k));
  }

  lemma Unscale(c: real, v: real, g: real)
    requires g > 0.0 && Abs(c - v * g) <= 0.5
    ensures Abs(c / g - v) <= 0.5 / g
  {
    var e := c - v * g;
    QuotientBound(e, 0.5, g);
    assert c / g - v == e / g by { Cancel(c, v, g); }
  }

  lemma Cancel(c: real, v: real, g: real)
    requires g > 0.0
    ensures c / g - v == (c - v * g) / g
  {
    var x := c / g;
    assert x * g == c;
    assert (x - v) * g == c - v * g;
  }

  lemma QuotientBound(e: real, b: real, g: real)
    requires g > 0.0 && Abs(e) <= b
    ensures Abs(e / g) <= b / g
  {
  }

  lemma DrainedCode(net: seq<int>, f16: bool, i: nat)
    requires i < |net| && NetMax(net) > 0
    ensures HwDrain(net, f16).codes[i] == Clip(Scaled(Narrow(net[i], f16), KShift(NetMax(net))), -32768, 32767)
    ensures HwDrain(net, f16).gain == Gain(KShift(NetMax(net)))
  {
  }

  lemma AllZero(net: seq<int>, f16: bool, i: nat)
    requires i < |net| && NetMax(net) == 0
    ensures net[i] == 0 && HwDrain(net, f16).codes[i] == 0 && HwDrain(net, f16).gain == 1.0
  {
    assert net[i] in net;
  }

  /** The exact drain: nothing saturates and each code is within half a step of its value. */
  lemma ExactDrain(net: seq<int>, i: nat)
    requires i < |net|
    ensures var d := HwDrain(net, false);
            && -32767 <= d.codes[i] <= 32767 && d.gain > 0.0
            && RoundsUp(d.codes[i], Amplified(net[i], d.gain))
            && Abs(d.codes[i] as real / d.gain - net[i] as real) <= 0.5 / d.gain
  {
    hide Gain, Scaled, KShift, HwDrain, Times, Amplified, RoundsUp;
    if NetMax(net) == 0 {
      AllZero(net, false, i);
      NothingNarrowed();
    } else {
      ScaledRounds(net[i], KShift(NetMax(net)));
      var k := KShift(NetMax(net));
      assert net[i] in net;
      DrainedCode(net, false, i);
      KShiftFills(NetMax(net));
      ScaledFits(net[i], NetMax(net), k);
      ScaledNear(net[i], k);
    }
  }

  lemma NarrowMagnitude(x: int)
    ensures Magnitude(RoundSigBits(x)) == RoundMagnitude(Magnitude(x))
  {
  }

  /** The top of m's binade lands on 2^15 at most. */
  lemma BinadeFits(m: nat, k: int)
    requires m > 0 && FillsRange(m, k)
    ensures Times(Pow2(BitLen(m)), k) <= 32768.0
  {
    hide Times, Gain, Pow2, BitLen;
    var l := BitLen(m);
    BitLenBounds(m);
    TimesOrder(Pow2(l - 1), m, k);
    TimesPower(l - 1, k);
    TimesPower(l, k);
    GainFifteen();
    if k + l - 1 >= 15 { GainOrder(15, k + l - 1); }
    GainOrder(k + l, 15);
  }

  lemma GainFifteen()
    ensures Gain(15) == 32768.0
  {
    GainZero();
    GainAdds(0, 15);
    Pow2Eleven();
    Pow2Adds(11, 4);
    assert Pow2(4) == 16;
  }

  /**
   When v, in a tensor of largest magnitude m, is one code too large after narrowing: it is
   positive, within half a unit of the 11th bit below m's next power of two, and the shift has
   put that power of two on 32768.
   */
  predicate Overshoots(v: int, m: nat) {
    var l := BitLen(m);
    v > 0 && l >= 12 && v >= Pow2(l) - Pow2(l - 12) && m * 32768 <= 32767 * Pow2(l)
  }

  /** The shift puts the next power of two on 32768 exactly when m leaves that much headroom. */
  lemma TopOnLimitIff(m: nat, k: int)
    requires m > 0 && FillsRange(m, k)
    ensures Gain(k + BitLen(m)) <= 32768.0
    ensures Gain(k + BitLen(m)) == 32768.0 <==> m * 32768 <= 32767 * Pow2(BitLen(m))
    ensures Gain(k + BitLen(m)) != 32768.0 ==> Gain(k + BitLen(m)) <= 16384.0
  {
    hide Gain, Pow2, BitLen;
    var l := BitLen(m);
    BinadeFits(m, k);
    TimesPower(l, k);
    GainFifteen();
    GainStep(14);
    if k + l >= 15 { GainOrder(15, k + l); } else { GainOrder(k + l, 14); }
    Headroom(m as real, Pow2(l) as real, Gain(k), Times(m, k), Gain(k + l));
    HeadroomCast(m, Pow2(l));
  }

  lemma HeadroomCast(m: nat, p: nat)
    ensures m * 32768 <= 32767 * p <==> m as real * 32768.0 <= 32767.0 * p as real
  {
    assert (m * 32768) as real == m as real * 32768.0 && (32767 * p) as real == 32767.0 * p as real;
  }

  lemma Headroom(m: real, p: real, g: real, t: real, x: real)
    requires g > 0.0 && t == m * g && x == p * g && 16383.5 < t <= 32767.0 && (x == 32768.0 || x <= 16384.0)
    ensures x == 32768.0 <==> m * 32768.0 <= 32767.0 * p
  {
    Regroup(m, 32768.0, g);
    Regroup(p, 32767.0, g);
    CompareScaled(m * 32768.0, 32767.0 * p, g, 32768.0 * t, 32767.0 * x);
  }

  lemma CompareScaled(x: real, y: real, g: real, a: real, b: real)
    requires g > 0.0 && a == x * g && b == y * g
    ensures x <= y <==> a <= b
  {
    if x <= y { ScaleLess(g, x, y); } else { ScaleLess(g, y, x); }
  }

  lemma Regroup(m: real, c: real, g: real)
    ensures m * c * g == c * (m * g) && c * m * g == c * (m * g)
  {
  }

  /** A magnitude rounds up to the power of two above it exactly from half a unit of the 11th bit below. */
  lemma RoundsToTopIff(n: nat, l: nat)
    requires 0 < n < Pow2(l) && l >= 12
    ensures RoundMagnitude(n) == Pow2(l) <==> n >= Pow2(l) - Pow2(l - 12)
    ensures RoundMagnitude(n) != Pow2(l) ==> RoundMagnitude(n) <= Pow2(l) - Pow2(l - 11)
  {
    BitLenBounds(n);
    var c := BitLen(n);
    if c > l { Pow2Monotone(l, c - 1); }
    if c < l {
      RoundStaysInBinade(n);
      Pow2Monotone(c, l - 1);
      Pow2Monotone(l - 11, l - 1);
      Pow2Monotone(l - 12, l - 1);
      assert Pow2(l) == 2 * Pow2(l - 1) && Pow2(l - 12) < Pow2(l - 11);
    } else {
      RoundsInTopBinade(n, l);
    }
  }

  lemma RoundsInTopBinade(n: nat, l: nat)
    requires l >= 12 && n > 0 && BitLen(n) == l
    ensures RoundMagnitude(n) == Pow2(l) <==> n >= Pow2(l) - Pow2(l - 12)
    ensures RoundMagnitude(n) != Pow2(l) ==> RoundMagnitude(n) <= Pow2(l) - Pow2(l - 11)
  {
    var s, half, p := l - 11, Pow2(l - 12), Pow2(l - 11);
    RoundStaysInBinade(n);
    RoundToNear(n, s);
    MultipleBelowFacts(n, half, p);
    Pow2Multiple(l, s);
    hide MultipleBelow, BitLen, Pow2;
    if RoundMagnitude(n) != Pow2(l) { MultiplesApart(RoundMagnitude(n), Pow2(l), p); }
    if n >= Pow2(l) - half { TopReached(n, half, p, Pow2(l)); }
  }

  lemma MultiplesApart(x: nat, y: nat, p: nat)
    requires p > 0 && x % p == 0 && y % p == 0 && x < y
    ensures x <= y - p
  {
    var a, b := x / p, y / p;
    assert x == a * p && y == b * p;
    if a < b { MulStep(a, b, p); } else { MulAtMost(b, a, p); }
  }

  lemma TopReached(n: nat, half: nat, p: nat, top: nat)
    requires p > 0 && top % p == 0 && n + half >= top
    ensures MultipleBelow(n, half, p) >= top
  {
    var q := top / p;
    assert top == q * p;
    DivMonotone(p, top, n + half);
    MulAtMost(q, (n + half) / p, p);
  }

  /** The narrowed value leaves the range exactly when it overshoots, and then by one code. */
  lemma NarrowedOvershootIff(v: int, m: nat)
    requires m > 0 && Magnitude(v) <= m
    ensures Scaled(RoundSigBits(v), KShift(m)) > 32767 <==> Overshoots(v, m)
    ensures -32768 <= Scaled(RoundSigBits(v), KShift(m)) <= 32768
  {
    hide Times, KShift, Gain, Pow2, BitLen, RoundMagnitude;
    var k, l := KShift(m), BitLen(m);
    KShiftFills(m);
    BitLenBounds(m);
    TopOnLimitIff(m, k);
    TimesPower(l, k);
    NarrowedWithin(v, m, k);
    if v > 0 && l >= 12 {
      RoundsToTopIff(v, l);
      BelowTop(RoundMagnitude(v), l, k);
    } else if v > 0 {
      SmallUnchanged(v, m);
      TimesWithin(v, m, k);
    } else {
      MagnitudeExact(0);
      TimesLinear(0, k);
      TimesOrder(RoundSigBits(v), 0, k);
    }
  }

  /** Anything narrowed below the top stays below the limit. */
  lemma BelowTop(r: nat, l: nat, k: int)
    requires l >= 12 && Gain(k + l) <= 32768.0 && r <= Pow2(l)
    requires r != Pow2(l) ==> r <= Pow2(l) - Pow2(l - 11)
    ensures Times(r, k) >= 32767.5 <==> r == Pow2(l) && Gain(k + l) >= 32767.5
  {
    hide Times, Gain, Pow2;
    TimesPower(l, k);
    if r != Pow2(l) {
      TimesOrder(r, Pow2(l) - Pow2(l - 11), k);
      TimesTopLess(l, k);
      GainScaled(k + l - 11, k + l);
    }
  }

  lemma GainScaled(a: int, b: int)
    requires b == a + 11
    ensures Gain(b) == 2048.0 * Gain(a)
  {
    hide Gain, Pow2;
    GainAdds(a, 11);
    Pow2Eleven();
  }

  lemma TimesTopLess(l: nat, k: int)
    requires l >= 11
    ensures Times(Pow2(l) - Pow2(l - 11), k) == Gain(k + l) - Gain(k + l - 11)
  {
    hide Gain, Pow2;
    TimesPower(l, k);
    TimesPower(l - 11, k);
    TimesMinus(Pow2(l), Pow2(l - 11), k);
  }

  lemma TimesMinus(v: int, w: int, k: int)
    ensures Times(v - w, k) == Times(v, k) - Times(w, k)
  {
    assert (v - w) as real == v as real - w as real;
  }

  lemma SmallUnchanged(v: int, m: nat)
    requires 0 < v <= m && BitLen(m) < 12
    ensures RoundSigBits(v) == v
  {
    BitLenBounds(m);
    Pow2Monotone(BitLen(m), 11);
    Pow2Eleven();
    MagnitudeExact(v);
  }

  lemma NarrowedWithin(v: int, m: nat, k: int)
    requires m > 0 && FillsRange(m, k) && Magnitude(v) <= m
    ensures -32768.0 <= Times(RoundSigBits(v), k) <= 32768.0
  {
    hide Times, RoundSigBits, RoundMagnitude, BitLen, Pow2;
    MagnitudeMonotone(Magnitude(v), m);
    RoundStaysInBinade(m);
    BinadeFits(m, k);
    NarrowMagnitude(v);
    TimesWithin(RoundSigBits(v), Pow2(BitLen(m)), k);
  }

  /** The code before clipping overshoots exactly where the entry does; clipping touches no other. */
  lemma NarrowedCodes(net: seq<int>, i: nat)
    requires i < |net| && NetMax(net) > 0
    ensures var c := Scaled(RoundSigBits(net[i]), KShift(NetMax(net)));
            && HwDrain(net, true).codes[i] == (if Overshoots(net[i], NetMax(net)) then 32767 else c)
            && (c == 32768 <==> Overshoots(net[i], NetMax(net)))
            && -32768 <= c <= 32768
  {
    hide Scaled, KShift, HwDrain, Overshoots, RoundSigBits;
    assert net[i] in net;
    DrainedCode(net, true, i);
    NarrowedOvershootIff(net[i], NetMax(net));
  }

  /**
   x is a narrowed entry times the gain: an entry that overshoots is at exactly 2^15 and gets 32767,
   any other is rounded to the nearest code, halves up.
   */
  ghost predicate NarrowedTo(v: int, m: nat, code: int, x: real) {
    if Overshoots(v, m) then code == 32767 && x == 32768.0 else -32768 <= code <= 32767 && RoundsUp(code, x)
  }

  /** The narrowed drain, entry by entry. */
  lemma NarrowedDrain(net: seq<int>, i: nat)
    requires i < |net|
    ensures var d := HwDrain(net, true);
            NarrowedTo(net[i], NetMax(net), d.codes[i], Amplified(RoundSigBits(net[i]), d.gain))
  {
    hide Gain, Times, Scaled, KShift, HwDrain, Overshoots, RoundSigBits, RoundsUp, Amplified;
    var m := NetMax(net);
    if m == 0 {
      AllZero(net, true, i);
      NothingNarrowed();
    } else {
      var v, k := RoundSigBits(net[i]), KShift(m);
      assert net[i] in net;
      DrainedCode(net, true, i);
      NarrowedCodes(net, i);
      ScaledRounds(v, k);
      if Overshoots(net[i], m) { OvershootTimes(net[i], m); }
      assert HwDrain(net, true).gain == Gain(k);
    }
  }

  lemma TopNotRounded()
    ensures !RoundsUp(32767, 32768.0)
  {
  }

  lemma ScaledRounds(v: int, k: int)
    ensures Times(v, k) == Amplified(v, Gain(k)) && RoundsUp(Scaled(v, k), Amplified(v, Gain(k)))
  {
    TimesIs(v, k);
  }

  lemma NothingNarrowed()
    ensures RoundSigBits(0) == 0 && !Overshoots(0, 0) && RoundsUp(0, Amplified(0, 1.0))
  {
    MagnitudeExact(0);
  }

  /** No code of a tensor is clipped exactly when none of its entries overshoots. */
  lemma NarrowedClipsNothingIff(net: seq<int>)
    ensures var d := HwDrain(net, true);
            (forall i :: 0 <= i < |net| ==> RoundsUp(d.codes[i], Amplified(RoundSigBits(net[i]), d.gain)))
            <==> forall i :: 0 <= i < |net| ==> !Overshoots(net[i], NetMax(net))
  {
    hide HwDrain, Overshoots, RoundSigBits, RoundsUp, Amplified;
    var d := HwDrain(net, true);
    forall i | 0 <= i < |net|
      ensures RoundsUp(d.codes[i], Amplified(RoundSigBits(net[i]), d.gain)) <==> !Overshoots(net[i], NetMax(net))
    {
      NarrowedDrain(net, i);
      TopNotRounded();
    }
  }

  /** The gain is 2^kshift, and the shift puts the largest magnitude in the upper half of the range. */
  lemma DrainGain(net: seq<int>, f16: bool)
    ensures var d := HwDrain(net, f16);
            && d.gain == Gain(d.kshift)
            && if NetMax(net) == 0 then d.kshift == 0 else FillsRange(NetMax(net), d.kshift)
  {
    hide Gain, KShift, Times;
    GainZero();
    if NetMax(net) > 0 { KShiftFills(NetMax(net)); }
  }

  /** No other shift does. */
  lemma ShiftUnique(m: nat, j: int, k: int)
    requires m > 0 && FillsRange(m, j) && FillsRange(m, k)
    ensures j == k
  {
    hide Gain;
    if j < k { ShiftDoubles(m, j, k); }
    if k < j { ShiftDoubles(m, k, j); }
  }

  lemma ShiftDoubles(m: nat, j: int, k: int)
    requires j < k
    ensures 2.0 * Times(m, j) <= Times(m, k)
  {
    GainStep(j);
    GainOrder(j + 1, k);
    hide Gain;
    ScaleProducts(m as real, Gain(j));
    Widened(m as real, 2.0 * Gain(j), Gain(k));
  }

  lemma Widened(x: real, g: real, h: real)
    requires x >= 0.0 && g <= h
    ensures x * g <= x * h
  {
    assert x * (h - g) >= 0.0;
  }

  /** Close to the next power of two the largest magnitude rounds up to it, and so is not lowered. */
  lemma NearTop(m: nat)
    requires m > 0 && m * 32768 > 32767 * Pow2(BitLen(m))
    ensures RoundMagnitude(m) >= m
  {
    hide Pow2, BitLen, RoundMagnitude;
    var l := BitLen(m);
    BitLenBounds(m);
    if l >= 12 {
      Pow2Adds(l - 12, 12);
      Pow2Eleven();
      RoundsToTopIff(m, l);
    } else {
      SmallUnchanged(m, m);
      NarrowMagnitude(m);
    }
  }

  /** The narrowed largest magnitude still fills the upper half of the range. */
  lemma NarrowedFills(m: nat, k: int)
    requires m > 0 && FillsRange(m, k)
    ensures Times(RoundMagnitude(m), k) > 16383.5
  {
    hide Times, Gain, Pow2, BitLen, RoundMagnitude;
    var l := BitLen(m);
    BitLenBounds(m);
    TopOnLimitIff(m, k);
    if Gain(k + l) == 32768.0 {
      RoundStaysInBinade(m);
      TimesOrder(Pow2(l - 1), RoundMagnitude(m), k);
      TimesPower(l - 1, k);
      GainStep(k + l - 1);
    } else {
      NearTop(m);
      TimesOrder(m, RoundMagnitude(m), k);
    }
  }

  /** A value past half the range keeps a code of at least 16384 through rounding and clipping. */
  lemma CodeFills(v: int, r: nat, k: int)
    requires Magnitude(v) == r && Times(r, k) > 16383.5
    ensures Magnitude(Clip(Scaled(v, k), -32768, 32767)) >= 16384
  {
    hide Times;
    TimesLinear(r, k);
  }

  /** In either mode a tensor that is not all zero fills the int16 range to at least half. */
  lemma DrainFills(net: seq<int>, f16: bool)
    requires exists x :: x in net && x != 0
    ensures exists i :: 0 <= i < |net| && Magnitude(HwDrain(net, f16).codes[i]) >= 16384
  {
    hide Gain, Times, Scaled, KShift, HwDrain, RoundSigBits, RoundMagnitude;
    var y :| y in net && y != 0;
    var m := NetMax(net);
    assert Magnitude(y) <= m;
    var x :| x in net && Magnitude(x) == m;
    var i :| 0 <= i < |net| && net[i] == x;
    DrainedCode(net, f16, i);
    KShiftFills(m);
    NarrowedFills(m, KShift(m));
    NarrowMagnitude(x);
    CodeFills(Narrow(x, f16), if f16 then RoundMagnitude(m) else m, KShift(m));
    assert Magnitude(HwDrain(net, f16).codes[i]) >= 16384;
  }

  /** The steps one narrowed code may be off by. */
  function Slack(v: int, m: nat): real {
    if Overshoots(v, m) then 1.0 else 0.5
  }

  /** Dividing the code by the gain gives v back but for `steps` codes and one part in 2048 of v. */
  ghost predicate Undoes(code: int, gain: real, v: int, steps: real) {
    gain > 0.0 && Abs(code as real / gain - v as real) <= steps / gain + Abs(v as real) / 2048.0
  }

  /**
   Undoing the narrowed drain: half a code from the scaling, one part in 2048 from the narrowing,
   and half a code more where the code was clipped.
   */
  lemma NarrowedNear(net: seq<int>, i: nat)
    requires i < |net|
    ensures var d := HwDrain(net, true); Undoes(d.codes[i], d.gain, net[i], Slack(net[i], NetMax(net)))
  {
    hide Gain, Scaled, KShift, HwDrain, RoundSigBits, Overshoots, Undoes, Slack;
    var m := NetMax(net);
    if m == 0 {
      AllZero(net, true, i);
      ZeroUndone(0.5);
      ZeroUndone(1.0);
      SlackIs(0, 0);
    } else {
      assert net[i] in net;
      DrainedCode(net, true, i);
      NarrowedCodes(net, i);
      EntryNear(net[i], m, HwDrain(net, true).codes[i]);
    }
  }

  lemma ZeroUndone(steps: real)
    requires steps >= 0.0
    ensures Undoes(0, 1.0, 0, steps)
  {
  }

  lemma SlackIs(v: int, m: nat)
    ensures Slack(v, m) == 0.5 || Slack(v, m) == 1.0
  {
  }

  lemma EntryNear(v: int, m: nat, code: int)
    requires m > 0 && Magnitude(v) <= m
    requires code == if Overshoots(v, m) then 32767 else Scaled(RoundSigBits(v), KShift(m))
    ensures Undoes(code, Gain(KShift(m)), v, Slack(v, m))
  {
    RoundSigBitsProperties(v, v);
    hide Gain, Times, Scaled, KShift, RoundSigBits, Overshoots, Magnitude;
    var g, r := Gain(KShift(m)), RoundSigBits(v);
    NarrowingMoves(r, v);
    if Overshoots(v, m) {
      OvershootTimes(v, m);
      TimesIs(r, KShift(m));
      ClippedNear(r as real, g);
    } else {
      ScaledNear(r, KShift(m));
    }
    Detour(code as real / g, r as real, v as real);
  }

  lemma TimesIs(v: int, k: int)
    ensures Times(v, k) == v as real * Gain(k)
  {
  }

  lemma NarrowingMoves(r: int, v: int)
    requires 2048 * Magnitude(r - v) <= Magnitude(v)
    ensures Abs(r as real - v as real) <= Abs(v as real) / 2048.0
  {
    assert Abs((r - v) as real) == Magnitude(r - v) as real;
    assert (2048 * Magnitude(r - v)) as real == 2048.0 * Magnitude(r - v) as real;
  }

  lemma Detour(c: real, r: real, v: real)
    ensures Abs(c - v) <= Abs(c - r) + Abs(r - v)
  {
  }

  lemma ClippedNear(r: real, g: real)
    requires g > 0.0 && r * g == 32768.0
    ensures Abs(32767.0 / g - r) <= 1.0 / g
  {
    Cancel(32767.0, r, g);
    assert (32767.0 - r * g) / g == -1.0 / g;
  }

  /** What overshoots was rounded to exactly 2^15. */
  lemma OvershootTimes(v: int, m: nat)
    requires m > 0 && Magnitude(v) <= m && Overshoots(v, m)
    ensures Times(RoundSigBits(v), KShift(m)) == 32768.0
  {
    hide Times, KShift, Gain, Pow2, BitLen, RoundMagnitude;
    KShiftFills(m);
    BitLenBounds(m);
    TopOnLimitIff(m, KShift(m));
    RoundsToTopIff(v, BitLen(m));
    TimesPower(BitLen(m), KShift(m));
  }

  /** It does happen: 32767 narrows to 32768, one code too many, and is clipped. */
  lemma NarrowingClips()
    ensures RoundSigBits(32767) == 32768 && HwDrain([32767], true).codes == [32767]
  {
    NarrowTop();
    var net := [32767];
    assert net[0] in net && NetMax(net) == 32767;
    assert KShift(32767) == 0;
    GainZero();
    assert Scaled(32768, 0) == 32768;
  }

  lemma NarrowTop()
    ensures RoundSigBits(32767) == 32768
  {
    Pow2Eleven();
    assert Pow2(3) == 8 && Pow2(4) == 16;
    Pow2Adds(11, 3);
    Pow2Adds(11, 4);
    BitLenUnique(32767, 15);
    assert RoundTo(32767, 4) == MultipleBelow(32767, 8, 16) == 32768;
  }
}

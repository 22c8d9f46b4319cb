/**
 How large the codes and the accumulators of the rounded int16 substitution can get. The block
 whose entries below the diagonal all equal the bound a is the worst: no block within a exceeds it.
 */
module Int16Range {
  import opened Arithmetic
  import opened Sums
  import opened Rounding
  import opened Matrices
  import opened MatrixBounds
  import opened Powers
  import opened Int16Solve

  /** Sum of a column's first k codes, from its diagonal down, when every entry below the diagonal is a. */
  function WorstSum(a: real, k: nat): int
    decreases k, 0
  {
    if k == 0 then 0 else WorstSum(a, k - 1) + WorstCode(a, k - 1)
  }

  /** The value k rows below the diagonal in that column, before rounding. */
  function WorstValue(a: real, k: nat): real
    decreases k, 1
  {
    (if k == 0 then 1.0 else 0.0) / ST + a * WorstSum(a, k) as real
  }

  function WorstCode(a: real, k: nat): int
    decreases k, 2
  {
    Clip(Rint(WorstValue(a, k)), -32767, 32767)
  }

  lemma {:induction false} WorstPositive(a: real, k: nat)
    requires a >= 0.0
    ensures WorstSum(a, k) >= 0 && WorstValue(a, k) >= 0.0 && WorstCode(a, k) >= 0
    ensures k > 0 ==> WorstSum(a, k - 1) <= WorstSum(a, k)
  {
    UnitInCodes();
    hide Rint;
    if k > 0 { WorstPositive(a, k - 1); }
    NonNegative(a, WorstSum(a, k) as real);
    PositiveCode(WorstValue(a, k));
  }

  lemma PositiveCode(v: real)
    requires v >= 0.0
    ensures Clip(Rint(v), -32767, 32767) >= 0
  {
  }

  lemma {:induction false} WorstSumGrows(a: real, j: nat, k: nat)
    requires a >= 0.0 && j <= k
    ensures WorstSum(a, j) <= WorstSum(a, k)
    decreases k
  {
    if j < k {
      WorstSumGrows(a, j, k - 1);
      WorstPositive(a, k);
    }
  }

  /** Below the diagonal the values only grow; the last row decides for all of them. */
  lemma WorstValueWithin(a: real, k: nat, last: nat)
    requires a >= 0.0 && k <= last
    ensures Rint(WorstValue(a, k)) <= 32767 || Rint(WorstValue(a, k)) <= Rint(WorstValue(a, last))
  {
    if k == 0 {
      UnitInCodes();
    } else {
      WorstSumGrows(a, k, last);
      BelowIs(a, k);
      BelowIs(a, last);
      hide WorstValue, WorstSum, Steps;
      StepsAtMost(WorstSum(a, k) as real, WorstSum(a, last) as real, a);
      RintMonotone(WorstValue(a, k), WorstValue(a, last));
    }
  }

  lemma BelowIs(a: real, k: nat)
    requires k > 0
    ensures WorstValue(a, k) == Steps(WorstSum(a, k) as real, a)
  {
    UnitInCodes();
  }

  lemma RintMonotone(x: real, y: real)
    requires x <= y
    ensures Rint(x) <= Rint(y)
  {
  }

  /** Rounding and clipping are odd and monotone, so a bound on the value bounds the code. */
  lemma CodeWithin(v: real, w: real)
    requires Abs(v) <= w
    ensures Magnitude(Rint(v)) <= Rint(w)
    ensures Magnitude(Clip(Rint(v), -32767, 32767)) <= Clip(Rint(w), -32767, 32767)
  {
    RintOdd(v);
    RintMonotone(v, w);
    RintMonotone(0.0 - v, w);
  }

  lemma RintOdd(v: real)
    ensures Rint(0.0 - v) == -Rint(v)
  {
    var f := v.Floor;
    if v == f as real {
      assert (0.0 - v).Floor == -f;
    } else {
      assert (0.0 - v).Floor == -f - 1;
    }
  }

  /** The accumulator's terms, as reals: dequantised A times the codes above. */
  function CodeTerm(d: Codes, T: Codes, sA: real, b: nat, i: int, c: int): int -> real {
    l => At(Dequantize(d, b, sA), i, l) * Code(T, l, c) as real
  }

  function AsReal(f: int -> int): int -> real {
    l => f(l) as real
  }

  lemma DequantizedEntry(d: Codes, b: nat, sA: real, i: nat, l: nat)
    requires i < b && l < b
    ensures At(Dequantize(d, b, sA), i, l) == Code(d, i, l) as real * sA
  {
  }

  lemma CodeTermIs(d: Codes, T: Codes, sA: real, b: nat, i: nat, c: int, l: nat)
    requires l < i < b
    ensures CodeTerm(d, T, sA, b, i, c)(l) == sA * AsReal(AccTerm(d, T, i, c))(l)
  {
    DequantizedEntry(d, b, sA, i, l);
    hide At, Dequantize, Code;
    Regrouped(Code(d, i, l), Code(T, l, c), sA);
  }

  lemma AccIsSum(d: Codes, T: Codes, sA: real, b: nat, i: nat, c: nat)
    requires i < b
    ensures Acc(d, T, i, c) as real * sA == Sum(i, CodeTerm(d, T, sA, b, i, c))
  {
    hide CodeTerm, AccTerm;
    var f := AccTerm(d, T, i, c);
    ISumIsSum(i, f, AsReal(f));
    hide AsReal;
    forall l | 0 <= l < i
      ensures CodeTerm(d, T, sA, b, i, c)(l) == sA * AsReal(f)(l)
    {
      CodeTermIs(d, T, sA, b, i, c, l);
    }
    SumScale(i, sA, AsReal(f), CodeTerm(d, T, sA, b, i, c));
  }

  lemma Regrouped(x: int, t: int, s: real)
    ensures x as real * s * t as real == s * (x * t) as real
  {
    assert (x * t) as real == x as real * t as real;
  }

  lemma CodeTermWithin(d: Codes, T: Codes, sA: real, b: nat, i: nat, c: int, l: nat, a: real, g: int -> real)
    requires Abs(At(Dequantize(d, b, sA), i, l)) <= a && Abs(Code(T, l, c) as real) <= g(l)
    ensures Abs(CodeTerm(d, T, sA, b, i, c)(l)) <= Scaled(a, g)(l)
  {
    hide At, Dequantize, Code;
    AbsProduct(At(Dequantize(d, b, sA), i, l), Code(T, l, c) as real, a, g(l));
  }

  lemma UnitInCodes()
    ensures 1.0 / ST == 16383.5 && 0.0 / ST == 0.0
  {
  }

  lemma RoundedClose(y: real, g: real)
    requires 0.0 <= y <= g - 0.5
    ensures Clip(Rint(y), -32767, 32767) as real <= g
  {
  }

  /** The worst code of row l of column c, 0 above the diagonal. */
  function WorstAt(a: real, c: int): int -> real {
    l => if l < c then 0.0 else WorstCode(a, l - c) as real
  }

  lemma {:induction false} WorstAtSum(a: real, c: nat, i: nat)
    requires c <= i
    ensures Sum(i, WorstAt(a, c)) == WorstSum(a, i - c) as real
  {
    hide WorstCode;
    if c < i { WorstAtSum(a, c, i - 1); } else { SumZero(i, WorstAt(a, c)); }
  }

  lemma ScaledWorstSum(x: real, a: real, c: nat, i: nat)
    requires c <= i
    ensures Sum(i, Scaled(x, WorstAt(a, c))) == x * WorstSum(a, i - c) as real
  {
    hide WorstAt, WorstSum;
    ScaledSum(i, x, WorstAt(a, c));
    WorstAtSum(a, c, i);
  }

  /** A code within the worst one is so as a real. */
  lemma WithinWorstAt(a: real, c: nat, l: nat, code: int)
    requires if l < c then code == 0 else Magnitude(code) <= WorstCode(a, l - c)
    ensures Abs(code as real) <= WorstAt(a, c)(l)
  {
    hide WorstCode;
  }

  lemma OwnCode(d: Codes, T: Codes, sA: real, b: nat, i: nat, c: nat)
    requires i < b && c < b && RoundedRows(d, T, sA, b, i + 1)
    ensures Code(T, i, c) == Clip(Rint(RowValue(d, T, sA, i, c)), -32767, 32767)
  {
    hide Rint, RowValue, Code;
  }

  /** Row i's value and code are within those of the worst block, clipped or not. */
  lemma {:induction false} Dominated(d: Codes, T: Codes, sA: real, a: real, b: nat, i: nat, c: nat)
    requires c <= i < b && RoundedRows(d, T, sA, b, i + 1)
    requires forall r, l :: Abs(At(Dequantize(d, b, sA), r, l)) <= a
    ensures Abs(RowValue(d, T, sA, i, c)) <= WorstValue(a, i - c)
    ensures Magnitude(Code(T, i, c)) <= WorstCode(a, i - c)
  {
    hide At, Dequantize, Sum, Code, Acc, CodeTerm, Scaled, RoundedRows, WorstAt, WorstSum, Rint;
    forall l | 0 <= l < i
      ensures Abs(CodeTerm(d, T, sA, b, i, c)(l)) <= Scaled(a, WorstAt(a, c))(l)
    {
      FewerRows(d, T, sA, b, l + 1, i + 1);
      if l < c { ZeroAboveDiagonal(d, T, sA, b, l, c); } else { Dominated(d, T, sA, a, b, l, c); }
      WithinWorstAt(a, c, l, Code(T, l, c));
      CodeTermWithin(d, T, sA, b, i, c, l, a, WorstAt(a, c));
    }
    SumBounded(i, CodeTerm(d, T, sA, b, i, c), Scaled(a, WorstAt(a, c)));
    ScaledWorstSum(a, a, c, i);
    AccIsSum(d, T, sA, b, i, c);
    UnitInCodes();
    CodeWithin(RowValue(d, T, sA, i, c), WorstValue(a, i - c));
    OwnCode(d, T, sA, b, i, c);
  }

  /** Every code of a block fits 16 bits. */
  ghost predicate FullCodes(d: Codes) {
    forall r, l :: Magnitude(Code(d, r, l)) <= 32767
  }

  /** And its accumulator is within 32767 times the worst codes above it. */
  lemma AccDominated(d: Codes, T: Codes, sA: real, a: real, b: nat, i: nat, c: nat)
    requires i < b && c < b && RoundedRows(d, T, sA, b, b) && FullCodes(d)
    requires forall r, l :: Abs(At(Dequantize(d, b, sA), r, l)) <= a
    ensures i < c ==> Acc(d, T, i, c) == 0
    ensures c <= i ==> Magnitude(Acc(d, T, i, c)) <= 32767 * WorstSum(a, i - c)
  {
    hide At, Dequantize, Sum, ISum, Code, Scaled, RoundedRows, WorstAt, WorstSum, WorstCode, AccTerm, FullCodes;
    var f := AccTerm(d, T, i, c);
    forall l | 0 <= l < i
      ensures i < c ==> f(l) == 0
      ensures Abs(AsReal(f)(l)) <= Scaled(32767.0, WorstAt(a, c))(l)
    {
      FewerRows(d, T, sA, b, l + 1, b);
      if l < c { ZeroAboveDiagonal(d, T, sA, b, l, c); } else { Dominated(d, T, sA, a, b, l, c); }
      WithinWorstAt(a, c, l, Code(T, l, c));
      AccTermWithin(d, T, i, c, l, WorstAt(a, c));
    }
    if i < c {
      ISumZero(i, f);
    } else {
      ISumIsSum(i, f, AsReal(f));
      SumBounded(i, AsReal(f), Scaled(32767.0, WorstAt(a, c)));
      ScaledWorstSum(32767.0, a, c, i);
      MagnitudeFromReal(Acc(d, T, i, c), WorstSum(a, i - c));
    }
  }

  lemma MagnitudeFromReal(x: int, w: int)
    requires Abs(x as real) <= 32767.0 * w as real
    ensures Magnitude(x) <= 32767 * w
  {
    assert 32767.0 * w as real == (32767 * w) as real;
  }

  lemma AccTermWithin(d: Codes, T: Codes, i: int, c: int, l: nat, g: int -> real)
    requires FullCodes(d) && Abs(Code(T, l, c) as real) <= g(l)
    ensures Code(T, l, c) == 0 ==> AccTerm(d, T, i, c)(l) == 0
    ensures Abs(AsReal(AccTerm(d, T, i, c))(l)) <= Scaled(32767.0, g)(l)
  {
    hide Code;
    var x, t := Code(d, i, l), Code(T, l, c);
    assert Magnitude(x) <= 32767;
    assert (x * t) as real == x as real * t as real;
    AbsProduct(x as real, t as real, 32767.0, g(l));
  }

  /** The column of the worst block: its codes, values and accumulators are exactly these. */
  lemma WorstAttained(d: Codes, T: Codes, sA: real, a: real, i: nat, c: nat)
    requires c <= i && sA * 32767.0 == a
    requires forall l :: 0 <= l < i ==> Code(d, i, l) == 32767
    requires forall l :: 0 <= l < i ==> Code(T, l, c) == if l < c then 0 else WorstCode(a, l - c)
    ensures Acc(d, T, i, c) == 32767 * WorstSum(a, i - c)
    ensures RowValue(d, T, sA, i, c) == WorstValue(a, i - c)
  {
    hide Code, WorstSum, WorstCode;
    var f := AccTerm(d, T, i, c);
    forall l | 0 <= l < i
      ensures AsReal(f)(l) == Scaled(32767.0, WorstAt(a, c))(l)
    {
    }
    hide AccTerm, AsReal, Scaled, WorstAt;
    ISumIsSum(i, f, AsReal(f));
    SumExt(i, AsReal(f), Scaled(32767.0, WorstAt(a, c)));
    ScaledWorstSum(32767.0, a, c, i);
    ExactProduct(Acc(d, T, i, c), WorstSum(a, i - c), sA, a);
  }

  lemma ExactProduct(x: int, w: int, sA: real, a: real)
    requires x as real == 32767.0 * w as real && sA * 32767.0 == a
    ensures x == 32767 * w && x as real * sA == a * w as real
  {
    assert x as real == (32767 * w) as real;
    assert x as real * sA == sA * 32767.0 * w as real;
  }

  /** A closed bound on the worst code k rows below the diagonal. */
  function Ceiling(a: real, k: nat): real {
    if k == 0 then 16384.0 else 16383.5 * a * RealPow(1.0 + a, k - 1) + 0.5 * RealPow(1.0 + a, k)
  }

  lemma CeilingStep(a: real, k: nat)
    requires k > 0
    ensures Ceiling(a, k + 1) == (1.0 + a) * Ceiling(a, k)
    ensures Ceiling(a, 1) == 16384.0 * a + 0.5
  {
    assert RealPow(1.0 + a, 0) == 1.0 && RealPow(1.0 + a, 1) == (1.0 + a) * RealPow(1.0 + a, 0);
    var p, x := RealPow(1.0 + a, k - 1), 1.0 + a;
    assert RealPow(x, k) == x * p && RealPow(x, k + 1) == x * RealPow(x, k);
    hide RealPow;
    Factored(16383.5 * a, x, p, RealPow(x, k));
  }

  lemma Factored(u: real, x: real, p: real, q: real)
    ensures u * (x * p) + 0.5 * (x * q) == x * (u * p + 0.5 * q)
  {
  }

  lemma {:induction false} WorstWithin(a: real, k: nat)
    requires a >= 0.0
    ensures WorstValue(a, k) <= Ceiling(a, k) - 0.5 && WorstCode(a, k) as real <= Ceiling(a, k)
  {
    WorstPositive(a, k);
    TopRows(a);
    hide WorstSum, WorstValue, WorstCode, Ceiling, RealPow, Rint;
    if k > 1 {
      WorstWithin(a, k - 1);
      NextWithin(a, k - 1);
    }
    WorstRounded(a, k, Ceiling(a, k));
  }

  lemma NextWithin(a: real, k: nat)
    requires a >= 0.0 && k > 0
    requires WorstValue(a, k) <= Ceiling(a, k) - 0.5 && WorstCode(a, k) as real <= Ceiling(a, k)
    ensures WorstValue(a, k + 1) <= Ceiling(a, k + 1) - 0.5
  {
    CeilingStep(a, k);
    WorstNext(a, k);
    hide WorstValue, WorstCode, Ceiling;
    NextBound(a, WorstValue(a, k), WorstCode(a, k) as real, Ceiling(a, k));
  }

  lemma NextBound(a: real, v: real, x: real, g: real)
    requires a >= 0.0 && v <= g - 0.5 && x <= g
    ensures v + a * x <= (1.0 + a) * g - 0.5
  {
    NonNegative(a, g - x);
  }

  lemma WorstRounded(a: real, k: nat, g: real)
    requires 0.0 <= WorstValue(a, k) <= g - 0.5
    ensures WorstCode(a, k) as real <= g
  {
    hide WorstValue, Rint;
    RoundedClose(WorstValue(a, k), g);
  }

  lemma TopRows(a: real)
    requires a >= 0.0
    ensures WorstValue(a, 0) <= Ceiling(a, 0) - 0.5 && WorstValue(a, 1) <= Ceiling(a, 1) - 0.5
  {
    UnitInCodes();
    FirstRow(a);
    CeilingStep(a, 1);
  }

  lemma FirstRow(a: real)
    requires a >= 0.0
    ensures WorstValue(a, 1) == 16384.0 * a
  {
    UnitInCodes();
    assert WorstSum(a, 0) == 0;
    assert WorstSum(a, 1) == WorstCode(a, 0);
  }

  lemma WorstNext(a: real, k: nat)
    requires k > 0
    ensures WorstValue(a, k + 1) == WorstValue(a, k) + a * WorstCode(a, k) as real
  {
    hide WorstCode;
    UnitInCodes();
    assert WorstSum(a, k + 1) == WorstSum(a, k) + WorstCode(a, k);
  }

  lemma OneAndMore(x: real, a: real)
    ensures Steps(x, 1.0 + a) == x + Steps(x, a)
  {
  }

  lemma SumNext(a: real, k: nat)
    requires a >= 0.0 && k > 0
    ensures WorstSum(a, k + 1) as real <= Steps(WorstSum(a, k) as real, 1.0 + a) + 0.5
  {
    assert WorstSum(a, k + 1) == WorstSum(a, k) + WorstCode(a, k);
    WorstPositive(a, k);
    BelowIs(a, k);
    hide WorstSum, WorstValue;
    WorstRounded(a, k, WorstValue(a, k) + 0.5);
    OneAndMore(WorstSum(a, k) as real, a);
  }

  /** A closed bound on the worst sum. */
  function SumCeiling(a: real, k: nat): real {
    (16384.0 + 0.5 * k as real) * RealPow(1.0 + a, k)
  }

  lemma {:induction false} WorstSumWithin(a: real, k: nat)
    requires a >= 0.0
    ensures WorstSum(a, k) as real <= SumCeiling(a, k)
  {
    FirstSums(a);
    hide WorstSum, SumCeiling, Steps;
    if k > 1 {
      WorstSumWithin(a, k - 1);
      SumNext(a, k - 1);
      SumCeilingStep(a, k - 1);
      StepsAtMost(WorstSum(a, k - 1) as real, SumCeiling(a, k - 1), 1.0 + a);
    }
  }

  lemma FirstSums(a: real)
    requires a >= 0.0
    ensures WorstSum(a, 0) as real <= SumCeiling(a, 0) && WorstSum(a, 1) as real <= SumCeiling(a, 1)
  {
    FirstSum(a);
    assert RealPow(1.0 + a, 0) == 1.0 && RealPow(1.0 + a, 1) == (1.0 + a) * RealPow(1.0 + a, 0);
  }

  lemma FirstSum(a: real)
    requires a >= 0.0
    ensures WorstSum(a, 0) == 0 && WorstSum(a, 1) == 16384
  {
    UnitInCodes();
    assert WorstSum(a, 0) == 0;
    assert WorstSum(a, 1) == WorstCode(a, 0);
  }

  lemma SumCeilingStep(a: real, k: nat)
    requires a >= 0.0
    ensures Steps(SumCeiling(a, k), 1.0 + a) + 0.5 <= SumCeiling(a, k + 1)
  {
    PowMonotone(1.0 + a, 0, k);
    assert RealPow(1.0 + a, k + 1) == (1.0 + a) * RealPow(1.0 + a, k) && RealPow(1.0 + a, 0) == 1.0;
    assert (k + 1) as real == k as real + 1.0;
    hide RealPow;
    CeilingGrows(a, 16384.0 + 0.5 * k as real, RealPow(1.0 + a, k));
  }

  lemma CeilingGrows(a: real, q: real, p: real)
    requires a >= 0.0 && p >= 1.0
    ensures (1.0 + a) * (q * p) + 0.5 <= (q + 0.5) * ((1.0 + a) * p)
  {
    NonNegative(a, p);
    assert (q + 0.5) * ((1.0 + a) * p) == (1.0 + a) * (q * p) + 0.5 * (p + a * p);
  }

  /**
   Row i of column c before rounding, and its code after rounding and any clipping: zero above the
   diagonal, one half of the range on it, and below it within the closed bound.
   */
  lemma CodeGrowth(d: Codes, T: Codes, sA: real, a: real, b: nat, i: nat, c: nat)
    requires i < b && c < b && RoundedRows(d, T, sA, b, i + 1)
    requires forall r, l :: Abs(At(Dequantize(d, b, sA), r, l)) <= a
    ensures i < c ==> RowValue(d, T, sA, i, c) == 0.0 && Code(T, i, c) == 0
    ensures c <= i ==> Abs(RowValue(d, T, sA, i, c)) <= Ceiling(a, i - c) - 0.5
    ensures c <= i ==> Abs(Code(T, i, c) as real) <= Ceiling(a, i - c)
  {
    assert a >= 0.0 by { assert Abs(At(Dequantize(d, b, sA), 0, 0)) <= a; }
    hide At, Dequantize, Code, RowValue, RoundedRows, Ceiling, WorstValue, WorstCode;
    if i < c {
      ZeroAboveDiagonal(d, T, sA, b, i, c);
    } else {
      Dominated(d, T, sA, a, b, i, c);
      WorstWithin(a, i - c);
    }
  }

  /** The last row of the worst block is in range: told from the largest entry and the block size alone. */
  predicate CannotClip(a: real, b: nat)
    requires b > 0
  {
    Rint(WorstValue(a, b - 1)) <= 32767
  }

  /** No row clips while the worst block's last row does not. */
  lemma WorstDecides(d: Codes, T: Codes, sA: real, a: real, b: nat)
    requires b > 0 && RoundedRows(d, T, sA, b, b) && CannotClip(a, b)
    requires forall r, l :: Abs(At(Dequantize(d, b, sA), r, l)) <= a
    ensures NothingClips(d, T, sA, b, b)
  {
    assert a >= 0.0 by { assert Abs(At(Dequantize(d, b, sA), 0, 0)) <= a; }
    hide At, Dequantize, RowValue, Code, Rint, RoundedRows, WorstValue;
    forall i, c | 0 <= i < b && 0 <= c < b
      ensures -32767 <= Rint(RowValue(d, T, sA, i, c)) <= 32767
    {
      EntryDecided(d, T, sA, a, b, i, c);
    }
  }

  lemma EntryDecided(d: Codes, T: Codes, sA: real, a: real, b: nat, i: nat, c: nat)
    requires a >= 0.0 && i < b && c < b && RoundedRows(d, T, sA, b, b) && CannotClip(a, b)
    requires forall r, l :: Abs(At(Dequantize(d, b, sA), r, l)) <= a
    ensures Magnitude(Rint(RowValue(d, T, sA, i, c))) <= 32767
  {
    hide At, Dequantize, RowValue, Code, Rint, RoundedRows, WorstValue, WorstCode, Clip;
    FewerRows(d, T, sA, b, i + 1, b);
    if i < c {
      ZeroAboveDiagonal(d, T, sA, b, i, c);
      RintZero();
    } else {
      Dominated(d, T, sA, a, b, i, c);
      CodeWithin(RowValue(d, T, sA, i, c), WorstValue(a, i - c));
      WorstValueWithin(a, i - c, b - 1);
    }
  }

  lemma RintZero()
    ensures Rint(0.0) == 0
  {
  }

  /** In closed form, a bounding the block's dequantised entries. */
  lemma NoRowClips(d: Codes, T: Codes, sA: real, a: real, b: nat)
    requires b > 0 && RoundedRows(d, T, sA, b, b) && Ceiling(a, b - 1) < 32768.0
    requires forall r, l :: Abs(At(Dequantize(d, b, sA), r, l)) <= a
    ensures CannotClip(a, b) && NothingClips(d, T, sA, b, b)
  {
    assert a >= 0.0 by { assert Abs(At(Dequantize(d, b, sA), 0, 0)) <= a; }
    WorstWithin(a, b - 1);
    InCodeRange(WorstValue(a, b - 1));
    WorstDecides(d, T, sA, a, b);
  }

  lemma InCodeRange(y: real)
    requires y < 32767.5
    ensures Rint(y) <= 32767
  {
  }

  /** Doubling is enough headroom for both: the codes stay in range and the sums below 2^16. */
  lemma BelowTwo(a: real, b: nat)
    requires a >= 0.0 && b > 0 && RealPow(1.0 + a, b - 1) < 2.0
    ensures Ceiling(a, b - 1) < 32768.0 && CannotClip(a, b)
    ensures b <= 32768 ==> WorstSum(a, b - 1) <= 65535
  {
    hide RealPow, Ceiling, WorstSum, WorstValue, WorstCode, Rint;
    CeilingBelowTop(a, b);
    WorstWithin(a, b - 1);
    InCodeRange(WorstValue(a, b - 1));
    if b <= 32768 { SumBelowTop(a, b); }
  }

  lemma SumBelowTop(a: real, b: nat)
    requires a >= 0.0 && 0 < b <= 32768 && RealPow(1.0 + a, b - 1) < 2.0
    ensures WorstSum(a, b - 1) <= 65535
  {
    hide RealPow, WorstSum;
    WorstSumWithin(a, b - 1);
    SumBelow(WorstSum(a, b - 1), 16384.0 + 0.5 * (b - 1) as real, RealPow(1.0 + a, b - 1));
  }

  lemma SumBelow(w: int, x: real, p: real)
    requires w as real <= x * p && p < 2.0 && 0.0 < x <= 32767.5
    ensures w <= 65535
  {
    assert x * p < x * 2.0;
  }

  lemma CeilingBelowTop(a: real, b: nat)
    requires a >= 0.0 && b > 0 && RealPow(1.0 + a, b - 1) < 2.0
    ensures Ceiling(a, b - 1) < 32768.0
  {
    if b > 1 {
      PowMonotone(1.0 + a, 0, b - 2);
      CeilingBelow(a, RealPow(1.0 + a, b - 2), RealPow(1.0 + a, b - 1));
    }
  }

  lemma CeilingBelow(a: real, q: real, p: real)
    requires a >= 0.0 && q >= 0.0 && p == (1.0 + a) * q && p < 2.0
    ensures 16383.5 * a * q + 0.5 * p < 32768.0
  {
    assert 16383.5 * a * q == 16383.5 * (p - q);
  }
}

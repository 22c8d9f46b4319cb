/**
 solve_int16: forward substitution on int16 codes with one rounding per output row, then an
 unrounded block merge.
 */
module Int16Solve {
  import opened Arithmetic
  import opened Sums
  import opened Rounding
  import opened Matrices
  import opened MatrixBounds
  import opened Powers
  import opened Triangular

  /** Scale of the output codes. */
  const ST := 2.0 / 32767.0

  type Codes = seq<seq<int>>

  predicate Shape(d: Codes, b: nat) {
    |d| == b && forall i :: 0 <= i < b ==> |d[i]| == b
  }

  function Code(d: Codes, i: int, j: int): int {
    if 0 <= i < |d| && 0 <= j < |d[i]| then d[i][j] else 0
  }

  /** The real matrix a block of codes stands for. */
  function Dequantize(d: Codes, b: nat, s: real): (A: Matrix)
    ensures A.rows == A.cols == b
  {
    Make(b, b, (i, j) => Code(d, i, j) as real * s)
  }

  function AccTerm(d: Codes, T: Codes, i: int, c: int): int -> int {
    l => Code(d, i, l) * Code(T, l, c)
  }

  /** The int32 accumulator of entry (i, c). */
  function Acc(d: Codes, T: Codes, i: nat, c: int): int {
    ISum(i, AccTerm(d, T, i, c))
  }

  /** The value of entry (i, c) in output codes before it is rounded. */
  function RowValue(d: Codes, T: Codes, sA: real, i: nat, c: int): real {
    (if i == c then 1.0 else 0.0) / ST + Acc(d, T, i, c) as real * sA
  }

  /** Every stored code is the rounded, clipped value of its row. */
  ghost predicate RoundedRows(d: Codes, T: Codes, sA: real, b: nat, rows: nat) {
    forall i, c :: 0 <= i < rows && 0 <= c < b ==>
      Code(T, i, c) == Clip(Rint(RowValue(d, T, sA, i, c)), -32767, 32767)
  }

  ghost predicate NothingClips(d: Codes, T: Codes, sA: real, b: nat, rows: nat) {
    forall i, c :: 0 <= i < rows && 0 <= c < b ==> -32767 <= Rint(RowValue(d, T, sA, i, c)) <= 32767
  }

  /** 0.5 (1 + a)^(l - c) from row c on, 0 above. */
  function Bound(a: real, c: int): int -> real {
    l => if l < c then 0.0 else 0.5 * RealPow(1.0 + a, l - c)
  }

  lemma {:induction false} BoundSum(a: real, c: nat, n: nat)
    requires c <= n
    ensures 0.5 + Sum(n, Scaled(a, Bound(a, c))) == Bound(a, c)(n)
  {
    if c < n {
      BoundSum(a, c, n - 1);
      assert RealPow(1.0 + a, n - c) == (1.0 + a) * RealPow(1.0 + a, n - 1 - c);
    } else {
      SumZero(n, Scaled(a, Bound(a, c)));
      assert RealPow(1.0 + a, 0) == 1.0;
    }
  }

  /** Output code minus exact value in codes. */
  function Error(d: Codes, T: Codes, sA: real, b: nat, i: int, c: int): real {
    Code(T, i, c) as real - At(Inverse(Dequantize(d, b, sA)), i, c) / ST
  }

  function ErrorTerm(d: Codes, T: Codes, sA: real, b: nat, i: int, c: int): int -> real {
    l => At(Dequantize(d, b, sA), i, l) * Error(d, T, sA, b, l, c)
  }

  /** One row: its error is its own rounding plus the errors of the rows above, weighted by A. */
  lemma RowError(d: Codes, T: Codes, sA: real, b: nat, i: nat, c: nat)
    requires Shape(d, b) && StrictLower(Dequantize(d, b, sA)) && i < b && c < b
    ensures Error(d, T, sA, b, i, c)
            == Code(T, i, c) as real - RowValue(d, T, sA, i, c) + Sum(i, ErrorTerm(d, T, sA, b, i, c))
  {
    hide At, Inverse, Dequantize, Sum, ISum, Code, ErrorTerm, Term, StrictLower;
    var A := Dequantize(d, b, sA);
    var f := Term(A, Inverse(A), i, c);
    var g: int -> real := l => AccTerm(d, T, i, c)(l) as real;
    ISumIsSum(i, AccTerm(d, T, i, c), g);
    SumScale(i, sA, g, Scaled(sA, g));
    SumScale(i, 1.0 / ST, f, Scaled(1.0 / ST, f));
    InverseRow(A, i, c);
    ErrorSplits(d, T, sA, b, i, c, g);
  }

  lemma ErrorSplits(d: Codes, T: Codes, sA: real, b: nat, i: nat, c: nat, g: int -> real)
    requires i < b && forall l :: g(l) == AccTerm(d, T, i, c)(l) as real
    ensures var f := Term(Dequantize(d, b, sA), Inverse(Dequantize(d, b, sA)), i, c);
            Sum(i, Scaled(sA, g)) == Sum(i, ErrorTerm(d, T, sA, b, i, c)) + Sum(i, Scaled(1.0 / ST, f))
  {
    hide Inverse;
    var A := Dequantize(d, b, sA);
    var f := Term(A, Inverse(A), i, c);
    forall l | 0 <= l < i
      ensures Scaled(sA, g)(l) == ErrorTerm(d, T, sA, b, i, c)(l) + Scaled(1.0 / ST, f)(l)
    {
      assert At(A, i, l) == Code(d, i, l) as real * sA;
      TermSplits(Code(d, i, l), Code(T, l, c), sA, At(Inverse(A), l, c));
    }
    SumAdd(i, ErrorTerm(d, T, sA, b, i, c), Scaled(1.0 / ST, f), Scaled(sA, g));
  }

  lemma TermSplits(a: int, t: int, sA: real, x: real)
    ensures sA * (a * t) as real == a as real * sA * (t as real - x / ST) + 1.0 / ST * (a as real * sA * x)
  {
    assert (a * t) as real == a as real * t as real;
  }

  lemma OwnRounding(d: Codes, T: Codes, sA: real, b: nat, i: nat, c: nat)
    requires i < b && c < b && RoundedRows(d, T, sA, b, i + 1) && NothingClips(d, T, sA, b, i + 1)
    ensures Abs(Code(T, i, c) as real - RowValue(d, T, sA, i, c)) <= 0.5
  {
    hide Rint, RowValue, Code;
  }

  /** Above the diagonal every code is zero. */
  lemma {:induction false} ZeroAboveDiagonal(d: Codes, T: Codes, sA: real, b: nat, i: nat, c: nat)
    requires i < c < b && RoundedRows(d, T, sA, b, i + 1)
    ensures RowValue(d, T, sA, i, c) == 0.0 && Code(T, i, c) == 0
  {
    hide Code;
    forall l | 0 <= l < i
      ensures AccTerm(d, T, i, c)(l) == 0
    {
      ZeroAboveDiagonal(d, T, sA, b, l, c);
    }
    ISumZero(i, AccTerm(d, T, i, c));
    ZeroValue(d, T, sA, i, c);
  }

  lemma ZeroValue(d: Codes, T: Codes, sA: real, i: nat, c: int)
    requires i != c && Acc(d, T, i, c) == 0
    ensures RowValue(d, T, sA, i, c) == 0.0 && Clip(Rint(RowValue(d, T, sA, i, c)), -32767, 32767) == 0
  {
  }

  /**
   While nothing clips, entry (i, c) is within 0.5 (1+a)^(i-c) output codes of the exact inverse of
   the dequantised block, a bounding that block's entries, and is exactly zero above the diagonal.
   */
  lemma {:induction false} ErrorBound(d: Codes, T: Codes, sA: real, a: real, b: nat, i: nat, c: nat)
    requires Shape(d, b) && StrictLower(Dequantize(d, b, sA)) && i < b && c < b
    requires forall r, l :: Abs(At(Dequantize(d, b, sA), r, l)) <= a
    requires RoundedRows(d, T, sA, b, i + 1) && NothingClips(d, T, sA, b, i + 1)
    ensures i < c ==> Error(d, T, sA, b, i, c) == 0.0
    ensures c <= i ==> Abs(Error(d, T, sA, b, i, c)) <= 0.5 * RealPow(1.0 + a, i - c)
  {
    hide At, Inverse, Dequantize, Sum, Code, Error, RowValue, StrictLower, RoundedRows, NothingClips;
    RowError(d, T, sA, b, i, c);
    forall l | 0 <= l < i
      ensures Abs(ErrorTerm(d, T, sA, b, i, c)(l)) <= Scaled(a, Bound(a, c))(l)
      ensures i < c ==> ErrorTerm(d, T, sA, b, i, c)(l) == 0.0
    {
      FewerRows(d, T, sA, b, l + 1, i + 1);
      ErrorBound(d, T, sA, a, b, l, c);
      AbsProduct(At(Dequantize(d, b, sA), i, l), Error(d, T, sA, b, l, c), a, Bound(a, c)(l));
    }
    if i < c {
      ZeroAboveDiagonal(d, T, sA, b, i, c);
      SumZero(i, ErrorTerm(d, T, sA, b, i, c));
    } else {
      OwnRounding(d, T, sA, b, i, c);
      SumBounded(i, ErrorTerm(d, T, sA, b, i, c), Scaled(a, Bound(a, c)));
      BoundSum(a, c, i);
    }
  }

  lemma FewerRows(d: Codes, T: Codes, sA: real, b: nat, i: nat, n: nat)
    requires i <= n && RoundedRows(d, T, sA, b, n)
    ensures RoundedRows(d, T, sA, b, i)
    ensures NothingClips(d, T, sA, b, n) ==> NothingClips(d, T, sA, b, i)
  {
    hide Code, Rint, RowValue;
  }

  function CodesOf(a: array2<int>): (d: Codes)
    reads a
    ensures |d| == a.Length0 && forall i :: 0 <= i < |d| ==> |d[i]| == a.Length1
    ensures forall i, j :: 0 <= i < a.Length0 && 0 <= j < a.Length1 ==> Code(d, i, j) == a[i, j]
  {
    seq(a.Length0, i requires 0 <= i < a.Length0 reads a =>
      seq(a.Length1, j requires 0 <= j < a.Length1 reads a => a[i, j]))
  }

  /** A row's value depends on the rows above it only. */
  lemma RowValueStable(d: Codes, T: Codes, T': Codes, sA: real, i: nat, c: int)
    requires forall l, k :: 0 <= l < i ==> Code(T, l, k) == Code(T', l, k)
    ensures Acc(d, T, i, c) == Acc(d, T', i, c)
    ensures RowValue(d, T, sA, i, c) == RowValue(d, T', sA, i, c)
  {
    ISumExt(i, AccTerm(d, T, i, c), AccTerm(d, T', i, c));
  }

  /** The peak covers every accumulator and is one of them unless it is the one passed in. */
  ghost predicate PeakOf(d: Codes, T: Codes, b: nat, rows: nat, before: nat, peak: nat) {
    && before <= peak
    && (forall i, c :: 0 <= i < rows && 0 <= c < b ==> Magnitude(Acc(d, T, i, c)) <= peak)
    && (peak == before || exists i, c :: 0 <= i < rows && 0 <= c < b && peak == Magnitude(Acc(d, T, i, c)))
  }

  lemma RowsExtend(d: Codes, T: Codes, T': Codes, sA: real, b: nat, i: nat, before: nat, mid: nat, peak: nat)
    requires forall l, k :: 0 <= l < i ==> Code(T, l, k) == Code(T', l, k)
    requires RoundedRows(d, T, sA, b, i) && PeakOf(d, T, b, i, before, mid)
    requires forall c :: 0 <= c < b ==> Code(T', i, c) == Clip(Rint(RowValue(d, T, sA, i, c)), -32767, 32767)
    requires mid <= peak && forall c :: 0 <= c < b ==> Magnitude(Acc(d, T, i, c)) <= peak
    requires peak == mid || exists c :: 0 <= c < b && peak == Magnitude(Acc(d, T, i, c))
    ensures RoundedRows(d, T', sA, b, i + 1) && PeakOf(d, T', b, i + 1, before, peak)
  {
    hide Code, Rint, RowValue, Acc;
    forall r, c | 0 <= r <= i && 0 <= c < b
      ensures Code(T', r, c) == Clip(Rint(RowValue(d, T', sA, r, c)), -32767, 32767)
      ensures Acc(d, T, r, c) == Acc(d, T', r, c) && Magnitude(Acc(d, T', r, c)) <= peak
    {
      RowValueStable(d, T, T', sA, r, c);
      assert r < i ==> Code(T, r, c) == Clip(Rint(RowValue(d, T, sA, r, c)), -32767, 32767);
    }
  }

  /** Row i of output codes, from the rows above it. */
  method SolveRow(d: Codes, above: Codes, b: nat, sA: real, i: nat, mid: nat) returns (row: seq<int>, peak: nat)
    ensures |row| == b
    ensures forall c :: 0 <= c < b ==> row[c] == Clip(Rint(RowValue(d, above, sA, i, c)), -32767, 32767)
    ensures mid <= peak && forall c :: 0 <= c < b ==> Magnitude(Acc(d, above, i, c)) <= peak
    ensures peak == mid || exists c :: 0 <= c < b && peak == Magnitude(Acc(d, above, i, c))
  {
    hide Rint, RowValue, ISum;
    row, peak := [], mid;
    for c := 0 to b
      invariant |row| == c
      invariant forall k :: 0 <= k < c ==> row[k] == Clip(Rint(RowValue(d, above, sA, i, k)), -32767, 32767)
      invariant mid <= peak && forall k :: 0 <= k < c ==> Magnitude(Acc(d, above, i, k)) <= peak
      invariant peak == mid || exists k :: 0 <= k < c && peak == Magnitude(Acc(d, above, i, k))
    {
      if i > 0 { peak := Max(peak, Magnitude(Acc(d, above, i, c))); } else { FirstRowAcc(d, above, c); }
      row := row + [Clip(Rint(RowValue(d, above, sA, i, c)), -32767, 32767)];
    }
  }

  lemma FirstRowAcc(d: Codes, T: Codes, c: int)
    ensures Acc(d, T, 0, c) == 0
  {
  }

  /** Forward substitution of one diagonal block of codes, each row rounded once when it is written. */
  method SolveDiagonal(d: Codes, b: nat, sA: real, before: nat) returns (T: Codes, peak: nat)
    requires Shape(d, b)
    ensures Shape(T, b) && RoundedRows(d, T, sA, b, b)
    ensures PeakOf(d, T, b, b, before, peak)
  {
    hide Rint, RowValue, Acc;
    var Tb := new int[b, b]((i, j) => 0);
    peak := before;
    for i := 0 to b
      invariant RoundedRows(d, CodesOf(Tb), sA, b, i)
      invariant PeakOf(d, CodesOf(Tb), b, i, before, peak)
    {
      var above := CodesOf(Tb);
      ghost var mid := peak;
      var row;
      row, peak := SolveRow(d, above, b, sA, i, peak);
      forall c | 0 <= c < b { Tb[i, c] := row[c]; }
      RowsExtend(d, above, CodesOf(Tb), sA, b, i, before, mid, peak);
    }
    T := CodesOf(Tb);
  }
}

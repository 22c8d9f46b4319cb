/** The block merge of solve_int16 and the whole solver. */
module Int16Merge {
  import opened Arithmetic
  import opened Sums
  import opened Rounding
  import opened Matrices
  import opened Powers
  import opened Triangular
  import opened Blocks
  import opened BlockSolvers
  import opened Int16Solve

  /** The diagonal blocks of T alone. */
  function DiagonalPart(T: Matrix, b: nat): (D: Matrix)
    requires b > 0
    ensures D.rows == T.rows && D.cols == T.cols
  {
    Make(T.rows, T.cols, (r, c) => if r / b == c / b then At(T, r, c) else 0.0)
  }

  /** Q without its diagonal blocks. */
  function OffDiagonalPart(Q: Matrix, b: nat): (L: Matrix)
    requires b > 0
    ensures L.rows == Q.rows && L.cols == Q.cols
  {
    Make(Q.rows, Q.cols, (r, c) => if r / b == c / b then 0.0 else At(Q, r, c))
  }

  /** T's off-diagonal blocks follow the block recurrence over Q with T's own diagonal blocks. */
  ghost predicate Merged(Q: Matrix, T: Matrix, nb: nat, b: nat)
    requires b > 0
  {
    && Q.rows == Q.cols == T.rows == T.cols == nb * b
    && ZeroAbove(T, b)
    && forall i, j :: 0 <= j < i < nb ==> Block(T, b, i, j) == Mul(Block(T, b, i, i), BlockSum(Q, T, b, i, j, j, i))
  }

  lemma PartBlocks(Q: Matrix, T: Matrix, nb: nat, b: nat, i: nat, k: nat)
    requires b > 0 && Q.rows == Q.cols == T.rows == T.cols == nb * b && i < nb && k < nb
    ensures Block(DiagonalPart(T, b), b, i, k) == if i == k then Block(T, b, i, i) else Zero(b, b)
    ensures Block(OffDiagonalPart(Q, b), b, i, k) == if i == k then Zero(b, b) else Block(Q, b, i, k)
  {
    hide At;
    var D, L := DiagonalPart(T, b), OffDiagonalPart(Q, b);
    forall r, c | 0 <= r < b && 0 <= c < b
      ensures At(Block(D, b, i, k), r, c) == (if i == k then At(Block(T, b, i, i), r, c) else 0.0)
      ensures At(Block(L, b, i, k), r, c) == (if i == k then 0.0 else At(Block(Q, b, i, k), r, c))
    {
      InRange(nb, b, i, r);
      InRange(nb, b, k, c);
      Digits(i, b, r);
      Digits(k, b, c);
    }
    Ext(Block(D, b, i, k), if i == k then Block(T, b, i, i) else Zero(b, b));
    Ext(Block(L, b, i, k), if i == k then Zero(b, b) else Block(Q, b, i, k));
  }

  /** D times Y, block by block. */
  lemma DiagonalTimes(T: Matrix, Y: Matrix, nb: nat, b: nat, i: nat, j: nat)
    requires b > 0 && T.rows == T.cols == Y.rows == Y.cols == nb * b && i < nb && j < nb
    ensures Block(Mul(DiagonalPart(T, b), Y), b, i, j) == Mul(Block(T, b, i, i), Block(Y, b, i, j))
  {
    hide At, Block, DiagonalPart;
    var D := DiagonalPart(T, b);
    BlockOfProduct(D, Y, nb, b, i, j);
    forall k | 0 <= k < nb && k != i
      ensures Block(D, b, i, k) == Zero(b, b)
    {
      PartBlocks(T, T, nb, b, i, k);
    }
    PartBlocks(T, T, nb, b, i, i);
    BlockSumDropsHigh(D, Y, b, i, j, 0, i + 1, nb);
    BlockSumDropsHigh(D, Y, b, i, j, 0, 0, i);
    Ext(Add(Zero(b, b), Mul(Block(T, b, i, i), Block(Y, b, i, j))), Mul(Block(T, b, i, i), Block(Y, b, i, j)));
  }

  /** L times T, block by block: only k = j .. i-1 contributes. */
  lemma OffDiagonalTimes(Q: Matrix, T: Matrix, nb: nat, b: nat, i: nat, j: nat)
    requires b > 0 && Q.rows == Q.cols == T.rows == T.cols == nb * b && i < nb && j < nb
    requires StrictLower(Q) && ZeroAbove(T, b)
    ensures Block(Mul(OffDiagonalPart(Q, b), T), b, i, j)
            == if j < i then BlockSum(Q, T, b, i, j, j, i) else Zero(b, b)
  {
    hide At, Block, OffDiagonalPart, StrictLower;
    var L := OffDiagonalPart(Q, b);
    BlockOfProduct(L, T, nb, b, i, j);
    forall k | i <= k < nb
      ensures Block(L, b, i, k) == Zero(b, b)
    {
      PartBlocks(Q, T, nb, b, i, k);
      StrictBlocks(Q, nb, b, i, k);
    }
    BlockSumDropsHigh(L, T, b, i, j, 0, i, nb);
    forall k | 0 <= k < j
      ensures Block(T, b, k, j) == Zero(b, b)
    {
      ZeroAboveBlock(T, nb, b, k, j);
    }
    if j < i {
      BlockSumDropsLow(L, T, b, i, j, j, i);
      SameBelow(Q, L, T, nb, b, i, j, i);
    } else {
      BlockSumDropsLow(L, T, b, i, j, i, i);
    }
  }

  lemma ZeroAboveBlock(T: Matrix, nb: nat, b: nat, k: nat, j: nat)
    requires b > 0 && T.rows == T.cols == nb * b && k < j < nb && ZeroAbove(T, b)
    ensures Block(T, b, k, j) == Zero(b, b)
  {
    forall r, c | 0 <= r < b && 0 <= c < b
      ensures At(Block(T, b, k, j), r, c) == 0.0
    {
      Digits(k, b, r);
      Digits(j, b, c);
    }
    Ext(Block(T, b, k, j), Zero(b, b));
  }

  lemma {:induction false} SameBelow(Q: Matrix, L: Matrix, T: Matrix, nb: nat, b: nat, i: nat, j: nat, hi: nat)
    requires b > 0 && Q.rows == Q.cols == nb * b && L == OffDiagonalPart(Q, b) && j <= hi <= i < nb
    ensures BlockSum(L, T, b, i, j, j, hi) == BlockSum(Q, T, b, i, j, j, hi)
    decreases hi
  {
    hide At, Block, OffDiagonalPart;
    if j < hi {
      SameBelow(Q, L, T, nb, b, i, j, hi - 1);
      PartBlocks(Q, Q, nb, b, i, hi - 1);
    }
  }

  lemma SplitIndex(nb: nat, b: nat, r: nat)
    requires b > 0 && r < nb * b
    ensures r / b < nb && r == r / b * b + r % b && r % b < b
  {
    DivBelow(nb, b, r);
  }

  lemma SameEntry(X: Matrix, Y: Matrix, b: nat, i: nat, j: nat, u: nat, v: nat)
    requires u < b && v < b && Block(X, b, i, j) == Block(Y, b, i, j)
    ensures At(X, i * b + u, j * b + v) == At(Y, i * b + u, j * b + v)
  {
    hide At;
    assert At(Block(X, b, i, j), u, v) == At(Block(Y, b, i, j), u, v);
  }

  lemma EntryDecided(X: Matrix, Y: Matrix, nb: nat, b: nat, r: nat, c: nat)
    requires b > 0 && r < nb * b && c < nb * b
    requires forall i, j :: 0 <= i < nb && 0 <= j < nb ==> Block(X, b, i, j) == Block(Y, b, i, j)
    ensures At(X, r, c) == At(Y, r, c)
  {
    hide At, Block;
    SplitIndex(nb, b, r);
    SplitIndex(nb, b, c);
    SameEntry(X, Y, b, r / b, c / b, r % b, c % b);
  }

  /** Equality of all blocks is equality. */
  lemma BlocksDecide(X: Matrix, Y: Matrix, nb: nat, b: nat)
    requires b > 0 && X.rows == X.cols == Y.rows == Y.cols == nb * b
    requires forall i, j :: 0 <= i < nb && 0 <= j < nb ==> Block(X, b, i, j) == Block(Y, b, i, j)
    ensures X == Y
  {
    hide At, Block;
    forall r, c | 0 <= r < nb * b && 0 <= c < nb * b
      ensures At(X, r, c) == At(Y, r, c)
    {
      EntryDecided(X, Y, nb, b, r, c);
    }
    Ext(X, Y);
  }

  /** The merged T satisfies T = D + D L T. */
  lemma MergeEquation(Q: Matrix, T: Matrix, nb: nat, b: nat)
    requires b > 0 && Merged(Q, T, nb, b) && StrictLower(Q)
    ensures var D, L := DiagonalPart(T, b), OffDiagonalPart(Q, b); T == Add(D, Mul(D, Mul(L, T)))
  {
    hide At, Block, DiagonalPart, OffDiagonalPart;
    var D, L := DiagonalPart(T, b), OffDiagonalPart(Q, b);
    var LT := Mul(L, T);
    forall i, j | 0 <= i < nb && 0 <= j < nb
      ensures Block(T, b, i, j) == Block(Add(D, Mul(D, LT)), b, i, j)
    {
      DiagonalTimes(T, LT, nb, b, i, j);
      OffDiagonalTimes(Q, T, nb, b, i, j);
      PartBlocks(Q, T, nb, b, i, j);
      if i < j { ZeroAboveBlock(T, nb, b, i, j); }
      MulZero(Block(T, b, i, i), b);
      BlockOfAdd(D, Mul(D, LT), nb, b, i, j);
    }
    BlocksDecide(T, Add(D, Mul(D, LT)), nb, b);
  }

  /** The merge adds no error of its own: T is the only solution of (I - D L) T = D. */
  lemma MergeClosedForm(Q: Matrix, T: Matrix, nb: nat, b: nat)
    requires b > 0 && Merged(Q, T, nb, b) && StrictLower(Q)
    ensures var D, L := DiagonalPart(T, b), OffDiagonalPart(Q, b);
            StrictLower(Mul(D, L)) && T == Mul(Inverse(Mul(D, L)), D)
  {
    MergeEquation(Q, T, nb, b);
    ProductStrict(Q, T, b);
    hide At, Block, DiagonalPart, OffDiagonalPart, Inverse, Merged, StrictLower;
    var D, L := DiagonalPart(T, b), OffDiagonalPart(Q, b);
    MulAssoc(D, L, T);
    MulSubLeft(Identity(Q.rows), Mul(D, L), T);
    MulIdentityLeft(T);
    AddThenSub(T, D, Mul(Mul(D, L), T));
    SolveUnique(Mul(D, L), T, D);
  }

  lemma AddThenSub(T: Matrix, D: Matrix, Y: Matrix)
    requires T.rows == D.rows == Y.rows && T.cols == D.cols == Y.cols && T == Add(D, Y)
    ensures Sub(T, Y) == D
  {
    Ext(Sub(T, Y), D);
  }

  lemma BlockOfAdd(X: Matrix, Y: Matrix, nb: nat, b: nat, i: nat, j: nat)
    requires X.rows == X.cols == Y.rows == Y.cols == nb * b && i < nb && j < nb
    ensures Block(Add(X, Y), b, i, j) == Add(Block(X, b, i, j), Block(Y, b, i, j))
    ensures Add(Block(X, b, i, j), Zero(b, b)) == Block(X, b, i, j)
    ensures Add(Zero(b, b), Block(Y, b, i, j)) == Block(Y, b, i, j)
  {
    hide At;
    forall r, c | 0 <= r < b && 0 <= c < b
      ensures At(Block(Add(X, Y), b, i, j), r, c) == At(Add(Block(X, b, i, j), Block(Y, b, i, j)), r, c)
    {
      InRange(nb, b, i, r);
      InRange(nb, b, j, c);
    }
    Ext(Block(Add(X, Y), b, i, j), Add(Block(X, b, i, j), Block(Y, b, i, j)));
    Ext(Add(Block(X, b, i, j), Zero(b, b)), Block(X, b, i, j));
    Ext(Add(Zero(b, b), Block(Y, b, i, j)), Block(Y, b, i, j));
  }

  lemma ProductStrict(Q: Matrix, T: Matrix, b: nat)
    requires b > 0 && StrictLower(Q) && T.rows == T.cols == Q.rows
    ensures StrictLower(Mul(DiagonalPart(T, b), OffDiagonalPart(Q, b)))
  {
    var D, L := DiagonalPart(T, b), OffDiagonalPart(Q, b);
    forall r, c | 0 <= r < Q.rows && 0 <= c < Q.rows && r <= c
      ensures At(Mul(D, L), r, c) == 0.0
    {
      forall l | 0 <= l < Q.rows
        ensures Term(D, L, r, c)(l) == 0.0
      {
        if c < l && r / b == l / b {
          DivMonotone(b, r, c);
          DivMonotone(b, c, l);
        }
      }
      SumZero(Q.rows, Term(D, L, r, c));
    }
  }

  /** Scale of A's int16 codes; 1e-12 stands in for an all-zero A. */
  function InputScale(A: Matrix): (s: real)
    ensures s > 0.0
  {
    if MaxAbs(A) == 0.0 then 0.000000000001 else MaxAbs(A) / 32767.0
  }

  function QuantizeEntry(x: real, s: real): int
    requires s > 0.0
  {
    Clip(Rint(x / s), -32767, 32767)
  }

  function Quantize(A: Matrix): Codes {
    seq(A.rows, i => seq(A.cols, j => QuantizeEntry(At(A, i, j), InputScale(A))))
  }

  function QuantizedBlock(A: Matrix, b: nat, i: nat): Codes {
    seq(b, r => seq(b, c => Code(Quantize(A), i * b + r, i * b + c)))
  }

  /** The real matrix of A's codes. */
  function Rebuilt(A: Matrix): (Q: Matrix)
    ensures Q.rows == A.rows && Q.cols == A.cols
  {
    Make(A.rows, A.cols, (i, j) => Code(Quantize(A), i, j) as real * InputScale(A))
  }

  /** The full code range at this scale is the largest magnitude. */
  lemma FullRange(m: real, s: real)
    requires m >= 0.0 && s > 0.0 && s == (if m == 0.0 then 0.000000000001 else m / 32767.0)
    ensures m <= Steps(32767.0, s) && (m > 0.0 ==> m == Steps(32767.0, s))
    ensures Steps(-32767.0, s) == -Steps(32767.0, s)
  {
    hide Steps;
    StepsUnits(s);
    StepsAtMost(0.0, 32767.0, s);
    StepsDiff(0.0, 32767.0, s);
    StepsOfQuotient(m, 32767.0);
    StepsCommute(32767.0, s);
  }

  /** The rounded ratio is in range, and its value is within half a step of x and within the maximum. */
  lemma CodeError(x: real, m: real, s: real)
    requires Abs(x) <= m && s > 0.0 && s == (if m == 0.0 then 0.000000000001 else m / 32767.0)
    ensures -32767 <= Rint(x / s) <= 32767
    ensures Abs(Steps(Rint(x / s) as real, s) - x) <= 0.5 * s
    ensures Abs(Steps(Rint(x / s) as real, s)) <= m
    ensures x == 0.0 ==> Rint(x / s) == 0
  {
    hide Steps, Rint;
    FullRange(m, s);
    QuotientAtMost(x, s, 32767.0);
    QuotientAtLeast(x, s, -32767.0);
    RintWithin(x / s, -32767, 32767);
    var q := Rint(x / s);
    StepError(q as real, x, s);
    StepsUnits(s);
    StepsAtMost(q as real, 32767.0, s);
    StepsAtMost(-32767.0, q as real, s);
    if x == 0.0 {
      QuotientAtMost(x, s, 0.0);
      QuotientAtLeast(x, s, 0.0);
      RintWithin(x / s, 0, 0);
    }
  }

  lemma ScaledBound(e: real, k: real, s: real)
    requires s > 0.0 && Abs(e) <= k
    ensures Abs(e * s) <= k * s
  {
  }

  lemma QuantizeEntryError(x: real, m: real, s: real)
    requires Abs(x) <= m && s > 0.0 && s == (if m == 0.0 then 0.000000000001 else m / 32767.0)
    ensures Abs(QuantizeEntry(x, s) as real * s - x) <= 0.5 * s
    ensures Abs(QuantizeEntry(x, s) as real * s) <= m
    ensures x == 0.0 ==> QuantizeEntry(x, s) == 0
  {
    hide Rint, Steps;
    CodeError(x, m, s);
    ProductIsSteps(QuantizeEntry(x, s), s);
  }

  lemma ProductIsSteps(q: int, s: real)
    ensures q as real * s == Steps(q as real, s)
  {
  }

  lemma RebuiltEntry(A: Matrix, i: int, j: int)
    ensures At(Rebuilt(A), i, j)
            == if 0 <= i < A.rows && 0 <= j < A.cols
               then QuantizeEntry(At(A, i, j), InputScale(A)) as real * InputScale(A)
               else 0.0
  {
    hide QuantizeEntry, InputScale;
  }

  /** Quantising A never clips, moves no entry by more than half a step and keeps the shape. */
  lemma RebuiltClose(A: Matrix)
    requires StrictLower(A)
    ensures StrictLower(Rebuilt(A))
    ensures forall i, j :: Abs(At(Rebuilt(A), i, j) - At(A, i, j)) <= 0.5 * InputScale(A)
    ensures forall i, j :: Abs(At(Rebuilt(A), i, j)) <= MaxAbs(A)
  {
    hide QuantizeEntry, MaxAbs, Rebuilt;
    forall i, j
      ensures At(Rebuilt(A), i, j) != 0.0 ==> j < i < A.rows
      ensures Abs(At(Rebuilt(A), i, j) - At(A, i, j)) <= 0.5 * InputScale(A)
      ensures Abs(At(Rebuilt(A), i, j)) <= MaxAbs(A)
    {
      RebuiltEntry(A, i, j);
      QuantizeEntryError(At(A, i, j), MaxAbs(A), InputScale(A));
    }
  }

  /** Block (i, j) of the result: the stored diagonal codes, or T_ii * sum_{k=j..i-1} Q_ik T_kj. */
  function MergeBlock(Q: Matrix, Ti: seq<Codes>, b: nat, i: nat, j: nat): (B: Matrix)
    requires j <= i < |Ti|
    ensures B.rows == B.cols == b
    decreases i, 1, 0
  {
    if i == j then Dequantize(Ti[i], b, ST)
    else Mul(Dequantize(Ti[i], b, ST), MergeSum(Q, Ti, b, i, j, i))
  }

  function MergeSum(Q: Matrix, Ti: seq<Codes>, b: nat, i: nat, j: nat, hi: nat): (S: Matrix)
    requires j <= hi <= i < |Ti|
    ensures S.rows == S.cols == b
    decreases i, 0, hi
  {
    if hi == j then Zero(b, b)
    else Add(MergeSum(Q, Ti, b, i, j, hi - 1), Mul(Block(Q, b, i, hi - 1), MergeBlock(Q, Ti, b, hi - 1, j)))
  }

  /** The whole result on the rows the blocks cover. */
  function MergedMatrix(Q: Matrix, Ti: seq<Codes>, b: nat): (X: Matrix)
    requires b > 0
    ensures X.rows == X.cols == |Ti| * b
  {
    Make(|Ti| * b, |Ti| * b, (r, c) =>
      if 0 <= c && 0 <= r && c / b <= r / b < |Ti| then At(MergeBlock(Q, Ti, b, r / b, c / b), r % b, c % b) else 0.0)
  }

  lemma MergedBlock(Q: Matrix, Ti: seq<Codes>, b: nat, i: nat, j: nat)
    requires b > 0 && j <= i < |Ti|
    ensures Block(MergedMatrix(Q, Ti, b), b, i, j) == MergeBlock(Q, Ti, b, i, j)
  {
    hide At, MergeBlock;
    var X, nb := MergedMatrix(Q, Ti, b), |Ti|;
    forall r, c | 0 <= r < b && 0 <= c < b
      ensures At(Block(X, b, i, j), r, c) == At(MergeBlock(Q, Ti, b, i, j), r, c)
    {
      InRange(nb, b, i, r);
      InRange(nb, b, j, c);
      Digits(i, b, r);
      Digits(j, b, c);
    }
    Ext(Block(X, b, i, j), MergeBlock(Q, Ti, b, i, j));
  }

  lemma {:induction false} MergedSum(Q: Matrix, Ti: seq<Codes>, b: nat, i: nat, j: nat, hi: nat)
    requires b > 0 && j <= hi <= i < |Ti|
    ensures BlockSum(Q, MergedMatrix(Q, Ti, b), b, i, j, j, hi) == MergeSum(Q, Ti, b, i, j, hi)
  {
    hide At, MergeBlock, MergedMatrix, Block;
    if j < hi {
      MergedSum(Q, Ti, b, i, j, hi - 1);
      MergedBlock(Q, Ti, b, hi - 1, j);
    }
  }

  lemma MergedMatrixIsMerged(Q: Matrix, Ti: seq<Codes>, b: nat)
    requires b > 0 && Q.rows == Q.cols == |Ti| * b
    ensures Merged(Q, MergedMatrix(Q, Ti, b), |Ti|, b)
  {
    var X := MergedMatrix(Q, Ti, b);
    MergedZeroAbove(Q, Ti, b);
    hide At, MergedMatrix, Block, ZeroAbove;
    forall i, j | 0 <= j < i < |Ti|
      ensures Block(X, b, i, j) == Mul(Block(X, b, i, i), BlockSum(Q, X, b, i, j, j, i))
    {
      MergedBlock(Q, Ti, b, i, j);
      MergedBlock(Q, Ti, b, i, i);
      MergedSum(Q, Ti, b, i, j, i);
    }
  }

  lemma MergedZeroAbove(Q: Matrix, Ti: seq<Codes>, b: nat)
    requires b > 0
    ensures ZeroAbove(MergedMatrix(Q, Ti, b), b)
  {
    hide MergeBlock;
  }

  /** Codes of the diagonal blocks follow the rounded substitution over A's codes. */
  ghost predicate DiagonalsRounded(A: Matrix, Ti: seq<Codes>, b: nat) {
    forall i :: 0 <= i < |Ti| ==>
      Shape(Ti[i], b) && RoundedRows(QuantizedBlock(A, b, i), Ti[i], InputScale(A), b, b)
  }

  /** No entry of any diagonal block is clipped. */
  ghost predicate ClipFree(A: Matrix, Ti: seq<Codes>, b: nat) {
    forall i :: 0 <= i < |Ti| ==> NothingClips(QuantizedBlock(A, b, i), Ti[i], InputScale(A), b, b)
  }

  /**
   Error of entry (r, c) of diagonal block i, in value units, while that block does not clip: none
   above the diagonal, at most half a code grown by r - c rows on and below it.
   */
  lemma DiagonalError(A: Matrix, Ti: seq<Codes>, b: nat, i: nat, r: nat, c: nat)
    requires StrictLower(A) && |Ti| * b <= A.rows && i < |Ti| && r < b && c < b && DiagonalsRounded(A, Ti, b)
    requires NothingClips(QuantizedBlock(A, b, i), Ti[i], InputScale(A), b, b)
    ensures var e := Abs(At(Dequantize(Ti[i], b, ST), r, c) - At(Inverse(Block(Rebuilt(A), b, i, i)), r, c));
            if r < c then e == 0.0 else e <= ST * (0.5 * RealPow(1.0 + MaxAbs(A), r - c))
  {
    hide At, Inverse, InputScale, Dequantize, MaxAbs, Code, Rebuilt, Block, RealPow, RowValue, Rint, QuantizedBlock;
    var d, s := QuantizedBlock(A, b, i), InputScale(A);
    BlockCodes(A, |Ti|, b, i);
    ErrorBound(d, Ti[i], s, MaxAbs(A), b, r, c);
    ToValue(Ti[i], b, r, c, At(Inverse(Dequantize(d, b, s)), r, c),
            if r < c then 0.0 else 0.5 * RealPow(1.0 + MaxAbs(A), r - c));
  }

  lemma ToValue(T: Codes, b: nat, r: nat, c: nat, x: real, e: real)
    requires r < b && c < b && Abs(Code(T, r, c) as real - x / ST) <= e
    ensures Abs(At(Dequantize(T, b, ST), r, c) - x) <= ST * e
  {
    var t := Code(T, r, c) as real;
    assert At(Dequantize(T, b, ST), r, c) == t * ST;
    assert (t - x / ST) * ST == t * ST - x;
    ScaledBound(t - x / ST, e, ST);
  }

  lemma BlockCode(A: Matrix, b: nat, i: nat, r: int, c: int)
    requires 0 <= r < b && 0 <= c < b
    ensures Code(QuantizedBlock(A, b, i), r, c) == Code(Quantize(A), i * b + r, i * b + c)
  {
    hide Quantize;
  }

  lemma RebuiltCode(A: Matrix, i: nat, j: nat)
    requires i < A.rows && j < A.cols
    ensures At(Rebuilt(A), i, j) == Code(Quantize(A), i, j) as real * InputScale(A)
  {
    hide Quantize, InputScale, Code;
  }

  lemma BlockShape(A: Matrix, b: nat, i: nat)
    ensures Shape(QuantizedBlock(A, b, i), b)
  {
    hide Quantize;
  }

  lemma BlockCodesEntry(A: Matrix, nb: nat, b: nat, i: nat, r: nat, c: nat)
    requires Square(A) && nb * b <= A.rows && i < nb && r < b && c < b
    ensures At(Dequantize(QuantizedBlock(A, b, i), b, InputScale(A)), r, c) == At(Block(Rebuilt(A), b, i, i), r, c)
  {
    hide At, InputScale, Quantize, QuantizedBlock, Code, Rebuilt;
    InRange(nb, b, i, r);
    InRange(nb, b, i, c);
    BlockCode(A, b, i, r, c);
    RebuiltCode(A, i * b + r, i * b + c);
  }

  lemma BlockBounded(Q: Matrix, m: real, b: nat, i: int)
    requires m >= 0.0 && forall r, c :: Abs(At(Q, r, c)) <= m
    ensures forall r, c :: Abs(At(Block(Q, b, i, i), r, c)) <= m
  {
    hide At;
    forall r, c
      ensures Abs(At(Block(Q, b, i, i), r, c)) <= m
    {
      if !(0 <= r < b && 0 <= c < b) { OutsideIsZero(Block(Q, b, i, i), r, c); }
    }
  }

  lemma BlockCodes(A: Matrix, nb: nat, b: nat, i: nat)
    requires StrictLower(A) && nb * b <= A.rows && i < nb
    ensures Shape(QuantizedBlock(A, b, i), b)
    ensures Dequantize(QuantizedBlock(A, b, i), b, InputScale(A)) == Block(Rebuilt(A), b, i, i)
    ensures StrictLower(Block(Rebuilt(A), b, i, i))
    ensures forall r, c :: Abs(At(Block(Rebuilt(A), b, i, i), r, c)) <= MaxAbs(A)
  {
    hide At, InputScale, MaxAbs, Quantize, QuantizedBlock, Code, Rebuilt;
    RebuiltClose(A);
    BlockShape(A, b, i);
    DiagonalBlockStrict(Rebuilt(A), b, i);
    BlockBounded(Rebuilt(A), MaxAbs(A), b, i);
    var B, W := Block(Rebuilt(A), b, i, i), Dequantize(QuantizedBlock(A, b, i), b, InputScale(A));
    forall r, c | 0 <= r < b && 0 <= c < b
      ensures At(W, r, c) == At(B, r, c)
    {
      BlockCodesEntry(A, nb, b, i, r, c);
    }
    Ext(W, B);
  }

  /** The peak covers every accumulator of every diagonal block and is one of them unless it was passed in. */
  ghost predicate PeakOver(A: Matrix, Ti: seq<Codes>, b: nat, before: nat, peak: nat) {
    && before <= peak
    && (forall i, r, c :: 0 <= i < |Ti| && 0 <= r < b && 0 <= c < b ==>
          Magnitude(Acc(QuantizedBlock(A, b, i), Ti[i], r, c)) <= peak)
    && (peak == before || exists i, r, c ::
          0 <= i < |Ti| && 0 <= r < b && 0 <= c < b && peak == Magnitude(Acc(QuantizedBlock(A, b, i), Ti[i], r, c)))
  }

  lemma PeakExtends(A: Matrix, Ti: seq<Codes>, D: Codes, b: nat, before: nat, mid: nat, peak: nat)
    requires PeakOver(A, Ti, b, before, mid) && PeakOf(QuantizedBlock(A, b, |Ti|), D, b, b, mid, peak)
    ensures PeakOver(A, Ti + [D], b, before, peak)
  {
    hide QuantizedBlock, Acc, Magnitude;
    var Tj := Ti + [D];
    assert Tj[|Ti|] == D;
    if peak != mid {
      var r, c :| 0 <= r < b && 0 <= c < b && peak == Magnitude(Acc(QuantizedBlock(A, b, |Ti|), D, r, c));
      assert peak == Magnitude(Acc(QuantizedBlock(A, b, |Ti|), Tj[|Ti|], r, c));
    } else if peak != before {
      var i, r, c :| 0 <= i < |Ti| && 0 <= r < b && 0 <= c < b
                         && peak == Magnitude(Acc(QuantizedBlock(A, b, i), Ti[i], r, c));
      assert peak == Magnitude(Acc(QuantizedBlock(A, b, i), Tj[i], r, c));
    }
  }

  method SolveDiagonals(A: Matrix, b: nat, before: nat) returns (Ti: seq<Codes>, peak: nat)
    requires b > 0
    ensures |Ti| == A.rows / b && DiagonalsRounded(A, Ti, b) && PeakOver(A, Ti, b, before, peak)
  {
    hide QuantizedBlock, InputScale, RoundedRows, PeakOf;
    Ti, peak := [], before;
    for i := 0 to A.rows / b
      invariant |Ti| == i && DiagonalsRounded(A, Ti, b) && PeakOver(A, Ti, b, before, peak)
    {
      BlockShape(A, b, i);
      ghost var mid := peak;
      var D;
      D, peak := SolveDiagonal(QuantizedBlock(A, b, i), b, InputScale(A), peak);
      PeakExtends(A, Ti, D, b, before, mid, peak);
      Ti := Ti + [D];
    }
  }

  /** T is the merge of the diagonal codes Ti over the dequantised A, with zero rows past the last block. */
  ghost predicate MergeOf(A: Matrix, Ti: seq<Codes>, b: nat, T: Matrix)
    requires b > 0
  {
    var Q := Leading(Rebuilt(A), |Ti| * b);
    T == Embed(MergedMatrix(Q, Ti, b), A.rows) && Merged(Q, MergedMatrix(Q, Ti, b), |Ti|, b)
  }

  /** The diagonal is stored, every row before i, and row i from column j on; each entry is its block. */
  ghost predicate MergedTo(table: Table, X: Matrix, nb: nat, b: nat, i: int, j: int) {
    && BlocksOf(table, X, b)
    && forall p, q :: (p, q) in table <==> 0 <= q <= p < i || 0 <= q == p < nb || (p == i && j <= q <= i)
  }

  lemma StoreMerged(table: Table, X: Matrix, nb: nat, b: nat, i: int, j: int, B: Matrix)
    requires MergedTo(table, X, nb, b, i, j + 1) && 0 <= j <= i < nb && B == Block(X, b, i, j)
    ensures MergedTo(table[(i, j) := B], X, nb, b, i, j)
  {
    hide Block;
  }

  lemma MergeReads(table: Table, X: Matrix, nb: nat, b: nat, i: int, j: int)
    requires MergedTo(table, X, nb, b, i, j + 1) && 0 <= j < i < nb
    ensures BlocksOf(table, X, b) && (i, i) in table && table[(i, i)] == Block(X, b, i, i)
    ensures forall k :: j <= k < i ==> (k, j) in table
  {
    hide Block;
  }

  lemma RowMerged(table: Table, X: Matrix, nb: nat, b: nat, i: int)
    requires MergedTo(table, X, nb, b, i, 0) && 0 <= i
    ensures MergedTo(table, X, nb, b, i + 1, i + 2)
  {
    hide BlocksOf;
  }

  lemma AllMerged(table: Table, X: Matrix, nb: nat, b: nat)
    requires MergedTo(table, X, nb, b, nb, nb + 1)
    ensures forall i, j :: 0 <= j <= i < nb ==> (i, j) in table && table[(i, j)] == Block(X, b, i, j)
  {
    hide Block;
  }

  /** Only the diagonal blocks, already solved. */
  method StoreDiagonals(Q: Matrix, nb: nat, b: nat, Ti: seq<Codes>, ghost X: Matrix) returns (table: Table)
    requires Square(Q) && b > 0 && nb == |Ti| && Q.rows == nb * b
    requires X == MergedMatrix(Q, Ti, b) && Merged(Q, X, nb, b)
    ensures MergedTo(table, X, nb, b, 0, 1)
  {
    hide At, MergedMatrix, MergeBlock, Block, Dequantize, Make, Merged;
    table := map[];
    for i := 0 to nb
      invariant BlocksOf(table, X, b)
      invariant forall p, q :: (p, q) in table <==> 0 <= q == p < i
    {
      MergedBlock(Q, Ti, b, i, i);
      DiagonalEntry(Q, Ti, b, i);
      table := table[(i, i) := Dequantize(Ti[i], b, ST)];
    }
  }

  /** Fills the table of merged blocks row by row, each row from the diagonal leftwards. */
  method FillMerge(Q: Matrix, n: nat, nb: nat, b: nat, Ti: seq<Codes>, ghost X: Matrix) returns (table: Table)
    requires StrictLower(Q) && b > 0 && nb == |Ti| && n == nb * b <= Q.rows
    requires X == MergedMatrix(Leading(Q, n), Ti, b) && Merged(Leading(Q, n), X, nb, b)
    ensures forall i, j :: 0 <= j <= i < nb ==> (i, j) in table && table[(i, j)] == Block(X, b, i, j)
  {
    hide At, MergedMatrix, Block, Leading, Make, MergedTo, BlocksOf, Mul, StrictLower, BlockSum;
    table := StoreDiagonals(Leading(Q, n), nb, b, Ti, X);
    for i := 0 to nb
      invariant MergedTo(table, X, nb, b, i, i + 1)
    {
      DiagonalKept(table, X, nb, b, i);
      var j := i;
      while j > 0
        invariant 0 <= j <= i
        invariant MergedTo(table, X, nb, b, i, j)
      {
        j := j - 1;
        MergeReads(table, X, nb, b, i, j);
        var acc := InnerSum(Q, n, nb, b, table, i, j, X);
        var B := Mul(table[(i, i)], acc);
        StoreMerged(table, X, nb, b, i, j, B);
        table := table[(i, j) := B];
      }
      RowMerged(table, X, nb, b, i);
    }
    AllMerged(table, X, nb, b);
  }

  lemma DiagonalKept(table: Table, X: Matrix, nb: nat, b: nat, i: int)
    requires MergedTo(table, X, nb, b, i, i + 1) && 0 <= i < nb
    ensures MergedTo(table, X, nb, b, i, i)
  {
    hide BlocksOf;
  }

  /**
   Diagonal blocks by rounded forward substitution, the rest by the merge: T is exactly the
   merge of the rounded diagonals over the dequantised A, zero past the last full block.
   */
  method SolveInt16(A: Matrix, b: nat, before: nat) returns (T: Matrix, peak: nat, ghost Ti: seq<Codes>)
    requires StrictLower(A) && b > 0
    ensures |Ti| == A.rows / b && DiagonalsRounded(A, Ti, b) && PeakOver(A, Ti, b, before, peak)
    ensures MergeOf(A, Ti, b, T)
  {
    hide At, MergedMatrix, MergeBlock, Block, Rebuilt, Leading, DiagonalsRounded, PeakOver, Embed, Make, Merged;
    var nb := A.rows / b;
    var n := nb * b;
    var Tis;
    Tis, peak := SolveDiagonals(A, b, before);
    Ti := Tis;
    RebuiltClose(A);
    ghost var X := MergedMatrix(Leading(Rebuilt(A), n), Ti, b);
    MergedMatrixIsMerged(Leading(Rebuilt(A), n), Ti, b);
    MergedZeroAbove(Leading(Rebuilt(A), n), Ti, b);
    var table := FillMerge(Rebuilt(A), n, nb, b, Tis, X);
    T := AssembleTable(A.rows, nb, b, table, X);
  }

  lemma DiagonalEntry(Q: Matrix, Ti: seq<Codes>, b: nat, i: nat)
    requires i < |Ti|
    ensures MergeBlock(Q, Ti, b, i, i) == Dequantize(Ti[i], b, ST)
  {
  }
}

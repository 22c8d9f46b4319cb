/**
 How far the int16 solver's whole result is from the exact inverse: of the dequantised A, and of A
 itself.
 */
module Int16Accuracy {
  import opened Arithmetic
  import opened Sums
  import opened Rounding
  import opened Matrices
  import opened MatrixBounds
  import opened Powers
  import opened Triangular
  import opened Blocks
  import opened BlockSolvers
  import opened Int16Solve
  import opened Int16Merge
  import opened Int16Range

  /** The exact inverse follows the same block recurrence. */
  lemma InverseMerged(Q: Matrix, nb: nat, b: nat)
    requires b > 0 && StrictLower(Q) && Q.rows == nb * b
    ensures Merged(Q, Inverse(Q), nb, b)
  {
    InverseZeroAbove(Q, b);
    hide At, Block, Inverse, BlockSum, ZeroAbove, StrictLower;
    forall i, j | 0 <= j < i < nb
      ensures Block(Inverse(Q), b, i, j) == Mul(Block(Inverse(Q), b, i, i), BlockSum(Q, Inverse(Q), b, i, j, j, i))
    {
      BlockRecurrence(Q, nb, b, i, j);
    }
  }

  /** What the stored diagonals are off by. */
  function DiagonalGap(T: Matrix, X: Matrix, b: nat): (E: Matrix)
    requires b > 0 && T.rows == X.rows && T.cols == X.cols
    ensures E.rows == T.rows && E.cols == T.cols
  {
    Sub(DiagonalPart(T, b), DiagonalPart(X, b))
  }

  /** D (I + L T) = T for any merged T. */
  lemma DiagonalTimesRest(Q: Matrix, T: Matrix, nb: nat, b: nat)
    requires b > 0 && Merged(Q, T, nb, b) && StrictLower(Q)
    ensures Mul(DiagonalPart(T, b), Add(Identity(Q.rows), Mul(OffDiagonalPart(Q, b), T))) == T
  {
    MergeEquation(Q, T, nb, b);
    hide At, DiagonalPart, OffDiagonalPart, Merged, StrictLower;
    var D, L := DiagonalPart(T, b), OffDiagonalPart(Q, b);
    MulAddRight(D, Identity(Q.rows), Mul(L, T));
    MulIdentityRight(D);
  }

  /** (I - D0 L)^-1 = I + X L. */
  lemma ResolventIs(N: Matrix, D0: Matrix, L: Matrix, X: Matrix)
    requires StrictLower(N) && L.rows == L.cols == D0.rows == D0.cols == N.rows
    requires N == Mul(D0, L) && X == Mul(Inverse(N), D0)
    ensures Inverse(N) == Add(Identity(N.rows), Mul(X, L))
  {
    hide At, Inverse, StrictLower, Mul, Sub, Add, Identity;
    var I, G := Identity(N.rows), Inverse(N);
    InverseBothSides(N);
    MulSubRight(G, I, N);
    MulIdentityRight(G);
    MulAssoc(G, D0, L);
    SubThenAdd(G, Mul(G, N), I);
  }

  lemma SubThenAdd(G: Matrix, Y: Matrix, I: Matrix)
    requires G.rows == Y.rows == I.rows && G.cols == Y.cols == I.cols && Sub(G, Y) == I
    ensures G == Add(I, Y)
  {
    hide At, Sub, Add;
    forall i, j | 0 <= i < G.rows && 0 <= j < G.cols
      ensures At(G, i, j) == At(Add(I, Y), i, j)
    {
      SubEntry(G, Y, i, j);
      AddEntry(I, Y, i, j);
    }
    Ext(G, Add(I, Y));
  }

  /**
   The whole error from the diagonal blocks' errors: T - X = (I + X L) E (I + L T), with X the
   exact inverse, E the diagonal gap and L the off-diagonal part.
   */
  lemma MergeErrorIdentity(Q: Matrix, T: Matrix, nb: nat, b: nat)
    requires b > 0 && Merged(Q, T, nb, b) && StrictLower(Q)
    ensures var X, L := Inverse(Q), OffDiagonalPart(Q, b);
            var E, I := DiagonalGap(T, X, b), Identity(Q.rows);
            Sub(T, X) == Mul(Add(I, Mul(X, L)), Mul(E, Add(I, Mul(L, T))))
  {
    var X, L := Inverse(Q), OffDiagonalPart(Q, b);
    InverseMerged(Q, nb, b);
    MergeClosedForm(Q, X, nb, b);
    DiagonalTimesRest(Q, T, nb, b);
    var D, D0, I := DiagonalPart(T, b), DiagonalPart(X, b), Identity(Q.rows);
    var F, N := Add(I, Mul(L, T)), Mul(D0, L);
    ResolventIs(N, D0, L, X);
    hide At, Inverse, StrictLower, DiagonalPart, OffDiagonalPart, Merged, Mul, Sub, Add, Identity;
    var G := Inverse(N);
    MulSubLeft(D, D0, F);
    GapTimesRest(D0, L, T, I);
    InverseTimes(N, T);
    MulSubRight(G, Mul(OneMinus(N), T), D0);
  }

  /** T - D0 (I + L T) = (I - D0 L) T - D0. */
  lemma GapTimesRest(D0: Matrix, L: Matrix, T: Matrix, I: Matrix)
    requires I == Identity(T.rows) && D0.rows == D0.cols == L.rows == L.cols == T.rows == T.cols
    ensures Sub(T, Mul(D0, Add(I, Mul(L, T)))) == Sub(Mul(OneMinus(Mul(D0, L)), T), D0)
  {
    MulAddRight(D0, I, Mul(L, T));
    MulIdentityRight(D0);
    MulAssoc(D0, L, T);
    MulSubLeft(I, Mul(D0, L), T);
    MulIdentityLeft(T);
    hide At, Mul, Identity;
    var Y := Mul(Mul(D0, L), T);
    forall i, j | 0 <= i < T.rows && 0 <= j < T.cols
      ensures At(Sub(T, Add(D0, Y)), i, j) == At(Sub(Sub(T, Y), D0), i, j)
    {
      SubEntry(T, Add(D0, Y), i, j);
      AddEntry(D0, Y, i, j);
      SubEntry(Sub(T, Y), D0, i, j);
      SubEntry(T, Y, i, j);
    }
    Ext(Sub(T, Add(D0, Y)), Sub(Sub(T, Y), D0));
  }

  lemma InverseTimes(N: Matrix, T: Matrix)
    requires Square(N) && StrictLower(N) && T.rows == N.rows
    ensures Mul(Inverse(N), Mul(OneMinus(N), T)) == T
  {
    hide At, Inverse, StrictLower, Mul;
    InverseBothSides(N);
    MulAssoc(Inverse(N), OneMinus(N), T);
    MulIdentityLeft(T);
  }

  /** Dropping the diagonal blocks does not raise a row sum. */
  lemma OffDiagonalWithin(Q: Matrix, b: nat, s: real)
    requires b > 0 && RowSumsWithin(Q, s)
    ensures RowSumsWithin(OffDiagonalPart(Q, b), s)
  {
    var L := OffDiagonalPart(Q, b);
    forall r | 0 <= r < Q.rows
      ensures Sum(L.cols, AbsRow(L, r)) <= s
    {
      forall l | 0 <= l < Q.cols
        ensures Abs(AbsRow(L, r)(l)) <= AbsRow(Q, r)(l)
      {
      }
      SumBounded(Q.cols, AbsRow(L, r), AbsRow(Q, r));
    }
  }

  /** e within one block of b indices, 0 outside. */
  function Window(b: nat, k: int, e: real): int -> real
    requires b > 0
  {
    l => if 0 <= l && l / b == k then e else 0.0
  }

  lemma WindowSum(nb: nat, b: nat, k: nat, e: real)
    requires b > 0 && k < nb
    ensures nb * b >= 0 && k * b >= 0
    ensures Sum(nb * b, Window(b, k, e)) == b as real * e
  {
    var f := Window(b, k, e);
    MulStep(k, nb, b);
    forall l | k * b + b <= l < nb * b
      ensures f(l) == 0.0
    {
      DivBelow(k + 1, b, l);
      assert (k + 1) * b == k * b + b;
    }
    SumTruncate(k * b + b, nb * b, f);
    SumSplit(k * b, b, f);
    forall l | 0 <= l < k * b
      ensures f(l) == 0.0
    {
      DivBelow(k, b, l);
    }
    SumZero(k * b, f);
    forall l | 0 <= l < b
      ensures Sums.Shift(k * b, f)(l) == e
    {
      Digits(k, b, l);
    }
    ConstantSum(b, Sums.Shift(k * b, f), e);
  }

  /** The diagonal blocks of T and X differ by at most e. */
  ghost predicate DiagonalsClose(T: Matrix, X: Matrix, nb: nat, b: nat, e: real) {
    e >= 0.0 && forall i, r, c :: 0 <= i < nb && 0 <= r < b && 0 <= c < b ==>
      Abs(At(Block(T, b, i, i), r, c) - At(Block(X, b, i, i), r, c)) <= e
  }

  lemma GapWithin(T: Matrix, X: Matrix, nb: nat, b: nat, e: real)
    requires b > 0 && T.rows == T.cols == X.rows == X.cols == nb * b && DiagonalsClose(T, X, nb, b, e)
    ensures RowSumsWithin(DiagonalGap(T, X, b), Steps(b as real, e))
  {
    var n := nb * b;
    StepsAtMost(0.0, b as real, e);
    StepsUnits(e);
    hide DiagonalsClose, DiagonalGap, Window, AbsRow, Steps, At;
    var E := DiagonalGap(T, X, b);
    forall r | 0 <= r < n
      ensures Sum(n, AbsRow(E, r)) <= Steps(b as real, e)
    {
      GapRow(T, X, nb, b, e, r);
    }
  }

  lemma GapRow(T: Matrix, X: Matrix, nb: nat, b: nat, e: real, r: nat)
    requires b > 0 && T.rows == T.cols == X.rows == X.cols == nb * b && DiagonalsClose(T, X, nb, b, e) && r < nb * b
    ensures Sum(nb * b, AbsRow(DiagonalGap(T, X, b), r)) <= Steps(b as real, e)
  {
    hide DiagonalsClose, DiagonalGap, Window, At;
    var f, g := AbsRow(DiagonalGap(T, X, b), r), Window(b, r / b, e);
    forall l | 0 <= l < nb * b
      ensures Abs(f(l)) <= g(l)
    {
      GapEntry(T, X, nb, b, e, r, l);
    }
    hide AbsRow;
    SumBounded(nb * b, f, g);
    SplitIndex(nb, b, r);
    WindowSum(nb, b, r / b, e);
  }

  lemma GapEntry(T: Matrix, X: Matrix, nb: nat, b: nat, e: real, r: nat, l: nat)
    requires b > 0 && T.rows == T.cols == X.rows == X.cols == nb * b && DiagonalsClose(T, X, nb, b, e)
    requires r < nb * b && l < nb * b
    ensures Abs(At(DiagonalGap(T, X, b), r, l)) <= Window(b, r / b, e)(l)
  {
    hide At, Block;
    SubEntry(DiagonalPart(T, b), DiagonalPart(X, b), r, l);
    if l / b == r / b {
      SplitIndex(nb, b, r);
      SplitIndex(nb, b, l);
      var k := r / b;
      assert At(Block(T, b, k, k), r % b, l % b) == At(T, r, l);
      assert At(Block(X, b, k, k), r % b, l % b) == At(X, r, l);
    }
  }

  /** What a matrix within z becomes under I + X L. */
  lemma Amplified(X: Matrix, L: Matrix, Z: Matrix, chi: real, rho: real, z: real)
    requires X.rows == X.cols == L.rows == L.cols == Z.rows
    requires RowSumsWithin(X, chi) && RowSumsWithin(L, rho) && EntriesWithin(Z, z)
    ensures EntriesWithin(Mul(Add(Identity(Z.rows), Mul(X, L)), Z), z + Steps(chi, Steps(rho, z)))
  {
    hide At, Mul, Add, Identity, RowSumsWithin, EntriesWithin, Steps;
    ProductWithin(L, Z, rho, z);
    ProductWithin(X, Mul(L, Z), chi, Steps(rho, z));
    SumWithin(Z, Mul(X, Mul(L, Z)), z, Steps(chi, Steps(rho, z)));
    MulAddLeft(Identity(Z.rows), Mul(X, L), Z);
    MulIdentityLeft(Z);
    MulAssoc(X, L, Z);
  }

  /** E (I + L T) is within the gap's row sums times what I + L T can reach. */
  lemma Spread(E: Matrix, L: Matrix, T: Matrix, be: real, rho: real, t: real)
    requires E.rows == E.cols == L.rows == L.cols == T.rows == T.cols
    requires RowSumsWithin(E, be) && RowSumsWithin(L, rho) && EntriesWithin(T, t)
    ensures EntriesWithin(Mul(E, Add(Identity(T.rows), Mul(L, T))), Steps(be, 1.0 + Steps(rho, t)))
  {
    hide At, Mul, Add, Identity, RowSumsWithin, EntriesWithin, Steps;
    ProductWithin(L, T, rho, t);
    IdentityWithin(T.rows);
    SumWithin(Identity(T.rows), Mul(L, T), 1.0, Steps(rho, t));
    ProductWithin(E, Add(Identity(T.rows), Mul(L, T)), be, 1.0 + Steps(rho, t));
  }

  /**
   The diagonal blocks' error e, spread over a block of b, and amplified by the size t of T on one
   side and by the row sums chi of the exact inverse on the other; rho bounds A's row sums.
   */
  function WholeError(b: real, e: real, rho: real, chi: real, t: real): real {
    (1.0 + chi * rho) * (b * e * (1.0 + rho * t))
  }

  /** The bound on every entry of T - X. */
  lemma MergeErrorBound(Q: Matrix, T: Matrix, nb: nat, b: nat, e: real, rho: real, chi: real, t: real)
    requires b > 0 && Merged(Q, T, nb, b) && StrictLower(Q) && DiagonalsClose(T, Inverse(Q), nb, b, e)
    requires RowSumsWithin(Q, rho) && RowSumsWithin(Inverse(Q), chi) && EntriesWithin(T, t)
    ensures EntriesWithin(Sub(T, Inverse(Q)), WholeError(b as real, e, rho, chi, t))
  {
    MergeErrorIdentity(Q, T, nb, b);
    var X, L := Inverse(Q), OffDiagonalPart(Q, b);
    GapWithin(T, X, nb, b, e);
    OffDiagonalWithin(Q, b, rho);
    hide At, Inverse, StrictLower, DiagonalsClose, DiagonalGap, OffDiagonalPart, Merged, Mul, Add, Sub, Identity;
    hide RowSumsWithin, EntriesWithin, Steps, WholeError;
    var E, be := DiagonalGap(T, X, b), Steps(b as real, e);
    Spread(E, L, T, be, rho, t);
    var z := Steps(be, 1.0 + Steps(rho, t));
    Amplified(X, L, Mul(E, Add(Identity(Q.rows), Mul(L, T))), chi, rho, z);
    BoundForm(b as real, e, rho, chi, t);
  }

  lemma BoundForm(b: real, e: real, rho: real, chi: real, t: real)
    ensures var z := Steps(Steps(b, e), 1.0 + Steps(rho, t));
            z + Steps(chi, Steps(rho, z)) == WholeError(b, e, rho, chi, t)
  {
    Collected(chi, rho, b * e * (1.0 + rho * t));
  }

  lemma Collected(chi: real, rho: real, z: real)
    ensures z + chi * (rho * z) == (1.0 + chi * rho) * z
  {
    assert chi * (rho * z) == chi * rho * z;
  }

  /** Half an output code, grown over the rows of one block: 0.5 ST (1 + max|A|)^(b-1). */
  function DiagonalBound(A: Matrix, b: nat): real
    requires b > 0
  {
    ST * (0.5 * RealPow(1.0 + MaxAbs(A), b - 1))
  }

  /** Entry (r, c) of diagonal block i is within that bound of the exact inverse's. */
  ghost predicate EntryWithin(A: Matrix, Ti: seq<Codes>, b: nat, i: nat, r: nat, c: nat)
    requires b > 0 && i < |Ti|
  {
    Abs(At(Dequantize(Ti[i], b, ST), r, c) - At(Inverse(Block(Rebuilt(A), b, i, i)), r, c)) <= DiagonalBound(A, b)
  }

  /** Every diagonal block that does not clip is. */
  lemma DiagonalWithin(A: Matrix, Ti: seq<Codes>, b: nat, i: nat, r: nat, c: nat)
    requires StrictLower(A) && |Ti| * b <= A.rows && i < |Ti| && r < b && c < b && DiagonalsRounded(A, Ti, b)
    requires NothingClips(QuantizedBlock(A, b, i), Ti[i], InputScale(A), b, b)
    ensures EntryWithin(A, Ti, b, i, r, c)
  {
    hide At, Inverse, InputScale, Dequantize, MaxAbs, Rebuilt, Block, RealPow, QuantizedBlock, NothingClips;
    DiagonalError(A, Ti, b, i, r, c);
    var x := 1.0 + MaxAbs(A);
    PowMonotone(x, if c <= r then r - c else 0, b - 1);
    HalfSteps(RealPow(x, if c <= r then r - c else 0), RealPow(x, b - 1));
  }

  lemma HalfSteps(x: real, y: real)
    requires 0.0 < x <= y
    ensures 0.0 <= ST * (0.5 * x) <= ST * (0.5 * y)
    ensures y < 2.0 ==> ST * (0.5 * y) < ST
  {
  }

  /**
   Told from max|A| and the block size: nothing clips and the diagonal blocks keep their bound, which
   is less than one output step while (1 + max|A|)^(b-1) is below 2.
   */
  lemma DiagonalWithinStep(A: Matrix, Ti: seq<Codes>, b: nat)
    requires StrictLower(A) && b > 0 && |Ti| * b <= A.rows && DiagonalsRounded(A, Ti, b)
    requires CannotClip(MaxAbs(A), b) || RealPow(1.0 + MaxAbs(A), b - 1) < 2.0
    ensures ClipFree(A, Ti, b)
    ensures forall i, r, c :: 0 <= i < |Ti| && 0 <= r < b && 0 <= c < b ==>
              EntryWithin(A, Ti, b, i, r, c)
    ensures RealPow(1.0 + MaxAbs(A), b - 1) < 2.0 ==> DiagonalBound(A, b) < ST
  {
    hide At, Inverse, InputScale, Dequantize, MaxAbs, Code, Rebuilt, Block, RealPow, QuantizedBlock, CannotClip;
    hide NothingClips, DiagonalBound, EntryWithin, Ceiling, WorstSum;
    if RealPow(1.0 + MaxAbs(A), b - 1) < 2.0 {
      BelowTwo(MaxAbs(A), b);
      BoundBelowStep(A, b);
    }
    forall i | 0 <= i < |Ti|
      ensures NothingClips(QuantizedBlock(A, b, i), Ti[i], InputScale(A), b, b)
    {
      BlockCodes(A, |Ti|, b, i);
      WorstDecides(QuantizedBlock(A, b, i), Ti[i], InputScale(A), MaxAbs(A), b);
    }
    forall i, r, c | 0 <= i < |Ti| && 0 <= r < b && 0 <= c < b
      ensures EntryWithin(A, Ti, b, i, r, c)
    {
      DiagonalWithin(A, Ti, b, i, r, c);
    }
  }

  lemma BoundBelowStep(A: Matrix, b: nat)
    requires b > 0 && RealPow(1.0 + MaxAbs(A), b - 1) < 2.0
    ensures DiagonalBound(A, b) < ST
  {
    hide MaxAbs, RealPow;
    PowMonotone(1.0 + MaxAbs(A), 0, b - 1);
    HalfSteps(RealPow(1.0 + MaxAbs(A), b - 1), RealPow(1.0 + MaxAbs(A), b - 1));
  }

  lemma StoredDiagonalsClose(A: Matrix, Ti: seq<Codes>, b: nat, n: nat)
    requires StrictLower(A) && b > 0 && n == |Ti| * b <= A.rows && DiagonalsRounded(A, Ti, b) && ClipFree(A, Ti, b)
    ensures var Q := Leading(Rebuilt(A), n);
            DiagonalsClose(MergedMatrix(Q, Ti, b), Inverse(Q), |Ti|, b, DiagonalBound(A, b))
  {
    RebuiltClose(A);
    BoundPositive(A, b);
    hide At, Inverse, StrictLower, Rebuilt, Leading, MaxAbs, RealPow, DiagonalsRounded, MergedMatrix, Block, Dequantize;
    hide ClipFree, DiagonalBound;
    var Q := Leading(Rebuilt(A), n);
    forall i, r, c | 0 <= i < |Ti| && 0 <= r < b && 0 <= c < b
      ensures Abs(At(Block(MergedMatrix(Q, Ti, b), b, i, i), r, c) - At(Block(Inverse(Q), b, i, i), r, c))
              <= DiagonalBound(A, b)
    {
      StoredClose(A, Ti, b, n, i, r, c);
    }
  }

  lemma BoundPositive(A: Matrix, b: nat)
    requires b > 0
    ensures DiagonalBound(A, b) >= 0.0
  {
    hide MaxAbs, RealPow;
    PowMonotone(1.0 + MaxAbs(A), 0, b - 1);
    HalfSteps(RealPow(1.0 + MaxAbs(A), b - 1), RealPow(1.0 + MaxAbs(A), b - 1));
  }

  lemma StoredClose(A: Matrix, Ti: seq<Codes>, b: nat, n: nat, i: nat, r: nat, c: nat)
    requires StrictLower(A) && b > 0 && n == |Ti| * b <= A.rows && DiagonalsRounded(A, Ti, b) && ClipFree(A, Ti, b)
    requires StrictLower(Rebuilt(A)) && i < |Ti| && r < b && c < b
    ensures var Q := Leading(Rebuilt(A), n);
            Abs(At(Block(MergedMatrix(Q, Ti, b), b, i, i), r, c) - At(Block(Inverse(Q), b, i, i), r, c))
            <= DiagonalBound(A, b)
  {
    hide At, Inverse, StrictLower, Rebuilt, Leading, MaxAbs, RealPow, DiagonalsRounded, MergedMatrix, Block, Dequantize;
    hide NothingClips, DiagonalBound;
    StoredDiagonal(A, Ti, b, n, i);
    DiagonalWithin(A, Ti, b, i, r, c);
  }

  lemma FullBlocks(n: nat, b: nat)
    requires b > 0
    ensures n / b * b <= n
  {
  }

  /**
   The whole int16 result of any run that does not clip, against the exact inverse of the
   dequantised A, on the rows the blocks cover.
   */
  lemma SolveError(A: Matrix, Ti: seq<Codes>, b: nat, rho: real, chi: real, t: real)
    requires StrictLower(A) && b > 0 && |Ti| == A.rows / b && DiagonalsRounded(A, Ti, b) && ClipFree(A, Ti, b)
    requires var Q := Leading(Rebuilt(A), |Ti| * b);
             RowSumsWithin(Q, rho) && RowSumsWithin(Inverse(Q), chi) && EntriesWithin(MergedMatrix(Q, Ti, b), t)
    ensures var Q := Leading(Rebuilt(A), |Ti| * b);
            EntriesWithin(Sub(MergedMatrix(Q, Ti, b), Inverse(Q)),
                          WholeError(b as real, DiagonalBound(A, b), rho, chi, t))
  {
    hide At, Inverse, StrictLower, Rebuilt, Leading, MaxAbs, RealPow, DiagonalsRounded, Merged, MergedMatrix;
    hide RowSumsWithin, EntriesWithin, WholeError, DiagonalsClose, ClipFree, DiagonalBound;
    FullBlocks(A.rows, b);
    var n := |Ti| * b;
    var Q := Leading(Rebuilt(A), n);
    RebuiltClose(A);
    LeadingStrict(Rebuilt(A), n);
    MergedMatrixIsMerged(Q, Ti, b);
    StoredDiagonalsClose(A, Ti, b, n);
    MergeErrorBound(Q, MergedMatrix(Q, Ti, b), |Ti|, b, DiagonalBound(A, b), rho, chi, t);
  }

  /** (I - Q)^-1 - (I - A)^-1 = (I - Q)^-1 (Q - A) (I - A)^-1. */
  lemma InverseGap(Q: Matrix, A: Matrix)
    requires StrictLower(Q) && StrictLower(A) && Q.rows == A.rows
    ensures Sub(Inverse(Q), Inverse(A)) == Mul(Inverse(Q), Mul(Sub(Q, A), Inverse(A)))
  {
    var X, Y := Inverse(Q), Inverse(A);
    hide At, Inverse, StrictLower, Mul, Sub, Identity;
    InverseBothSides(Q);
    InverseBothSides(A);
    MulAssoc(X, OneMinus(Q), Y);
    MulIdentityLeft(Y);
    MulIdentityRight(X);
    MulSubRight(X, Mul(OneMinus(A), Y), Mul(OneMinus(Q), Y));
    MulSubLeft(OneMinus(A), OneMinus(Q), Y);
    ComplementsGap(Q, A);
  }

  lemma ComplementsGap(Q: Matrix, A: Matrix)
    requires Square(Q) && Square(A) && Q.rows == A.rows
    ensures Sub(OneMinus(A), OneMinus(Q)) == Sub(Q, A)
  {
    hide At;
    Ext(Sub(OneMinus(A), OneMinus(Q)), Sub(Q, A));
  }

  /** What quantising A moves a row by, in absolute sum. */
  function InputError(A: Matrix, n: nat): real {
    Steps(n as real, 0.5 * InputScale(A))
  }

  lemma InputRows(A: Matrix, n: nat)
    requires StrictLower(A) && n <= A.rows
    ensures RowSumsWithin(Sub(Leading(Rebuilt(A), n), Leading(A, n)), InputError(A, n))
  {
    assert Square(A);
    hide At, Rebuilt, InputScale, StrictLower, Leading, RowSumsWithin, Sub, Steps;
    var E := Sub(Leading(Rebuilt(A), n), Leading(A, n));
    forall r, l | 0 <= r < n && 0 <= l < n
      ensures Abs(At(E, r, l)) <= 0.5 * InputScale(A)
    {
      InputEntry(A, n, r, l);
    }
    RowsFromEntries(E, 0.5 * InputScale(A));
  }

  lemma InputEntry(A: Matrix, n: nat, r: nat, l: nat)
    requires StrictLower(A) && r < n && l < n <= A.rows
    ensures Abs(At(Sub(Leading(Rebuilt(A), n), Leading(A, n)), r, l)) <= 0.5 * InputScale(A)
  {
    assert Square(A);
    RebuiltClose(A);
    hide At, Rebuilt, InputScale, Leading, StrictLower;
    SubEntry(Leading(Rebuilt(A), n), Leading(A, n), r, l);
    LeadingEntry(Rebuilt(A), n, r, l);
    LeadingEntry(A, n, r, l);
  }

  /** The bound against A itself: the solver's error and what quantising A does to its inverse. */
  function TotalError(A: Matrix, n: nat, b: nat, rho: real, chi: real, t: real, x: real): real
    requires b > 0
  {
    WholeError(b as real, DiagonalBound(A, b), rho, chi, t) + Steps(chi, Steps(InputError(A, n), x))
  }

  /** The whole int16 result of any run that does not clip, against the exact inverse of A itself. */
  lemma TotalErrorBound(A: Matrix, Ti: seq<Codes>, b: nat, rho: real, chi: real, t: real, x: real)
    requires StrictLower(A) && b > 0 && |Ti| == A.rows / b && DiagonalsRounded(A, Ti, b) && ClipFree(A, Ti, b)
    requires var Q := Leading(Rebuilt(A), |Ti| * b);
             RowSumsWithin(Q, rho) && RowSumsWithin(Inverse(Q), chi) && EntriesWithin(MergedMatrix(Q, Ti, b), t)
    requires EntriesWithin(Inverse(Leading(A, |Ti| * b)), x)
    ensures EntriesWithin(Sub(MergedMatrix(Leading(Rebuilt(A), |Ti| * b), Ti, b), Inverse(Leading(A, |Ti| * b))),
                          TotalError(A, |Ti| * b, b, rho, chi, t, x))
  {
    SolveError(A, Ti, b, rho, chi, t);
    RebuiltClose(A);
    hide At, Inverse, StrictLower, Rebuilt, Leading, MaxAbs, DiagonalsRounded, MergedMatrix, Mul, Sub, Add;
    hide RowSumsWithin, EntriesWithin, WholeError, ClipFree, DiagonalBound, Steps, InputError;
    FullBlocks(A.rows, b);
    var n := |Ti| * b;
    var Q, L := Leading(Rebuilt(A), n), Leading(A, n);
    var T := MergedMatrix(Q, Ti, b);
    LeadingStrict(Rebuilt(A), n);
    LeadingStrict(A, n);
    InverseGap(Q, L);
    InputRows(A, n);
    ProductWithin(Sub(Q, L), Inverse(L), InputError(A, n), x);
    ProductWithin(Inverse(Q), Mul(Sub(Q, L), Inverse(L)), chi, Steps(InputError(A, n), x));
    SumWithin(Sub(T, Inverse(Q)), Sub(Inverse(Q), Inverse(L)), WholeError(b as real, DiagonalBound(A, b), rho, chi, t),
              Steps(chi, Steps(InputError(A, n), x)));
    Between(T, Inverse(Q), Inverse(L));
  }

  /** (T - X) + (X - Y) = T - Y. */
  lemma Between(T: Matrix, X: Matrix, Y: Matrix)
    requires T.rows == X.rows == Y.rows && T.cols == X.cols == Y.cols
    ensures Add(Sub(T, X), Sub(X, Y)) == Sub(T, Y)
  {
    hide At;
    Ext(Add(Sub(T, X), Sub(X, Y)), Sub(T, Y));
  }

  lemma StoredDiagonal(A: Matrix, Ti: seq<Codes>, b: nat, n: nat, i: nat)
    requires StrictLower(Rebuilt(A)) && b > 0 && i < |Ti| && n == |Ti| * b <= A.rows
    ensures var Q := Leading(Rebuilt(A), n);
            && Block(MergedMatrix(Q, Ti, b), b, i, i) == Dequantize(Ti[i], b, ST)
            && Block(Inverse(Q), b, i, i) == Inverse(Block(Rebuilt(A), b, i, i))
  {
    hide At, Inverse, Rebuilt, MergedMatrix, Block, Dequantize, MergeBlock;
    var Q := Leading(Rebuilt(A), n);
    MergedBlock(Q, Ti, b, i, i);
    DiagonalEntry(Q, Ti, b, i);
    DiagonalBlock(Rebuilt(A), n, |Ti|, b, i);
  }
}

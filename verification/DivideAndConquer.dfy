/** Recursive 2x2 block inverse, with the probe's matmul and depth counters. */
module DivideAndConquer {
  import opened Arithmetic
  import opened Sums
  import opened Matrices
  import opened Triangular

  /** The m x n window of A at (i0, j0). */
  function Window(A: Matrix, i0: int, j0: int, m: nat, n: nat): (W: Matrix)
    ensures W.rows == m && W.cols == n
  {
    Make(m, n, (i, j) => At(A, i0 + i, j0 + j))
  }

  ghost predicate UnitLower(M: Matrix) {
    Square(M) && StrictLower(OneMinus(M))
  }

  lemma UnitLowerEntries(M: Matrix)
    requires UnitLower(M)
    ensures forall i, j :: 0 <= i < j < M.rows ==> At(M, i, j) == 0.0
    ensures forall i :: 0 <= i < M.rows ==> At(M, i, i) == 1.0
    ensures OneMinus(OneMinus(M)) == M
  {
    forall i, j | 0 <= i <= j < M.rows
      ensures At(M, i, j) == if i == j then 1.0 else 0.0
    {
      assert At(OneMinus(M), i, j) == 0.0;
    }
    Ext(OneMinus(OneMinus(M)), M);
  }

  lemma UnitLowerInverts(M: Matrix)
    requires UnitLower(M)
    ensures Mul(M, Inverse(OneMinus(M))) == Identity(M.rows)
  {
    UnitLowerEntries(M);
    InverseBothSides(OneMinus(M));
  }

  lemma OneMinusEntry(M: Matrix, r: int, c: int)
    requires Square(M)
    ensures At(OneMinus(M), r, c)
            == if 0 <= r < M.rows && 0 <= c < M.rows then (if r == c then 1.0 else 0.0) - At(M, r, c) else 0.0
  {
  }

  lemma WindowUnitLower(M: Matrix, i: nat, n: nat)
    requires UnitLower(M) && i + n <= M.rows
    ensures UnitLower(Window(M, i, i, n, n))
  {
    UnitLowerEntries(M);
    hide At, OneMinus, Window;
    var W := Window(M, i, i, n, n);
    forall r, c | At(OneMinus(W), r, c) != 0.0
      ensures c < r < n
    {
      OneMinusEntry(W, r, c);
      if 0 <= r < n && 0 <= c < n { WindowEntry(M, i, i, n, n, r, c); }
    }
  }

  /** [I11 0; X21 I22]. */
  function Assemble(h: nat, n: nat, I11: Matrix, X21: Matrix, I22: Matrix): (C: Matrix)
    ensures C.rows == C.cols == n
  {
    Make(n, n, (i, j) => if i < h && j < h then At(I11, i, j)
                         else if i < h then 0.0
                         else if j < h then At(X21, i - h, j) else At(I22, i - h, j - h))
  }

  lemma AssembledEntry(h: nat, n: nat, I11: Matrix, X21: Matrix, I22: Matrix, i: int, j: int)
    requires 0 <= i < n && 0 <= j < n
    ensures At(Assemble(h, n, I11, X21, I22), i, j)
            == if i < h && j < h then At(I11, i, j)
               else if i < h then 0.0
               else if j < h then At(X21, i - h, j) else At(I22, i - h, j - h)
  {
    hide At;
  }

  lemma WindowEntry(A: Matrix, i0: int, j0: int, m: nat, n: nat, i: int, j: int)
    requires 0 <= i < m && 0 <= j < n
    ensures At(Window(A, i0, j0, m, n), i, j) == At(A, i0 + i, j0 + j)
  {
    hide At;
  }

  /** Row i of M meets the assembled matrix only inside the blocks of its half. */
  lemma TopTerm(M: Matrix, h: nat, I11: Matrix, X21: Matrix, I22: Matrix, i: int, j: int, l: int)
    requires 0 <= i < h <= M.rows && 0 <= j < M.rows && 0 <= l < h
    ensures Term(M, Assemble(h, M.rows, I11, X21, I22), i, j)(l)
            == if j < h then Term(Window(M, 0, 0, h, h), I11, i, j)(l) else 0.0
  {
    hide At, Assemble, Window;
    AssembledEntry(h, M.rows, I11, X21, I22, l, j);
    WindowEntry(M, 0, 0, h, h, i, l);
  }

  lemma TopEntry(M: Matrix, h: nat, I11: Matrix, X21: Matrix, I22: Matrix, i: int, j: int)
    requires UnitLower(M) && 0 <= i < h <= M.rows && 0 <= j < M.rows
    requires I11.rows == I11.cols == h
    ensures Dot(M, Assemble(h, M.rows, I11, X21, I22), i, j)
            == if j < h then Dot(Window(M, 0, 0, h, h), I11, i, j) else 0.0
  {
    hide At, Assemble, Window;
    var f := Term(M, Assemble(h, M.rows, I11, X21, I22), i, j);
    UnitLowerEntries(M);
    hide UnitLower;
    SumTruncate(h, M.rows, f);
    if j < h {
      forall l | 0 <= l < h
        ensures f(l) == Term(Window(M, 0, 0, h, h), I11, i, j)(l)
      {
        TopTerm(M, h, I11, X21, I22, i, j, l);
      }
      SumExt(h, f, Term(Window(M, 0, 0, h, h), I11, i, j));
    } else {
      forall l | 0 <= l < h
        ensures f(l) == 0.0
      {
        TopTerm(M, h, I11, X21, I22, i, j, l);
      }
      SumZero(h, f);
    }
  }

  lemma BottomLeftTerm(M: Matrix, h: nat, I11: Matrix, X21: Matrix, I22: Matrix, i: int, j: int, l: int)
    requires 0 <= h <= i < M.rows && 0 <= j < M.rows && 0 <= l < h
    ensures Term(M, Assemble(h, M.rows, I11, X21, I22), i, j)(l)
            == if j < h then Term(Window(M, h, 0, M.rows - h, h), I11, i - h, j)(l) else 0.0
  {
    hide At, Assemble, Window;
    AssembledEntry(h, M.rows, I11, X21, I22, l, j);
    WindowEntry(M, h, 0, M.rows - h, h, i - h, l);
  }

  lemma BottomRightTerm(M: Matrix, h: nat, I11: Matrix, X21: Matrix, I22: Matrix, i: int, j: int, l: int)
    requires 0 <= h <= i < M.rows && 0 <= j < M.rows && 0 <= l < M.rows - h
    ensures var L22 := Window(M, h, h, M.rows - h, M.rows - h);
            Shift(h, Term(M, Assemble(h, M.rows, I11, X21, I22), i, j))(l)
            == if j < h then Term(L22, X21, i - h, j)(l) else Term(L22, I22, i - h, j - h)(l)
  {
    hide At, Assemble, Window;
    AssembledEntry(h, M.rows, I11, X21, I22, h + l, j);
    WindowEntry(M, h, h, M.rows - h, M.rows - h, i - h, l);
  }

  lemma BottomEntry(M: Matrix, h: nat, I11: Matrix, X21: Matrix, I22: Matrix, i: int, j: int)
    requires Square(M) && 0 <= h <= i < M.rows && 0 <= j < M.rows
    requires I11.rows == I11.cols == X21.cols == h && I22.rows == I22.cols == X21.rows == M.rows - h
    ensures var n, L22 := M.rows, Window(M, h, h, M.rows - h, M.rows - h);
            Dot(M, Assemble(h, n, I11, X21, I22), i, j)
            == if j < h then Dot(Window(M, h, 0, n - h, h), I11, i - h, j) + Dot(L22, X21, i - h, j)
               else Dot(L22, I22, i - h, j - h)
  {
    hide At, Assemble, Window, Term, Shift;
    var n, L21, L22 := M.rows, Window(M, h, 0, M.rows - h, h), Window(M, h, h, M.rows - h, M.rows - h);
    var f := Term(M, Assemble(h, n, I11, X21, I22), i, j);
    SumSplit(h, n - h, f);
    forall l | 0 <= l < h
      ensures f(l) == if j < h then Term(L21, I11, i - h, j)(l) else 0.0
    {
      BottomLeftTerm(M, h, I11, X21, I22, i, j, l);
    }
    forall l | 0 <= l < n - h
      ensures Shift(h, f)(l) == if j < h then Term(L22, X21, i - h, j)(l) else Term(L22, I22, i - h, j - h)(l)
    {
      BottomRightTerm(M, h, I11, X21, I22, i, j, l);
    }
    if j < h {
      SumExt(h, f, Term(L21, I11, i - h, j));
      SumExt(n - h, Shift(h, f), Term(L22, X21, i - h, j));
    } else {
      SumZero(h, f);
      SumExt(n - h, Shift(h, f), Term(L22, I22, i - h, j - h));
    }
  }

  /** L22 (-I22 t) = -t when L22 I22 = I. */
  lemma Cancel(L22: Matrix, I22: Matrix, t: Matrix)
    requires Square(L22) && I22.rows == I22.cols == L22.rows == t.rows
    requires Mul(L22, I22) == Identity(L22.rows)
    ensures Mul(L22, Scale(-1.0, Mul(I22, t))) == Scale(-1.0, t)
  {
    MulScaleRight(L22, -1.0, Mul(I22, t));
    MulAssoc(L22, I22, t);
    MulIdentityLeft(t);
  }

  lemma MergeIsInverse(M: Matrix, h: nat, L11: Matrix, L21: Matrix, L22: Matrix, I11: Matrix, I22: Matrix)
    requires UnitLower(M) && h <= M.rows
    requires L11 == Window(M, 0, 0, h, h) && L21 == Window(M, h, 0, M.rows - h, h)
    requires L22 == Window(M, h, h, M.rows - h, M.rows - h)
    requires I11.rows == I11.cols == h && I22.rows == I22.cols == M.rows - h
    requires Mul(L11, I11) == Identity(h) && Mul(L22, I22) == Identity(M.rows - h)
    ensures Assemble(h, M.rows, I11, Scale(-1.0, Mul(I22, Mul(L21, I11))), I22) == Inverse(OneMinus(M))
  {
    hide At, Mul, Dot, Identity, Scale, Assemble, Window, UnitLower, Inverse, StrictLower;
    var n, t := M.rows, Mul(L21, I11);
    var X21 := Scale(-1.0, Mul(I22, t));
    var out := Assemble(h, n, I11, X21, I22);
    UnitLowerStrict(M);
    Cancel(L22, I22, t);
    forall i, j | 0 <= i < n && 0 <= j < n
      ensures At(Mul(M, out), i, j) == At(Identity(n), i, j)
    {
      MulEntry(M, out, i, j);
      if i < h {
        TopEntry(M, h, I11, X21, I22, i, j);
        if j < h { MulEntry(L11, I11, i, j); }
        IdentityEntry(h, i, j);
      } else {
        BottomEntry(M, h, I11, X21, I22, i, j);
        if j < h { Cancelled(L21, I11, L22, X21, t, i - h, j); } else { MulEntry(L22, I22, i - h, j - h); }
        IdentityEntry(n - h, i - h, j - h);
      }
      IdentityEntry(n, i, j);
    }
    Ext(Mul(M, out), Identity(n));
    UnitLowerEntries(M);
    InverseUnique(OneMinus(M), out);
  }

  lemma UnitLowerStrict(M: Matrix)
    requires UnitLower(M)
    ensures Square(M) && StrictLower(OneMinus(M))
  {
    hide StrictLower;
  }

  lemma IdentityEntry(n: nat, i: int, j: int)
    ensures At(Identity(n), i, j) == if 0 <= i < n && i == j then 1.0 else 0.0
  {
  }

  /** L21 I11 + L22 X21 = 0, entry by entry. */
  lemma Cancelled(L21: Matrix, I11: Matrix, L22: Matrix, X21: Matrix, t: Matrix, i: int, j: int)
    requires L21.cols == I11.rows && L22.cols == X21.rows && L21.rows == L22.rows && I11.cols == X21.cols
    requires t == Mul(L21, I11) && Mul(L22, X21) == Scale(-1.0, t) && 0 <= i < t.rows && 0 <= j < t.cols
    ensures Dot(L21, I11, i, j) + Dot(L22, X21, i, j) == 0.0
  {
    hide At, Mul, Dot;
    MulEntry(L21, I11, i, j);
    MulEntry(L22, X21, i, j);
  }

  /** The split of an n x n unit lower matrix after h rows. */
  lemma SplitStep(M: Matrix, h: nat)
    requires UnitLower(M) && h <= M.rows
    ensures UnitLower(Window(M, 0, 0, h, h)) && UnitLower(Window(M, h, h, M.rows - h, M.rows - h))
    ensures var I11 := Inverse(OneMinus(Window(M, 0, 0, h, h)));
            var I22 := Inverse(OneMinus(Window(M, h, h, M.rows - h, M.rows - h)));
            Assemble(h, M.rows, I11, Scale(-1.0, Mul(I22, Mul(Window(M, h, 0, M.rows - h, h), I11))), I22)
            == Inverse(OneMinus(M))
  {
    hide At;
    var n := M.rows;
    var L11, L22 := Window(M, 0, 0, h, h), Window(M, h, h, n - h, n - h);
    WindowUnitLower(M, 0, h);
    WindowUnitLower(M, h, n - h);
    UnitLowerInverts(L11);
    UnitLowerInverts(L22);
    MergeIsInverse(M, h, L11, Window(M, h, 0, n - h, h), L22, Inverse(OneMinus(L11)), Inverse(OneMinus(L22)));
  }

  /** Matmuls and depth of the recursion on an n x n matrix. */
  function Matmuls(n: nat, base: nat): nat
    requires base >= 1
  {
    if n <= base then 0 else Matmuls(n / 2, base) + Matmuls(n - n / 2, base) + 2
  }

  function Depth(n: nat, base: nat): nat
    requires base >= 1
  {
    if n <= base then 0 else 1 + Max(Depth(n / 2, base), Depth(n - n / 2, base))
  }

  lemma CostUnfolds(n: nat, base: nat)
    requires base >= 1
    ensures n <= base ==> Matmuls(n, base) == Depth(n, base) == 0
    ensures n > base ==> Matmuls(n, base) == Matmuls(n / 2, base) + Matmuls(n - n / 2, base) + 2
    ensures n > base ==> Depth(n, base) == 1 + Max(Depth(n / 2, base), Depth(n - n / 2, base))
  {
  }

  /** n is base doubled d times. */
  predicate Doubled(n: nat, base: nat, d: nat) {
    n == base * Pow2(d)
  }

  lemma DoubledHalves(n: nat, base: nat, d: nat)
    requires Doubled(n, base, d) && base >= 1
    ensures if d == 0 then n == base else n / 2 == n - n / 2 && n > base && Doubled(n / 2, base, d - 1)
  {
    if d > 0 { HalvesOf(n, base, Pow2(d - 1)); }
  }

  lemma HalvesOf(n: nat, base: nat, p: nat)
    requires base >= 1 && p >= 1 && n == base * (2 * p)
    ensures n / 2 == n - n / 2 == base * p && n > base
  {
    assert n == 2 * (base * p);
    assert base * (p - 1) >= 0;
  }

  /** Depth is log2(n / base) when n is base times a power of two, with two matmuls per merge. */
  lemma {:induction false} CostOfPowers(base: nat, d: nat, n: nat)
    requires base >= 1 && Doubled(n, base, d)
    ensures Depth(n, base) == d
    ensures Matmuls(n, base) == 2 * (Pow2(d) - 1)
  {
    hide Doubled, Depth, Matmuls;
    CostUnfolds(n, base);
    DoubledHalves(n, base, d);
    if d > 0 { CostOfPowers(base, d - 1, n / 2); }
  }

  class Probe {
    var matmuls: nat
    var maxDepth: nat

    constructor ()
      ensures matmuls == 0 && maxDepth == 0
    {
      matmuls, maxDepth := 0, 0;
    }

    /** The inverse of M; blocks of at most `base` rows are inverted outright. */
    method TriInv(M: Matrix, base: nat, depth: nat) returns (out: Matrix)
      requires UnitLower(M) && base >= 1
      modifies this
      ensures out == Inverse(OneMinus(M))
      ensures matmuls == old(matmuls) + Matmuls(M.rows, base)
      ensures maxDepth == Max(old(maxDepth), depth + Depth(M.rows, base))
      decreases M.rows
    {
      hide At, Matmuls, Depth, Inverse, Make, Scale, Mul, Assemble, Window, OneMinus, StrictLower;
      CostUnfolds(M.rows, base);
      maxDepth := Max(maxDepth, depth);
      var n := M.rows;
      if n <= base { return Inverse(OneMinus(M)); }
      var h := n / 2;
      SplitStep(M, h);
      var L11, L21, L22 := Window(M, 0, 0, h, h), Window(M, h, 0, n - h, h), Window(M, h, h, n - h, n - h);
      var I11 := TriInv(L11, base, depth + 1);
      var I22 := TriInv(L22, base, depth + 1);
      var t := Mul(L21, I11);
      matmuls := matmuls + 1;
      var X21 := Scale(-1.0, Mul(I22, t));
      matmuls := matmuls + 1;
      out := Assemble(h, n, I11, X21, I22);
    }
  }
}

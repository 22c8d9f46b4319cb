/** Real matrices and the ring laws the solvers and the chunk kernel rest on. */
module Matrices {
  import opened Sums

  datatype Mat = Mat(rows: nat, cols: nat, cells: seq<seq<real>>) {
    predicate Valid() {
      |cells| == rows && forall i :: 0 <= i < rows ==> |cells[i]| == cols
    }
  }

  type Matrix = m: Mat | m.Valid() witness Mat(0, 0, [])

  /** The entry at (i, j); zero outside the matrix, so padding needs no special case. */
  function At(A: Matrix, i: int, j: int): real {
    if 0 <= i < A.rows && 0 <= j < A.cols then A.cells[i][j] else 0.0
  }

  function Make(rows: nat, cols: nat, f: (int, int) -> real): (A: Matrix)
    ensures A.rows == rows && A.cols == cols
    ensures forall i, j :: 0 <= i < rows && 0 <= j < cols ==> At(A, i, j) == f(i, j)
  {
    Mat(rows, cols, seq(rows, i => seq(cols, j => f(i, j))))
  }

  lemma Ext(A: Matrix, B: Matrix)
    requires A.rows == B.rows && A.cols == B.cols
    requires forall i, j :: 0 <= i < A.rows && 0 <= j < A.cols ==> At(A, i, j) == At(B, i, j)
    ensures A == B
  {
    forall i | 0 <= i < A.rows
      ensures A.cells[i] == B.cells[i]
    {
      forall j | 0 <= j < A.cols
        ensures A.cells[i][j] == B.cells[i][j]
      {
        assert At(A, i, j) == At(B, i, j);
      }
    }
  }

  function Identity(n: nat): (I: Matrix)
    ensures I.rows == I.cols == n
  {
    Make(n, n, (i, j) => if i == j then 1.0 else 0.0)
  }

  function Zero(m: nat, n: nat): (Z: Matrix)
    ensures Z.rows == m && Z.cols == n
  {
    Make(m, n, (i, j) => 0.0)
  }

  function Add(A: Matrix, B: Matrix): (C: Matrix)
    requires A.rows == B.rows && A.cols == B.cols
    ensures C.rows == A.rows && C.cols == A.cols
  {
    Make(A.rows, A.cols, (i, j) => At(A, i, j) + At(B, i, j))
  }

  function Sub(A: Matrix, B: Matrix): (C: Matrix)
    requires A.rows == B.rows && A.cols == B.cols
    ensures C.rows == A.rows && C.cols == A.cols
  {
    Make(A.rows, A.cols, (i, j) => At(A, i, j) - At(B, i, j))
  }

  function Scale(c: real, A: Matrix): (C: Matrix)
    ensures C.rows == A.rows && C.cols == A.cols
  {
    Make(A.rows, A.cols, (i, j) => c * At(A, i, j))
  }

  function Transpose(A: Matrix): (C: Matrix)
    ensures C.rows == A.cols && C.cols == A.rows
  {
    Make(A.cols, A.rows, (i, j) => At(A, j, i))
  }

  lemma OutsideIsZero(A: Matrix, r: int, c: int)
    requires !(0 <= r < A.rows && 0 <= c < A.cols)
    ensures At(A, r, c) == 0.0
  {
  }

  lemma AddEntry(A: Matrix, B: Matrix, i: int, j: int)
    requires A.rows == B.rows && A.cols == B.cols
    ensures At(Add(A, B), i, j) == At(A, i, j) + At(B, i, j)
  {
  }

  lemma SubEntry(A: Matrix, B: Matrix, i: int, j: int)
    requires A.rows == B.rows && A.cols == B.cols
    ensures At(Sub(A, B), i, j) == At(A, i, j) - At(B, i, j)
  {
  }

  lemma ScaleEntry(c: real, A: Matrix, i: int, j: int)
    ensures At(Scale(c, A), i, j) == c * At(A, i, j)
  {
  }

  /** The l-th term of entry (i, j) of A*B. */
  function Term(A: Matrix, B: Matrix, i: int, j: int): int -> real {
    l => At(A, i, l) * At(B, l, j)
  }

  function Dot(A: Matrix, B: Matrix, i: int, j: int): real {
    Sum(A.cols, Term(A, B, i, j))
  }

  function Mul(A: Matrix, B: Matrix): (C: Matrix)
    requires A.cols == B.rows
    ensures C.rows == A.rows && C.cols == B.cols
  {
    Make(A.rows, B.cols, (i, j) => Dot(A, B, i, j))
  }

  lemma MulIdentityLeft(A: Matrix)
    ensures Mul(Identity(A.rows), A) == A
  {
    var I := Identity(A.rows);
    forall i, j | 0 <= i < A.rows && 0 <= j < A.cols
      ensures At(Mul(I, A), i, j) == At(A, i, j)
    {
      SumSingle(A.rows, i, Term(I, A, i, j));
    }
    Ext(Mul(I, A), A);
  }

  lemma MulIdentityRight(A: Matrix)
    ensures Mul(A, Identity(A.cols)) == A
  {
    var I := Identity(A.cols);
    forall i, j | 0 <= i < A.rows && 0 <= j < A.cols
      ensures At(Mul(A, I), i, j) == At(A, i, j)
    {
      SumSingle(A.cols, j, Term(A, I, i, j));
    }
    Ext(Mul(A, I), A);
  }

  lemma MulZero(A: Matrix, n: nat)
    ensures Mul(A, Zero(A.cols, n)) == Zero(A.rows, n)
    ensures Mul(Zero(n, A.rows), A) == Zero(n, A.cols)
  {
    forall i, j
      ensures Dot(A, Zero(A.cols, n), i, j) == 0.0 && Dot(Zero(n, A.rows), A, i, j) == 0.0
    {
      SumZero(A.cols, Term(A, Zero(A.cols, n), i, j));
      SumZero(A.rows, Term(Zero(n, A.rows), A, i, j));
    }
    Ext(Mul(A, Zero(A.cols, n)), Zero(A.rows, n));
    Ext(Mul(Zero(n, A.rows), A), Zero(n, A.cols));
  }

  function Triple(A: Matrix, B: Matrix, C: Matrix, i: int, j: int): (int, int) -> real {
    (l, k) => At(A, i, k) * At(B, k, l) * At(C, l, j)
  }

  lemma MulEntry(A: Matrix, B: Matrix, i: int, j: int)
    requires A.cols == B.rows && 0 <= i < A.rows && 0 <= j < B.cols
    ensures At(Mul(A, B), i, j) == Dot(A, B, i, j)
  {
    hide At, Dot;
  }

  /** Term l of (A B) C, expanded. */
  lemma LeftTerm(A: Matrix, B: Matrix, C: Matrix, i: int, j: int, l: int)
    requires A.cols == B.rows && B.cols == C.rows && 0 <= i < A.rows && 0 <= l < B.cols
    ensures Term(Mul(A, B), C, i, j)(l) == Inner(A.cols, Triple(A, B, C, i, j))(l)
  {
    hide At, Mul;
    MulEntry(A, B, i, l);
    SumScale(A.cols, At(C, l, j), Term(A, B, i, l), Curry(Triple(A, B, C, i, j), l));
  }

  /** Term k of A (B C), expanded. */
  lemma RightTerm(A: Matrix, B: Matrix, C: Matrix, i: int, j: int, k: int)
    requires A.cols == B.rows && B.cols == C.rows && 0 <= j < C.cols && 0 <= k < A.cols
    ensures Term(A, Mul(B, C), i, j)(k) == Inner(B.cols, Flip(Triple(A, B, C, i, j)))(k)
  {
    hide At, Mul;
    MulEntry(B, C, k, j);
    SumScale(B.cols, At(A, i, k), Term(B, C, k, j), Curry(Flip(Triple(A, B, C, i, j)), k));
  }

  lemma MulAssocEntry(A: Matrix, B: Matrix, C: Matrix, i: int, j: int)
    requires A.cols == B.rows && B.cols == C.rows
    requires 0 <= i < A.rows && 0 <= j < C.cols
    ensures Dot(Mul(A, B), C, i, j) == Dot(A, Mul(B, C), i, j)
  {
    hide At, Mul;
    var n, m, f := B.cols, A.cols, Triple(A, B, C, i, j);
    forall l | 0 <= l < n
      ensures Term(Mul(A, B), C, i, j)(l) == Inner(m, f)(l)
    {
      LeftTerm(A, B, C, i, j, l);
    }
    SumExt(n, Term(Mul(A, B), C, i, j), Inner(m, f));
    SumSwap(n, m, f);
    forall k | 0 <= k < m
      ensures Term(A, Mul(B, C), i, j)(k) == Inner(n, Flip(f))(k)
    {
      RightTerm(A, B, C, i, j, k);
    }
    SumExt(m, Term(A, Mul(B, C), i, j), Inner(n, Flip(f)));
  }

  lemma MulAssoc(A: Matrix, B: Matrix, C: Matrix)
    requires A.cols == B.rows && B.cols == C.rows
    ensures Mul(Mul(A, B), C) == Mul(A, Mul(B, C))
  {
    forall i, j | 0 <= i < A.rows && 0 <= j < C.cols
      ensures At(Mul(Mul(A, B), C), i, j) == At(Mul(A, Mul(B, C)), i, j)
    {
      MulAssocEntry(A, B, C, i, j);
    }
    Ext(Mul(Mul(A, B), C), Mul(A, Mul(B, C)));
  }

  lemma MulAddRight(A: Matrix, B: Matrix, C: Matrix)
    requires A.cols == B.rows == C.rows && B.cols == C.cols
    ensures Mul(A, Add(B, C)) == Add(Mul(A, B), Mul(A, C))
  {
    forall i, j | 0 <= i < A.rows && 0 <= j < B.cols
      ensures At(Mul(A, Add(B, C)), i, j) == At(Add(Mul(A, B), Mul(A, C)), i, j)
    {
      SumAdd(A.cols, Term(A, B, i, j), Term(A, C, i, j), Term(A, Add(B, C), i, j));
    }
    Ext(Mul(A, Add(B, C)), Add(Mul(A, B), Mul(A, C)));
  }

  lemma MulAddLeft(A: Matrix, B: Matrix, C: Matrix)
    requires A.cols == B.cols == C.rows && A.rows == B.rows
    ensures Mul(Add(A, B), C) == Add(Mul(A, C), Mul(B, C))
  {
    forall i, j | 0 <= i < A.rows && 0 <= j < C.cols
      ensures At(Mul(Add(A, B), C), i, j) == At(Add(Mul(A, C), Mul(B, C)), i, j)
    {
      SumAdd(A.cols, Term(A, C, i, j), Term(B, C, i, j), Term(Add(A, B), C, i, j));
    }
    Ext(Mul(Add(A, B), C), Add(Mul(A, C), Mul(B, C)));
  }

  lemma MulScaleRight(A: Matrix, c: real, B: Matrix)
    requires A.cols == B.rows
    ensures Mul(A, Scale(c, B)) == Scale(c, Mul(A, B))
  {
    hide At, Mul, Scale;
    forall i, j | 0 <= i < A.rows && 0 <= j < B.cols
      ensures At(Mul(A, Scale(c, B)), i, j) == At(Scale(c, Mul(A, B)), i, j)
    {
      forall l | 0 <= l < A.cols
        ensures Term(A, Scale(c, B), i, j)(l) == c * Term(A, B, i, j)(l)
      {
        ScaleEntry(c, B, l, j);
      }
      SumScale(A.cols, c, Term(A, B, i, j), Term(A, Scale(c, B), i, j));
      MulEntry(A, Scale(c, B), i, j);
      MulEntry(A, B, i, j);
      ScaleEntry(c, Mul(A, B), i, j);
    }
    Ext(Mul(A, Scale(c, B)), Scale(c, Mul(A, B)));
  }

  lemma MulSubRight(A: Matrix, B: Matrix, C: Matrix)
    requires A.cols == B.rows == C.rows && B.cols == C.cols
    ensures Mul(A, Sub(B, C)) == Sub(Mul(A, B), Mul(A, C))
  {
    MulAddRight(A, Sub(B, C), C);
    Ext(Add(Sub(B, C), C), B);
    Ext(Mul(A, Sub(B, C)), Sub(Mul(A, B), Mul(A, C)));
  }

  lemma MulSubLeft(A: Matrix, B: Matrix, C: Matrix)
    requires A.cols == B.cols == C.rows && A.rows == B.rows
    ensures Mul(Sub(A, B), C) == Sub(Mul(A, C), Mul(B, C))
  {
    MulAddLeft(Sub(A, B), B, C);
    Ext(Add(Sub(A, B), B), A);
    Ext(Mul(Sub(A, B), C), Sub(Mul(A, C), Mul(B, C)));
  }

  lemma TransposeTwice(A: Matrix)
    ensures Transpose(Transpose(A)) == A
  {
    Ext(Transpose(Transpose(A)), A);
  }

  /** A product with both operands transposed and swapped, transposed back. */
  lemma TransposeMul(A: Matrix, B: Matrix)
    requires A.cols == B.rows
    ensures Transpose(Mul(Transpose(B), Transpose(A))) == Mul(A, B)
  {
    forall i, j | 0 <= i < A.rows && 0 <= j < B.cols
      ensures At(Transpose(Mul(Transpose(B), Transpose(A))), i, j) == At(Mul(A, B), i, j)
    {
      SumExt(A.cols, Term(Transpose(B), Transpose(A), j, i), Term(A, B, i, j));
    }
    Ext(Transpose(Mul(Transpose(B), Transpose(A))), Mul(A, B));
  }

  /** The largest magnitude among the first n entries of row i. */
  function RowMax(A: Matrix, i: int, n: nat): (m: real)
    ensures m >= 0.0 && forall j :: 0 <= j < n ==> Abs(At(A, i, j)) <= m
    ensures m == 0.0 || exists j :: 0 <= j < n && Abs(At(A, i, j)) == m
  {
    if n == 0 then 0.0
    else var m := RowMax(A, i, n - 1); var x := Abs(At(A, i, n - 1)); if m < x then x else m
  }

  function MaxAbsRows(A: Matrix, k: nat): (m: real)
    ensures m >= 0.0 && forall i, j :: 0 <= i < k && 0 <= j < A.cols ==> Abs(At(A, i, j)) <= m
    ensures m == 0.0 || exists i, j :: 0 <= i < k && 0 <= j < A.cols && Abs(At(A, i, j)) == m
  {
    if k == 0 then 0.0
    else var m := MaxAbsRows(A, k - 1); var x := RowMax(A, k - 1, A.cols); if m < x then x else m
  }

  /** max |A_ij|. */
  function MaxAbs(A: Matrix): (m: real)
    ensures m >= 0.0 && forall i, j :: Abs(At(A, i, j)) <= m
    ensures m == 0.0 || exists i, j :: 0 <= i < A.rows && 0 <= j < A.cols && Abs(At(A, i, j)) == m
  {
    MaxAbsRows(A, A.rows)
  }

  function Pow(A: Matrix, k: nat): (P: Matrix)
    requires A.rows == A.cols
    ensures P.rows == P.cols == A.rows
  {
    if k == 0 then Identity(A.rows) else Mul(A, Pow(A, k - 1))
  }

  lemma {:induction false} PowAdd(A: Matrix, m: nat, n: nat)
    requires A.rows == A.cols
    ensures Mul(Pow(A, m), Pow(A, n)) == Pow(A, m + n)
  {
    if m == 0 {
      MulIdentityLeft(Pow(A, n));
    } else {
      MulAssoc(A, Pow(A, m - 1), Pow(A, n));
      PowAdd(A, m - 1, n);
    }
  }
}

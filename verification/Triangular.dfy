/**
 The inverse of I - A for a strictly lower-triangular A: it exists, it is the finite
 sum of the powers of A, and it is the only matrix on either side that inverts I - A.
 Every solver of the repository is proved to return exactly this matrix.
 */
module Triangular {
  import opened Sums
  import opened Matrices

  predicate Square(A: Matrix) {
    A.rows == A.cols
  }

  /** Non-zero only below the diagonal and above row n. */
  ghost predicate ActiveBelow(A: Matrix, n: nat) {
    Square(A) && forall i, j :: At(A, i, j) != 0.0 ==> j < i < n
  }

  ghost predicate StrictLower(A: Matrix) {
    ActiveBelow(A, A.rows)
  }

  /** I - A. */
  function OneMinus(A: Matrix): (C: Matrix)
    requires Square(A)
    ensures C.rows == C.cols == A.rows
  {
    Sub(Identity(A.rows), A)
  }

  /** I + A + ... + A^(n-1). */
  function Neumann(A: Matrix, n: nat): (N: Matrix)
    requires Square(A)
    ensures N.rows == N.cols == A.rows
  {
    if n == 0 then Zero(A.rows, A.rows) else Add(Neumann(A, n - 1), Pow(A, n - 1))
  }

  function Inverse(A: Matrix): (N: Matrix)
    requires Square(A)
    ensures N.rows == N.cols == A.rows
  {
    Neumann(A, A.rows)
  }

  /** (I - P) + (P - Q) = I - Q. */
  lemma Telescope(P: Matrix, Q: Matrix)
    requires Square(P) && Q.rows == Q.cols == P.rows
    ensures Add(OneMinus(P), Sub(P, Q)) == OneMinus(Q)
  {
    hide At;
    Ext(Add(OneMinus(P), Sub(P, Q)), OneMinus(Q));
  }

  /** (I - A) telescopes over the sum, on either side. */
  lemma {:induction false} NeumannResidual(A: Matrix, n: nat)
    requires Square(A)
    ensures Mul(OneMinus(A), Neumann(A, n)) == OneMinus(Pow(A, n))
    ensures Mul(Neumann(A, n), OneMinus(A)) == OneMinus(Pow(A, n))
  {
    var I := Identity(A.rows);
    if n == 0 {
      MulZero(OneMinus(A), A.rows);
      Ext(Zero(A.rows, A.rows), OneMinus(I));
    } else {
      hide At, Mul, Add, Sub, OneMinus, Identity;
      NeumannResidual(A, n - 1);
      NeumannStep(A, n - 1);
      Telescope(Pow(A, n - 1), Pow(A, n));
    }
  }

  lemma NeumannStep(A: Matrix, n: nat)
    requires Square(A)
    ensures var M, N, P := OneMinus(A), Neumann(A, n), Pow(A, n);
            && Mul(M, Neumann(A, n + 1)) == Add(Mul(M, N), Sub(P, Pow(A, n + 1)))
            && Mul(Neumann(A, n + 1), M) == Add(Mul(N, M), Sub(P, Pow(A, n + 1)))
  {
    var I, M, N, P := Identity(A.rows), OneMinus(A), Neumann(A, n), Pow(A, n);
    MulAddRight(M, N, P);
    MulAddLeft(N, P, M);
    MulSubLeft(I, A, P);
    MulSubRight(P, I, A);
    MulIdentityLeft(P);
    MulIdentityRight(P);
    PowCommutes(A, n);
  }

  lemma PowCommutes(A: Matrix, n: nat)
    requires Square(A)
    ensures Mul(Pow(A, n), A) == Pow(A, n + 1)
  {
    PowAdd(A, n, 1);
    MulIdentityRight(A);
    assert Pow(A, 1) == Mul(A, Pow(A, 0));
  }

  lemma {:induction false} PowActive(A: Matrix, n: nat, k: nat)
    requires ActiveBelow(A, n) && k > 0
    ensures forall i, j :: At(Pow(A, k), i, j) != 0.0 ==> j + k <= i < n
  {
    if k == 1 {
      MulIdentityRight(A);
      assert Pow(A, 1) == Mul(A, Pow(A, 0));
    } else {
      var P := Pow(A, k - 1);
      PowActive(A, n, k - 1);
      forall i, j | 0 <= i < A.rows && 0 <= j < A.rows && !(j + k <= i < n)
        ensures At(Pow(A, k), i, j) == 0.0
      {
        SumZero(A.rows, Term(A, P, i, j));
      }
    }
  }

  /** Nilpotency: the power at the number of active rows vanishes. */
  lemma PowVanishes(A: Matrix, n: nat, k: nat)
    requires ActiveBelow(A, n) && n <= k && (k > 0 || A.rows == 0)
    ensures Pow(A, k) == Zero(A.rows, A.rows)
  {
    if k > 0 { PowActive(A, n, k); }
    Ext(Pow(A, k), Zero(A.rows, A.rows));
  }

  lemma InverseBothSides(A: Matrix)
    requires StrictLower(A)
    ensures Mul(OneMinus(A), Inverse(A)) == Identity(A.rows)
    ensures Mul(Inverse(A), OneMinus(A)) == Identity(A.rows)
  {
    NeumannResidual(A, A.rows);
    PowVanishes(A, A.rows, A.rows);
    Ext(OneMinus(Zero(A.rows, A.rows)), Identity(A.rows));
  }

  /** The system (I - A) X = B has exactly the solution Inverse(A) B. */
  lemma SolveUnique(A: Matrix, X: Matrix, B: Matrix)
    requires StrictLower(A) && X.rows == B.rows == A.rows && X.cols == B.cols
    ensures Mul(OneMinus(A), X) == B <==> X == Mul(Inverse(A), B)
  {
    InverseBothSides(A);
    MulAssoc(Inverse(A), OneMinus(A), X);
    MulAssoc(OneMinus(A), Inverse(A), B);
    MulIdentityLeft(X);
    MulIdentityLeft(B);
  }

  /** Either one-sided inverse of I - A is the inverse. */
  lemma InverseUnique(A: Matrix, X: Matrix)
    requires StrictLower(A) && X.rows == X.cols == A.rows
    ensures Mul(OneMinus(A), X) == Identity(A.rows) <==> X == Inverse(A)
    ensures Mul(X, OneMinus(A)) == Identity(A.rows) <==> X == Inverse(A)
  {
    SolveUnique(A, X, Identity(A.rows));
    MulIdentityRight(Inverse(A));
    InverseBothSides(A);
    MulAssoc(X, OneMinus(A), Inverse(A));
    MulIdentityRight(X);
    MulIdentityLeft(Inverse(A));
  }

  /** Unit lower triangular. */
  lemma {:induction false} NeumannLower(A: Matrix, n: nat)
    requires StrictLower(A)
    ensures forall i, j :: 0 <= i < j ==> At(Neumann(A, n), i, j) == 0.0
    ensures n > 0 ==> forall i :: 0 <= i < A.rows ==> At(Neumann(A, n), i, i) == 1.0
  {
    if n > 0 {
      NeumannLower(A, n - 1);
      if n > 1 { PowActive(A, A.rows, n - 1); }
    }
  }

  lemma InverseLower(A: Matrix)
    requires StrictLower(A)
    ensures forall i, j :: 0 <= i < j ==> At(Inverse(A), i, j) == 0.0
    ensures forall i :: 0 <= i < A.rows ==> At(Inverse(A), i, i) == 1.0
  {
    NeumannLower(A, A.rows);
  }

  /** The n x n matrix with a everywhere below the diagonal. */
  function Filled(n: nat, a: real): (A: Matrix)
    ensures A.rows == A.cols == n
  {
    Make(n, n, (r, c) => if c < r then a else 0.0)
  }

  /** T_ic = [i = c] + sum_{l<i} A_il T_lc for the exact inverse T. */
  lemma InverseRow(A: Matrix, i: nat, c: nat)
    requires StrictLower(A) && i < A.rows && c < A.rows
    ensures At(Inverse(A), i, c) == (if i == c then 1.0 else 0.0) + Sum(i, Term(A, Inverse(A), i, c))
  {
    hide At, Inverse;
    var T := Inverse(A);
    InverseBothSides(A);
    MulSubLeft(Identity(A.rows), A, T);
    MulIdentityLeft(T);
    assert At(Sub(T, Mul(A, T)), i, c) == At(Identity(A.rows), i, c);
    SumTruncate(i, A.rows, Term(A, T, i, c));
  }

  lemma PowDoubles(A: Matrix, k: nat)
    requires Square(A)
    ensures Mul(Pow(A, k), Pow(A, k)) == Pow(A, 2 * k)
  {
    PowAdd(A, k, k);
  }

  /** If X leaves residual R on I - A then X leaves the exact inverse iff R is zero. */
  lemma ResidualDecides(A: Matrix, X: Matrix, R: Matrix)
    requires StrictLower(A) && X.rows == X.cols == R.rows == R.cols == A.rows
    requires Mul(OneMinus(A), X) == OneMinus(R)
    ensures X == Inverse(A) <==> R == Zero(A.rows, A.rows)
  {
    InverseUnique(A, X);
    if OneMinus(R) == Identity(A.rows) {
      forall i, j | 0 <= i < A.rows && 0 <= j < A.rows
        ensures At(R, i, j) == 0.0
      {
        assert At(OneMinus(R), i, j) == At(Identity(A.rows), i, j);
      }
      Ext(R, Zero(A.rows, A.rows));
    }
    Ext(OneMinus(Zero(A.rows, A.rows)), Identity(A.rows));
  }
}

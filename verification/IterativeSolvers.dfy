/** The matmul-only inverses: Horner, the squaring product, Taylor seed plus Newton-Schulz. */
module IterativeSolvers {
  import opened Arithmetic
  import opened Sums
  import opened Matrices
  import opened Triangular

  lemma OneMore(A: Matrix, n: nat)
    requires Square(A)
    ensures Add(Identity(A.rows), Mul(A, Neumann(A, n))) == Neumann(A, n + 1)
  {
    var I, N := Identity(A.rows), Neumann(A, n);
    NeumannResidual(A, n);
    MulSubLeft(I, A, N);
    MulIdentityLeft(N);
    MovedTerm(I, Mul(A, N), N, Pow(A, n));
  }

  /** N - M = I - P gives I + M = N + P. */
  lemma MovedTerm(I: Matrix, M: Matrix, N: Matrix, P: Matrix)
    requires I.rows == M.rows == N.rows == P.rows && I.cols == M.cols == N.cols == P.cols
    requires Sub(N, M) == Sub(I, P)
    ensures Add(I, M) == Add(N, P)
  {
    hide At, Add, Sub;
    forall i, j | 0 <= i < I.rows && 0 <= j < I.cols
      ensures At(Add(I, M), i, j) == At(Add(N, P), i, j)
    {
      AddEntry(I, M, i, j);
      AddEntry(N, P, i, j);
      SubEntry(N, M, i, j);
      SubEntry(I, P, i, j);
    }
    Ext(Add(I, M), Add(N, P));
  }

  /** Ones just below the diagonal: the matrix whose powers last longest. */
  function Down(n: nat): (A: Matrix)
    ensures A.rows == A.cols == n
  {
    Make(n, n, (i, j) => if i == j + 1 then 1.0 else 0.0)
  }

  /** A product with it moves every row down by one. */
  lemma DownTimes(n: nat, P: Matrix, i: int, j: int)
    requires P.rows == P.cols == n && 0 < i < n && 0 <= j < n
    ensures At(Mul(Down(n), P), i, j) == At(P, i - 1, j)
  {
    MulEntry(Down(n), P, i, j);
    forall l | 0 <= l < n
      ensures Term(Down(n), P, i, j)(l) == if l == i - 1 then At(P, i - 1, j) else 0.0
    {
      assert At(Down(n), i, l) == if i == l + 1 then 1.0 else 0.0;
    }
    SumSingle(n, i - 1, Term(Down(n), P, i, j));
  }

  /** So its k-th power has its ones k rows below the diagonal. */
  lemma {:induction false} DownPower(n: nat, k: nat, i: nat)
    requires k <= i < n
    ensures At(Pow(Down(n), k), i, i - k) == 1.0
  {
    if k > 0 {
      hide At, Down, Mul;
      DownPower(n, k - 1, i - 1);
      DownTimes(n, Pow(Down(n), k - 1), i, i - k);
    }
  }

  /** The first m powers sum to the inverse for every matrix of size n. */
  ghost predicate AlwaysExact(n: nat, m: nat) {
    forall A: Matrix | StrictLower(A) && A.rows == n :: Neumann(A, m) == Inverse(A)
  }

  /** Which lengths sum the series for every matrix of a size: those the size does not exceed. */
  lemma SeriesExactIff(n: nat, m: nat)
    requires m > 0
    ensures AlwaysExact(n, m) <==> n <= m
    ensures m < n ==> StrictLower(Down(n)) && Neumann(Down(n), m) != Inverse(Down(n))
  {
    hide Neumann, Inverse, Pow;
    if n <= m {
      forall A: Matrix | StrictLower(A) && A.rows == n
        ensures Neumann(A, m) == Inverse(A)
      {
        SeriesDecided(A, m);
        PowVanishes(A, n, m);
      }
    } else {
      var A := Down(n);
      SeriesDecided(A, m);
      DownPower(n, m, m);
      assert At(Zero(n, n), m, 0) == 0.0;
      assert StrictLower(A) && A.rows == n;
    }
  }

  lemma SeriesDecided(A: Matrix, m: nat)
    requires StrictLower(A)
    ensures Neumann(A, m) == Inverse(A) <==> Pow(A, m) == Zero(A.rows, A.rows)
  {
    NeumannResidual(A, m);
    ResidualDecides(A, Neumann(A, m), Pow(A, m));
  }

  /** K Horner steps give the first K+1 powers; exact iff the next power has died out. */
  method Horner(A: Matrix, K: nat) returns (T: Matrix)
    requires StrictLower(A)
    ensures T == Neumann(A, K + 1)
    ensures T == Inverse(A) <==> Pow(A, K + 1) == Zero(A.rows, A.rows)
    ensures A.rows <= K + 1 ==> T == Inverse(A)
  {
    var I := Identity(A.rows);
    T := I;
    Ext(Add(Zero(A.rows, A.rows), I), I);
    for k := 0 to K
      invariant T == Neumann(A, k + 1)
    {
      OneMore(A, k + 1);
      T := Add(I, Mul(A, T));
    }
    NeumannResidual(A, K + 1);
    ResidualDecides(A, T, Pow(A, K + 1));
    if A.rows <= K + 1 { PowVanishes(A, A.rows, K + 1); }
  }

  /** (I - R)(I + R) = I - R^2. */
  lemma DifferenceOfSquares(R: Matrix)
    requires Square(R)
    ensures Mul(OneMinus(R), Add(Identity(R.rows), R)) == OneMinus(Mul(R, R))
  {
    var I := Identity(R.rows);
    MulAddRight(OneMinus(R), I, R);
    MulIdentityRight(OneMinus(R));
    MulSubLeft(I, R, R);
    MulIdentityLeft(R);
    Ext(Add(OneMinus(R), Sub(R, Mul(R, R))), OneMinus(Mul(R, R)));
  }

  /** One factor of the product: residual A^m becomes residual A^(2m). */
  lemma SquaringStep(A: Matrix, P: Matrix, m: nat)
    requires Square(A) && P.rows == P.cols == A.rows
    requires Mul(OneMinus(A), P) == OneMinus(Pow(A, m))
    ensures Mul(OneMinus(A), Mul(P, Add(Identity(A.rows), Pow(A, m)))) == OneMinus(Pow(A, 2 * m))
  {
    MulAssoc(OneMinus(A), P, Add(Identity(A.rows), Pow(A, m)));
    DifferenceOfSquares(Pow(A, m));
    PowDoubles(A, m);
  }

  /** prod (I + A^(2^k)) over 2^k < n. */
  method Squaring(A: Matrix) returns (P: Matrix)
    requires StrictLower(A)
    ensures P == Inverse(A)
  {
    var n := A.rows;
    var I, Ak, k := Identity(n), A, 1;
    P := Add(I, Ak);
    MulIdentityRight(A);
    assert Pow(A, 1) == Mul(A, Pow(A, 0));
    DifferenceOfSquares(A);
    PowDoubles(A, 1);
    assert Pow2(1) == 2;
    while Pow2(k) < n
      invariant k >= 1 && P.rows == P.cols == n
      invariant Ak == Pow(A, Pow2(k - 1))
      invariant Mul(OneMinus(A), P) == OneMinus(Pow(A, Pow2(k)))
      decreases n - Pow2(k)
    {
      PowDoubles(A, Pow2(k - 1));
      Ak := Mul(Ak, Ak);
      SquaringStep(A, P, Pow2(k));
      P := Mul(P, Add(I, Ak));
      k := k + 1;
    }
    PowVanishes(A, n, Pow2(k));
    ResidualDecides(A, P, Pow(A, Pow2(k)));
  }

  /** X(2I - MX) squares the residual of X. */
  lemma NewtonStep(A: Matrix, X: Matrix, m: nat)
    requires Square(A) && X.rows == X.cols == A.rows
    requires Mul(OneMinus(A), X) == OneMinus(Pow(A, m))
    ensures var MX := Mul(OneMinus(A), X);
            Mul(OneMinus(A), Mul(X, Sub(Scale(2.0, Identity(A.rows)), MX))) == OneMinus(Pow(A, 2 * m))
  {
    var MX := Mul(OneMinus(A), X);
    Ext(Sub(Scale(2.0, Identity(A.rows)), MX), Add(Identity(A.rows), Pow(A, m)));
    SquaringStep(A, X, m);
  }

  /** The residual's exponent after k Newton steps from an order-p seed. */
  function Exponent(p: nat, k: nat): (m: nat)
    ensures m > 0
  {
    if k == 0 then p + 1 else 2 * Exponent(p, k - 1)
  }

  lemma {:induction false} ExponentClosed(p: nat, k: nat)
    ensures Exponent(p, k) == (p + 1) * Pow2(k)
  {
    if k > 0 { ExponentClosed(p, k - 1); }
  }

  /** Only the partial sum of m powers leaves residual A^m. */
  lemma ResidualNames(A: Matrix, X: Matrix, m: nat)
    requires StrictLower(A) && X.rows == X.cols == A.rows && Mul(OneMinus(A), X) == OneMinus(Pow(A, m))
    ensures X == Neumann(A, m)
  {
    hide Neumann, Inverse, Pow;
    NeumannResidual(A, m);
    SolveUnique(A, X, OneMinus(Pow(A, m)));
    SolveUnique(A, Neumann(A, m), OneMinus(Pow(A, m)));
  }

  lemma SettingLengths(p: nat, K: nat)
    requires (p, K) in {(3, 2), (3, 3), (3, 4), (4, 3), (4, 4)}
    ensures 64 <= (p + 1) * Pow2(K) <==> (p, K) in {(3, 4), (4, 4)}
  {
    assert Pow2(2) == 4 && Pow2(3) == 8 && Pow2(4) == 16;
  }

  /** Of the probe's settings on 64-row blocks only p = 3, K = 4 and p = 4, K = 4 are exact for every A. */
  lemma ProbeSettings(p: nat, K: nat)
    requires (p, K) in {(3, 2), (3, 3), (3, 4), (4, 3), (4, 4)}
    ensures AlwaysExact(64, (p + 1) * Pow2(K)) <==> (p, K) in {(3, 4), (4, 4)}
  {
    hide AlwaysExact, Neumann, Inverse, StrictLower;
    SeriesExactIff(64, (p + 1) * Pow2(K));
    SettingLengths(p, K);
  }

  /** Order-p Taylor seed, then K Newton-Schulz steps: the residual is A^((p+1) 2^K). */
  method TaylorNewton(A: Matrix, p: nat, K: nat) returns (X: Matrix)
    requires StrictLower(A)
    ensures X == Neumann(A, (p + 1) * Pow2(K))
    ensures Mul(OneMinus(A), X) == OneMinus(Pow(A, (p + 1) * Pow2(K)))
    ensures X == Inverse(A) <==> Pow(A, (p + 1) * Pow2(K)) == Zero(A.rows, A.rows)
    ensures A.rows <= (p + 1) * Pow2(K) ==> X == Inverse(A)
  {
    var I := Identity(A.rows);
    X := Horner(A, p);
    NeumannResidual(A, p + 1);
    var M := OneMinus(A);
    for k := 0 to K
      invariant X.rows == X.cols == A.rows
      invariant Mul(M, X) == OneMinus(Pow(A, Exponent(p, k)))
    {
      NewtonStep(A, X, Exponent(p, k));
      var MX := Mul(M, X);
      X := Mul(X, Sub(Scale(2.0, I), MX));
    }
    ResidualDecides(A, X, Pow(A, Exponent(p, K)));
    ResidualNames(A, X, Exponent(p, K));
    ExponentClosed(p, K);
    if A.rows <= Exponent(p, K) { PowVanishes(A, A.rows, Exponent(p, K)); }
  }
}

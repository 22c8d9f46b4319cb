/** What the normalisation of keys and queries does to a row: its direction stays, its length becomes one. */
module Normalisation {
  import opened Sums
  import opened Matrices
  import opened GatedDelta

  /** X_i . Y_i. */
  function RowDot(X: Matrix, Y: Matrix, i: int): real {
    Dot(X, Transpose(Y), i, i)
  }

  /** Row i of N points along row i of X. */
  ghost predicate SameDirection(N: Matrix, X: Matrix, i: int) {
    && (forall j, l :: At(N, i, j) * At(X, i, l) == At(N, i, l) * At(X, i, j))
    && (forall j :: At(X, i, j) == 0.0 ==> At(N, i, j) == 0.0)
  }

  lemma TransposeEntry(X: Matrix, i: int, j: int)
    ensures At(Transpose(X), j, i) == At(X, i, j)
  {
  }

  lemma SquareIsDot(X: Matrix, i: int)
    ensures SumSquares(X, i) == RowDot(X, X, i)
  {
    hide At, Transpose;
    forall l | 0 <= l < X.cols
      ensures SquareTerm(X, i)(l) == Term(X, Transpose(X), i, i)(l)
    {
      TransposeEntry(X, i, l);
    }
    SumExt(X.cols, SquareTerm(X, i), Term(X, Transpose(X), i, i));
  }

  lemma NormEntry(rnorm: real -> real, X: Matrix, i: int, j: int)
    ensures At(L2Norm(rnorm, X), i, j) == At(X, i, j) * rnorm(SumSquares(X, i))
  {
    hide SumSquares;
  }

  /** Rows with N_i = r X_i and M_i = u X_i have c = r u times X_i's product with itself. */
  lemma ScaledDot(N: Matrix, M: Matrix, X: Matrix, i: int, r: real, u: real, c: real)
    requires N.cols == M.cols == X.cols && c == r * u
    requires forall j :: At(N, i, j) == At(X, i, j) * r && At(M, i, j) == At(X, i, j) * u
    ensures RowDot(N, M, i) == c * RowDot(X, X, i)
  {
    hide At, Transpose, Term;
    forall l | 0 <= l < X.cols
      ensures Term(N, Transpose(M), i, i)(l) == c * Term(X, Transpose(X), i, i)(l)
    {
      ScaledTerm(N, M, X, i, r, u, c, l);
    }
    SumScale(X.cols, c, Term(X, Transpose(X), i, i), Term(N, Transpose(M), i, i));
  }

  lemma ScaledTerm(N: Matrix, M: Matrix, X: Matrix, i: int, r: real, u: real, c: real, l: int)
    requires c == r * u && At(N, i, l) == At(X, i, l) * r && At(M, i, l) == At(X, i, l) * u
    ensures Term(N, Transpose(M), i, i)(l) == c * Term(X, Transpose(X), i, i)(l)
  {
    TransposeEntry(X, i, l);
    TransposeEntry(M, i, l);
    hide At, Transpose;
    ScaledSquare(At(X, i, l), r, u, c);
  }

  lemma ScaledSquare(x: real, r: real, u: real, c: real)
    requires c == r * u
    ensures x * r * (x * u) == c * (x * x)
  {
    assert x * r * (x * u) == r * u * (x * x);
  }

  /** Row i of N is row i of X, its direction kept, made r times as long. */
  ghost predicate Stretched(N: Matrix, X: Matrix, i: int, r: real) {
    && RowDot(N, X, i) == r * RowDot(X, X, i)
    && RowDot(N, N, i) == r * r * RowDot(X, X, i)
    && SameDirection(N, X, i)
  }

  lemma ScaledRow(N: Matrix, X: Matrix, i: int, r: real)
    requires N.cols == X.cols && forall j :: At(N, i, j) == At(X, i, j) * r
    ensures Stretched(N, X, i, r)
  {
    hide At, RowDot;
    ScaledDot(N, X, X, i, r, 1.0, r);
    ScaledDot(N, N, X, i, r, r, r * r);
    forall j, l
      ensures At(N, i, j) * At(X, i, l) == At(N, i, l) * At(X, i, j)
    {
      SwapFactors(At(X, i, j), At(X, i, l), r);
    }
  }

  lemma SwapFactors(x: real, y: real, r: real)
    ensures x * r * y == y * r * x
  {
  }

  /** Every key row keeps its direction, its length multiplied by its reciprocal norm. */
  lemma KeyRow(p: Params, s: Stream, t: int)
    ensures Stretched(Keys(p, s), s.k, t, (p.rnorm)(RowDot(s.k, s.k, t)))
  {
    hide At, Transpose, SumSquares, L2Norm, Stretched, RowDot;
    SquareIsDot(s.k, t);
    forall j
      ensures At(Keys(p, s), t, j) == At(s.k, t, j) * (p.rnorm)(RowDot(s.k, s.k, t))
    {
      NormEntry(p.rnorm, s.k, t, j);
    }
    hide Keys;
    ScaledRow(Keys(p, s), s.k, t, (p.rnorm)(RowDot(s.k, s.k, t)));
  }

  lemma QueryEntry(p: Params, s: Stream, t: int, j: int)
    ensures At(Queries(p, s), t, j) == At(s.q, t, j) * (p.qscale * (p.rnorm)(SumSquares(s.q, t)))
  {
    NormEntry(p.rnorm, s.q, t, j);
    hide At, SumSquares, L2Norm;
    ScaleEntry(p.qscale, L2Norm(p.rnorm, s.q), t, j);
    Regroup(p.qscale, At(s.q, t, j), (p.rnorm)(SumSquares(s.q, t)));
  }

  lemma Regroup(c: real, x: real, r: real)
    ensures c * (x * r) == x * (c * r)
  {
  }

  /** So does every query row, with the query scale beside the reciprocal norm. */
  lemma QueryRow(p: Params, s: Stream, t: int)
    ensures Stretched(Queries(p, s), s.q, t, p.qscale * (p.rnorm)(RowDot(s.q, s.q, t)))
  {
    hide At, Transpose, SumSquares, L2Norm, Stretched, RowDot, Queries;
    SquareIsDot(s.q, t);
    forall j
      ensures At(Queries(p, s), t, j) == At(s.q, t, j) * (p.qscale * (p.rnorm)(RowDot(s.q, s.q, t)))
    {
      QueryEntry(p, s, t, j);
    }
    ScaledRow(Queries(p, s), s.q, t, p.qscale * (p.rnorm)(RowDot(s.q, s.q, t)));
  }

  lemma RootLength(r: real, x: real, e: real, c: real)
    requires r * r * (x + e) == 1.0
    ensures c * r * (c * r) * x == c * c * (1.0 - e * (r * r))
  {
    assert r * r * x == 1.0 - e * (r * r);
    assert c * r * (c * r) * x == c * c * (r * r * x);
  }

  /**
   With r = 1 / sqrt(x + e), x the row's sum of squares: a key row's squared length is one less
   e r^2, a query row's qscale^2 times that; with e = 0 exactly one and qscale^2.
   */
  lemma UnitRows(p: Params, s: Stream, t: int, e: real)
    ensures var x := RowDot(s.k, s.k, t); var r := (p.rnorm)(x);
            r * r * (x + e) == 1.0 ==> RowDot(Keys(p, s), Keys(p, s), t) == 1.0 - e * (r * r)
    ensures var x := RowDot(s.q, s.q, t); var r := (p.rnorm)(x);
            r * r * (x + e) == 1.0 ==>
              RowDot(Queries(p, s), Queries(p, s), t) == p.qscale * p.qscale * (1.0 - e * (r * r))
  {
    KeyRow(p, s, t);
    QueryRow(p, s, t);
    hide RowDot, Keys, Queries, SameDirection;
    var x, y := RowDot(s.k, s.k, t), RowDot(s.q, s.q, t);
    var r, u := (p.rnorm)(x), (p.rnorm)(y);
    if r * r * (x + e) == 1.0 { RootLength(r, x, e, 1.0); }
    if u * u * (y + e) == 1.0 { RootLength(u, y, e, p.qscale); }
  }
}

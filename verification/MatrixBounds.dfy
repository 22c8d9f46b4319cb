/** Row sums and entries of matrices, and what they bound in a product. */
module MatrixBounds {
  import opened Sums
  import opened Rounding
  import opened Matrices

  function Scaled(c: real, f: int -> real): int -> real {
    l => c * f(l)
  }

  lemma AbsProduct(x: real, y: real, a: real, e: real)
    requires Abs(x) <= a && Abs(y) <= e
    ensures Abs(x * y) <= a * e
  {
    assert Abs(x * y) == Abs(x) * Abs(y);
    assert Abs(x) * Abs(y) <= a * Abs(y) <= a * e;
  }

  function AbsRow(A: Matrix, r: int): int -> real {
    l => Abs(At(A, r, l))
  }

  /** Every row of A has absolute sum at most s. */
  ghost predicate RowSumsWithin(A: Matrix, s: real) {
    s >= 0.0 && forall r :: 0 <= r < A.rows ==> Sum(A.cols, AbsRow(A, r)) <= s
  }

  ghost predicate EntriesWithin(A: Matrix, m: real) {
    m >= 0.0 && forall r, c :: Abs(At(A, r, c)) <= m
  }

  /** Row sums times entries bounds a product's entries. */
  lemma ProductWithin(A: Matrix, B: Matrix, s: real, m: real)
    requires A.cols == B.rows && RowSumsWithin(A, s) && EntriesWithin(B, m)
    ensures EntriesWithin(Mul(A, B), Steps(s, m))
  {
    StepsAtMost(0.0, s, m);
    StepsUnits(m);
    hide At, Dot, Mul, Steps, RowSumsWithin;
    forall r, c
      ensures Abs(At(Mul(A, B), r, c)) <= Steps(s, m)
    {
      if 0 <= r < A.rows && 0 <= c < B.cols {
        MulEntry(A, B, r, c);
        RowTimes(A, B, s, m, r, c);
      } else {
        OutsideIsZero(Mul(A, B), r, c);
      }
    }
  }

  lemma TermWithin(A: Matrix, B: Matrix, m: real, r: int, c: int, l: int)
    requires EntriesWithin(B, m)
    ensures Abs(Term(A, B, r, c)(l)) <= Scaled(m, AbsRow(A, r))(l)
  {
    hide At;
    AbsProduct(At(B, l, c), At(A, r, l), m, Abs(At(A, r, l)));
  }

  lemma RowTimes(A: Matrix, B: Matrix, s: real, m: real, r: int, c: int)
    requires 0 <= r < A.rows && RowSumsWithin(A, s) && EntriesWithin(B, m)
    ensures Abs(Dot(A, B, r, c)) <= Steps(s, m)
  {
    hide At, Term, AbsRow, Scaled, Steps;
    var f, g := Term(A, B, r, c), AbsRow(A, r);
    forall l | 0 <= l < A.cols
      ensures Abs(f(l)) <= Scaled(m, g)(l)
    {
      TermWithin(A, B, m, r, c, l);
    }
    SumBounded(A.cols, f, Scaled(m, g));
    ScaledSum(A.cols, m, g);
    StepsAtMost(Sum(A.cols, g), s, m);
  }

  lemma ScaledSum(n: nat, m: real, g: int -> real)
    ensures Sum(n, Scaled(m, g)) == Steps(Sum(n, g), m)
  {
    SumScale(n, m, g, Scaled(m, g));
  }

  lemma SumWithin(A: Matrix, B: Matrix, x: real, y: real)
    requires A.rows == B.rows && A.cols == B.cols && EntriesWithin(A, x) && EntriesWithin(B, y)
    ensures EntriesWithin(Add(A, B), x + y)
  {
    hide At;
    forall r, c
      ensures Abs(At(Add(A, B), r, c)) <= x + y
    {
      AddEntry(A, B, r, c);
    }
  }

  lemma IdentityWithin(n: nat)
    ensures EntriesWithin(Identity(n), 1.0)
  {
  }

  lemma RowsFromEntries(E: Matrix, e: real)
    requires e >= 0.0 && forall r, l :: 0 <= r < E.rows && 0 <= l < E.cols ==> Abs(At(E, r, l)) <= e
    ensures RowSumsWithin(E, Steps(E.cols as real, e))
  {
    hide At;
    NonNegative(E.cols as real, e);
    forall r | 0 <= r < E.rows
      ensures Sum(E.cols, AbsRow(E, r)) <= E.cols as real * e
    {
      SumUnder(E.cols, AbsRow(E, r), e);
    }
  }

  lemma NonNegative(x: real, y: real)
    requires x >= 0.0 && y >= 0.0
    ensures x * y >= 0.0
  {
  }

  lemma {:induction false} SumUnder(n: nat, f: int -> real, e: real)
    requires forall l :: 0 <= l < n ==> f(l) <= e
    ensures Sum(n, f) <= n as real * e
  {
    if n > 0 {
      SumUnder(n - 1, f, e);
      Increment((n - 1) as real, n as real, e);
    }
  }

  lemma {:induction false} ConstantSum(n: nat, f: int -> real, e: real)
    requires forall l :: 0 <= l < n ==> f(l) == e
    ensures Sum(n, f) == n as real * e
  {
    if n > 0 {
      ConstantSum(n - 1, f, e);
      Increment((n - 1) as real, n as real, e);
    }
  }

  lemma Increment(x: real, y: real, e: real)
    requires y == x + 1.0
    ensures y * e == x * e + e
  {
  }
}

/**
 Diagonal preconditioning of the triangular inverse: conditioning by s multiplies entry (i, j) by
 s^(j-i). It changes no result, and from s = 1 + max|A| on it keeps every iterate within one.
 */
module Preconditioning {
  import opened Arithmetic
  import opened Sums
  import opened Rounding
  import opened Powers
  import opened Matrices
  import opened MatrixBounds
  import opened Triangular
  import opened IterativeSolvers

  /** Row i's weight s^i. */
  function Weight(s: real, i: int): (w: real)
    ensures w > 0.0
  {
    if s <= 0.0 || i < 0 then 1.0 else PowPositive(s, i); RealPow(s, i)
  }

  function Conditioned(A: Matrix, s: real): (C: Matrix)
    ensures C.rows == A.rows && C.cols == A.cols
  {
    Make(A.rows, A.cols, (i, j) => At(A, i, j) * (Weight(s, j) / Weight(s, i)))
  }

  function Unconditioned(X: Matrix, s: real): (C: Matrix)
    ensures C.rows == X.rows && C.cols == X.cols
  {
    Make(X.rows, X.cols, (i, j) => At(X, i, j) * (Weight(s, i) / Weight(s, j)))
  }

  lemma ConditionedEntry(A: Matrix, s: real, i: int, j: int)
    ensures At(Conditioned(A, s), i, j) == At(A, i, j) * (Weight(s, j) / Weight(s, i))
  {
    hide Weight;
    if !(0 <= i < A.rows && 0 <= j < A.cols) { OutsideIsZero(A, i, j); }
  }

  lemma Ratios(x: real, v: real, w: real)
    requires v > 0.0 && w > 0.0
    ensures x * (v / w) * (w / v) == x && v / v == 1.0
  {
    assert v / w * (w / v) == 1.0;
    assert x * (v / w) * (w / v) == x * (v / w * (w / v));
  }

  lemma UnconditionedBack(X: Matrix, s: real)
    ensures Unconditioned(Conditioned(X, s), s) == X
  {
    hide At, Weight, Conditioned;
    forall i, j | 0 <= i < X.rows && 0 <= j < X.cols
      ensures At(Unconditioned(Conditioned(X, s), s), i, j) == At(X, i, j)
    {
      ConditionedEntry(X, s, i, j);
      Ratios(At(X, i, j), Weight(s, j), Weight(s, i));
    }
    Ext(Unconditioned(Conditioned(X, s), s), X);
  }

  lemma TermRatio(x: real, y: real, i: real, l: real, j: real)
    requires i > 0.0 && l > 0.0
    ensures x * (l / i) * (y * (j / l)) == j / i * (x * y)
  {
    var u, v := l / i, j / l;
    assert u * v == j / i by {
      assert u * i == l && v * l == j;
      assert u * v * i == v * (u * i);
    }
    assert x * u * (y * v) == u * v * (x * y);
  }

  lemma TermConditioned(A: Matrix, B: Matrix, s: real, i: int, j: int, l: int)
    ensures Term(Conditioned(A, s), Conditioned(B, s), i, j)(l) == Weight(s, j) / Weight(s, i) * Term(A, B, i, j)(l)
  {
    hide At, Weight, Conditioned;
    ConditionedEntry(A, s, i, l);
    ConditionedEntry(B, s, l, j);
    TermRatio(At(A, i, l), At(B, l, j), Weight(s, i), Weight(s, l), Weight(s, j));
  }

  /** The weights telescope along every product. */
  lemma ConditionedProduct(A: Matrix, B: Matrix, s: real)
    requires A.cols == B.rows
    ensures Mul(Conditioned(A, s), Conditioned(B, s)) == Conditioned(Mul(A, B), s)
  {
    hide At, Weight, Conditioned, Term;
    var C, D := Conditioned(A, s), Conditioned(B, s);
    forall i, j | 0 <= i < A.rows && 0 <= j < B.cols
      ensures At(Mul(C, D), i, j) == At(Conditioned(Mul(A, B), s), i, j)
    {
      MulEntry(C, D, i, j);
      MulEntry(A, B, i, j);
      ConditionedEntry(Mul(A, B), s, i, j);
      forall l | 0 <= l < A.cols
        ensures Term(C, D, i, j)(l) == Weight(s, j) / Weight(s, i) * Term(A, B, i, j)(l)
      {
        TermConditioned(A, B, s, i, j, l);
      }
      SumScale(A.cols, Weight(s, j) / Weight(s, i), Term(A, B, i, j), Term(C, D, i, j));
    }
    Ext(Mul(C, D), Conditioned(Mul(A, B), s));
  }

  lemma ConditionedSum(A: Matrix, B: Matrix, s: real)
    requires A.rows == B.rows && A.cols == B.cols
    ensures Add(Conditioned(A, s), Conditioned(B, s)) == Conditioned(Add(A, B), s)
  {
    hide At, Weight, Conditioned;
    var C, D := Conditioned(A, s), Conditioned(B, s);
    forall i, j | 0 <= i < A.rows && 0 <= j < A.cols
      ensures At(Add(C, D), i, j) == At(Conditioned(Add(A, B), s), i, j)
    {
      AddEntry(C, D, i, j);
      AddEntry(A, B, i, j);
      ConditionedEntry(A, s, i, j);
      ConditionedEntry(B, s, i, j);
      ConditionedEntry(Add(A, B), s, i, j);
    }
    Ext(Add(C, D), Conditioned(Add(A, B), s));
  }

  lemma ConditionedUnits(n: nat, s: real)
    ensures Conditioned(Identity(n), s) == Identity(n) && Conditioned(Zero(n, n), s) == Zero(n, n)
  {
    hide Weight;
    forall i, j | 0 <= i < n && 0 <= j < n
      ensures At(Conditioned(Identity(n), s), i, j) == At(Identity(n), i, j)
      ensures At(Conditioned(Zero(n, n), s), i, j) == At(Zero(n, n), i, j)
    {
      Ratios(1.0, Weight(s, j), Weight(s, i));
    }
    Ext(Conditioned(Identity(n), s), Identity(n));
    Ext(Conditioned(Zero(n, n), s), Zero(n, n));
  }

  lemma {:induction false} ConditionedPower(A: Matrix, s: real, k: nat)
    requires Square(A)
    ensures Pow(Conditioned(A, s), k) == Conditioned(Pow(A, k), s)
  {
    hide Conditioned, Mul;
    if k == 0 {
      ConditionedUnits(A.rows, s);
    } else {
      ConditionedPower(A, s, k - 1);
      ConditionedProduct(A, Pow(A, k - 1), s);
    }
  }

  lemma {:induction false} ConditionedSeries(A: Matrix, s: real, m: nat)
    requires Square(A)
    ensures Neumann(Conditioned(A, s), m) == Conditioned(Neumann(A, m), s)
  {
    hide Conditioned, Add, Pow;
    if m == 0 {
      ConditionedUnits(A.rows, s);
    } else {
      ConditionedSeries(A, s, m - 1);
      ConditionedPower(A, s, m - 1);
      ConditionedSum(Neumann(A, m - 1), Pow(A, m - 1), s);
    }
  }

  lemma ConditionedStrict(A: Matrix, s: real)
    requires StrictLower(A)
    ensures StrictLower(Conditioned(A, s))
  {
    hide Weight;
  }

  /** The inverse of the conditioned system is the conditioned inverse, whatever s is. */
  lemma InverseConditioned(A: Matrix, s: real)
    requires Square(A)
    ensures Inverse(Conditioned(A, s)) == Conditioned(Inverse(A), s)
    ensures Unconditioned(Inverse(Conditioned(A, s)), s) == Inverse(A)
  {
    ConditionedSeries(A, s, A.rows);
    UnconditionedBack(Inverse(A), s);
  }

  /** Condition, run Taylor-Newton, undo: exactly the result of the plain run. */
  method SolvePreconditioned(A: Matrix, p: nat, K: nat, s: real) returns (X: Matrix)
    requires StrictLower(A)
    ensures X == Neumann(A, (p + 1) * Pow2(K))
    ensures A.rows <= (p + 1) * Pow2(K) ==> X == Inverse(A)
  {
    var C := Conditioned(A, s);
    ConditionedStrict(A, s);
    X := TaylorNewton(C, p, K);
    hide Conditioned, Unconditioned, Neumann, Inverse, StrictLower, Pow2, Pow;
    ConditionedSeries(A, s, (p + 1) * Pow2(K));
    UnconditionedBack(Neumann(A, (p + 1) * Pow2(K)), s);
    X := Unconditioned(X, s);
    if A.rows <= (p + 1) * Pow2(K) { SeriesExactIff(A.rows, (p + 1) * Pow2(K)); }
  }

  function Weighted(a: real, s: real): int -> real {
    l => a * Weight(s, l)
  }

  /** A geometric sum stays below its next term once the ratio leaves room for a. */
  lemma {:induction false} GeometricSum(a: real, s: real, n: nat)
    requires a >= 0.0 && s >= 1.0 + a
    ensures Sum(n, Weighted(a, s)) <= Weight(s, n)
  {
    if n > 0 {
      GeometricSum(a, s, n - 1);
      NonNegative(s - 1.0 - a, Weight(s, n - 1));
      assert Weight(s, n) == s * Weight(s, n - 1);
    }
  }

  lemma RowTamed(A: Matrix, s: real, r: nat)
    requires StrictLower(A) && r < A.rows && s >= 1.0 + MaxAbs(A)
    ensures Sum(A.rows, AbsRow(Conditioned(A, s), r)) <= 1.0
  {
    var C, a, w := Conditioned(A, s), MaxAbs(A), Weight(s, r);
    ConditionedStrict(A, s);
    SumTruncate(r, A.rows, AbsRow(C, r));
    hide At, MaxAbs, Weight, Conditioned, StrictLower, Weighted;
    forall l | 0 <= l < r
      ensures Abs(AbsRow(C, r)(l)) <= Scaled(1.0 / w, Weighted(a, s))(l)
    {
      EntryTamed(A, s, r, l);
    }
    SumBounded(r, AbsRow(C, r), Scaled(1.0 / w, Weighted(a, s)));
    ScaledSum(r, 1.0 / w, Weighted(a, s));
    GeometricSum(a, s, r);
    AtMostOne(Sum(r, Weighted(a, s)), w);
  }

  lemma EntryTamed(A: Matrix, s: real, r: int, l: int)
    ensures Abs(AbsRow(Conditioned(A, s), r)(l)) <= Scaled(1.0 / Weight(s, r), Weighted(MaxAbs(A), s))(l)
  {
    hide At, MaxAbs, Weight, Conditioned;
    ConditionedEntry(A, s, r, l);
    assert Abs(At(A, r, l)) <= MaxAbs(A);
    RatioWithin(At(A, r, l), MaxAbs(A), Weight(s, l), Weight(s, r));
  }

  lemma RatioWithin(x: real, a: real, v: real, w: real)
    requires Abs(x) <= a && v > 0.0 && w > 0.0
    ensures Abs(x * (v / w)) <= 1.0 / w * (a * v)
  {
    var q := v / w;
    assert q > 0.0 && 1.0 / w * v == q;
    AbsProduct(x, q, a, q);
    assert 1.0 / w * (a * v) == a * (1.0 / w * v);
  }

  lemma AtMostOne(x: real, w: real)
    requires w > 0.0 && x <= w
    ensures Steps(x, 1.0 / w) <= 1.0
  {
    assert 1.0 / w * w == 1.0;
    NonNegative(1.0 / w, w - x);
  }

  /** From s = 1 + max|A| on, every power of the conditioned matrix stays within one. */
  lemma {:induction false} PowersTamed(A: Matrix, s: real, k: nat)
    requires StrictLower(A) && s >= 1.0 + MaxAbs(A)
    ensures EntriesWithin(Pow(Conditioned(A, s), k), 1.0)
  {
    assert Square(A);
    hide MaxAbs, Conditioned, EntriesWithin, RowSumsWithin, Mul, StrictLower;
    if k == 0 {
      IdentityWithin(A.rows);
    } else {
      PowersTamed(A, s, k - 1);
      RowsTamed(A, s);
      ProductWithin(Conditioned(A, s), Pow(Conditioned(A, s), k - 1), 1.0, 1.0);
    }
  }

  lemma RowsTamed(A: Matrix, s: real)
    requires StrictLower(A) && s >= 1.0 + MaxAbs(A)
    ensures RowSumsWithin(Conditioned(A, s), 1.0)
  {
    assert Square(A);
    hide MaxAbs, Conditioned, AbsRow, StrictLower;
    forall r | 0 <= r < A.rows
      ensures Sum(A.rows, AbsRow(Conditioned(A, s), r)) <= 1.0
    {
      RowTamed(A, s, r);
    }
  }

  /** And so does every partial sum, hence every iterate of the seed and of Newton's steps. */
  lemma {:induction false} IteratesTamed(A: Matrix, s: real, m: nat)
    requires StrictLower(A) && s >= 1.0 + MaxAbs(A)
    ensures EntriesWithin(Neumann(Conditioned(A, s), m), 1.0)
  {
    assert Square(A);
    if m == 0 {
      assert Neumann(Conditioned(A, s), 0) == Zero(A.rows, A.rows);
    } else {
      ConditionedStrict(A, s);
      hide At, MaxAbs, Conditioned, RowSumsWithin, EntriesWithin, Neumann, StrictLower;
      IteratesTamed(A, s, m - 1);
      RowsTamed(A, s);
      IterateStep(Conditioned(A, s), m);
    }
  }

  lemma IterateStep(C: Matrix, m: nat)
    requires StrictLower(C) && m > 0 && RowSumsWithin(C, 1.0) && EntriesWithin(Neumann(C, m - 1), 1.0)
    ensures EntriesWithin(Neumann(C, m), 1.0)
  {
    assert Square(C);
    hide At, RowSumsWithin, Mul, Neumann, StrictLower;
    OneMore(C, m - 1);
    ProductWithin(C, Neumann(C, m - 1), 1.0, 1.0);
    forall r, c
      ensures Abs(At(Neumann(C, m), r, c)) <= 1.0
    {
      IterateEntry(C, m, r, c);
    }
  }

  lemma IterateEntry(C: Matrix, m: nat, r: int, c: int)
    requires StrictLower(C) && m > 0 && Neumann(C, m) == Add(Identity(C.rows), Mul(C, Neumann(C, m - 1)))
    requires EntriesWithin(Mul(C, Neumann(C, m - 1)), 1.0)
    ensures Abs(At(Neumann(C, m), r, c)) <= 1.0
  {
    if r == c && 0 <= r < C.rows {
      NeumannLower(C, m);
    } else {
      hide Mul, Neumann, StrictLower;
      AddEntry(Identity(C.rows), Mul(C, Neumann(C, m - 1)), r, c);
      OffDiagonal(C.rows, r, c);
      hide At;
      assert Abs(At(Mul(C, Neumann(C, m - 1)), r, c)) <= 1.0;
    }
  }

  lemma OffDiagonal(n: nat, r: int, c: int)
    requires !(r == c && 0 <= r < n)
    ensures At(Identity(n), r, c) == 0.0
  {
  }

  /** The first column of the filled matrix's inverse sums to powers of 1 + a. */
  lemma {:induction false} FilledColumn(n: nat, a: real, i: nat)
    requires 0 < i <= n
    ensures Sum(i, Column(n, a)) == RealPow(1.0 + a, i - 1)
    ensures i < n ==> At(Inverse(Filled(n, a)), i, 0) == a * RealPow(1.0 + a, i - 1)
  {
    FilledTop(n, a);
    hide Column;
    if i > 1 {
      FilledColumn(n, a, i - 1);
      Raised(a, RealPow(1.0 + a, i - 2));
      ColumnIs(n, a, i - 1);
    }
    if i < n { FilledRow(n, a, i); }
  }

  lemma ColumnIs(n: nat, a: real, i: nat)
    ensures Column(n, a)(i) == At(Inverse(Filled(n, a)), i, 0)
  {
  }

  lemma FilledTop(n: nat, a: real)
    requires n > 0
    ensures Sum(1, Column(n, a)) == 1.0 && RealPow(1.0 + a, 0) == 1.0
  {
    FilledStrict(n, a);
    InverseLower(Filled(n, a));
    assert Sum(0, Column(n, a)) == 0.0;
  }

  lemma FilledRow(n: nat, a: real, i: nat)
    requires 0 < i < n
    ensures At(Inverse(Filled(n, a)), i, 0) == Steps(Sum(i, Column(n, a)), a)
  {
    FilledStrict(n, a);
    var A := Filled(n, a);
    InverseRow(A, i, 0);
    hide At, Inverse, Filled, Column, Term, StrictLower, Steps, Scaled;
    forall l | 0 <= l < i
      ensures Term(A, Inverse(A), i, 0)(l) == Scaled(a, Column(n, a))(l)
    {
      FilledTerm(n, a, i, l);
    }
    SumExt(i, Term(A, Inverse(A), i, 0), Scaled(a, Column(n, a)));
    ScaledSum(i, a, Column(n, a));
  }

  lemma FilledTerm(n: nat, a: real, i: int, l: int)
    requires 0 <= l < i < n
    ensures Term(Filled(n, a), Inverse(Filled(n, a)), i, 0)(l) == Scaled(a, Column(n, a))(l)
  {
    hide Inverse;
    assert At(Filled(n, a), i, l) == a;
  }

  lemma Raised(a: real, p: real)
    ensures p + a * p == (1.0 + a) * p
  {
  }

  function Column(n: nat, a: real): int -> real {
    l => At(Inverse(Filled(n, a)), l, 0)
  }

  lemma FilledStrict(n: nat, a: real)
    ensures StrictLower(Filled(n, a))
    ensures a >= 0.0 ==> MaxAbs(Filled(n, a)) <= a
  {
    hide MaxAbs;
  }

  /** Powers of a number above one pass every bound. */
  lemma {:induction false} Bernoulli(r: real, k: nat)
    requires r >= 1.0
    ensures RealPow(r, k) >= 1.0 + k as real * (r - 1.0)
  {
    if k > 0 {
      Bernoulli(r, k - 1);
      var d, p := r - 1.0, RealPow(r, k - 1);
      NonNegative(d, p - 1.0 - (k - 1) as real * d);
      NonNegative((k - 1) as real, d * d);
      NonNegative(d, d);
      BernoulliStep(d, p, (k - 1) as real, k as real);
    }
  }

  lemma BernoulliStep(d: real, p: real, j: real, k: real)
    requires k == j + 1.0 && d * (p - 1.0 - j * d) >= 0.0 && j * (d * d) >= 0.0 && p >= 1.0 + j * d
    ensures (1.0 + d) * p >= 1.0 + k * d
  {
    assert d * (p - 1.0 - j * d) == d * p - d - j * (d * d);
  }

  /** Some power of r > 1 exceeds c. */
  lemma PassesBound(r: real, c: real) returns (k: nat)
    requires r > 1.0 && c > 0.0
    ensures RealPow(r, k) > c
  {
    var q := c / (r - 1.0);
    PositiveQuotient(c, r - 1.0);
    k := q.Floor + 1;
    Bernoulli(r, k);
    ScaledMore(r - 1.0, q, k as real);
  }

  lemma PositiveQuotient(c: real, d: real)
    requires c > 0.0 && d > 0.0
    ensures c / d > 0.0 && c / d * d == c
  {
    if c / d <= 0.0 { NonNegative(0.0 - c / d, d); }
  }

  lemma ScaledMore(d: real, x: real, y: real)
    requires d > 0.0 && x <= y
    ensures x * d <= y * d
  {
    NonNegative(d, y - x);
  }

  lemma {:induction false} PowQuotient(x: real, s: real, k: nat)
    requires s > 0.0
    ensures RealPow(s, k) > 0.0 && RealPow(x, k) / RealPow(s, k) == RealPow(x / s, k)
  {
    PowPositive(s, k);
    if k > 0 {
      PowQuotient(x, s, k - 1);
      PowPositive(s, k - 1);
      QuotientProduct(x, s, RealPow(x, k - 1), RealPow(s, k - 1));
    }
  }

  lemma QuotientProduct(x: real, s: real, p: real, q: real)
    requires s > 0.0 && q > 0.0 && s * q > 0.0
    ensures x * p / (s * q) == x / s * (p / q)
  {
    var u, v := x / s, p / q;
    assert u * s == x && v * q == p;
    assert u * v * (s * q) == x * p by { assert u * v * (s * q) == u * s * (v * q); }
  }

  /** The conditioned filled matrix's inverse, k + 1 rows below the diagonal, is (a / s) ((1 + a) / s)^k. */
  lemma FilledCorner(n: nat, a: real, s: real, k: nat)
    requires s > 0.0 && n == k + 2
    ensures At(Inverse(Conditioned(Filled(n, a), s)), k + 1, 0) == a / s * RealPow((1.0 + a) / s, k)
  {
    hide Inverse, Filled, Conditioned, Weight, RealPow, At;
    InverseConditioned(Filled(n, a), s);
    ConditionedEntry(Inverse(Filled(n, a)), s, k + 1, 0);
    FilledColumn(n, a, k + 1);
    PowQuotient(1.0 + a, s, k);
    WeightsAt(s, k);
    OverWhole(a, RealPow(1.0 + a, k), s, RealPow(s, k));
  }

  lemma WeightsAt(s: real, k: nat)
    requires s > 0.0
    ensures Weight(s, 0) == 1.0 && Weight(s, k + 1) == s * RealPow(s, k)
  {
    PowNext(s, k);
    hide RealPow;
    assert Weight(s, 0) == RealPow(s, 0) && Weight(s, k + 1) == RealPow(s, k + 1);
  }

  lemma PowNext(s: real, k: nat)
    ensures RealPow(s, 0) == 1.0 && RealPow(s, k + 1) == s * RealPow(s, k)
  {
  }

  lemma OverWhole(a: real, p: real, s: real, q: real)
    requires s > 0.0 && q > 0.0 && s * q > 0.0
    ensures a * p * (1.0 / (s * q)) == a / s * (p / q)
  {
    QuotientProduct(a, s, p, q);
    Inverted(a * p, s * q);
  }

  lemma Inverted(x: real, y: real)
    requires y > 0.0
    ensures x * (1.0 / y) == x / y
  {
  }

  /** Every iterate, for every size and every A with entries within a, stays within one. */
  ghost predicate AlwaysTame(a: real, s: real) {
    forall A: Matrix, m: nat | StrictLower(A) && MaxAbs(A) <= a :: EntriesWithin(Neumann(Conditioned(A, s), m), 1.0)
  }

  /** 1 + a is the smallest s that does this. */
  lemma TameIff(a: real, s: real)
    requires a > 0.0 && s > 0.0
    ensures AlwaysTame(a, s) <==> s >= 1.0 + a
  {
    hide Neumann, Conditioned, MaxAbs, EntriesWithin;
    if s >= 1.0 + a {
      forall A: Matrix, m: nat | StrictLower(A) && MaxAbs(A) <= a
        ensures EntriesWithin(Neumann(Conditioned(A, s), m), 1.0)
      {
        IteratesTamed(A, s, m);
      }
    } else {
      var n := FilledGrows(a, s);
      FilledStrict(n, a);
      assert !EntriesWithin(Neumann(Conditioned(Filled(n, a), s), n), 1.0);
    }
  }

  lemma FilledGrows(a: real, s: real) returns (n: nat)
    requires a > 0.0 && 0.0 < s < 1.0 + a
    ensures !EntriesWithin(Neumann(Conditioned(Filled(n, a), s), n), 1.0)
  {
    var r, c := (1.0 + a) / s, a / s;
    assert r > 1.0 && c > 0.0;
    var k := PassesBound(r, 1.0 / c);
    n := k + 2;
    FilledCorner(n, a, s, k);
    OverOne(c, RealPow(r, k));
    var X := Inverse(Conditioned(Filled(n, a), s));
    hide Neumann, Conditioned, Filled, At;
    assert Abs(At(X, k + 1, 0)) > 1.0;
    assert X == Neumann(Conditioned(Filled(n, a), s), n);
  }

  lemma OverOne(c: real, p: real)
    requires c > 0.0 && p > 1.0 / c
    ensures c * p > 1.0
  {
    PositiveQuotient(1.0, c);
    Margin(c, p, 1.0 / c);
  }

  lemma Margin(c: real, p: real, q: real)
    requires c > 0.0 && p > q && q * c == 1.0
    ensures c * p > 1.0
  {
    StepsLess(q, p, c);
  }
}

/**
 The graph form when the solve's block size does not divide the chunk length. The tokens past the
 last full block then write nothing: the chunk computes the recurrence of the stream whose beta
 is zero from there on. That is the stream's own recurrence exactly when those tokens have
 nothing to write anyway.
 */
module UncoveredTail {
  import opened Sums
  import opened Matrices
  import opened Triangular
  import opened BlockSolvers
  import opened GatedDelta
  import opened ChunkAlgebra
  import opened ChunkKernel
  import opened PrefillKernel

  /** The stream whose tokens from n on write nothing. */
  function Muted(s: Stream, n: nat): (r: Stream)
    ensures |r.beta| == |s.beta| && r.Valid() == s.Valid()
    ensures r.q == s.q && r.k == s.k && r.v == s.v && r.g == s.g
    ensures forall t :: Nth(r.beta, t) == if t < n then Nth(s.beta, t) else 0.0
  {
    s.(beta := seq(|s.beta|, t requires 0 <= t < |s.beta| => if t < n then s.beta[t] else 0.0))
  }

  /** X with the rows from n on cleared. */
  function ClearRows(X: Matrix, n: nat): (C: Matrix)
    ensures C.rows == X.rows && C.cols == X.cols
  {
    Make(X.rows, X.cols, (i, j) => if i < n then At(X, i, j) else 0.0)
  }

  lemma ClearedEntry(X: Matrix, n: nat, i: int, j: int)
    ensures At(ClearRows(X, n), i, j) == if i < n then At(X, i, j) else 0.0
  {
  }

  lemma MutedKeys(p: Params, s: Stream, n: nat)
    ensures Keys(p, Muted(s, n)) == Keys(p, s) && Queries(p, Muted(s, n)) == Queries(p, s)
  {
  }

  lemma IntraAt(p: Params, s: Stream, t: nat, l: nat)
    requires t < s.k.rows && l < s.k.rows
    ensures At(IntraCoefficients(p, s), t, l)
            == if l < t
               then -(Nth(s.beta, t) * Dot(Keys(p, s), Transpose(Keys(p, s)), t, l) * Gap(p, s.g, t + 1, l))
               else 0.0
  {
    hide At, Gap, Dot, Keys, Nth;
  }

  lemma RightAt(p: Params, s: Stream, S: Matrix, t: nat, j: nat)
    requires Fits(s, S) && t < |s.g| && j < S.cols
    ensures At(RightSide(p, s, S), t, j)
            == Nth(s.beta, t) * At(s.v, t, j) - Nth(s.beta, t) * (p.E)(Prefix(s.g, t + 1)) * Dot(Keys(p, s), S, t, j)
  {
    hide At, Dot, Keys, Nth;
  }

  lemma ZeroProduct(x: real, y: real)
    ensures -(0.0 * x * y) == 0.0 && 0.0 * x == 0.0 && 0.0 * x * y == 0.0
  {
  }

  lemma MutedIntra(p: Params, s: Stream, n: nat)
    requires s.Valid()
    ensures IntraCoefficients(p, Muted(s, n)) == ClearRows(IntraCoefficients(p, s), n)
  {
    MutedKeys(p, s, n);
    hide At, Gap, Dot, Keys, IntraCoefficients, ClearRows, Muted, Nth;
    var r := Muted(s, n);
    var K := Keys(p, s);
    forall t, l | 0 <= t < s.k.rows && 0 <= l < s.k.rows
      ensures At(IntraCoefficients(p, r), t, l) == At(ClearRows(IntraCoefficients(p, s), n), t, l)
    {
      IntraAt(p, s, t, l);
      IntraAt(p, r, t, l);
      ClearedEntry(IntraCoefficients(p, s), n, t, l);
      ZeroProduct(Dot(K, Transpose(K), t, l), Gap(p, s.g, t + 1, l));
    }
    Ext(IntraCoefficients(p, r), ClearRows(IntraCoefficients(p, s), n));
  }

  lemma MutedRight(p: Params, s: Stream, S: Matrix, n: nat)
    requires Fits(s, S)
    ensures RightSide(p, Muted(s, n), S) == ClearRows(RightSide(p, s, S), n)
  {
    MutedKeys(p, s, n);
    hide At, Prefix, Dot, Keys, RightSide, ClearRows, Muted, Nth;
    var r := Muted(s, n);
    forall t, j | 0 <= t < |s.g| && 0 <= j < S.cols
      ensures At(RightSide(p, r, S), t, j) == At(ClearRows(RightSide(p, s, S), n), t, j)
    {
      RightAt(p, s, S, t, j);
      RightAt(p, r, S, t, j);
      ClearedEntry(RightSide(p, s, S), n, t, j);
      ZeroProduct(At(s.v, t, j), 0.0);
      ZeroProduct((p.E)(Prefix(s.g, t + 1)), Dot(Keys(p, s), S, t, j));
    }
    Ext(RightSide(p, r, S), ClearRows(RightSide(p, s, S), n));
  }

  /** What a solve of the first n rows leaves: their inverse, and zeros. */
  function LeadingInverse(A: Matrix, n: nat): (T: Matrix)
    ensures T.rows == T.cols == A.rows
  {
    Embed(Inverse(Leading(A, n)), A.rows)
  }

  lemma LeadingInverseEntry(A: Matrix, n: nat, r: nat, c: nat)
    requires n <= A.rows
    ensures At(LeadingInverse(A, n), r, c) == if r < n && c < n then At(Inverse(Leading(A, n)), r, c) else 0.0
  {
    hide Inverse, Leading;
  }

  lemma ClearedMinus(A: Matrix, n: nat, r: nat, l: nat)
    requires Square(A) && r < A.rows && l < A.rows
    ensures At(OneMinus(ClearRows(A, n)), r, l)
            == (if r == l then 1.0 else 0.0) - (if r < n then At(A, r, l) else 0.0)
  {
  }

  /** A cleared row of I - A is a row of I, and meets only a zero row. */
  lemma SingleRow(A: Matrix, n: nat, r: nat, c: nat)
    requires Square(A) && n <= r < A.rows
    ensures Dot(OneMinus(ClearRows(A, n)), LeadingInverse(A, n), r, c) == 0.0
  {
    hide At, LeadingInverse, OneMinus, ClearRows;
    var M, T := OneMinus(ClearRows(A, n)), LeadingInverse(A, n);
    forall l | 0 <= l < A.rows
      ensures Term(M, T, r, c)(l) == 0.0
    {
      ClearedMinus(A, n, r, l);
      LeadingInverseEntry(A, n, l, c);
    }
    SumZero(A.rows, Term(M, T, r, c));
  }

  /** A covered row is the leading system against its inverse. */
  lemma LowerTerm(A: Matrix, n: nat, r: nat, c: nat, l: nat)
    requires Square(A) && r < n <= A.rows && l < A.rows
    ensures Term(OneMinus(ClearRows(A, n)), LeadingInverse(A, n), r, c)(l)
            == if l < n && c < n then Term(OneMinus(Leading(A, n)), Inverse(Leading(A, n)), r, c)(l) else 0.0
  {
    hide At, LeadingInverse, OneMinus, ClearRows, Inverse, Leading;
    LeadingInverseEntry(A, n, l, c);
    if l < n {
      ClearedMinus(A, n, r, l);
      LeadingMinus(A, n, r, l);
    }
  }

  lemma LowerRow(A: Matrix, n: nat, r: nat, c: nat)
    requires Square(A) && StrictLower(A) && r < n <= A.rows
    ensures Dot(OneMinus(ClearRows(A, n)), LeadingInverse(A, n), r, c) == if r == c then 1.0 else 0.0
  {
    hide At, LeadingInverse, OneMinus, ClearRows, Inverse, Leading, StrictLower, Term;
    var f := Term(OneMinus(ClearRows(A, n)), LeadingInverse(A, n), r, c);
    var g := Term(OneMinus(Leading(A, n)), Inverse(Leading(A, n)), r, c);
    forall l | 0 <= l < A.rows
      ensures f(l) == if l < n && c < n then g(l) else 0.0
    {
      LowerTerm(A, n, r, c, l);
    }
    SumTruncate(n, A.rows, f);
    if c < n {
      SumExt(n, f, g);
      LeadingUnit(A, n, r, c);
    } else {
      SumZero(n, f);
    }
  }

  lemma LeadingUnit(A: Matrix, n: nat, r: nat, c: nat)
    requires StrictLower(A) && n <= A.rows && r < n && c < n
    ensures Dot(OneMinus(Leading(A, n)), Inverse(Leading(A, n)), r, c) == if r == c then 1.0 else 0.0
  {
    LeadingStrict(A, n);
    hide At, OneMinus, Inverse, Leading, StrictLower, Mul, Identity, Dot;
    InverseBothSides(Leading(A, n));
    MulEntry(OneMinus(Leading(A, n)), Inverse(Leading(A, n)), r, c);
    UnitEntry(n, r, c);
  }

  lemma UnitEntry(n: nat, r: nat, c: nat)
    requires r < n && c < n
    ensures At(Identity(n), r, c) == if r == c then 1.0 else 0.0
  {
  }

  lemma LeadingMinus(A: Matrix, n: nat, r: nat, l: nat)
    requires Square(A) && n <= A.rows && r < n && l < n
    ensures At(OneMinus(Leading(A, n)), r, l) == (if r == l then 1.0 else 0.0) - At(A, r, l)
  {
  }

  /** What that solve does to a right side is the solution of the cleared system. */
  lemma LeadingSolves(A: Matrix, n: nat, R: Matrix)
    requires StrictLower(A) && n <= A.rows == R.rows
    ensures StrictLower(ClearRows(A, n))
            && Mul(LeadingInverse(A, n), R) == Mul(Inverse(ClearRows(A, n)), ClearRows(R, n))
  {
    var A', T := ClearRows(A, n), LeadingInverse(A, n);
    ClearedStrict(A, n);
    MulAssoc(OneMinus(A'), T, R);
    hide At, LeadingInverse, OneMinus, ClearRows, Inverse, StrictLower, Mul, Identity, Dot;
    var J := Mul(OneMinus(A'), T);
    forall r, c | 0 <= r < A.rows && 0 <= c < A.rows
      ensures At(J, r, c) == At(ClearRows(Identity(A.rows), n), r, c)
    {
      MulEntry(OneMinus(A'), T, r, c);
      if r < n { LowerRow(A, n, r, c); } else { SingleRow(A, n, r, c); }
      ClearedEntry(Identity(A.rows), n, r, c);
      UnitEntry(A.rows, r, c);
    }
    Ext(J, ClearRows(Identity(A.rows), n));
    ClearByProduct(R, n);
    SolveUnique(A', Mul(T, R), ClearRows(R, n));
  }

  lemma ClearedStrict(A: Matrix, n: nat)
    requires StrictLower(A)
    ensures StrictLower(ClearRows(A, n))
  {
  }

  lemma ClearByProduct(R: Matrix, n: nat)
    ensures Mul(ClearRows(Identity(R.rows), n), R) == ClearRows(R, n)
  {
    hide At, ClearRows, Identity, Mul;
    var J := ClearRows(Identity(R.rows), n);
    forall i, j | 0 <= i < R.rows && 0 <= j < R.cols
      ensures At(Mul(J, R), i, j) == At(ClearRows(R, n), i, j)
    {
      forall l | 0 <= l < R.rows
        ensures At(J, i, l) == if i < n && i == l then 1.0 else 0.0
      {
        ClearedEntry(Identity(R.rows), n, i, l);
        UnitEntry(R.rows, i, l);
      }
      ClearedEntry(R, n, i, j);
      MulEntry(J, R, i, j);
      if i < n { SumSingle(R.rows, i, Term(J, R, i, j)); } else { SumZero(R.rows, Term(J, R, i, j)); }
    }
    Ext(Mul(J, R), ClearRows(R, n));
  }

  /** Whatever T the solve returns, U - W S_in is T applied to the right side. */
  lemma SolveApplied(p: Params, s: Stream, S: Matrix, T: Matrix)
    requires Fits(s, S) && T.rows == T.cols == |s.g|
    ensures var KBeta := ScaleRows(Keys(p, s), s.beta);
            Sub(Mul(T, ScaleRows(s.v, s.beta)), Mul(Mul(T, ScaleRows(KBeta, Exps(p.E, Cumsum(s.g)))), S))
            == Mul(T, RightSide(p, s, S))
  {
    hide At, Keys, Prefix, Dot, ScaleRows, RightSide, Cumsum, Mul, Sub;
    var V, KE := ScaleRows(s.v, s.beta), ScaleRows(ScaleRows(Keys(p, s), s.beta), Exps(p.E, Cumsum(s.g)));
    MulAssoc(T, KE, S);
    MulSubRight(T, V, Mul(KE, S));
    RightSideFromProducts(p, s, S);
  }

  /** The tokens in full blocks of b. */
  function InBlocks(s: Stream, b: nat): (n: nat)
    requires b > 0
    ensures n <= |s.g| && (n == |s.g| <==> |s.g| % b == 0)
  {
    |s.g| / b * b
  }

  /** The blocked solve's corrections are those of the muted stream. */
  lemma CoveredCorrections(p: Params, s: Stream, S: Matrix, b: nat)
    requires Fits(s, S) && IsExp(p.E) && b > 0
    ensures Mul(Covered(IntraCoefficients(p, s), b), RightSide(p, s, S)) == Deltas(p, Muted(s, InBlocks(s, b)), S)
  {
    var n := InBlocks(s, b);
    assert Covered(IntraCoefficients(p, s), b) == LeadingInverse(IntraCoefficients(p, s), n) by {
      hide IntraCoefficients, Embed, Inverse, Leading;
    }
    hide At, IsExp, IntraCoefficients, RightSide, Deltas, Inverse, StrictLower, Covered, Mul, ClearRows;
    hide LeadingInverse, InBlocks;
    IntraStrict(p, s);
    LeadingSolves(IntraCoefficients(p, s), n, RightSide(p, s, S));
    MutedIntra(p, s, n);
    MutedRight(p, s, S, n);
    DeltasSolve(p, Muted(s, n), S);
  }

  /** Muting changes no read coefficient. */
  lemma MutedReads(p: Params, s: Stream, n: nat)
    requires s.Valid()
    ensures ReadCoefficients(p, Muted(s, n)) == ReadCoefficients(p, s)
  {
    MutedKeys(p, s, n);
    hide At, Gap, Dot, Keys, Queries, Muted;
    var r := Muted(s, n);
    forall t, l | 0 <= t < s.k.rows && 0 <= l < s.k.rows
      ensures At(ReadCoefficients(p, r), t, l) == At(ReadCoefficients(p, s), t, l)
    {
    }
    Ext(ReadCoefficients(p, r), ReadCoefficients(p, s));
  }

  /** Tokens before n are untouched, so their outputs are the stream's. */
  lemma MutedPrefix(p: Params, s: Stream, S: Matrix, n: nat, t: nat, j: int)
    requires Fits(s, S) && t < n <= |s.g|
    ensures Output(p, Muted(s, n), S, t, j) == Output(p, s, S, t, j)
  {
    var r := Muted(s, n);
    forall k | 0 <= k <= t
      ensures SameToken(s, 0, r, k)
    {
    }
    hide SameToken, Output;
    OutputShift(p, s, r, S, 0, t, j);
  }

  lemma NothingMuted(s: Stream)
    requires s.Valid()
    ensures Muted(s, |s.g|) == s
  {
    assert Muted(s, |s.g|).beta == s.beta;
  }

  /** No token from n on writes: its beta or its key is zero. */
  ghost predicate WritesNothingFrom(p: Params, s: Stream, n: nat) {
    forall t, d {:trigger At(Keys(p, s), t, d)} :: n <= t < |s.g| && 0 <= d < s.k.cols ==>
      Nth(s.beta, t) == 0.0 || At(Keys(p, s), t, d) == 0.0
  }

  /** Muting from n on makes no difference to outputs or final state. */
  ghost predicate MutingUnseen(p: Params, s: Stream, n: nat, S: Matrix)
    requires Fits(s, S)
  {
    Outputs(p, Muted(s, n), S) == Outputs(p, s, S) && FinalState(p, Muted(s, n), S) == FinalState(p, s, S)
  }

  /** x decayed by token t. */
  function Kept(p: Params, s: Stream, t: nat, x: real): real {
    (p.E)(Nth(s.g, t)) * x
  }

  /** What token t adds at (d, j) of a decayed state D: its key times its correction. */
  function Write(p: Params, s: Stream, D: Matrix, t: nat, d: int, j: int): real {
    At(Keys(p, s), t, d) * Correction(p, s, D, t, j)
  }

  /** N is the state after token t, from M through its decayed form D. */
  ghost predicate IsStep(p: Params, s: Stream, t: nat, M: Matrix, D: Matrix, N: Matrix) {
    && M.rows == D.rows == N.rows == s.k.cols && M.cols == D.cols == N.cols == s.v.cols
    && (forall d, j {:trigger At(D, d, j)} :: 0 <= d < M.rows && 0 <= j < M.cols ==>
         At(D, d, j) == Kept(p, s, t, At(M, d, j)))
    && (forall d, j {:trigger At(N, d, j)} :: 0 <= d < M.rows && 0 <= j < M.cols ==>
          At(N, d, j) == At(D, d, j) + Write(p, s, D, t, d, j))
  }

  /** The state before token t; a name of its own keeps the recursion out of the proofs below. */
  function Before(p: Params, s: Stream, S: Matrix, t: nat): (M: Matrix)
    requires Fits(s, S)
    ensures M.rows == S.rows && M.cols == S.cols
  {
    State(p, s, S, t)
  }

  lemma TokenStep(p: Params, s: Stream, S: Matrix, t: nat) returns (D: Matrix)
    requires Fits(s, S)
    ensures IsStep(p, s, t, Before(p, s, S, t), D, Before(p, s, S, t + 1))
  {
    hide At, Correction, Keys, Dot;
    D := Decayed(p, s, S, t);
  }

  /** A token without beta or without key writes nothing, muted or not. */
  lemma SilentWrite(p: Params, s: Stream, D: Matrix, n: nat, t: nat, d: int, j: int)
    requires WritesNothingFrom(p, s, n) && t < |s.g| && 0 <= d < s.k.cols
    ensures Write(p, Muted(s, n), D, t, d, j) == Write(p, s, D, t, d, j)
    ensures t >= n ==> Write(p, s, D, t, d, j) == 0.0
  {
    MutedKeys(p, s, n);
    hide Keys, At, Dot;
    if t >= n { KeyOrBeta(Nth(s.beta, t), At(Keys(p, s), t, d), At(s.v, t, j) - Dot(Keys(p, s), D, t, j)); }
  }

  lemma KeyOrBeta(b: real, k: real, x: real)
    requires b == 0.0 || k == 0.0
    ensures k * (b * x) == 0.0 && k * (0.0 * x) == 0.0
  {
  }

  lemma StepSame(p: Params, s: Stream, n: nat, t: nat, M: Matrix, D: Matrix, N: Matrix, D': Matrix, N': Matrix)
    requires WritesNothingFrom(p, s, n) && t < |s.g|
    requires IsStep(p, s, t, M, D, N) && IsStep(p, Muted(s, n), t, M, D', N')
    ensures N' == N
  {
    hide At, Write, WritesNothingFrom;
    Ext(D', D);
    forall d, j | 0 <= d < M.rows && 0 <= j < M.cols
      ensures At(N', d, j) == At(N, d, j)
    {
      SilentWrite(p, s, D, n, t, d, j);
    }
    Ext(N', N);
  }

  lemma {:induction false} MutedState(p: Params, s: Stream, S: Matrix, n: nat, t: nat)
    requires Fits(s, S) && WritesNothingFrom(p, s, n) && t <= |s.g|
    ensures Before(p, Muted(s, n), S, t) == Before(p, s, S, t)
  {
    if t > 0 {
      hide Before, IsStep, Muted, WritesNothingFrom;
      var u: nat := t - 1;
      var r := Muted(s, n);
      MutedState(p, s, S, n, u);
      var D := TokenStep(p, s, S, u);
      var D' := TokenStep(p, r, S, u);
      StepSame(p, s, n, u, Before(p, s, S, u), D, Before(p, s, S, t), D', Before(p, r, S, t));
    }
  }

  lemma OutputsAt(p: Params, s: Stream, S: Matrix, t: nat, j: nat)
    requires Fits(s, S) && t < |s.g| && j < S.cols
    ensures At(Outputs(p, s, S), t, j) == Dot(Queries(p, s), Before(p, s, S, t + 1), t, j)
  {
    OutputIs(p, s, S, t, j, State(p, s, S, t + 1));
    hide At, Output;
  }

  lemma FinalIs(p: Params, s: Stream, S: Matrix)
    requires Fits(s, S)
    ensures FinalState(p, s, S) == Before(p, s, S, |s.g|)
  {
  }

  lemma SilentTailUnseen(p: Params, s: Stream, S: Matrix, n: nat)
    requires Fits(s, S) && WritesNothingFrom(p, s, n)
    ensures MutingUnseen(p, s, n, S)
  {
    var r := Muted(s, n);
    MutedKeys(p, s, n);
    hide At, Keys, Queries, Muted, WritesNothingFrom, Before, Outputs, FinalState, Dot;
    MutedState(p, s, S, n, |s.g|);
    FinalIs(p, s, S);
    FinalIs(p, r, S);
    forall t, j | 0 <= t < |s.g| && 0 <= j < S.cols
      ensures At(Outputs(p, r, S), t, j) == At(Outputs(p, s, S), t, j)
    {
      MutedState(p, s, S, n, t + 1);
      OutputsAt(p, s, S, t, j);
      OutputsAt(p, r, S, t, j);
    }
    Ext(Outputs(p, r, S), Outputs(p, s, S));
  }

  ghost predicate AllZero(M: Matrix) {
    forall d, j :: At(M, d, j) == 0.0
  }

  /** Token l has no beta, or no values. */
  ghost predicate NothingToWrite(s: Stream, l: nat) {
    Nth(s.beta, l) == 0.0 || forall j :: At(s.v, l, j) == 0.0
  }

  /** On a zero state a token's correction is beta v. */
  lemma ZeroCorrection(p: Params, s: Stream, D: Matrix, t: nat, j: int)
    requires AllZero(D)
    ensures Correction(p, s, D, t, j) == Nth(s.beta, t) * At(s.v, t, j)
  {
    hide Keys, At;
    SumZero(Keys(p, s).cols, Term(Keys(p, s), D, t, j));
  }

  lemma StepZero(p: Params, s: Stream, t: nat, M: Matrix, D: Matrix, N: Matrix)
    requires IsStep(p, s, t, M, D, N) && AllZero(M)
    ensures AllZero(D)
    ensures NothingToWrite(s, t) ==> AllZero(N)
  {
    DecayedZero(p, s, t, M, D, N);
    hide Keys, Correction;
    if NothingToWrite(s, t) {
      forall d, j | 0 <= d < M.rows && 0 <= j < M.cols
        ensures At(N, d, j) == 0.0
      {
        ZeroCorrection(p, s, D, t, j);
        ZeroWrite(Nth(s.beta, t), At(s.v, t, j), At(Keys(p, s), t, d));
      }
    }
  }

  lemma ZeroWrite(b: real, v: real, k: real)
    requires b == 0.0 || v == 0.0
    ensures k * (b * v) == 0.0
  {
  }

  lemma DecayedZero(p: Params, s: Stream, t: nat, M: Matrix, D: Matrix, N: Matrix)
    requires IsStep(p, s, t, M, D, N) && AllZero(M)
    ensures AllZero(D)
  {
    hide Write;
  }

  /** From a zero state, tokens without beta or without values leave it zero. */
  lemma {:induction false} StaysZero(p: Params, s: Stream, S: Matrix, t: nat)
    requires Fits(s, S) && AllZero(S) && t <= |s.g|
    requires forall l: nat :: l < t ==> NothingToWrite(s, l)
    ensures AllZero(Before(p, s, S, t))
  {
    if t > 0 {
      hide Before, IsStep, AllZero, NothingToWrite;
      var u: nat := t - 1;
      StaysZero(p, s, S, u);
      var D := TokenStep(p, s, S, u);
      StepZero(p, s, u, Before(p, s, S, u), D, Before(p, s, S, t));
    }
  }

  /** The exponential never vanishes. */
  lemma ExpNonZero(E: real -> real, x: real)
    requires IsExp(E)
    ensures E(x) != 0.0
  {
    assert AddsExponents(E, x, -x);
    assert x + -x == 0.0;
  }

  /** Entry (d, 0) is there and not zero. */
  ghost predicate Live(M: Matrix, d: nat) {
    d < M.rows && M.cols > 0 && At(M, d, 0) != 0.0
  }

  lemma StepSurvives(p: Params, s: Stream, lo: nat, t: nat, M: Matrix, D: Matrix, N: Matrix, d: nat)
    requires IsStep(p, s, t, M, D, N) && IsExp(p.E) && WritesNothingFrom(p, s, lo) && lo <= t < |s.g| && Live(M, d)
    ensures Live(N, d)
  {
    hide Write, At, IsExp, WritesNothingFrom, Nth;
    ExpNonZero(p.E, Nth(s.g, t));
    SilentWrite(p, s, D, lo, t, d, 0);
    NonZeroProduct((p.E)(Nth(s.g, t)), At(M, d, 0));
  }

  /** A non-zero entry survives tokens that write nothing. */
  lemma {:induction false} EntrySurvives(p: Params, s: Stream, S: Matrix, lo: nat, t: nat, d: nat)
    requires Fits(s, S) && IsExp(p.E) && WritesNothingFrom(p, s, lo) && lo <= t <= |s.g|
    requires Live(Before(p, s, S, lo), d)
    ensures Live(Before(p, s, S, t), d)
    decreases t
  {
    hide Before, Live, IsStep, WritesNothingFrom, IsExp;
    if t > lo {
      var u: nat := t - 1;
      EntrySurvives(p, s, S, lo, u, d);
      var D := TokenStep(p, s, S, u);
      StepSurvives(p, s, lo, u, Before(p, s, S, u), D, Before(p, s, S, t), d);
    }
  }

  lemma NonZeroProduct(x: real, y: real)
    requires x != 0.0 && y != 0.0
    ensures x * y != 0.0
  {
  }

  lemma {:induction false} LastWriter(p: Params, s: Stream, n: nat, hi: nat) returns (t: nat, d: nat)
    requires n <= hi <= |s.g| && WritesNothingFrom(p, s, hi) && !WritesNothingFrom(p, s, n)
    ensures n <= t < |s.g| && d < s.k.cols && Nth(s.beta, t) != 0.0 && At(Keys(p, s), t, d) != 0.0
    ensures WritesNothingFrom(p, s, t + 1)
    decreases hi
  {
    hide Keys, At;
    t, d := 0, 0;
    if hi > n {
      var u: nat := hi - 1;
      if WritesNothingFrom(p, s, u) {
        t, d := LastWriter(p, s, n, u);
      } else {
        var t', d' :| u <= t' < |s.g| && 0 <= d' < s.k.cols
                      && !(Nth(s.beta, t') == 0.0 || At(Keys(p, s), t', d') == 0.0);
        t, d := t', d';
      }
    }
  }

  /** One column of values, 1 at token t and 0 elsewhere. */
  function Pulse(rows: nat, t: nat): (v: Matrix)
    ensures v.rows == rows && v.cols == 1
    ensures forall l, j :: At(v, l, j) == if 0 <= l < rows && l == t && j == 0 then 1.0 else 0.0
  {
    Make(rows, 1, (l, j) => if l == t then 1.0 else 0.0)
  }

  lemma ZerosAreZero(n: nat)
    ensures AllZero(Zero(n, 1))
  {
  }

  /** The pulse reaches the state right behind its token. */
  lemma PulseStep(p: Params, s: Stream, t: nat, M: Matrix, D: Matrix, N: Matrix, d: nat)
    requires IsStep(p, s, t, M, D, N) && AllZero(M) && d < s.k.cols && s.v.cols == 1 && At(s.v, t, 0) == 1.0
    requires Nth(s.beta, t) != 0.0 && At(Keys(p, s), t, d) != 0.0
    ensures Live(N, d)
  {
    StepZero(p, s, t, M, D, N);
    ZeroCorrection(p, s, D, t, 0);
    hide Keys, Correction, Nth;
    assert Correction(p, s, D, t, 0) == Nth(s.beta, t);
    NonZeroProduct(At(Keys(p, s), t, d), Nth(s.beta, t));
  }

  lemma PulseReaches(p: Params, s: Stream, S: Matrix, t: nat, d: nat)
    requires Fits(s, S) && AllZero(S) && t < |s.g| && d < s.k.cols && s.v == Pulse(s.k.rows, t)
    requires Nth(s.beta, t) != 0.0 && At(Keys(p, s), t, d) != 0.0
    ensures Live(Before(p, s, S, t + 1), d)
  {
    hide Before, Keys, IsStep;
    StaysZero(p, s, S, t);
    var D := TokenStep(p, s, S, t);
    PulseStep(p, s, t, Before(p, s, S, t), D, Before(p, s, S, t + 1), d);
  }

  /** A value at a token that writes and is muted is missing from the final state. */
  lemma PulseLost(p: Params, s: Stream, n: nat, t: nat, d: nat)
    requires s.Valid() && IsExp(p.E) && n <= t < |s.g| && d < s.k.cols
    requires Nth(s.beta, t) != 0.0 && At(Keys(p, s), t, d) != 0.0 && WritesNothingFrom(p, s, t + 1)
    ensures Fits(WithValues(s, Pulse(s.k.rows, t)), Zero(s.k.cols, 1))
    ensures !MutingUnseen(p, WithValues(s, Pulse(s.k.rows, t)), n, Zero(s.k.cols, 1))
  {
    var w, S := WithValues(s, Pulse(s.k.rows, t)), Zero(s.k.cols, 1);
    var r := Muted(w, n);
    assert Keys(p, w) == Keys(p, s);
    SilentWithValues(p, s, t + 1, w.v);
    ZerosAreZero(s.k.cols);
    PulseReaches(p, w, S, t, d);
    EntrySurvives(p, w, S, t + 1, |s.g|, d);
    forall l: nat | l < |s.g|
      ensures NothingToWrite(r, l)
    {
    }
    StaysZero(p, r, S, |s.g|);
    FinalIs(p, w, S);
    FinalIs(p, r, S);
    hide Before, FinalState, Keys, WritesNothingFrom, IsExp, Pulse, Muted;
    assert At(FinalState(p, r, S), d, 0) == 0.0;
  }

  lemma SilentWithValues(p: Params, s: Stream, n: nat, v: Matrix)
    requires WritesNothingFrom(p, s, n)
    ensures WritesNothingFrom(p, WithValues(s, v), n)
  {
    assert Keys(p, WithValues(s, v)) == Keys(p, s);
    hide At, Keys;
  }

  /**
   For all values and states the chunk with tokens muted from n on is the chunk itself exactly
   when none of those tokens writes.
   */
  lemma MutingUnseenIff(p: Params, s: Stream, n: nat)
    requires s.Valid() && IsExp(p.E) && n <= |s.g|
    ensures (forall v, S {:trigger MutingUnseen(p, WithValues(s, v), n, S)} | Fits(WithValues(s, v), S) ::
               MutingUnseen(p, WithValues(s, v), n, S))
            <==> WritesNothingFrom(p, s, n)
  {
    if WritesNothingFrom(p, s, n) {
      forall v, S | Fits(WithValues(s, v), S)
        ensures MutingUnseen(p, WithValues(s, v), n, S)
      {
        SilentWithValues(p, s, n, v);
        SilentTailUnseen(p, WithValues(s, v), S, n);
      }
    } else {
      var t, d := LastWriter(p, s, n, |s.g|);
      PulseLost(p, s, n, t, d);
    }
  }
}

/** The closed matrix form of a chunk equals the token recurrence. */
module ChunkAlgebra {
  import opened Sums
  import opened Matrices
  import opened Triangular
  import opened GatedDelta

  /** g_0 + ... + g_{t-1}. */
  function Prefix(g: seq<real>, t: nat): real {
    if t == 0 then 0.0 else Prefix(g, t - 1) + Nth(g, t - 1)
  }

  /** Decay from token l (inclusive prefix) to prefix t. */
  function Gap(p: Params, g: seq<real>, t: nat, l: int): real {
    (p.E)(Prefix(g, t) - Prefix(g, if l < 0 then 0 else l + 1))
  }

  function History(p: Params, s: Stream, S: Matrix, t: nat, d: int, j: int): int -> real
    requires Fits(s, S)
  {
    l => if l < 0 then 0.0 else Gap(p, s.g, t, l) * At(Keys(p, s), l, d) * Delta(p, s, S, l, j)
  }

  lemma GapGrows(p: Params, g: seq<real>, t: nat, l: nat)
    requires IsExp(p.E)
    ensures (p.E)(Nth(g, t)) * Gap(p, g, t, l) == Gap(p, g, t + 1, l)
    ensures (p.E)(Nth(g, t)) * (p.E)(Prefix(g, t)) == (p.E)(Prefix(g, t + 1))
    ensures Gap(p, g, t + 1, t) == 1.0
  {
    var x := Prefix(g, t) - Prefix(g, l + 1);
    assert AddsExponents(p.E, Nth(g, t), x);
    assert AddsExponents(p.E, Nth(g, t), Prefix(g, t));
    assert Nth(g, t) + x == Prefix(g, t + 1) - Prefix(g, l + 1);
    assert Nth(g, t) + Prefix(g, t) == Prefix(g, t + 1);
  }

  /** The state is the decayed start plus every correction so far, decayed since. */
  lemma {:induction false} StateClosed(p: Params, s: Stream, S: Matrix, t: nat, d: int, j: int)
    requires Fits(s, S) && IsExp(p.E) && 0 <= d < S.rows && 0 <= j < S.cols
    ensures At(State(p, s, S, t), d, j)
            == (p.E)(Prefix(s.g, t)) * At(S, d, j) + Sum(t, History(p, s, S, t, d, j))
    decreases t, 0
  {
    hide At, IsExp, Keys, Prefix, Gap, Decayed, Delta, Correction, Make;
    if t == 0 {
      StartState(p, s, S, d, j);
    } else {
      DecayedClosed(p, s, S, t - 1, d, j);
      GapGrows(p, s.g, t - 1, t - 1);
      StateStep(p, s, S, t - 1, d, j);
      assert History(p, s, S, t, d, j)(t - 1) == At(Keys(p, s), t - 1, d) * Delta(p, s, S, t - 1, j);
    }
  }

  lemma StartState(p: Params, s: Stream, S: Matrix, d: int, j: int)
    requires Fits(s, S) && IsExp(p.E)
    ensures (p.E)(Prefix(s.g, 0)) * At(S, d, j) == At(S, d, j)
    ensures State(p, s, S, 0) == S
  {
  }

  lemma StateStep(p: Params, s: Stream, S: Matrix, t: nat, d: int, j: int)
    requires Fits(s, S) && 0 <= d < S.rows && 0 <= j < S.cols
    ensures At(Decayed(p, s, S, t), d, j) == (p.E)(Nth(s.g, t)) * At(State(p, s, S, t), d, j)
    ensures At(State(p, s, S, t + 1), d, j)
            == At(Decayed(p, s, S, t), d, j) + At(Keys(p, s), t, d) * Delta(p, s, S, t, j)
  {
    hide At, Dot, Keys;
  }

  lemma {:induction false} DecayedClosed(p: Params, s: Stream, S: Matrix, t: nat, d: int, j: int)
    requires Fits(s, S) && IsExp(p.E) && 0 <= d < S.rows && 0 <= j < S.cols
    ensures At(Decayed(p, s, S, t), d, j)
            == (p.E)(Prefix(s.g, t + 1)) * At(S, d, j) + Sum(t, History(p, s, S, t + 1, d, j))
    decreases t, 1
  {
    hide At, IsExp, State, Decayed, Delta, Correction, Keys, Prefix, Gap;
    StateClosed(p, s, S, t, d, j);
    StateStep(p, s, S, t, d, j);
    var a, e := (p.E)(Nth(s.g, t)), (p.E)(Prefix(s.g, t));
    GapGrows(p, s.g, t, 0);
    forall l | 0 <= l < t
      ensures History(p, s, S, t + 1, d, j)(l) == a * History(p, s, S, t, d, j)(l)
    {
      GapGrows(p, s.g, t, l);
      Regroup(a, Gap(p, s.g, t, l), At(Keys(p, s), l, d), Delta(p, s, S, l, j));
    }
    SumScale(t, a, History(p, s, S, t, d, j), History(p, s, S, t + 1, d, j));
    Distribute(a, e, At(S, d, j), Sum(t, History(p, s, S, t, d, j)));
  }

  lemma Regroup(a: real, x: real, y: real, z: real)
    ensures a * (x * y * z) == a * x * y * z
  {
  }

  lemma Distribute(a: real, e: real, x: real, y: real)
    ensures a * (e * x + y) == a * e * x + a * y
  {
  }

  /** w_l K_ld U_lj. */
  function Memory(w: int -> real, K: Matrix, U: Matrix, d: int, j: int): int -> real {
    l => w(l) * At(K, l, d) * At(U, l, j)
  }

  /** w_l (X K^T)_tl U_lj. */
  function Attention(w: int -> real, X: Matrix, K: Matrix, U: Matrix, t: int, j: int): int -> real
    requires X.cols == K.cols
  {
    l => w(l) * Dot(X, Transpose(K), t, l) * At(U, l, j)
  }

  function Spread(w: int -> real, X: Matrix, K: Matrix, U: Matrix, t: int, j: int): (int, int) -> real {
    (d, l) => At(X, t, d) * (w(l) * At(K, l, d) * At(U, l, j))
  }

  /** Row t of X read against a remembered sum is an attention sum. */
  lemma ReadMemory(w: int -> real, X: Matrix, K: Matrix, U: Matrix, n: nat, t: int, j: int, f: int -> real)
    requires X.cols == K.cols
    requires forall d :: 0 <= d < X.cols ==> f(d) == At(X, t, d) * Sum(n, Memory(w, K, U, d, j))
    ensures Sum(X.cols, f) == Sum(n, Attention(w, X, K, U, t, j))
  {
    hide At;
    var F := Spread(w, X, K, U, t, j);
    forall d | 0 <= d < X.cols
      ensures f(d) == Inner(n, F)(d)
    {
      SumScale(n, At(X, t, d), Memory(w, K, U, d, j), Curry(F, d));
    }
    SumExt(X.cols, f, Inner(n, F));
    SumSwap(X.cols, n, F);
    forall l | 0 <= l < n
      ensures Inner(X.cols, Flip(F))(l) == Attention(w, X, K, U, t, j)(l)
    {
      ReadTerm(w, X, K, U, t, j, l);
    }
    SumExt(n, Inner(X.cols, Flip(F)), Attention(w, X, K, U, t, j));
  }

  lemma ReadTerm(w: int -> real, X: Matrix, K: Matrix, U: Matrix, t: int, j: int, l: int)
    requires X.cols == K.cols
    ensures Sum(X.cols, Curry(Flip(Spread(w, X, K, U, t, j)), l)) == Attention(w, X, K, U, t, j)(l)
  {
    var c := w(l) * At(U, l, j);
    var g := Term(X, Transpose(K), t, l);
    forall d | 0 <= d < X.cols
      ensures Curry(Flip(Spread(w, X, K, U, t, j)), l)(d) == c * g(d)
    {
      TransposeAt(K, d, l);
      Shuffle(At(X, t, d), w(l), At(K, l, d), At(U, l, j));
    }
    SumScale(X.cols, c, g, Curry(Flip(Spread(w, X, K, U, t, j)), l));
    Shuffle(1.0, w(l), Sum(X.cols, g), At(U, l, j));
  }

  lemma TransposeAt(K: Matrix, d: int, l: int)
    ensures At(Transpose(K), d, l) == At(K, l, d)
  {
  }

  lemma Shuffle(x: real, w: real, k: real, u: real)
    ensures x * (w * k * u) == w * u * (x * k)
  {
  }

  /** Reading a decayed start plus a memory. */
  lemma Readout(c: real, S: Matrix, w: int -> real, X: Matrix, K: Matrix, U: Matrix, M: Matrix, n: nat, t: int, j: int)
    requires X.cols == K.cols == S.rows == M.rows
    requires forall d :: 0 <= d < X.cols ==> At(M, d, j) == c * At(S, d, j) + Sum(n, Memory(w, K, U, d, j))
    ensures Dot(X, M, t, j) == c * Dot(X, S, t, j) + Sum(n, Attention(w, X, K, U, t, j))
  {
    hide At, Sum;
    var f: int -> real := d => At(X, t, d) * Sum(n, Memory(w, K, U, d, j));
    var start: int -> real := d => c * Term(X, S, t, j)(d);
    ReadMemory(w, X, K, U, n, t, j, f);
    SumScale(X.cols, c, Term(X, S, t, j), start);
    forall d | 0 <= d < X.cols
      ensures Term(X, M, t, j)(d) == start(d) + f(d)
    {
      ReadoutTerm(At(X, t, d), c, At(S, d, j), Sum(n, Memory(w, K, U, d, j)), At(M, d, j));
    }
    SumAdd(X.cols, start, f, Term(X, M, t, j));
  }

  lemma ReadoutTerm(x: real, c: real, y: real, m: real, z: real)
    requires z == c * y + m
    ensures x * z == c * (x * y) + x * m
  {
  }

  /** All u_t as rows. */
  function Deltas(p: Params, s: Stream, S: Matrix): (U: Matrix)
    requires Fits(s, S)
    ensures U.rows == |s.g| && U.cols == S.cols
  {
    Make(|s.g|, S.cols, (t, j) => if t < 0 then 0.0 else Delta(p, s, S, t, j))
  }

  function Weights(p: Params, g: seq<real>, t: nat): int -> real {
    l => Gap(p, g, t, l)
  }

  lemma HistoryIsMemory(p: Params, s: Stream, S: Matrix, t: nat, n: nat, d: int, j: int)
    requires Fits(s, S) && n <= |s.g| && 0 <= j < S.cols
    ensures Sum(n, History(p, s, S, t, d, j)) == Sum(n, Memory(Weights(p, s.g, t), Keys(p, s), Deltas(p, s, S), d, j))
  {
    hide At, Keys, Gap, Delta, Make;
    SumExt(n, History(p, s, S, t, d, j), Memory(Weights(p, s.g, t), Keys(p, s), Deltas(p, s, S), d, j));
  }

  /** The intra-chunk coefficients: strictly lower, -b_t (k_t . k_l) exp(g_t - g_l). */
  function IntraCoefficients(p: Params, s: Stream): (A: Matrix)
    ensures A.rows == A.cols == s.k.rows
  {
    Make(s.k.rows, s.k.rows, (t, l) =>
      if 0 <= l < t then
        -(Nth(s.beta, t) * Dot(Keys(p, s), Transpose(Keys(p, s)), t, l) * Gap(p, s.g, t + 1, l))
      else 0.0)
  }

  /** The causal read coefficients: (q_t . k_l) exp(g_t - g_l) for l <= t. */
  function ReadCoefficients(p: Params, s: Stream): (P: Matrix)
    requires s.q.cols == s.k.cols
    ensures P.rows == P.cols == s.k.rows
  {
    Make(s.k.rows, s.k.rows, (t, l) =>
      if 0 <= l <= t then Dot(Queries(p, s), Transpose(Keys(p, s)), t, l) * Gap(p, s.g, t + 1, l) else 0.0)
  }

  lemma IntraStrict(p: Params, s: Stream)
    ensures StrictLower(IntraCoefficients(p, s))
  {
    hide Gap, Dot, Keys;
  }

  /** What the chunk solves for: row t is b_t v_t - b_t exp(g_t) k_t S. */
  function RightSide(p: Params, s: Stream, S: Matrix): (R: Matrix)
    requires Fits(s, S)
    ensures R.rows == |s.g| && R.cols == S.cols
  {
    Make(|s.g|, S.cols, (t, j) =>
      if t < 0 then 0.0
      else Nth(s.beta, t) * At(s.v, t, j) - Nth(s.beta, t) * (p.E)(Prefix(s.g, t + 1)) * Dot(Keys(p, s), S, t, j))
  }

  /** u_t in terms of the incoming state and the earlier u_l. */
  lemma DeltaRow(p: Params, s: Stream, S: Matrix, t: nat, j: nat)
    requires Fits(s, S) && IsExp(p.E) && t < |s.g| && j < S.cols
    ensures Delta(p, s, S, t, j)
            == Nth(s.beta, t) * At(s.v, t, j)
               - Nth(s.beta, t) * ((p.E)(Prefix(s.g, t + 1)) * Dot(Keys(p, s), S, t, j)
                  + Sum(t, Attention(Weights(p, s.g, t + 1), Keys(p, s), Keys(p, s), Deltas(p, s, S), t, j)))
  {
    hide At, IsExp, State, Decayed, Keys, Prefix, Gap, Deltas, Weights, Dot, Sum;
    var w := Weights(p, s.g, t + 1);
    forall d | 0 <= d < S.rows
      ensures At(Decayed(p, s, S, t), d, j)
              == (p.E)(Prefix(s.g, t + 1)) * At(S, d, j) + Sum(t, Memory(w, Keys(p, s), Deltas(p, s, S), d, j))
    {
      DecayedClosed(p, s, S, t, d, j);
      HistoryIsMemory(p, s, S, t + 1, t, d, j);
    }
    Readout((p.E)(Prefix(s.g, t + 1)), S, w, Keys(p, s), Keys(p, s), Deltas(p, s, S), Decayed(p, s, S, t), t, t, j);
  }

  lemma IntraEntry(p: Params, s: Stream, t: nat, l: nat)
    requires l < t < s.k.rows
    ensures At(IntraCoefficients(p, s), t, l)
            == -(Nth(s.beta, t) * Dot(Keys(p, s), Transpose(Keys(p, s)), t, l) * Gap(p, s.g, t + 1, l))
  {
    hide Gap, Dot, Keys;
  }

  lemma IntraTerm(p: Params, s: Stream, U: Matrix, t: nat, j: nat, l: nat)
    requires s.Valid() && l < t < |s.g|
    ensures Term(IntraCoefficients(p, s), U, t, j)(l)
            == -Nth(s.beta, t) * Attention(Weights(p, s.g, t + 1), Keys(p, s), Keys(p, s), U, t, j)(l)
  {
    hide At, Keys, Prefix, Gap, Dot;
    IntraEntry(p, s, t, l);
    NegShuffle(Nth(s.beta, t), Dot(Keys(p, s), Transpose(Keys(p, s)), t, l), Gap(p, s.g, t + 1, l), At(U, l, j));
  }

  lemma IntraAbove(p: Params, s: Stream, U: Matrix, t: nat, j: nat, l: nat)
    requires s.Valid() && t < |s.g| && t <= l
    ensures Term(IntraCoefficients(p, s), U, t, j)(l) == 0.0
  {
    hide Keys, Gap, Dot;
  }

  lemma IntraRow(p: Params, s: Stream, U: Matrix, t: nat, j: nat)
    requires s.Valid() && U.rows == |s.g| && t < |s.g|
    ensures Dot(IntraCoefficients(p, s), U, t, j)
            == -(Nth(s.beta, t) * Sum(t, Attention(Weights(p, s.g, t + 1), Keys(p, s), Keys(p, s), U, t, j)))
  {
    hide At, Keys, Prefix, Gap, Dot, IntraCoefficients, Attention;
    var A := IntraCoefficients(p, s);
    var f := Attention(Weights(p, s.g, t + 1), Keys(p, s), Keys(p, s), U, t, j);
    forall l | t <= l < A.cols
      ensures Term(A, U, t, j)(l) == 0.0
    {
      IntraAbove(p, s, U, t, j, l);
    }
    SumTruncate(t, A.cols, Term(A, U, t, j));
    forall l | 0 <= l < t
      ensures Term(A, U, t, j)(l) == -Nth(s.beta, t) * f(l)
    {
      IntraTerm(p, s, U, t, j, l);
    }
    SumScale(t, -Nth(s.beta, t), f, Term(A, U, t, j));
    DotIsSum(A, U, t, j);
  }

  lemma DotIsSum(A: Matrix, B: Matrix, i: int, j: int)
    ensures Dot(A, B, i, j) == Sum(A.cols, Term(A, B, i, j))
  {
  }

  lemma NegShuffle(b: real, d: real, w: real, u: real)
    ensures -(b * d * w) * u == -b * (w * d * u)
  {
  }

  /** (I - A) u = right side, so u is the solve's answer. */
  lemma DeltasSolve(p: Params, s: Stream, S: Matrix)
    requires Fits(s, S) && IsExp(p.E)
    ensures Deltas(p, s, S) == Mul(Inverse(IntraCoefficients(p, s)), RightSide(p, s, S))
  {
    hide At, IsExp, Keys, Prefix, Gap, Dot, Delta, Inverse, IntraCoefficients, StrictLower;
    var A, U := IntraCoefficients(p, s), Deltas(p, s, S);
    IntraStrict(p, s);
    MulSubLeft(Identity(A.rows), A, U);
    MulIdentityLeft(U);
    forall t, j | 0 <= t < |s.g| && 0 <= j < S.cols
      ensures At(Sub(U, Mul(A, U)), t, j) == At(RightSide(p, s, S), t, j)
    {
      DeltaRow(p, s, S, t, j);
      IntraRow(p, s, U, t, j);
      Regather(Nth(s.beta, t), (p.E)(Prefix(s.g, t + 1)), Dot(Keys(p, s), S, t, j),
               Sum(t, Attention(Weights(p, s.g, t + 1), Keys(p, s), Keys(p, s), U, t, j)));
    }
    Ext(Sub(U, Mul(A, U)), RightSide(p, s, S));
    SolveUnique(A, U, RightSide(p, s, S));
  }

  lemma Regather(b: real, e: real, x: real, y: real)
    ensures b * (e * x + y) == b * e * x + b * y
  {
  }

  /** o_t = exp(g_t) q_t S + sum_{l<=t} P_tl u_l. */
  lemma OutputRow(p: Params, s: Stream, S: Matrix, t: nat, j: nat)
    requires Fits(s, S) && IsExp(p.E) && t < |s.g| && j < S.cols
    ensures Output(p, s, S, t, j)
            == (p.E)(Prefix(s.g, t + 1)) * Dot(Queries(p, s), S, t, j)
               + Dot(ReadCoefficients(p, s), Deltas(p, s, S), t, j)
  {
    hide At, IsExp, Keys, Queries, Gap, Deltas, Weights, Dot, ReadCoefficients, Decayed, Correction, Make, Delta;
    var w, M := Weights(p, s.g, t + 1), State(p, s, S, t + 1);
    forall d | 0 <= d < S.rows
      ensures At(M, d, j)
              == (p.E)(Prefix(s.g, t + 1)) * At(S, d, j) + Sum(t + 1, Memory(w, Keys(p, s), Deltas(p, s, S), d, j))
    {
      StateClosed(p, s, S, t + 1, d, j);
      HistoryIsMemory(p, s, S, t + 1, t + 1, d, j);
    }
    Readout((p.E)(Prefix(s.g, t + 1)), S, w, Queries(p, s), Keys(p, s), Deltas(p, s, S), M, t + 1, t, j);
    ReadRow(p, s, Deltas(p, s, S), t, j);
  }

  lemma ReadRow(p: Params, s: Stream, U: Matrix, t: nat, j: nat)
    requires s.Valid() && U.rows == |s.g| && t < |s.g|
    ensures Dot(ReadCoefficients(p, s), U, t, j)
            == Sum(t + 1, Attention(Weights(p, s.g, t + 1), Queries(p, s), Keys(p, s), U, t, j))
  {
    hide Keys, Queries, Prefix, Gap, Dot;
    var P := ReadCoefficients(p, s);
    var f := Attention(Weights(p, s.g, t + 1), Queries(p, s), Keys(p, s), U, t, j);
    SumTruncate(t + 1, P.cols, Term(P, U, t, j));
    SumExt(t + 1, Term(P, U, t, j), f);
    DotIsSum(P, U, t, j);
  }

  /** S_out = exp(g_last) S + sum_l exp(g_last - g_l) k_l^T u_l. */
  lemma FinalEntry(p: Params, s: Stream, S: Matrix, d: nat, j: nat)
    requires Fits(s, S) && IsExp(p.E) && d < S.rows && j < S.cols
    ensures At(FinalState(p, s, S), d, j)
            == (p.E)(Prefix(s.g, |s.g|)) * At(S, d, j)
               + Sum(|s.g|, Memory(Weights(p, s.g, |s.g|), Keys(p, s), Deltas(p, s, S), d, j))
  {
    hide At, IsExp, State, Keys, Prefix, Gap, Deltas, Weights, Sum;
    StateClosed(p, s, S, |s.g|, d, j);
    HistoryIsMemory(p, s, S, |s.g|, |s.g|, d, j);
  }
}

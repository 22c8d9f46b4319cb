/** Per-head pre-scaling of v and S: the chunk is linear in them, so it divides back out. */
module HeadScaling {
  import opened Sums
  import opened Matrices
  import opened GatedDelta
  import opened ChunkAlgebra
  import opened OnnxChunk
  import opened UncoveredTail

  /** a X + b Y. */
  function Mix(a: real, X: Matrix, b: real, Y: Matrix): (Z: Matrix)
    requires X.rows == Y.rows && X.cols == Y.cols
    ensures Z.rows == X.rows && Z.cols == X.cols
  {
    Add(Scale(a, X), Scale(b, Y))
  }

  lemma MixRead(X: Matrix, a: real, M: Matrix, b: real, N: Matrix, t: int, j: int)
    requires M.rows == N.rows == X.cols && M.cols == N.cols && 0 <= t < X.rows && 0 <= j < M.cols
    ensures Dot(X, Mix(a, M, b, N), t, j) == a * Dot(X, M, t, j) + b * Dot(X, N, t, j)
  {
    hide Dot, At;
    MulAddRight(X, Scale(a, M), Scale(b, N));
    MulScaleRight(X, a, M);
    MulScaleRight(X, b, N);
    var P := Mul(X, Mix(a, M, b, N));
    assert P == Mix(a, Mul(X, M), b, Mul(X, N));
    assert At(P, t, j) == a * At(Mul(X, M), t, j) + b * At(Mul(X, N), t, j);
  }

  /** The state is linear in the values and the incoming state together. */
  lemma {:induction false} StateLinear(p: Params, s: Stream, a: real, v: Matrix, S: Matrix, b: real, w: Matrix,
                                       R: Matrix, t: nat)
    requires Fits(WithValues(s, v), S) && Fits(WithValues(s, w), R) && v.cols == w.cols && t <= |s.g|
    ensures State(p, WithValues(s, Mix(a, v, b, w)), Mix(a, S, b, R), t)
            == Mix(a, State(p, WithValues(s, v), S, t), b, State(p, WithValues(s, w), R, t))
  {
    if t > 0 {
      hide At, Keys, State, Correction;
      StateLinear(p, s, a, v, S, b, w, R, t - 1);
      StepLinear(p, s, a, v, S, b, w, R, t - 1);
    } else {
      StartLinear(p, s, a, v, S, b, w, R);
    }
  }

  lemma StartLinear(p: Params, s: Stream, a: real, v: Matrix, S: Matrix, b: real, w: Matrix, R: Matrix)
    requires Fits(WithValues(s, v), S) && Fits(WithValues(s, w), R) && v.cols == w.cols
    ensures State(p, WithValues(s, Mix(a, v, b, w)), Mix(a, S, b, R), 0) == Mix(a, S, b, R)
    ensures State(p, WithValues(s, v), S, 0) == S && State(p, WithValues(s, w), R, 0) == R
  {
  }

  lemma StepLinear(p: Params, s: Stream, a: real, v: Matrix, S: Matrix, b: real, w: Matrix, R: Matrix, t: nat)
    requires Fits(WithValues(s, v), S) && Fits(WithValues(s, w), R) && v.cols == w.cols && t < |s.g|
    requires State(p, WithValues(s, Mix(a, v, b, w)), Mix(a, S, b, R), t)
             == Mix(a, State(p, WithValues(s, v), S, t), b, State(p, WithValues(s, w), R, t))
    ensures State(p, WithValues(s, Mix(a, v, b, w)), Mix(a, S, b, R), t + 1)
            == Mix(a, State(p, WithValues(s, v), S, t + 1), b, State(p, WithValues(s, w), R, t + 1))
  {
    hide At, Keys, State, Decayed, Correction;
    var m, x, y := WithValues(s, Mix(a, v, b, w)), WithValues(s, v), WithValues(s, w);
    var Q := Mix(a, S, b, R);
    var X, Y := State(p, m, Q, t + 1), Mix(a, State(p, x, S, t + 1), b, State(p, y, R, t + 1));
    forall d, j | 0 <= d < S.rows && 0 <= j < S.cols
      ensures At(X, d, j) == At(Y, d, j)
    {
      StepEntry(p, s, a, v, S, b, w, R, t, d, j);
    }
    Ext(X, Y);
  }

  lemma NextEntry(p: Params, s: Stream, v: Matrix, S: Matrix, t: nat, d: int, j: int)
    requires Fits(WithValues(s, v), S) && 0 <= d < S.rows && 0 <= j < S.cols
    ensures var D := Decayed(p, WithValues(s, v), S, t);
            At(State(p, WithValues(s, v), S, t + 1), d, j)
            == At(D, d, j) + At(Keys(p, s), t, d) * (Nth(s.beta, t) * (At(v, t, j) - Dot(Keys(p, s), D, t, j)))
  {
    hide At, Dot, State, Decayed;
    StateStep(p, WithValues(s, v), S, t, d, j);
  }

  lemma DecayedLinear(p: Params, s: Stream, a: real, v: Matrix, S: Matrix, b: real, w: Matrix, R: Matrix, t: nat)
    requires Fits(WithValues(s, v), S) && Fits(WithValues(s, w), R) && v.cols == w.cols
    requires State(p, WithValues(s, Mix(a, v, b, w)), Mix(a, S, b, R), t)
             == Mix(a, State(p, WithValues(s, v), S, t), b, State(p, WithValues(s, w), R, t))
    ensures Decayed(p, WithValues(s, Mix(a, v, b, w)), Mix(a, S, b, R), t)
            == Mix(a, Decayed(p, WithValues(s, v), S, t), b, Decayed(p, WithValues(s, w), R, t))
  {
    hide At, Keys, State, Correction;
    Ext(Decayed(p, WithValues(s, Mix(a, v, b, w)), Mix(a, S, b, R), t),
        Mix(a, Decayed(p, WithValues(s, v), S, t), b, Decayed(p, WithValues(s, w), R, t)));
  }

  lemma StepEntry(p: Params, s: Stream, a: real, v: Matrix, S: Matrix, b: real, w: Matrix, R: Matrix, t: nat, d: int,
                  j: int)
    requires Fits(WithValues(s, v), S) && Fits(WithValues(s, w), R) && v.cols == w.cols && t < |s.g|
    requires State(p, WithValues(s, Mix(a, v, b, w)), Mix(a, S, b, R), t)
             == Mix(a, State(p, WithValues(s, v), S, t), b, State(p, WithValues(s, w), R, t))
    requires 0 <= d < S.rows && 0 <= j < S.cols
    ensures At(State(p, WithValues(s, Mix(a, v, b, w)), Mix(a, S, b, R), t + 1), d, j)
            == a * At(State(p, WithValues(s, v), S, t + 1), d, j) + b * At(State(p, WithValues(s, w), R, t + 1), d, j)
  {
    hide At, Keys, State, Decayed, Correction, Dot;
    var D, E := Decayed(p, WithValues(s, v), S, t), Decayed(p, WithValues(s, w), R, t);
    DecayedLinear(p, s, a, v, S, b, w, R, t);
    NextEntry(p, s, Mix(a, v, b, w), Mix(a, S, b, R), t, d, j);
    NextEntry(p, s, v, S, t, d, j);
    NextEntry(p, s, w, R, t, d, j);
    MixRead(Keys(p, s), a, D, b, E, t, j);
    Linear(a, b, Nth(s.beta, t), At(v, t, j), At(w, t, j), Dot(Keys(p, s), D, t, j), Dot(Keys(p, s), E, t, j),
           At(D, d, j), At(E, d, j), At(Keys(p, s), t, d));
  }

  lemma Linear(a: real, b: real, beta: real, v: real, w: real, x: real, y: real, d: real, e: real, k: real)
    ensures (a * d + b * e) + k * (beta * (a * v + b * w - (a * x + b * y)))
            == a * (d + k * (beta * (v - x))) + b * (e + k * (beta * (w - y)))
  {
  }

  /** The whole chunk is linear in (v, S): outputs and final state alike. */
  lemma ChunkLinear(p: Params, s: Stream, a: real, v: Matrix, S: Matrix, b: real, w: Matrix, R: Matrix)
    requires Fits(WithValues(s, v), S) && Fits(WithValues(s, w), R) && v.cols == w.cols
    ensures Outputs(p, WithValues(s, Mix(a, v, b, w)), Mix(a, S, b, R))
            == Mix(a, Outputs(p, WithValues(s, v), S), b, Outputs(p, WithValues(s, w), R))
    ensures FinalState(p, WithValues(s, Mix(a, v, b, w)), Mix(a, S, b, R))
            == Mix(a, FinalState(p, WithValues(s, v), S), b, FinalState(p, WithValues(s, w), R))
  {
    hide At, Queries, State, Dot;
    var O := Outputs(p, WithValues(s, Mix(a, v, b, w)), Mix(a, S, b, R));
    var N := Mix(a, Outputs(p, WithValues(s, v), S), b, Outputs(p, WithValues(s, w), R));
    forall t, j | 0 <= t < |s.g| && 0 <= j < S.cols
      ensures At(O, t, j) == At(N, t, j)
    {
      OutputLinear(p, s, a, v, S, b, w, R, t, j);
    }
    Ext(O, N);
    StateLinear(p, s, a, v, S, b, w, R, |s.g|);
  }

  lemma OutputLinear(p: Params, s: Stream, a: real, v: Matrix, S: Matrix, b: real, w: Matrix, R: Matrix, t: nat, j: nat)
    requires Fits(WithValues(s, v), S) && Fits(WithValues(s, w), R) && v.cols == w.cols && t < |s.g| && j < S.cols
    ensures Output(p, WithValues(s, Mix(a, v, b, w)), Mix(a, S, b, R), t, j)
            == a * Output(p, WithValues(s, v), S, t, j) + b * Output(p, WithValues(s, w), R, t, j)
  {
    hide At, Queries, State, Dot;
    StateLinear(p, s, a, v, S, b, w, R, t + 1);
    QueriesSame(p, s, v);
    QueriesSame(p, s, w);
    QueriesSame(p, s, Mix(a, v, b, w));
    MixRead(Queries(p, s), a, State(p, WithValues(s, v), S, t + 1), b, State(p, WithValues(s, w), R, t + 1), t, j);
  }

  lemma QueriesSame(p: Params, s: Stream, v: Matrix)
    ensures Queries(p, WithValues(s, v)) == Queries(p, s)
  {
  }

  /** Scaling v and S by c scales both results by c. */
  lemma ChunkScales(p: Params, s: Stream, S: Matrix, c: real)
    requires Fits(s, S)
    ensures Outputs(p, WithValues(s, Scale(c, s.v)), Scale(c, S)) == Scale(c, Outputs(p, s, S))
    ensures FinalState(p, WithValues(s, Scale(c, s.v)), Scale(c, S)) == Scale(c, FinalState(p, s, S))
  {
    hide At, Outputs, FinalState;
    ChunkLinear(p, s, c, s.v, S, 0.0, s.v, S);
    MixWithNone(c, s.v);
    MixWithNone(c, S);
    MixWithNone(c, Outputs(p, s, S));
    MixWithNone(c, FinalState(p, s, S));
    assert WithValues(s, s.v) == s;
  }

  lemma MixWithNone(c: real, X: Matrix)
    ensures Mix(c, X, 0.0, X) == Scale(c, X)
  {
    Ext(Mix(c, X, 0.0, X), Scale(c, X));
  }

  lemma ScaleBack(c: real, d: real, X: Matrix)
    requires c * d == 1.0
    ensures Scale(d, Scale(c, X)) == X
  {
    forall i, j | 0 <= i < X.rows && 0 <= j < X.cols
      ensures At(Scale(d, Scale(c, X)), i, j) == At(X, i, j)
    {
      Unscale(c, d, At(X, i, j));
    }
    Ext(Scale(d, Scale(c, X)), X);
  }

  lemma Unscale(c: real, d: real, x: real)
    requires c * d == 1.0
    ensures d * (c * x) == x
  {
    assert d * (c * x) == c * d * x;
  }

  ghost predicate WithinUnit(c: real, X: Matrix) {
    forall i, j :: Abs(c * At(X, i, j)) <= 1.0
  }

  ghost predicate Attains(X: Matrix, m: real) {
    exists i, j :: Abs(At(X, i, j)) == m
  }

  lemma MaxAttained(X: Matrix)
    ensures MaxAbs(X) > 0.0 ==> Attains(X, MaxAbs(X))
  {
    hide At, MaxAbs;
  }

  /** The head's scale 1 / max(|v|, |S|, 1e-6) and its reciprocal; both 1 when scaling is off. */
  method PerHeadVscale(v: Matrix, S: Matrix, off: bool) returns (vscale: real, inv: real)
    ensures Reciprocal(vscale, inv)
    ensures off ==> vscale == 1.0
    ensures !off ==> WithinUnit(vscale, v) && WithinUnit(vscale, S) && inv >= 0.000001
    ensures !off && inv > 0.000001 ==> Attains(v, inv) || Attains(S, inv)
  {
    if off { return 1.0, 1.0; }
    hide MaxAbs, WithinUnit, Attains, Reciprocal;
    var av, aS := MaxAbs(v), MaxAbs(S);
    MaxAttained(v);
    MaxAttained(S);
    var m := if av < aS then aS else av;
    m := if m < 0.000001 then 0.000001 else m;
    vscale := 1.0 / m;
    ScaleOfMax(m, vscale);
    inv := 1.0 / vscale;
    AllBounded(vscale, m, v);
    AllBounded(vscale, m, S);
  }

  /** c is the reciprocal of m. */
  predicate Reciprocal(c: real, m: real) {
    c > 0.0 && c * m == 1.0
  }

  lemma UnitBound(c: real, m: real, x: real)
    requires Reciprocal(c, m) && Abs(x) <= m
    ensures Abs(c * x) <= 1.0
  {
    AbsMonotone(c, x, m);
  }

  lemma EntryBounded(c: real, m: real, X: Matrix, x: real, i: int, j: int)
    requires Reciprocal(c, m) && MaxAbs(X) <= m && x == At(X, i, j)
    ensures Abs(c * x) <= 1.0
  {
    hide At, Reciprocal;
    assert Abs(At(X, i, j)) <= MaxAbs(X);
    UnitBound(c, m, x);
  }

  lemma AllBounded(c: real, m: real, X: Matrix)
    requires Reciprocal(c, m) && MaxAbs(X) <= m
    ensures WithinUnit(c, X)
  {
    hide MaxAbs, At, Reciprocal;
    forall i, j
      ensures Abs(c * At(X, i, j)) <= 1.0
    {
      EntryBounded(c, m, X, At(X, i, j), i, j);
    }
  }

  lemma ScaleOfMax(m: real, c: real)
    requires m > 0.0 && c == 1.0 / m
    ensures Reciprocal(c, m) && Reciprocal(m, c) && 1.0 / c == m
  {
    assert c * m == 1.0;
    assert c > 0.0;
    var d := 1.0 / c;
    assert d * c == 1.0;
    assert (d - m) * c == d * c - c * m;
  }

  lemma AbsMonotone(r: real, x: real, m: real)
    requires r > 0.0 && Abs(x) <= m
    ensures Abs(r * x) <= r * m
  {
  }

  /**
   The quantised-path module: scale v and S per head, run the chunk, scale both results back. The
   scales cancel for every block size; tokens past the last full block write nothing.
   */
  method Forward(p: Params, s: Stream, Sin: Matrix, solveBlock: nat, vscale: real, inv: real)
    returns (oc: Matrix, Sout: Matrix)
    requires Fits(s, Sin) && IsExp(p.E) && 0 < solveBlock <= |s.g|
    ensures var r := Muted(s, InBlocks(s, solveBlock));
            && oc == Scale(vscale * inv, Outputs(p, r, Sin)) && Sout == Scale(vscale * inv, FinalState(p, r, Sin))
            && (vscale * inv == 1.0 ==> oc == Outputs(p, r, Sin) && Sout == FinalState(p, r, Sin))
    ensures |s.g| % solveBlock == 0 && vscale * inv == 1.0 ==> oc == Outputs(p, s, Sin) && Sout == FinalState(p, s, Sin)
  {
    hide At, Outputs, FinalState, IsExp, Scale;
    oc, Sout := GdnChunkOnnx(p, WithValues(s, Scale(vscale, s.v)), Scale(vscale, Sin), solveBlock);
    oc, Sout := Scale(inv, oc), Scale(inv, Sout);
    ghost var r := Muted(s, InBlocks(s, solveBlock));
    MutedValues(s, Scale(vscale, s.v), solveBlock);
    ChunkScales(p, r, Sin, vscale);
    ScaleTwice(vscale, inv, Outputs(p, r, Sin));
    ScaleTwice(vscale, inv, FinalState(p, r, Sin));
    if vscale * inv == 1.0 {
      ScaleBack(vscale, inv, Outputs(p, r, Sin));
      ScaleBack(vscale, inv, FinalState(p, r, Sin));
    }
    NothingMuted(s);
  }

  lemma MutedValues(s: Stream, v: Matrix, b: nat)
    requires b > 0
    ensures InBlocks(WithValues(s, v), b) == InBlocks(s, b)
    ensures Muted(WithValues(s, v), InBlocks(s, b)) == WithValues(Muted(s, InBlocks(s, b)), v)
  {
    var n := InBlocks(s, b);
    assert Muted(WithValues(s, v), n).beta == Muted(s, n).beta;
  }

  lemma ScaleTwice(c: real, d: real, X: Matrix)
    ensures Scale(d, Scale(c, X)) == Scale(c * d, X)
  {
    forall i, j | 0 <= i < X.rows && 0 <= j < X.cols
      ensures At(Scale(d, Scale(c, X)), i, j) == At(Scale(c * d, X), i, j)
    {
      Reassociate(c, d, At(X, i, j));
    }
    Ext(Scale(d, Scale(c, X)), Scale(c * d, X));
  }

  lemma Reassociate(c: real, d: real, x: real)
    ensures d * (c * x) == c * d * x
  {
  }
}

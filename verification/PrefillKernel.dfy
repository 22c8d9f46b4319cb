/** gdn_kernel: zero padding, the loop over fixed-length chunks, and the carried state. */
module PrefillKernel {
  import opened Arithmetic
  import opened Sums
  import opened Matrices
  import opened ForwardSubstitution
  import opened GatedDelta
  import opened ChunkKernel

  datatype Option<T> = None | Some(value: T)

  /** n rows of X from row lo; rows past the end are zero. */
  function Rows(X: Matrix, lo: int, n: nat): (R: Matrix)
    ensures R.rows == n && R.cols == X.cols
  {
    Make(n, X.cols, (i, j) => At(X, lo + i, j))
  }

  function Values(x: seq<real>, lo: int, n: nat): (y: seq<real>)
    ensures |y| == n && forall i :: 0 <= i < n ==> y[i] == Nth(x, lo + i)
  {
    seq(n, i => Nth(x, lo + i))
  }

  /** n tokens of s from token lo; tokens past the end are all zero. */
  function Tokens(s: Stream, lo: int, n: nat): (r: Stream)
    ensures |r.g| == n && r.Valid() == (s.q.cols == s.k.cols)
    ensures r.k.cols == s.k.cols && r.v.cols == s.v.cols
  {
    Stream(Rows(s.q, lo, n), Rows(s.k, lo, n), Rows(s.v, lo, n), Values(s.g, lo, n), Values(s.beta, lo, n))
  }

  /** Token lo + k of s and token k of r carry the same inputs. */
  ghost predicate SameToken(s: Stream, lo: nat, r: Stream, k: nat) {
    var i := lo + k;
    && i < |s.g| && k < |r.g|
    && Nth(s.g, i) == Nth(r.g, k) && Nth(s.beta, i) == Nth(r.beta, k)
    && forall j :: At(s.q, i, j) == At(r.q, k, j) && At(s.k, i, j) == At(r.k, k, j) && At(s.v, i, j) == At(r.v, k, j)
  }

  lemma SameNorm(rnorm: real -> real, X: Matrix, i: nat, Y: Matrix, k: nat, j: int)
    requires X.cols == Y.cols && i < X.rows && k < Y.rows && forall l :: At(X, i, l) == At(Y, k, l)
    ensures At(L2Norm(rnorm, X), i, j) == At(L2Norm(rnorm, Y), k, j)
  {
    SumExt(X.cols, SquareTerm(X, i), SquareTerm(Y, k));
    assert SumSquares(X, i) == SumSquares(Y, k);
  }

  lemma SameRows(p: Params, s: Stream, lo: nat, r: Stream, k: nat, j: int)
    requires s.Valid() && r.Valid() && s.k.cols == r.k.cols && SameToken(s, lo, r, k)
    ensures At(Keys(p, s), lo + k, j) == At(Keys(p, r), k, j)
    ensures At(Queries(p, s), lo + k, j) == At(Queries(p, r), k, j)
  {
    hide SumSquares, L2Norm;
    SameNorm(p.rnorm, s.k, lo + k, r.k, k, j);
    SameNorm(p.rnorm, s.q, lo + k, r.q, k, j);
  }

  lemma SameRead(X: Matrix, i: nat, Y: Matrix, k: nat, M: Matrix, j: int)
    requires X.cols == Y.cols && forall d :: At(X, i, d) == At(Y, k, d)
    ensures Dot(X, M, i, j) == Dot(Y, M, k, j)
  {
    SumExt(X.cols, Term(X, M, i, j), Term(Y, M, k, j));
  }

  /** The state after t tokens of r, started where s stands at lo, is the state of s at lo + t. */
  lemma {:induction false} StateShift(p: Params, s: Stream, r: Stream, S: Matrix, lo: nat, t: nat)
    requires Fits(s, S) && Fits(r, S)
    requires forall k :: 0 <= k < t ==> SameToken(s, lo, r, k)
    ensures State(p, r, State(p, s, S, lo), t) == State(p, s, S, lo + t)
  {
    if t > 0 {
      hide At, SameToken, Decayed, Keys, Correction;
      StateShift(p, s, r, S, lo, t - 1);
      SameStep(p, s, r, S, State(p, s, S, lo), lo, t - 1);
    }
  }

  lemma SameStep(p: Params, s: Stream, r: Stream, S: Matrix, M: Matrix, lo: nat, k: nat)
    requires Fits(s, S) && Fits(r, M) && M.rows == S.rows && M.cols == S.cols && SameToken(s, lo, r, k)
    requires State(p, r, M, k) == State(p, s, S, lo + k)
    ensures State(p, r, M, k + 1) == State(p, s, S, lo + k + 1)
  {
    hide At, Keys, Queries, Dot, SameToken;
    var D := Decayed(p, s, S, lo + k);
    SameTokenFacts(s, lo, r, k);
    assert D == Decayed(p, r, M, k);
    forall j
      ensures Correction(p, s, D, lo + k, j) == Correction(p, r, D, k, j)
      ensures At(Keys(p, s), lo + k, j) == At(Keys(p, r), k, j)
    {
      SameCorrection(p, s, lo, r, k, D, j);
      SameRows(p, s, lo, r, k, j);
    }
    Ext(State(p, r, M, k + 1), State(p, s, S, lo + k + 1));
  }

  lemma SameCorrection(p: Params, s: Stream, lo: nat, r: Stream, k: nat, D: Matrix, j: int)
    requires s.Valid() && r.Valid() && s.k.cols == r.k.cols && SameToken(s, lo, r, k)
    ensures Correction(p, s, D, lo + k, j) == Correction(p, r, D, k, j)
  {
    hide At, Keys, Dot, SameToken;
    SameTokenFacts(s, lo, r, k);
    forall d
      ensures At(Keys(p, s), lo + k, d) == At(Keys(p, r), k, d)
    {
      SameRows(p, s, lo, r, k, d);
    }
    SameRead(Keys(p, s), lo + k, Keys(p, r), k, D, j);
  }

  lemma SameTokenFacts(s: Stream, lo: nat, r: Stream, k: nat)
    requires SameToken(s, lo, r, k)
    ensures Nth(s.g, lo + k) == Nth(r.g, k) && Nth(s.beta, lo + k) == Nth(r.beta, k)
    ensures forall j :: At(s.v, lo + k, j) == At(r.v, k, j)
  {
  }

  lemma OutputIs(p: Params, s: Stream, S: Matrix, t: nat, j: int, M: Matrix)
    requires Fits(s, S) && M == State(p, s, S, t + 1)
    ensures Output(p, s, S, t, j) == Dot(Queries(p, s), M, t, j)
  {
    hide Queries, Dot;
  }

  lemma OutputShift(p: Params, s: Stream, r: Stream, S: Matrix, lo: nat, t: nat, j: int)
    requires Fits(s, S) && Fits(r, S)
    requires forall k :: 0 <= k <= t ==> SameToken(s, lo, r, k)
    ensures Output(p, r, State(p, s, S, lo), t, j) == Output(p, s, S, lo + t, j)
  {
    hide At, Keys, Queries, Dot, SameToken, Output, Decayed, Correction, Make;
    var M := State(p, s, S, lo + t + 1);
    StateShift(p, s, r, S, lo, t + 1);
    OutputIs(p, r, State(p, s, S, lo), t, j, M);
    OutputIs(p, s, S, lo + t, j, M);
    forall d
      ensures At(Queries(p, s), lo + t, d) == At(Queries(p, r), t, d)
    {
      SameRows(p, s, lo, r, t, d);
    }
    SameRead(Queries(p, s), lo + t, Queries(p, r), t, M, j);
  }

  lemma SliceTokens(s: Stream, lo: nat, n: nat, k: nat)
    requires s.Valid() && lo + n <= |s.g| && k < n
    ensures SameToken(s, lo, Tokens(s, lo, n), k)
  {
  }

  lemma PaddedTokens(s: Stream, n: nat, k: nat)
    requires s.Valid() && |s.g| <= n && k < |s.g|
    ensures SameToken(Tokens(s, 0, n), 0, s, k)
  {
  }

  /** Zero tokens leave the state alone. */
  lemma {:induction false} PaddingKeepsState(p: Params, s: Stream, S: Matrix, n: nat, t: nat)
    requires Fits(s, S) && IsExp(p.E) && |s.g| <= t <= n
    ensures State(p, Tokens(s, 0, n), S, t) == State(p, Tokens(s, 0, n), S, |s.g|)
  {
    if t > |s.g| {
      hide At, Keys, IsExp, Tokens, Decayed, Correction, Make;
      PaddingKeepsState(p, s, S, n, t - 1);
      ZeroStep(p, s, S, n, t - 1);
    }
  }

  lemma ZeroStep(p: Params, s: Stream, S: Matrix, n: nat, t: nat)
    requires Fits(s, S) && IsExp(p.E) && |s.g| <= t < n
    ensures State(p, Tokens(s, 0, n), S, t + 1) == State(p, Tokens(s, 0, n), S, t)
  {
    hide At, Keys, IsExp, Tokens, Correction;
    var r := Tokens(s, 0, n);
    var M := State(p, r, S, t);
    ZeroToken(p, s, n, t, 0);
    forall d
      ensures At(Keys(p, r), t, d) == 0.0
    {
      ZeroToken(p, s, n, t, d);
    }
    Ext(Decayed(p, r, S, t), M);
    Ext(State(p, r, S, t + 1), M);
  }

  lemma ZeroToken(p: Params, s: Stream, n: nat, t: nat, d: int)
    requires s.Valid() && IsExp(p.E) && |s.g| <= t < n
    ensures (p.E)(Nth(Tokens(s, 0, n).g, t)) == 1.0
    ensures At(Keys(p, Tokens(s, 0, n)), t, d) == 0.0
  {
  }

  lemma PaddedSame(s: Stream, n: nat)
    requires s.Valid() && |s.g| <= n
    ensures forall k :: 0 <= k < |s.g| ==> SameToken(Tokens(s, 0, n), 0, s, k)
  {
    hide SameToken;
    forall k | 0 <= k < |s.g|
      ensures SameToken(Tokens(s, 0, n), 0, s, k)
    {
      PaddedTokens(s, n, k);
    }
  }

  /** Running the padded stream gives the stream's outputs and final state. */
  lemma PaddingNeutral(p: Params, s: Stream, S: Matrix, n: nat)
    requires Fits(s, S) && IsExp(p.E) && |s.g| <= n
    ensures FinalState(p, Tokens(s, 0, n), S) == FinalState(p, s, S)
    ensures forall t, j :: 0 <= t < |s.g| ==> Output(p, Tokens(s, 0, n), S, t, j) == Output(p, s, S, t, j)
  {
    hide At, SameToken, Output, IsExp, Tokens, Decayed, Correction, Keys, State;
    var r := Tokens(s, 0, n);
    PaddedSame(s, n);
    StateStart(p, r, S);
    StateStart(p, s, S);
    StateShift(p, r, s, S, 0, |s.g|);
    PaddingKeepsState(p, s, S, n, n);
    forall t, j | 0 <= t < |s.g|
      ensures Output(p, r, S, t, j) == Output(p, s, S, t, j)
    {
      OutputShift(p, r, s, S, 0, t, j);
    }
  }

  /** One chunk of a stream, started from the stream's state there, yields the stream's own rows. */
  lemma ChunkOfStream(p: Params, s: Stream, S: Matrix, lo: nat, n: nat)
    requires Fits(s, S) && lo + n <= |s.g|
    ensures var c, M := Tokens(s, lo, n), State(p, s, S, lo);
            && FinalState(p, c, M) == State(p, s, S, lo + n)
            && forall t, j :: 0 <= t < n && 0 <= j < S.cols ==> At(Outputs(p, c, M), t, j) == Output(p, s, S, lo + t, j)
  {
    var c, M := Tokens(s, lo, n), State(p, s, S, lo);
    forall k | 0 <= k < n
      ensures SameToken(s, lo, c, k)
    {
      SliceTokens(s, lo, n, k);
    }
    hide At, SameToken, Output, Tokens;
    StateShift(p, s, c, S, lo, n);
    forall t, j | 0 <= t < n && 0 <= j < S.cols
      ensures At(Outputs(p, c, M), t, j) == Output(p, s, S, lo + t, j)
    {
      OutputShift(p, s, c, S, lo, t, j);
    }
  }

  /** The rows of o before row n are final. */
  ghost predicate RowsDone(O: Matrix, p: Params, s: Stream, S: Matrix, n: nat)
    requires Fits(s, S)
  {
    forall t, j :: 0 <= t < n && 0 <= j < S.cols ==> At(O, t, j) == Output(p, s, S, t, j)
  }

  /** o[lo : lo + rows] = oc. */
  method WriteRows(o: array2<real>, lo: nat, oc: Matrix)
    requires lo + oc.rows <= o.Length0 && oc.cols == o.Length1
    modifies o
    ensures forall t, j :: lo <= t < lo + oc.rows && 0 <= j < oc.cols ==> At(Contents(o), t, j) == At(oc, t - lo, j)
    ensures forall t, j :: !(lo <= t < lo + oc.rows) ==> At(Contents(o), t, j) == old(At(Contents(o), t, j))
  {
    forall t, j | lo <= t < lo + oc.rows && 0 <= j < oc.cols {
      o[t, j] := At(oc, t - lo, j);
    }
  }

  /**
   Prefill of any length in chunks of any size: what it returns is the token recurrence over
   the unpadded stream, so neither the chunk size nor the padding can be seen in the result.
   */
  method GdnKernel(p: Params, s: Stream, C: nat, initial: Option<Matrix>) returns (o: Matrix, S: Matrix)
    requires C > 0 && s.Valid() && IsExp(p.E)
    requires initial.Some? ==> Fits(s, initial.value)
    ensures var S0 := if initial.Some? then initial.value else Zero(s.k.cols, s.v.cols);
            o == Outputs(p, s, S0) && S == FinalState(p, s, S0)
  {
    hide At, IsExp, Make, State, Output, Tokens, FinalState, Outputs, Keys, Queries;
    var T := |s.g|;
    var pad := (C - T % C) % C;
    var Tp := T + pad;
    PaddedLength(T, C);
    var r := Tokens(s, 0, Tp);
    S := if initial.Some? then initial.value else Zero(s.k.cols, s.v.cols);
    ghost var S0 := S;
    StateStart(p, r, S0);
    var out := new real[Tp, S.cols]((i, j) => 0.0);
    for i := 0 to Tp / C
      invariant S == State(p, r, S0, i * C)
      invariant RowsDone(Contents(out), p, r, S0, i * C)
    {
      ChunkBounds(Tp, C, i);
      ChunkOfStream(p, r, S0, i * C, C);
      var oc;
      oc, S := GdnChunk(p, Tokens(r, i * C, C), S);
      ghost var before := Contents(out);
      WriteRows(out, i * C, oc);
      ChunkWritten(before, Contents(out), oc, p, r, S0, i * C, C);
    }
    o := Rows(Contents(out), 0, T);
    PaddingNeutral(p, s, S0, Tp);
    Truncated(o, Contents(out), p, s, r, S0);
  }

  /** Padding reaches the next multiple of C and no further. */
  lemma PaddedLength(T: nat, C: nat)
    requires C > 0
    ensures var Tp := T + (C - T % C) % C; Tp % C == 0 && T <= Tp < T + C && Tp / C * C == Tp
  {
    var q, r := T / C, T % C;
    assert T == q * C + r;
    var k := if r == 0 then q else q + 1;
    Remainder(C, r);
    assert (q + 1) * C == q * C + C;
    Digits(k, C, 0);
  }

  lemma Remainder(C: nat, r: nat)
    requires r < C
    ensures (C - r) % C == if r == 0 then 0 else C - r
  {
    if r == 0 { Digits(1, C, 0); } else { DivModUnique(C - r, C, 0, C - r); }
  }

  lemma ChunkBounds(Tp: nat, C: nat, i: nat)
    requires C > 0 && i < Tp / C
    ensures (i + 1) * C == i * C + C <= Tp
  {
    DivBelow(i + 1, C, Tp);
    assert Tp >= (i + 1) * C by { assert !(Tp / C < i + 1); }
  }

  lemma StateStart(p: Params, s: Stream, S: Matrix)
    requires Fits(s, S)
    ensures State(p, s, S, 0) == S
    ensures FinalState(p, s, S) == State(p, s, S, |s.g|)
  {
  }

  lemma ChunkWritten(before: Matrix, after: Matrix, oc: Matrix, p: Params, s: Stream, S: Matrix, lo: nat, C: nat)
    requires Fits(s, S) && before.rows == after.rows && before.cols == after.cols == oc.cols == S.cols
    requires lo + C <= after.rows && oc.rows == C && RowsDone(before, p, s, S, lo)
    requires forall t, j :: 0 <= t < lo && 0 <= j < S.cols ==> At(after, t, j) == At(before, t, j)
    requires forall t, j :: lo <= t < lo + C && 0 <= j < S.cols ==> At(after, t, j) == At(oc, t - lo, j)
    requires forall t, j :: 0 <= t < C && 0 <= j < S.cols ==> At(oc, t, j) == Output(p, s, S, lo + t, j)
    ensures RowsDone(after, p, s, S, lo + C)
  {
    hide At, Output;
    forall t, j | 0 <= t < lo + C && 0 <= j < S.cols
      ensures At(after, t, j) == Output(p, s, S, t, j)
    {
      if t >= lo { assert At(oc, t - lo, j) == Output(p, s, S, lo + (t - lo), j); }
    }
  }

  lemma Truncated(o: Matrix, full: Matrix, p: Params, s: Stream, r: Stream, S: Matrix)
    requires Fits(s, S) && Fits(r, S) && |s.g| <= |r.g| == full.rows && full.cols == S.cols
    requires o == Rows(full, 0, |s.g|) && RowsDone(full, p, r, S, |r.g|)
    requires forall t, j :: 0 <= t < |s.g| ==> Output(p, r, S, t, j) == Output(p, s, S, t, j)
    ensures o == Outputs(p, s, S)
  {
    hide At, Output;
    forall t, j | 0 <= t < |s.g| && 0 <= j < S.cols
      ensures At(o, t, j) == At(Outputs(p, s, S), t, j)
    {
      assert At(o, t, j) == At(full, 0 + t, j);
    }
    Ext(o, Outputs(p, s, S));
  }
}

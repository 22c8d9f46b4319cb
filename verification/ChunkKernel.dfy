/** gdn_chunk: one fixed-length chunk in closed matrix form, with the solve done in place. */
module ChunkKernel {
  import opened Sums
  import opened Matrices
  import opened Triangular
  import opened ForwardSubstitution
  import opened GatedDelta
  import opened ChunkAlgebra

  /** Prefix sums, token by token. */
  function Cumsum(g: seq<real>): (c: seq<real>)
    ensures |c| == |g| && forall t :: 0 <= t < |g| ==> c[t] == Prefix(g, t + 1)
  {
    seq(|g|, t requires 0 <= t < |g| => Prefix(g, t + 1))
  }

  /** Row i of X times c_i. */
  function ScaleRows(X: Matrix, c: seq<real>): (Y: Matrix)
    ensures Y.rows == X.rows && Y.cols == X.cols
  {
    Make(X.rows, X.cols, (i, j) => At(X, i, j) * Nth(c, i))
  }

  function Exps(E: real -> real, g: seq<real>): (e: seq<real>)
    ensures |e| == |g| && forall t :: 0 <= t < |g| ==> e[t] == E(g[t])
  {
    seq(|g|, t requires 0 <= t < |g| => E(g[t]))
  }

  /** Entrywise product. */
  function Hadamard(A: Matrix, B: Matrix): (C: Matrix)
    requires A.rows == B.rows && A.cols == B.cols
    ensures C.rows == A.rows && C.cols == A.cols
  {
    Make(A.rows, A.cols, (i, j) => At(A, i, j) * At(B, i, j))
  }

  /** exp(where(tril, g_i - g_j, 0)) * tril. */
  function DecayMatrix(E: real -> real, g: seq<real>): (D: Matrix)
    ensures D.rows == D.cols == |g|
  {
    Make(|g|, |g|, (i, j) => E(if j <= i then Nth(g, i) - Nth(g, j) else 0.0) * (if j <= i then 1.0 else 0.0))
  }

  /** Entries on or above diagonal k cleared. */
  function MaskUpper(A: Matrix, k: int): (M: Matrix)
    ensures M.rows == A.rows && M.cols == A.cols
  {
    Make(A.rows, A.cols, (i, j) => if j >= i + k then 0.0 else At(A, i, j))
  }

  lemma DecayEntry(p: Params, g: seq<real>, i: nat, j: nat)
    requires i < |g| && j < |g|
    ensures At(DecayMatrix(p.E, Cumsum(g)), i, j) == if j <= i then Gap(p, g, i + 1, j) else 0.0
  {
    hide At;
  }

  /** (b k) k^T row by row. */
  lemma ScaledGram(K: Matrix, L: Matrix, c: seq<real>, i: nat, j: nat)
    requires K.cols == L.cols && i < K.rows && j < L.rows
    ensures Dot(ScaleRows(K, c), Transpose(L), i, j) == Nth(c, i) * Dot(K, Transpose(L), i, j)
  {
    SumScale(K.cols, Nth(c, i), Term(K, Transpose(L), i, j), Term(ScaleRows(K, c), Transpose(L), i, j));
  }

  /** The masked, decayed product is the coefficient matrix the solve inverts. */
  lemma IntraFromProduct(p: Params, s: Stream)
    requires s.Valid()
    ensures var K := Keys(p, s);
            MaskUpper(Hadamard(Scale(-1.0, Mul(ScaleRows(K, s.beta), Transpose(K))), DecayMatrix(p.E, Cumsum(s.g))), 0)
            == IntraCoefficients(p, s)
  {
    hide At, Keys, Gap, Dot, DecayMatrix, Cumsum;
    var K := Keys(p, s);
    var G := Scale(-1.0, Mul(ScaleRows(K, s.beta), Transpose(K)));
    var A := MaskUpper(Hadamard(G, DecayMatrix(p.E, Cumsum(s.g))), 0);
    forall i, j | 0 <= i < |s.g| && 0 <= j < |s.g|
      ensures At(A, i, j) == At(IntraCoefficients(p, s), i, j)
    {
      DecayEntry(p, s.g, i, j);
      ScaledGram(K, K, s.beta, i, j);
    }
    Ext(A, IntraCoefficients(p, s));
  }

  lemma ReadFromProduct(p: Params, s: Stream)
    requires s.Valid()
    ensures MaskUpper(Hadamard(Mul(Queries(p, s), Transpose(Keys(p, s))), DecayMatrix(p.E, Cumsum(s.g))), 1)
            == ReadCoefficients(p, s)
  {
    hide At, Keys, Queries, Gap, Dot, DecayMatrix, Cumsum;
    var P := MaskUpper(Hadamard(Mul(Queries(p, s), Transpose(Keys(p, s))), DecayMatrix(p.E, Cumsum(s.g))), 1);
    forall i, j | 0 <= i < |s.g| && 0 <= j < |s.g|
      ensures At(P, i, j) == At(ReadCoefficients(p, s), i, j)
    {
      DecayEntry(p, s.g, i, j);
    }
    Ext(P, ReadCoefficients(p, s));
  }

  /** U - W S_in holds the token corrections. */
  lemma CorrectionsFromSolve(p: Params, s: Stream, S: Matrix)
    requires Fits(s, S) && IsExp(p.E)
    ensures var T := Inverse(IntraCoefficients(p, s));
            var KBeta := ScaleRows(Keys(p, s), s.beta);
            var U := Mul(T, ScaleRows(s.v, s.beta));
            var W := Mul(T, ScaleRows(KBeta, Exps(p.E, Cumsum(s.g))));
            Sub(U, Mul(W, S)) == Deltas(p, s, S)
  {
    hide At, IsExp, Keys, Prefix, Dot, Inverse, IntraCoefficients, Deltas, ScaleRows, RightSide, Cumsum;
    var T := Inverse(IntraCoefficients(p, s));
    var V, KE := ScaleRows(s.v, s.beta), ScaleRows(ScaleRows(Keys(p, s), s.beta), Exps(p.E, Cumsum(s.g)));
    MulAssoc(T, KE, S);
    MulSubRight(T, V, Mul(KE, S));
    RightSideFromProducts(p, s, S);
    DeltasSolve(p, s, S);
  }

  lemma RightSideFromProducts(p: Params, s: Stream, S: Matrix)
    requires Fits(s, S)
    ensures Sub(ScaleRows(s.v, s.beta), Mul(ScaleRows(ScaleRows(Keys(p, s), s.beta), Exps(p.E, Cumsum(s.g))), S))
            == RightSide(p, s, S)
  {
    hide At, Keys, Prefix, Dot;
    var K, e := Keys(p, s), Exps(p.E, Cumsum(s.g));
    var X := Sub(ScaleRows(s.v, s.beta), Mul(ScaleRows(ScaleRows(K, s.beta), e), S));
    forall t, j | 0 <= t < |s.g| && 0 <= j < S.cols
      ensures At(X, t, j) == At(RightSide(p, s, S), t, j)
    {
      ScaledRow(ScaleRows(K, s.beta), S, e, t, j);
      ScaledRow(K, S, s.beta, t, j);
      Swap3(Nth(s.beta, t), Nth(e, t), Dot(K, S, t, j));
    }
    Ext(X, RightSide(p, s, S));
  }

  lemma Swap3(b: real, e: real, x: real)
    ensures e * (b * x) == b * e * x
  {
  }

  /** Scaling rows of the left operand scales rows of the product. */
  lemma ScaledRow(X: Matrix, S: Matrix, c: seq<real>, i: nat, j: nat)
    requires X.cols == S.rows && i < X.rows
    ensures Dot(ScaleRows(X, c), S, i, j) == Nth(c, i) * Dot(X, S, i, j)
  {
    SumScale(X.cols, Nth(c, i), Term(X, S, i, j), Term(ScaleRows(X, c), S, i, j));
  }

  lemma OutputsFromProducts(p: Params, s: Stream, S: Matrix)
    requires Fits(s, S) && IsExp(p.E)
    ensures Add(Mul(ScaleRows(Queries(p, s), Exps(p.E, Cumsum(s.g))), S), Mul(ReadCoefficients(p, s), Deltas(p, s, S)))
            == Outputs(p, s, S)
  {
    hide At, IsExp, Queries, Prefix, Dot, ReadCoefficients, Deltas, Output;
    var e := Exps(p.E, Cumsum(s.g));
    var O := Add(Mul(ScaleRows(Queries(p, s), e), S), Mul(ReadCoefficients(p, s), Deltas(p, s, S)));
    forall t, j | 0 <= t < |s.g| && 0 <= j < S.cols
      ensures At(O, t, j) == At(Outputs(p, s, S), t, j)
    {
      ScaledRow(Queries(p, s), S, e, t, j);
      OutputRow(p, s, S, t, j);
    }
    Ext(O, Outputs(p, s, S));
  }

  /** exp(g_last - g_t), the decay each key still undergoes. */
  function TailDecay(E: real -> real, g: seq<real>): (e: seq<real>)
    requires |g| > 0
    ensures |e| == |g| && forall t :: 0 <= t < |g| ==> e[t] == E(g[|g| - 1] - g[t])
  {
    seq(|g|, t requires 0 <= t < |g| => E(g[|g| - 1] - g[t]))
  }

  lemma TailWeight(p: Params, g: seq<real>, l: nat)
    requires l < |g|
    ensures Nth(TailDecay(p.E, Cumsum(g)), l) == Weights(p, g, |g|)(l)
  {
  }

  lemma StateFromProducts(p: Params, s: Stream, S: Matrix)
    requires Fits(s, S) && IsExp(p.E) && |s.g| > 0
    ensures var g := Cumsum(s.g);
            Add(Scale((p.E)(g[|g| - 1]), S), Mul(Transpose(ScaleRows(Keys(p, s), TailDecay(p.E, g))), Deltas(p, s, S)))
            == FinalState(p, s, S)
  {
    hide At, IsExp, Keys, Prefix, Deltas, FinalState, Sum;
    var g := Cumsum(s.g);
    var K := ScaleRows(Keys(p, s), TailDecay(p.E, g));
    var X := Add(Scale((p.E)(g[|g| - 1]), S), Mul(Transpose(K), Deltas(p, s, S)));
    forall d, j | 0 <= d < S.rows && 0 <= j < S.cols
      ensures At(X, d, j) == At(FinalState(p, s, S), d, j)
    {
      FinalEntry(p, s, S, d, j);
      forall l | 0 <= l < |s.g|
        ensures Term(Transpose(K), Deltas(p, s, S), d, j)(l)
                == Memory(Weights(p, s.g, |s.g|), Keys(p, s), Deltas(p, s, S), d, j)(l)
      {
        TailWeight(p, s.g, l);
        TransposeAt(K, d, l);
      }
      SumExt(|s.g|, Term(Transpose(K), Deltas(p, s, S), d, j),
             Memory(Weights(p, s.g, |s.g|), Keys(p, s), Deltas(p, s, S), d, j));
    }
    Ext(X, FinalState(p, s, S));
  }

  /** One chunk of any length: outputs and state are those of the token recurrence. */
  method GdnChunk(p: Params, s: Stream, Sin: Matrix) returns (oc: Matrix, Sout: Matrix)
    requires Fits(s, Sin) && |s.g| > 0 && IsExp(p.E)
    ensures oc == Outputs(p, s, Sin) && Sout == FinalState(p, s, Sin)
  {
    hide At, IsExp, Make, Inverse, IntraCoefficients, ReadCoefficients, Deltas, Outputs, FinalState, Prefix;
    hide StrictLower, Cumsum;
    var C := |s.g|;
    var qc := Scale(p.qscale, L2Norm(p.rnorm, s.q));
    var kc := L2Norm(p.rnorm, s.k);
    var vBeta, kBeta := ScaleRows(s.v, s.beta), ScaleRows(kc, s.beta);
    var g := Cumsum(s.g);
    var decay := DecayMatrix(p.E, g);

    var masked := MaskUpper(Hadamard(Scale(-1.0, Mul(kBeta, Transpose(kc))), decay), 0);
    IntraFromProduct(p, s);
    IntraStrict(p, s);
    var attn := ArrayOf(masked);
    ForwardSubstitute(attn);
    var T := Add(Contents(attn), Identity(C));
    var U := Mul(T, vBeta);
    var W := Mul(T, ScaleRows(kBeta, Exps(p.E, g)));

    var P := MaskUpper(Hadamard(Mul(qc, Transpose(kc)), decay), 1);
    ReadFromProduct(p, s);
    var vNew := Sub(U, Mul(W, Sin));
    CorrectionsFromSolve(p, s, Sin);
    var attnInter := Mul(ScaleRows(qc, Exps(p.E, g)), Sin);
    oc := Add(attnInter, Mul(P, vNew));
    OutputsFromProducts(p, s, Sin);
    Sout := Add(Scale((p.E)(g[C - 1]), Sin), Mul(Transpose(ScaleRows(kc, TailDecay(p.E, g))), vNew));
    StateFromProducts(p, s, Sin);
  }

  method ArrayOf(A: Matrix) returns (a: array2<real>)
    ensures fresh(a) && a.Length0 == A.rows && a.Length1 == A.cols && Contents(a) == A
  {
    a := new real[A.rows, A.cols]((i, j) => At(A, i, j));
    Ext(Contents(a), A);
  }
}

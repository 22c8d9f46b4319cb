/** gdn_chunk_onnx: the chunk as one static graph of products, masks and a blocked solve. */
module OnnxChunk {
  import opened Sums
  import opened Matrices
  import opened Triangular
  import opened GatedDelta
  import opened ChunkAlgebra
  import opened ChunkKernel
  import opened BlockSolvers
  import opened BlockedSolveT
  import opened UncoveredTail

  /** Lower triangle of ones: inclusive, or strict. */
  function TrilIncl(C: nat): (M: Matrix)
    ensures M.rows == M.cols == C
  {
    Make(C, C, (i, j) => if i >= j then 1.0 else 0.0)
  }

  function StrictLow(C: nat): (M: Matrix)
    ensures M.rows == M.cols == C
  {
    Make(C, C, (i, j) => if i > j then 1.0 else 0.0)
  }

  /** Upper triangle of ones: right-multiplying by it takes prefix sums. */
  function CumsumU(C: nat): (M: Matrix)
    ensures M.rows == M.cols == C
  {
    Make(C, C, (i, j) => if i <= j then 1.0 else 0.0)
  }

  function RowVector(g: seq<real>): (R: Matrix)
    ensures R.rows == 1 && R.cols == |g|
  {
    Make(1, |g|, (i, j) => Nth(g, j))
  }

  /** The only row of R. */
  function Squeeze(R: Matrix): (g: seq<real>)
    ensures |g| == R.cols && forall t :: 0 <= t < R.cols ==> g[t] == At(R, 0, t)
  {
    seq(R.cols, t => At(R, 0, t))
  }

  lemma {:induction false} PrefixIsSum(g: seq<real>, t: nat, f: int -> real)
    requires forall l :: 0 <= l < t ==> f(l) == Nth(g, l)
    ensures Sum(t, f) == Prefix(g, t)
  {
    if t > 0 { PrefixIsSum(g, t - 1, f); }
  }

  lemma TriangleTerm(g: seq<real>, t: nat, l: int)
    requires t < |g|
    ensures Term(RowVector(g), CumsumU(|g|), 0, t)(l) == if 0 <= l <= t then Nth(g, l) else 0.0
  {
  }

  /** cumsum as a product with the triangle of ones. */
  lemma CumsumIsProduct(g: seq<real>)
    ensures Squeeze(Mul(RowVector(g), CumsumU(|g|))) == Cumsum(g)
  {
    hide At, RowVector, CumsumU, Mul, Nth;
    var R := Mul(RowVector(g), CumsumU(|g|));
    forall t | 0 <= t < |g|
      ensures At(R, 0, t) == Prefix(g, t + 1)
    {
      var f := Term(RowVector(g), CumsumU(|g|), 0, t);
      MulEntry(RowVector(g), CumsumU(|g|), 0, t);
      forall l
        ensures f(l) == if 0 <= l <= t then Nth(g, l) else 0.0
      {
        TriangleTerm(g, t, l);
      }
      SumTruncate(t + 1, |g|, f);
      PrefixIsSum(g, t + 1, f);
    }
    assert Squeeze(R) == Cumsum(g);
  }

  /** exp(diff * tril) * tril: the mask goes in before the exponential. */
  function MaskedDecay(E: real -> real, g: seq<real>): (D: Matrix)
    ensures D.rows == D.cols == |g|
  {
    Hadamard(Make(|g|, |g|, (i, j) => E((Nth(g, i) - Nth(g, j)) * At(TrilIncl(|g|), i, j))), TrilIncl(|g|))
  }

  lemma MaskedDecaySame(E: real -> real, g: seq<real>)
    ensures MaskedDecay(E, g) == DecayMatrix(E, g)
  {
    Ext(MaskedDecay(E, g), DecayMatrix(E, g));
  }

  /** Multiplying by a 0/1 triangle is masking. */
  lemma MaskByProduct(A: Matrix)
    requires A.rows == A.cols
    ensures Hadamard(A, StrictLow(A.rows)) == MaskUpper(A, 0)
    ensures Hadamard(A, TrilIncl(A.rows)) == MaskUpper(A, 1)
  {
    Ext(Hadamard(A, StrictLow(A.rows)), MaskUpper(A, 0));
    Ext(Hadamard(A, TrilIncl(A.rows)), MaskUpper(A, 1));
  }

  /** X Y computed with both operands transposed. */
  function Flipped(X: Matrix, Y: Matrix): (P: Matrix)
    requires X.cols == Y.rows
    ensures P.rows == X.rows && P.cols == Y.cols
  {
    Transpose(Mul(Transpose(Y), Transpose(X)))
  }

  /** The last product of the graph: (v^T X)^T. */
  lemma FlippedLast(X: Matrix, Y: Matrix)
    requires X.rows == Y.rows
    ensures Transpose(Mul(Transpose(Y), X)) == Mul(Transpose(X), Y)
  {
    TransposeMul(Transpose(X), Y);
    TransposeTwice(X);
  }

  /**
   The graph form of a chunk: the token recurrence of the stream whose tokens past the last full
   solve block write nothing. So the rows in full blocks are always the recurrence's, and when
   the block size divides the chunk length everything is, like the reference chunk.
   */
  method GdnChunkOnnx(p: Params, s: Stream, Sin: Matrix, solveBlock: nat) returns (oc: Matrix, Sout: Matrix)
    requires Fits(s, Sin) && IsExp(p.E) && 0 < solveBlock <= |s.g|
    ensures var r := Muted(s, InBlocks(s, solveBlock)); oc == Outputs(p, r, Sin) && Sout == FinalState(p, r, Sin)
    ensures forall t, j :: 0 <= t < InBlocks(s, solveBlock) && 0 <= j < Sin.cols ==>
            At(oc, t, j) == Output(p, s, Sin, t, j)
    ensures |s.g| % solveBlock == 0 ==> oc == Outputs(p, s, Sin) && Sout == FinalState(p, s, Sin)
  {
    hide At, IsExp, Make, Inverse, IntraCoefficients, ReadCoefficients, Deltas, Outputs, FinalState, Prefix;
    hide RightSide, Covered, StrictLower, Cumsum, MaskedDecay, DecayMatrix, Hadamard, MaskUpper, Squeeze, Mul;
    hide Transpose, Add, Sub, Scale, Muted, InBlocks, Output;
    var C := |s.g|;
    var qc := Scale(p.qscale, L2Norm(p.rnorm, s.q));
    var kc := L2Norm(p.rnorm, s.k);
    var vBeta, kBeta := ScaleRows(s.v, s.beta), ScaleRows(kc, s.beta);
    var g := Squeeze(Mul(RowVector(s.g), CumsumU(C)));
    CumsumIsProduct(s.g);
    var eg := Exps(p.E, g);

    var decay := MaskedDecay(p.E, g);
    MaskedDecaySame(p.E, g);
    var A := Hadamard(Hadamard(Scale(-1.0, Mul(kBeta, Transpose(kc))), decay), StrictLow(C));
    MaskByProduct(Hadamard(Scale(-1.0, Mul(kBeta, Transpose(kc))), decay));
    IntraFromProduct(p, s);
    IntraStrict(p, s);
    var T := SolveTBlocked(A, solveBlock, 2 * solveBlock);

    var U := Flipped(T, vBeta);
    var W := Flipped(T, ScaleRows(kBeta, eg));
    var P := Hadamard(Hadamard(Mul(qc, Transpose(kc)), decay), TrilIncl(C));
    var St := Transpose(Sin);
    var vNew := Sub(U, Transpose(Mul(St, Transpose(W))));
    var attnInter := Transpose(Mul(St, Transpose(ScaleRows(qc, eg))));
    oc := Add(attnInter, Flipped(P, vNew));
    var decK := TailDecay(p.E, g);
    Sout := Add(Scale((p.E)(g[C - 1]), Sin), Transpose(Mul(Transpose(vNew), ScaleRows(kc, decK))));

    ghost var r := Muted(s, InBlocks(s, solveBlock));
    TransposeMul(T, vBeta);
    TransposeMul(T, ScaleRows(kBeta, eg));
    TransposeMul(W, Sin);
    SolveApplied(p, s, Sin, T);
    CoveredCorrections(p, s, Sin, solveBlock);
    MaskByProduct(Hadamard(Mul(qc, Transpose(kc)), decay));
    ReadFromProduct(p, s);
    TransposeMul(ScaleRows(qc, eg), Sin);
    TransposeMul(P, vNew);
    MutedKeys(p, s, InBlocks(s, solveBlock));
    MutedReads(p, s, InBlocks(s, solveBlock));
    OutputsFromProducts(p, r, Sin);
    FlippedLast(ScaleRows(kc, decK), vNew);
    StateFromProducts(p, r, Sin);
    RowsInBlocks(p, s, Sin, InBlocks(s, solveBlock));
  }

  lemma RowsInBlocks(p: Params, s: Stream, S: Matrix, n: nat)
    requires Fits(s, S) && n <= |s.g|
    ensures forall t, j :: 0 <= t < n && 0 <= j < S.cols ==>
            At(Outputs(p, Muted(s, n), S), t, j) == Output(p, s, S, t, j)
    ensures n == |s.g| ==> Muted(s, n) == s
  {
    hide At, Output, Muted;
    forall t, j | 0 <= t < n && 0 <= j < S.cols
      ensures At(Outputs(p, Muted(s, n), S), t, j) == Output(p, s, S, t, j)
    {
      MutedPrefix(p, s, S, n, t, j);
    }
    NothingMuted(s);
  }
}

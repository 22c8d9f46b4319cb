/**
 The gated delta rule one token at a time. This is the meaning every chunked form is
 proved against:
   u_t = b_t (v_t - k_t (a_t S_{t-1})),  S_t = a_t S_{t-1} + k_t^T u_t,  o_t = q_t S_t,
 with a_t = exp(g_t), k_t the normalised key and q_t the normalised, scaled query.
 One head of one batch item; the batch and head dimensions are independent.
 */
module GatedDelta {
  import opened Sums
  import opened Matrices

  /**
   What the exact-real model takes as given: the exponential, the reciprocal row norm as a
   function of the row's sum of squares, and 1/sqrt(Dk).
   */
  datatype Params = Params(E: real -> real, rnorm: real -> real, qscale: real)

  ghost predicate AddsExponents(E: real -> real, x: real, y: real) {
    E(x + y) == E(x) * E(y)
  }

  ghost predicate IsExp(E: real -> real) {
    E(0.0) == 1.0 && forall x, y :: AddsExponents(E, x, y)
  }

  datatype Stream = Stream(q: Matrix, k: Matrix, v: Matrix, g: seq<real>, beta: seq<real>) {
    predicate Valid() {
      q.rows == k.rows == v.rows == |g| == |beta| && q.cols == k.cols
    }
  }

  predicate Fits(s: Stream, S: Matrix) {
    s.Valid() && S.rows == s.k.cols && S.cols == s.v.cols
  }

  /** The tokens of s with values v. */
  function WithValues(s: Stream, v: Matrix): Stream {
    s.(v := v)
  }

  function SquareTerm(X: Matrix, i: int): int -> real {
    l => At(X, i, l) * At(X, i, l)
  }

  function SumSquares(X: Matrix, i: int): real {
    Sum(X.cols, SquareTerm(X, i))
  }

  /** Every row times its reciprocal norm. */
  function L2Norm(rnorm: real -> real, X: Matrix): (N: Matrix)
    ensures N.rows == X.rows && N.cols == X.cols
  {
    Make(X.rows, X.cols, (i, j) => At(X, i, j) * rnorm(SumSquares(X, i)))
  }

  function Keys(p: Params, s: Stream): (K: Matrix)
    ensures K.rows == s.k.rows && K.cols == s.k.cols
  {
    L2Norm(p.rnorm, s.k)
  }

  function Queries(p: Params, s: Stream): (Q: Matrix)
    ensures Q.rows == s.q.rows && Q.cols == s.q.cols
  {
    Scale(p.qscale, L2Norm(p.rnorm, s.q))
  }

  /** The value at t, zero outside. */
  function Nth(x: seq<real>, t: int): real {
    if 0 <= t < |x| then x[t] else 0.0
  }

  /** The state before token t. */
  function State(p: Params, s: Stream, S: Matrix, t: nat): (M: Matrix)
    requires Fits(s, S)
    ensures M.rows == S.rows && M.cols == S.cols
    decreases t, 0
  {
    if t == 0 then S
    else
      var D := Decayed(p, s, S, t - 1);
      Make(S.rows, S.cols, (d, j) => At(D, d, j) + At(Keys(p, s), t - 1, d) * Correction(p, s, D, t - 1, j))
  }

  /** a_t S_{t-1}. */
  function Decayed(p: Params, s: Stream, S: Matrix, t: nat): (M: Matrix)
    requires Fits(s, S)
    ensures M.rows == S.rows && M.cols == S.cols
    decreases t, 1
  {
    Scale((p.E)(Nth(s.g, t)), State(p, s, S, t))
  }

  /** b_t (v_t - k_t D), column j. */
  function Correction(p: Params, s: Stream, D: Matrix, t: int, j: int): real {
    Nth(s.beta, t) * (At(s.v, t, j) - Dot(Keys(p, s), D, t, j))
  }

  /** u_t, column j. */
  function Delta(p: Params, s: Stream, S: Matrix, t: nat, j: int): real
    requires Fits(s, S)
  {
    Correction(p, s, Decayed(p, s, S, t), t, j)
  }

  /** o_t, column j. */
  function Output(p: Params, s: Stream, S: Matrix, t: nat, j: int): real
    requires Fits(s, S)
  {
    Dot(Queries(p, s), State(p, s, S, t + 1), t, j)
  }

  /** All outputs of a stream, token by token. */
  function Outputs(p: Params, s: Stream, S: Matrix): (O: Matrix)
    requires Fits(s, S)
    ensures O.rows == |s.g| && O.cols == S.cols
  {
    Make(|s.g|, S.cols, (t, j) => if t < 0 then 0.0 else Output(p, s, S, t, j))
  }

  function FinalState(p: Params, s: Stream, S: Matrix): (M: Matrix)
    requires Fits(s, S)
    ensures M.rows == S.rows && M.cols == S.cols
  {
    State(p, s, S, |s.g|)
  }
}

/** Finite sums of real-valued functions, the arithmetic under every matrix product. */
module Sums {

  function Sum(n: nat, f: int -> real): real {
    if n == 0 then 0.0 else Sum(n - 1, f) + f(n - 1)
  }

  lemma {:induction false} SumExt(n: nat, f: int -> real, g: int -> real)
    requires forall i :: 0 <= i < n ==> f(i) == g(i)
    ensures Sum(n, f) == Sum(n, g)
  {
    if n > 0 { SumExt(n - 1, f, g); }
  }

  lemma {:induction false} SumZero(n: nat, f: int -> real)
    requires forall i :: 0 <= i < n ==> f(i) == 0.0
    ensures Sum(n, f) == 0.0
  {
    if n > 0 { SumZero(n - 1, f); }
  }

  lemma {:induction false} SumAdd(n: nat, f: int -> real, g: int -> real, h: int -> real)
    requires forall i :: 0 <= i < n ==> h(i) == f(i) + g(i)
    ensures Sum(n, h) == Sum(n, f) + Sum(n, g)
  {
    if n > 0 { SumAdd(n - 1, f, g, h); }
  }

  lemma {:induction false} SumScale(n: nat, c: real, f: int -> real, h: int -> real)
    requires forall i :: 0 <= i < n ==> h(i) == c * f(i)
    ensures Sum(n, h) == c * Sum(n, f)
  {
    if n > 0 { SumScale(n - 1, c, f, h); }
  }

  /** Row i of a two-index family. */
  function Curry(f: (int, int) -> real, i: int): int -> real {
    j => f(i, j)
  }

  function Flip(f: (int, int) -> real): (int, int) -> real {
    (i, j) => f(j, i)
  }

  /** i |-> sum over j < m of f(i, j). */
  function Inner(m: nat, f: (int, int) -> real): int -> real {
    i => Sum(m, Curry(f, i))
  }

  /** Exchange of two finite sums. */
  lemma {:induction false} SumSwap(n: nat, m: nat, f: (int, int) -> real)
    ensures Sum(n, Inner(m, f)) == Sum(m, Inner(n, Flip(f)))
  {
    if n == 0 {
      SumZero(m, Inner(0, Flip(f)));
    } else {
      SumSwap(n - 1, m, f);
      SumAdd(m, Inner(n - 1, Flip(f)), Curry(f, n - 1), Inner(n, Flip(f)));
    }
  }

  /** A sum whose only non-zero term sits at p. */
  lemma {:induction false} SumSingle(n: nat, p: int, f: int -> real)
    requires 0 <= p < n
    requires forall i :: 0 <= i < n && i != p ==> f(i) == 0.0
    ensures Sum(n, f) == f(p)
  {
    if p == n - 1 { SumZero(n - 1, f); } else { SumSingle(n - 1, p, f); }
  }

  /** Terms from m on vanish. */
  lemma {:induction false} SumTruncate(m: nat, n: nat, f: int -> real)
    requires m <= n
    requires forall i :: m <= i < n ==> f(i) == 0.0
    ensures Sum(n, f) == Sum(m, f)
  {
    if m < n { SumTruncate(m, n - 1, f); }
  }

  /** f moved left by m. */
  function Shift(m: int, f: int -> real): int -> real {
    i => f(m + i)
  }

  lemma {:induction false} SumSplit(m: nat, n: nat, f: int -> real)
    ensures Sum(m + n, f) == Sum(m, f) + Sum(n, Shift(m, f))
  {
    if n > 0 { SumSplit(m, n - 1, f); }
  }

  /** Index r of block k, in blocks of b. */
  function Blocked(b: nat, f: int -> real): (int, int) -> real {
    (k, r) => f(k * b + r)
  }

  /** A sum over n*b consecutive indices, taken block by block. */
  lemma {:induction false} SumBlocks(n: nat, b: nat, f: int -> real)
    ensures n * b >= 0
    ensures Sum(n * b, f) == Sum(n, Inner(b, Blocked(b, f)))
  {
    if n > 0 {
      assert n * b == (n - 1) * b + b;
      SumBlocks(n - 1, b, f);
      SumSplit((n - 1) * b, b, f);
      SumExt(b, Shift((n - 1) * b, f), Curry(Blocked(b, f), n - 1));
    }
  }

  function Abs(x: real): real {
    if x < 0.0 then -x else x
  }

  lemma {:induction false} SumBounded(n: nat, f: int -> real, g: int -> real)
    requires forall i :: 0 <= i < n ==> Abs(f(i)) <= g(i)
    ensures Abs(Sum(n, f)) <= Sum(n, g)
  {
    if n > 0 { SumBounded(n - 1, f, g); }
  }

  /** Sums of integers, for the accumulators. */
  function ISum(n: nat, f: int -> int): int {
    if n == 0 then 0 else ISum(n - 1, f) + f(n - 1)
  }

  lemma {:induction false} ISumExt(n: nat, f: int -> int, g: int -> int)
    requires forall i :: 0 <= i < n ==> f(i) == g(i)
    ensures ISum(n, f) == ISum(n, g)
  {
    if n > 0 { ISumExt(n - 1, f, g); }
  }

  lemma {:induction false} ISumZero(n: nat, f: int -> int)
    requires forall i :: 0 <= i < n ==> f(i) == 0
    ensures ISum(n, f) == 0
  {
    if n > 0 { ISumZero(n - 1, f); }
  }

  lemma {:induction false} ISumIsSum(n: nat, f: int -> int, g: int -> real)
    requires forall i :: 0 <= i < n ==> g(i) == f(i) as real
    ensures ISum(n, f) as real == Sum(n, g)
  {
    if n > 0 { ISumIsSum(n - 1, f, g); }
  }
}

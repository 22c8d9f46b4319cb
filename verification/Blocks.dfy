/**
 Block substitution. Cutting a strictly lower A into b x b blocks, the blocks of its inverse obey
   T_ii = (I - A_ii)^-1,   T_ij = T_ii * sum_{k=j..i-1} A_ik T_kj   (i > j),
 so any order of filling the table that respects the recurrence yields the inverse.
 */
module Blocks {
  import opened Arithmetic
  import opened Sums
  import opened Matrices
  import opened Triangular

  /** Block (i, j) of A in blocks of b. */
  function Block(A: Matrix, b: nat, i: int, j: int): (B: Matrix)
    ensures B.rows == B.cols == b
    ensures forall r, c :: 0 <= r < b && 0 <= c < b ==> At(B, r, c) == At(A, i * b + r, j * b + c)
  {
    Make(b, b, (r, c) => At(A, i * b + r, j * b + c))
  }

  /** sum_{k=lo..hi-1} A_ik X_kj. */
  function BlockSum(A: Matrix, X: Matrix, b: nat, i: int, j: int, lo: int, hi: int): (S: Matrix)
    ensures S.rows == S.cols == b
    decreases hi - lo
  {
    if hi <= lo then Zero(b, b)
    else Add(BlockSum(A, X, b, i, j, lo, hi - 1), Mul(Block(A, b, i, hi - 1), Block(X, b, hi - 1, j)))
  }

  /** Entry (r, c) of the block products A_ik X_kj, as a function of k. */
  function ProductEntries(A: Matrix, X: Matrix, b: nat, i: int, j: int, r: int, c: int): int -> real {
    k => Dot(Block(A, b, i, k), Block(X, b, k, j), r, c)
  }

  lemma ZeroEntry(b: nat, r: int, c: int)
    ensures At(Zero(b, b), r, c) == 0.0
  {
  }

  lemma AddMulEntry(S: Matrix, X: Matrix, Y: Matrix, r: int, c: int)
    requires X.cols == Y.rows && S.rows == X.rows && S.cols == Y.cols && 0 <= r < S.rows && 0 <= c < S.cols
    ensures At(Add(S, Mul(X, Y)), r, c) == At(S, r, c) + Dot(X, Y, r, c)
  {
    hide At, Dot;
  }

  lemma {:induction false} BlockSumEntry(A: Matrix, X: Matrix, b: nat, i: int, j: int, lo: nat, hi: nat, r: int, c: int)
    requires lo <= hi && 0 <= r < b && 0 <= c < b
    ensures At(BlockSum(A, X, b, i, j, lo, hi), r, c)
            == Sum(hi, ProductEntries(A, X, b, i, j, r, c)) - Sum(lo, ProductEntries(A, X, b, i, j, r, c))
    decreases hi - lo
  {
    hide At, Add, Mul, Dot, Block, Zero;
    if lo == hi {
      ZeroEntry(b, r, c);
    } else {
      BlockSumEntry(A, X, b, i, j, lo, hi - 1, r, c);
      AddMulEntry(BlockSum(A, X, b, i, j, lo, hi - 1), Block(A, b, i, hi - 1), Block(X, b, hi - 1, j), r, c);
    }
  }

  lemma BlockProductTerm(A: Matrix, X: Matrix, b: nat, i: nat, j: nat, k: nat, r: nat, c: nat)
    requires A.cols == X.rows && r < b && c < b
    ensures Inner(b, Blocked(b, Term(A, X, i * b + r, j * b + c)))(k) == ProductEntries(A, X, b, i, j, r, c)(k)
  {
    hide At, Make, Sum;
    var f := Term(A, X, i * b + r, j * b + c);
    SumExt(b, Curry(Blocked(b, f), k), Term(Block(A, b, i, k), Block(X, b, k, j), r, c));
  }

  lemma BlockProductEntry(A: Matrix, X: Matrix, nb: nat, b: nat, i: nat, j: nat, r: nat, c: nat)
    requires A.rows == A.cols == X.rows == X.cols == nb * b && i < nb && j < nb && r < b && c < b
    ensures Dot(A, X, i * b + r, j * b + c) == At(BlockSum(A, X, b, i, j, 0, nb), r, c)
  {
    hide At, Make, BlockSum, Blocked;
    var f := Term(A, X, i * b + r, j * b + c);
    SumBlocks(nb, b, f);
    forall k | 0 <= k < nb
      ensures Inner(b, Blocked(b, f))(k) == ProductEntries(A, X, b, i, j, r, c)(k)
    {
      BlockProductTerm(A, X, b, i, j, k, r, c);
    }
    SumExt(nb, Inner(b, Blocked(b, f)), ProductEntries(A, X, b, i, j, r, c));
    BlockSumEntry(A, X, b, i, j, 0, nb, r, c);
  }

  /** A block of a product is the sum of the block products. */
  lemma BlockOfProduct(A: Matrix, X: Matrix, nb: nat, b: nat, i: nat, j: nat)
    requires A.rows == A.cols == X.rows == X.cols == nb * b && i < nb && j < nb
    ensures Block(Mul(A, X), b, i, j) == BlockSum(A, X, b, i, j, 0, nb)
  {
    hide At, BlockSum, Dot;
    forall r, c | 0 <= r < b && 0 <= c < b
      ensures At(Block(Mul(A, X), b, i, j), r, c) == At(BlockSum(A, X, b, i, j, 0, nb), r, c)
    {
      InRange(nb, b, i, r);
      InRange(nb, b, j, c);
      BlockProductEntry(A, X, nb, b, i, j, r, c);
    }
    Ext(Block(Mul(A, X), b, i, j), BlockSum(A, X, b, i, j, 0, nb));
  }

  /** Block products that vanish may be left out of the sum. */
  lemma {:induction false} BlockSumDropsHigh(A: Matrix, X: Matrix, b: nat, i: int, j: int, lo: nat, mid: nat, hi: nat)
    requires lo <= mid <= hi
    requires forall k :: mid <= k < hi ==> Block(A, b, i, k) == Zero(b, b)
    ensures BlockSum(A, X, b, i, j, lo, hi) == BlockSum(A, X, b, i, j, lo, mid)
    decreases hi - mid
  {
    hide At;
    if mid < hi {
      BlockSumDropsHigh(A, X, b, i, j, lo, mid, hi - 1);
      MulZero(Block(X, b, hi - 1, j), b);
      Ext(Add(BlockSum(A, X, b, i, j, lo, hi - 1), Zero(b, b)), BlockSum(A, X, b, i, j, lo, hi - 1));
    }
  }

  lemma {:induction false} BlockSumDropsLow(A: Matrix, X: Matrix, b: nat, i: int, j: int, lo: nat, hi: nat)
    requires lo <= hi
    requires forall k :: 0 <= k < lo ==> Block(X, b, k, j) == Zero(b, b)
    ensures BlockSum(A, X, b, i, j, 0, hi) == BlockSum(A, X, b, i, j, lo, hi)
    decreases hi
  {
    hide At;
    if lo < hi {
      BlockSumDropsLow(A, X, b, i, j, lo, hi - 1);
    } else if 0 < lo {
      BlockSumDropsLow(A, X, b, i, j, lo - 1, lo - 1);
      BlockSumDropsLowStep(A, X, b, i, j, lo);
    }
  }

  lemma BlockSumDropsLowStep(A: Matrix, X: Matrix, b: nat, i: int, j: int, lo: nat)
    requires 0 < lo && Block(X, b, lo - 1, j) == Zero(b, b)
    requires BlockSum(A, X, b, i, j, 0, lo - 1) == Zero(b, b)
    ensures BlockSum(A, X, b, i, j, 0, lo) == Zero(b, b)
  {
    hide At;
    MulZero(Block(A, b, i, lo - 1), b);
    Ext(Add(Zero(b, b), Zero(b, b)), Zero(b, b));
  }

  lemma DiagonalBlockStrict(A: Matrix, b: nat, i: int)
    requires StrictLower(A)
    ensures StrictLower(Block(A, b, i, i))
  {
  }

  lemma ZeroBlock(X: Matrix, b: nat, i: nat, j: nat)
    requires i < j && forall r, c :: 0 <= r < c ==> At(X, r, c) == 0.0
    ensures Block(X, b, i, j) == Zero(b, b)
  {
    hide At;
    forall r, c | 0 <= r < b && 0 <= c < b
      ensures At(Block(X, b, i, j), r, c) == 0.0
    {
      MulStep(i, j, b);
    }
    Ext(Block(X, b, i, j), Zero(b, b));
  }

  lemma StrictBlocks(A: Matrix, nb: nat, b: nat, i: nat, j: nat)
    requires StrictLower(A) && A.rows == nb * b && i < nb && j < nb
    ensures i < j ==> Block(A, b, i, j) == Zero(b, b)
    ensures i == j ==> StrictLower(Block(A, b, i, j))
    ensures i < j ==> Block(Inverse(A), b, i, j) == Zero(b, b)
  {
    NeumannLower(A, A.rows);
    if i < j {
      hide Block;
      ZeroBlock(A, b, i, j);
      ZeroBlock(Inverse(A), b, i, j);
    }
  }

  lemma BlockOfOneMinus(A: Matrix, X: Matrix, nb: nat, b: nat, i: nat, j: nat)
    requires A.rows == A.cols == X.rows == X.cols == nb * b && i < nb && j < nb
    ensures Block(Mul(OneMinus(A), X), b, i, j) == Sub(Block(X, b, i, j), Block(Mul(A, X), b, i, j))
  {
    MulSubLeft(Identity(A.rows), A, X);
    MulIdentityLeft(X);
    hide At;
    forall r, c | 0 <= r < b && 0 <= c < b
      ensures At(Block(Mul(OneMinus(A), X), b, i, j), r, c)
              == At(Sub(Block(X, b, i, j), Block(Mul(A, X), b, i, j)), r, c)
    {
      InRange(nb, b, i, r);
      InRange(nb, b, j, c);
    }
    Ext(Block(Mul(OneMinus(A), X), b, i, j), Sub(Block(X, b, i, j), Block(Mul(A, X), b, i, j)));
  }

  lemma BlockOfIdentity(nb: nat, b: nat, i: nat, j: nat)
    requires i < nb && j < nb
    ensures nb * b >= 0
    ensures Block(Identity(nb * b), b, i, j) == if i == j then Identity(b) else Zero(b, b)
  {
    var I := Identity(nb * b);
    forall r, c | 0 <= r < b && 0 <= c < b
      ensures At(Block(I, b, i, j), r, c) == if i == j && r == c then 1.0 else 0.0
    {
      InRange(nb, b, i, r);
      InRange(nb, b, j, c);
      if i != j { assert (i * b + r) / b == i && (j * b + c) / b == j by { Digits(i, b, r); Digits(j, b, c); } }
    }
    Ext(Block(I, b, i, j), if i == j then Identity(b) else Zero(b, b));
  }

  lemma BlockEquation(A: Matrix, nb: nat, b: nat, i: nat, j: nat)
    requires StrictLower(A) && A.rows == nb * b && i < nb && j < nb
    ensures var T := Inverse(A);
            Sub(Block(T, b, i, j), BlockSum(A, T, b, i, j, 0, nb)) == if i == j then Identity(b) else Zero(b, b)
  {
    hide At, Inverse, BlockSum, Mul, Sub;
    InverseBothSides(A);
    BlockOfOneMinus(A, Inverse(A), nb, b, i, j);
    BlockOfProduct(A, Inverse(A), nb, b, i, j);
    BlockOfIdentity(nb, b, i, j);
  }

  /** Only the terms k = j .. i of the block row meet non-zero blocks. */
  lemma BlockSumBand(A: Matrix, nb: nat, b: nat, i: nat, j: nat)
    requires StrictLower(A) && A.rows == nb * b && j <= i < nb
    ensures var T := Inverse(A);
            BlockSum(A, T, b, i, j, 0, nb)
            == Add(BlockSum(A, T, b, i, j, j, i), Mul(Block(A, b, i, i), Block(T, b, i, j)))
  {
    hide At, Inverse, Block;
    var T := Inverse(A);
    forall k | i < k < nb
      ensures Block(A, b, i, k) == Zero(b, b)
    {
      StrictBlocks(A, nb, b, i, k);
    }
    forall k | 0 <= k < j
      ensures Block(T, b, k, j) == Zero(b, b)
    {
      StrictBlocks(A, nb, b, k, j);
    }
    BlockSumDropsHigh(A, T, b, i, j, 0, i + 1, nb);
    BlockSumDropsLow(A, T, b, i, j, j, i + 1);
  }

  /** The recurrence every block solver fills its table by. */
  lemma BlockRecurrence(A: Matrix, nb: nat, b: nat, i: nat, j: nat)
    requires StrictLower(A) && A.rows == nb * b && j <= i < nb
    ensures StrictLower(Block(A, b, i, i))
    ensures i == j ==> Block(Inverse(A), b, i, i) == Inverse(Block(A, b, i, i))
    ensures Block(Inverse(A), b, i, j)
            == if i == j then Inverse(Block(A, b, i, i))
               else Mul(Block(Inverse(A), b, i, i), BlockSum(A, Inverse(A), b, i, j, j, i))
  {
    BlockColumn(A, nb, b, i, i);
    BlockColumn(A, nb, b, i, j);
  }

  lemma BlockColumn(A: Matrix, nb: nat, b: nat, i: nat, j: nat)
    requires StrictLower(A) && A.rows == nb * b && j <= i < nb
    ensures StrictLower(Block(A, b, i, i))
    ensures Block(Inverse(A), b, i, j)
            == Mul(Inverse(Block(A, b, i, i)),
                   if i == j then Identity(b) else BlockSum(A, Inverse(A), b, i, j, j, i))
    ensures i == j ==> Block(Inverse(A), b, i, i) == Inverse(Block(A, b, i, i))
  {
    hide At, Inverse, Block, Neumann;
    StrictBlocks(A, nb, b, i, i);
    var T, D := Inverse(A), Block(A, b, i, i);
    var X, S := Block(T, b, i, j), BlockSum(A, T, b, i, j, j, i);
    BlockEquation(A, nb, b, i, j);
    BlockSumBand(A, nb, b, i, j);
    MulSubLeft(Identity(b), D, X);
    MulIdentityLeft(X);
    var B := if i == j then Identity(b) else S;
    forall r, c | 0 <= r < b && 0 <= c < b
      ensures At(Mul(OneMinus(D), X), r, c) == At(B, r, c)
    {
      assert At(Sub(X, Add(S, Mul(D, X))), r, c) == At(if i == j then Identity(b) else Zero(b, b), r, c);
    }
    Ext(Mul(OneMinus(D), X), B);
    SolveUnique(D, X, B);
    MulIdentityRight(Inverse(D));
  }
}

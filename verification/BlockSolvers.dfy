/** Block substitution on a table of blocks, filled by increasing distance from the diagonal. */
module BlockSolvers {
  import opened Arithmetic
  import opened Matrices
  import opened Triangular
  import opened Blocks
  import opened IterativeSolvers

  type Table = map<(int, int), Matrix>

  /** The leading n x n part of A. */
  function Leading(A: Matrix, n: nat): (L: Matrix)
    ensures L.rows == L.cols == n
  {
    Make(n, n, (i, j) => At(A, i, j))
  }

  /** X in the top-left corner of a C x C matrix of zeros. */
  function Embed(X: Matrix, C: nat): (E: Matrix)
    ensures E.rows == E.cols == C
  {
    Make(C, C, (i, j) => At(X, i, j))
  }

  /** What a solver with b-blocks leaves of a C x C problem: the rows past the last full block stay zero. */
  function Covered(A: Matrix, b: nat): (T: Matrix)
    requires b > 0
    ensures T.rows == T.cols == A.rows
  {
    Embed(Inverse(Leading(A, A.rows / b * b)), A.rows)
  }

  lemma LeadingStrict(A: Matrix, n: nat)
    requires StrictLower(A) && n <= A.rows
    ensures StrictLower(Leading(A, n))
  {
  }

  lemma LeadingEntry(A: Matrix, n: nat, r: int, c: int)
    requires n <= A.rows == A.cols && 0 <= r < n && 0 <= c < n
    ensures At(Leading(A, n), r, c) == At(A, r, c)
  {
    hide At;
  }

  lemma LeadingBlock(A: Matrix, n: nat, nb: nat, b: nat, i: nat, j: nat)
    requires n == nb * b <= A.rows && Square(A) && i < nb && j < nb
    ensures Block(Leading(A, n), b, i, j) == Block(A, b, i, j)
  {
    hide At, Leading;
    forall r, c | 0 <= r < b && 0 <= c < b
      ensures At(Block(Leading(A, n), b, i, j), r, c) == At(Block(A, b, i, j), r, c)
    {
      InRange(nb, b, i, r);
      InRange(nb, b, j, c);
      LeadingEntry(A, n, i * b + r, j * b + c);
    }
    Ext(Block(Leading(A, n), b, i, j), Block(A, b, i, j));
  }

  /** The covered result is the inverse exactly when the block size divides the matrix size. */
  lemma CoveredIsInverseIff(A: Matrix, b: nat)
    requires StrictLower(A) && b > 0
    ensures Covered(A, b) == Inverse(A) <==> A.rows % b == 0
  {
    var n := A.rows / b * b;
    if A.rows % b == 0 {
      assert n == A.rows;
      Ext(Leading(A, n), A);
      Ext(Embed(Inverse(A), n), Inverse(A));
    } else {
      InverseLower(A);
      assert n < A.rows;
      assert At(Inverse(A), A.rows - 1, A.rows - 1) == 1.0;
      assert At(Covered(A, b), A.rows - 1, A.rows - 1) == 0.0;
    }
  }

  /** T with block (i, j) overwritten by B. */
  function Paste(T: Matrix, b: nat, i: int, j: int, B: Matrix): (R: Matrix)
    ensures R.rows == T.rows && R.cols == T.cols
  {
    Make(T.rows, T.cols, (r, c) => if i * b <= r < (i + 1) * b && j * b <= c < (j + 1) * b
                                   then At(B, r - i * b, c - j * b) else At(T, r, c))
  }

  /** Whether block (p, q) comes before (i, j) in the row-by-row order of the lower triangle. */
  predicate Placed(p: int, q: int, i: int, j: int) {
    0 <= q <= p && (p < i || (p == i && q < j))
  }

  ghost predicate AssembledTo(T: Matrix, X: Matrix, b: nat, i: int, j: int)
    requires b > 0
  {
    forall r, c :: 0 <= r < T.rows && 0 <= c < T.cols ==>
      At(T, r, c) == if Placed(r / b, c / b, i, j) then At(X, r, c) else 0.0
  }

  lemma PasteStep(T: Matrix, X: Matrix, nb: nat, b: nat, i: nat, j: nat)
    requires b > 0 && j <= i < nb && X.rows == X.cols == nb * b <= T.rows == T.cols
    requires AssembledTo(T, X, b, i, j)
    ensures AssembledTo(Paste(T, b, i, j, Block(X, b, i, j)), X, b, i, j + 1)
  {
    hide At, Block;
    forall r, c | 0 <= r < T.rows && 0 <= c < T.cols
      ensures At(Paste(T, b, i, j, Block(X, b, i, j)), r, c)
              == if Placed(r / b, c / b, i, j + 1) then At(X, r, c) else 0.0
    {
      WindowDigits(b, i, r);
      WindowDigits(b, j, c);
    }
  }

  /** Index r lies in block i exactly when its quotient is i. */
  lemma WindowDigits(b: nat, i: nat, r: nat)
    requires b > 0
    ensures i * b <= r < (i + 1) * b <==> r / b == i
  {
    assert r == r / b * b + r % b;
    if i * b <= r < (i + 1) * b {
      assert (i + 1) * b == i * b + b;
      DivModUnique(r, b, i, r - i * b);
    }
    if r / b == i { assert (i + 1) * b == i * b + b; }
  }

  /** Zero in every block above the diagonal. */
  ghost predicate ZeroAbove(X: Matrix, b: nat)
    requires b > 0
  {
    forall r, c :: 0 <= r && 0 <= c && r / b < c / b ==> At(X, r, c) == 0.0
  }

  lemma InverseZeroAbove(A: Matrix, b: nat)
    requires StrictLower(A) && b > 0
    ensures ZeroAbove(Inverse(A), b)
  {
    InverseLower(A);
    forall r: nat, c: nat | r / b < c / b
      ensures At(Inverse(A), r, c) == 0.0
    {
      if c <= r { DivMonotone(b, c, r); }
    }
  }

  /** Writes every block of the table's lower triangle into a C x C matrix of zeros. */
  method AssembleTable(C: nat, nb: nat, b: nat, table: Table, ghost X: Matrix) returns (T: Matrix)
    requires b > 0 && X.rows == X.cols == nb * b <= C
    requires forall i, j :: 0 <= j <= i < nb ==> (i, j) in table && table[(i, j)] == Block(X, b, i, j)
    requires ZeroAbove(X, b)
    ensures T == Embed(X, C)
  {
    T := Zero(C, C);
    for i := 0 to nb
      invariant T.rows == T.cols == C && AssembledTo(T, X, b, i, 0)
    {
      for j := 0 to i + 1
        invariant T.rows == T.cols == C && AssembledTo(T, X, b, i, j)
      {
        PasteStep(T, X, nb, b, i, j);
        T := Paste(T, b, i, j, table[(i, j)]);
      }
      NextRow(T, X, b, i);
    }
    AssembledAll(T, X, nb, b);
  }

  lemma NextRow(T: Matrix, X: Matrix, b: nat, i: nat)
    requires b > 0 && AssembledTo(T, X, b, i, i + 1)
    ensures AssembledTo(T, X, b, i + 1, 0)
  {
    hide At;
    forall r, c | 0 <= r < T.rows && 0 <= c < T.cols
      ensures At(T, r, c) == if Placed(r / b, c / b, i + 1, 0) then At(X, r, c) else 0.0
    {
      assert Placed(r / b, c / b, i + 1, 0) == Placed(r / b, c / b, i, i + 1);
    }
  }

  lemma EmbedEntry(X: Matrix, C: nat, r: int, c: int)
    requires 0 <= r < C && 0 <= c < C
    ensures At(Embed(X, C), r, c) == At(X, r, c)
  {
    hide At;
  }

  lemma AssembledAt(T: Matrix, X: Matrix, nb: nat, b: nat, r: nat, c: nat)
    requires b > 0 && X.rows == nb * b && r < T.rows && c < T.cols
    requires AssembledTo(T, X, b, nb, 0) && ZeroAbove(X, b)
    ensures At(T, r, c) == At(X, r, c)
  {
    if r >= nb * b {
      DivBelow(nb, b, r);
      assert At(X, r, c) == 0.0;
    } else {
      hide At;
      DivBelow(nb, b, r);
      assert Placed(r / b, c / b, nb, 0) || r / b < c / b;
    }
  }

  lemma AssembledAll(T: Matrix, X: Matrix, nb: nat, b: nat)
    requires b > 0 && X.rows == X.cols == nb * b <= T.rows == T.cols
    requires AssembledTo(T, X, b, nb, 0)
    requires ZeroAbove(X, b)
    ensures T == Embed(X, T.rows)
  {
    hide At, AssembledTo, ZeroAbove, Embed;
    forall r, c | 0 <= r < T.rows && 0 <= c < T.cols
      ensures At(T, r, c) == At(Embed(X, T.rows), r, c)
    {
      AssembledAt(T, X, nb, b, r, c);
      EmbedEntry(X, T.rows, r, c);
    }
    Ext(T, Embed(X, T.rows));
  }

  /** The table holds exactly the blocks of X it has a key for. */
  ghost predicate BlocksOf(table: Table, X: Matrix, b: nat) {
    forall key :: key in table ==> table[key] == Block(X, b, key.0, key.1)
  }

  /** S = sum_k A_ik T_kj accumulated over k = j .. i-1 from the table. */
  method InnerSum(A: Matrix, n: nat, nb: nat, b: nat, table: Table, i: nat, j: nat, ghost X: Matrix) returns (S: Matrix)
    requires StrictLower(A) && n == nb * b <= A.rows && j < i < nb
    requires BlocksOf(table, X, b) && forall k :: j <= k < i ==> (k, j) in table
    ensures S == BlockSum(Leading(A, n), X, b, i, j, j, i)
  {
    hide At, Block, Make;
    S := Zero(b, b);
    for k := j to i
      invariant S == BlockSum(Leading(A, n), X, b, i, j, j, k)
    {
      LeadingBlock(A, n, nb, b, i, k);
      S := Add(S, Mul(Block(A, b, i, k), table[(k, j)]));
    }
  }

  /** The blocks at distance below d are stored, and at distance d those in columns below j. */
  ghost predicate BandStored(table: Table, X: Matrix, nb: nat, b: nat, d: int, j: int) {
    && BlocksOf(table, X, b)
    && forall p, q :: (p, q) in table <==> 0 <= q <= p < nb && (p - q < d || (p - q == d && q < j))
  }

  lemma StoreBlock(table: Table, X: Matrix, nb: nat, b: nat, d: int, j: int, B: Matrix)
    requires BandStored(table, X, nb, b, d, j) && 0 <= d && 0 <= j && j + d < nb && B == Block(X, b, j + d, j)
    ensures BandStored(table[(j + d, j) := B], X, nb, b, d, j + 1)
  {
    hide Block;
  }

  /** What the block at distance d in column j reads is stored. */
  lemma BandReads(table: Table, X: Matrix, nb: nat, b: nat, d: int, j: int)
    requires BandStored(table, X, nb, b, d, j) && 1 <= d && 0 <= j && j + d < nb
    ensures BlocksOf(table, X, b) && forall k :: j <= k < j + d ==> (k, j) in table
    ensures (j + d, j + d) in table && table[(j + d, j + d)] == Block(X, b, j + d, j + d)
  {
    hide Block;
  }

  lemma NextBand(table: Table, X: Matrix, nb: nat, b: nat, d: int)
    requires 0 <= d && BandStored(table, X, nb, b, d, if nb >= d then nb - d else 0)
    ensures BandStored(table, X, nb, b, d + 1, 0)
  {
    hide BlocksOf;
  }

  lemma BandsDone(table: Table, X: Matrix, nb: nat, b: nat, d: int)
    requires BandStored(table, X, nb, b, d, 0) && d >= nb
    ensures forall i, j :: 0 <= j <= i < nb ==> (i, j) in table && table[(i, j)] == Block(X, b, i, j)
  {
    hide Block;
  }

  lemma EmptyBand(X: Matrix, nb: nat, b: nat)
    ensures BandStored(map[], X, nb, b, 0, 0)
  {
  }

  lemma DiagonalBlock(A: Matrix, n: nat, nb: nat, b: nat, i: nat)
    requires StrictLower(A) && n == nb * b <= A.rows && i < nb
    ensures StrictLower(Block(A, b, i, i)) && Inverse(Block(A, b, i, i)) == Block(Inverse(Leading(A, n)), b, i, i)
  {
    hide At, Block, Inverse;
    LeadingStrict(A, n);
    LeadingBlock(A, n, nb, b, i, i);
    BlockRecurrence(Leading(A, n), nb, b, i, i);
  }

  /** The diagonal blocks, by Horner. */
  method StoreHorner(A: Matrix, n: nat, nb: nat, b: nat) returns (table: Table)
    requires StrictLower(A) && b > 0 && n == nb * b <= A.rows
    ensures BandStored(table, Inverse(Leading(A, n)), nb, b, 1, 0)
  {
    hide At, Block, Inverse, Make, Leading, BandStored, StrictLower;
    ghost var X := Inverse(Leading(A, n));
    table := map[];
    EmptyBand(X, nb, b);
    for i := 0 to nb
      invariant BandStored(table, X, nb, b, 0, i)
    {
      DiagonalBlock(A, n, nb, b, i);
      var D := Horner(Block(A, b, i, i), b - 1);
      StoreBlock(table, X, nb, b, 0, i, D);
      table := table[(i, i) := D];
    }
    NextBand(table, X, nb, b, 0);
  }

  lemma MergedEntry(A: Matrix, n: nat, nb: nat, b: nat, i: nat, j: nat, D: Matrix, S: Matrix)
    requires StrictLower(A) && b > 0 && n == nb * b <= A.rows && j < i < nb
    requires D == Block(Inverse(Leading(A, n)), b, i, i)
    requires S == BlockSum(Leading(A, n), Inverse(Leading(A, n)), b, i, j, j, i)
    ensures Mul(D, S) == Block(Inverse(Leading(A, n)), b, i, j)
  {
    LeadingStrict(A, n);
    BlockRecurrence(Leading(A, n), nb, b, i, j);
  }

  /** The off-diagonal blocks, in increasing i - j. */
  method FillBands(A: Matrix, n: nat, nb: nat, b: nat, diagonal: Table) returns (table: Table)
    requires StrictLower(A) && b > 0 && n == nb * b <= A.rows
    requires BandStored(diagonal, Inverse(Leading(A, n)), nb, b, 1, 0)
    ensures forall i, j :: 0 <= j <= i < nb ==>
              (i, j) in table && table[(i, j)] == Block(Inverse(Leading(A, n)), b, i, j)
  {
    hide At, Block, Inverse, Make, Leading, BlocksOf, BandStored, Mul, StrictLower, BlockSum;
    ghost var X := Inverse(Leading(A, n));
    table := diagonal;
    var d := 1;
    while d < nb
      invariant 1 <= d
      invariant BandStored(table, X, nb, b, d, 0)
    {
      for j := 0 to nb - d
        invariant BandStored(table, X, nb, b, d, j)
      {
        var i := j + d;
        BandReads(table, X, nb, b, d, j);
        var S := InnerSum(A, n, nb, b, table, i, j, X);
        MergedEntry(A, n, nb, b, i, j, table[(i, i)], S);
        var B := Mul(table[(i, i)], S);
        StoreBlock(table, X, nb, b, d, j, B);
        table := table[(i, j) := B];
      }
      NextBand(table, X, nb, b, d);
      d := d + 1;
    }
    BandsDone(table, X, nb, b, d);
  }

  /** Diagonal blocks by Horner, then off-diagonal blocks in increasing i - j. */
  method BlockRecursive(A: Matrix, b: nat) returns (T: Matrix)
    requires StrictLower(A) && b > 0
    ensures T == Covered(A, b)
    ensures T == Inverse(A) <==> A.rows % b == 0
  {
    var nb := A.rows / b;
    var n := nb * b;
    LeadingStrict(A, n);
    InverseZeroAbove(Leading(A, n), b);
    hide At, Block, Inverse, Leading, BandStored, StrictLower, ZeroAbove, Embed;
    var diagonal := StoreHorner(A, n, nb, b);
    var table := FillBands(A, n, nb, b, diagonal);
    T := AssembleTable(A.rows, nb, b, table, Inverse(Leading(A, n)));
    CoveredIsInverseIff(A, b);
  }
}

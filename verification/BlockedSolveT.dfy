/**
 solve_T_blocked: the static solve of the ONNX graph. Logical blocks of bl rows travel inside
 bp x bp tiles, diagonal tiles are inverted by repeated squaring, and the result is put
 together by 0/1 selector products.
 */
module BlockedSolveT {
  import opened Arithmetic
  import opened Sums
  import opened Matrices
  import opened Triangular
  import opened IterativeSolvers
  import opened Blocks
  import opened BlockSolvers

  /** The selector of block i: its bl rows on top of a bp-tall tile. */
  function Sel(i: int, C: nat, bl: nat, bp: nat): (s: Matrix)
    ensures s.rows == bp && s.cols == C
  {
    Make(bp, C, (r, c) => if r < bl && c == i * bl + r then 1.0 else 0.0)
  }

  /** Block (i, j) zero-padded to bp x bp. */
  function Tile(A: Matrix, bl: nat, bp: nat, i: int, j: int): (B: Matrix)
    ensures B.rows == B.cols == bp
  {
    Make(bp, bp, (r, c) => if r < bl && c < bl then At(A, i * bl + r, j * bl + c) else 0.0)
  }

  /** (I - d)^-1 for a d active in its first bl rows. */
  method InvBlock(d: Matrix, bl: nat) returns (Tb: Matrix)
    requires ActiveBelow(d, bl) && 0 < bl <= d.rows
    ensures Tb == Inverse(d)
  {
    hide At, Make, Inverse;
    var I := Identity(d.rows);
    Tb := Add(I, d);
    var Ap := d;
    var steps := Max(1, BitLen(bl - 1));
    MulIdentityRight(d);
    assert Pow(d, 1) == Mul(d, Pow(d, 0));
    DifferenceOfSquares(d);
    PowDoubles(d, 1);
    assert Pow2(1) == 2;
    for t := 0 to steps
      invariant Tb.rows == Tb.cols == d.rows
      invariant Ap == Pow(d, Pow2(t))
      invariant Mul(OneMinus(d), Tb) == OneMinus(Pow(d, Pow2(t + 1)))
    {
      PowDoubles(d, Pow2(t));
      SquaringStep(d, Tb, Pow2(t + 1));
      Ap := Mul(Ap, Ap);
      Tb := Mul(Tb, Add(I, Ap));
    }
    BitLenBounds(bl - 1);
    assert bl <= Pow2(steps + 1);
    PowVanishes(d, bl, Pow2(steps + 1));
    ResidualDecides(d, Tb, Pow(d, Pow2(steps + 1)));
  }

  /** Products of tiles restrict to products of blocks when nothing crosses the padding. */
  lemma LeadingDot(X: Matrix, Y: Matrix, b: nat, r: int, c: int)
    requires X.rows == X.cols == Y.rows == Y.cols >= b && 0 <= r < b && 0 <= c < b
    requires forall l :: b <= l ==> At(X, r, l) == 0.0 || At(Y, l, c) == 0.0
    ensures Dot(X, Y, r, c) == Dot(Leading(X, b), Leading(Y, b), r, c)
  {
    hide At, Leading;
    var f := Term(X, Y, r, c);
    SumTruncate(b, X.cols, f);
    forall l | 0 <= l < b
      ensures f(l) == Term(Leading(X, b), Leading(Y, b), r, c)(l)
    {
      LeadingEntry(X, b, r, l);
      LeadingEntry(Y, b, l, c);
    }
    SumExt(b, f, Term(Leading(X, b), Leading(Y, b), r, c));
  }

  lemma LeadingMul(X: Matrix, Y: Matrix, b: nat)
    requires X.rows == X.cols == Y.rows == Y.cols >= b
    requires forall r, l, c :: 0 <= r < b && b <= l && 0 <= c < b ==> At(X, r, l) == 0.0 || At(Y, l, c) == 0.0
    ensures Leading(Mul(X, Y), b) == Mul(Leading(X, b), Leading(Y, b))
  {
    hide At, Leading, Mul, Dot;
    var P := Mul(Leading(X, b), Leading(Y, b));
    forall r, c | 0 <= r < b && 0 <= c < b
      ensures At(Leading(Mul(X, Y), b), r, c) == At(P, r, c)
    {
      LeadingDot(X, Y, b, r, c);
      LeadingEntry(Mul(X, Y), b, r, c);
      MulEntry(X, Y, r, c);
      MulEntry(Leading(X, b), Leading(Y, b), r, c);
    }
    Ext(Leading(Mul(X, Y), b), P);
  }

  lemma TileOfBlock(A: Matrix, bl: nat, bp: nat, i: int, j: int)
    requires bl <= bp
    ensures Leading(Tile(A, bl, bp, i, j), bl) == Block(A, bl, i, j)
    ensures forall r, c :: bl <= r || bl <= c ==> At(Tile(A, bl, bp, i, j), r, c) == 0.0
    ensures StrictLower(Block(A, bl, i, j)) ==> ActiveBelow(Tile(A, bl, bp, i, j), bl)
  {
    Ext(Leading(Tile(A, bl, bp, i, j), bl), Block(A, bl, i, j));
    var B := Tile(A, bl, bp, i, j);
    forall r, c | 0 <= r < bl && 0 <= c < bl
      ensures At(B, r, c) == At(Block(A, bl, i, j), r, c)
    {
    }
  }

  /** The padded diagonal tile inverts to the block's inverse (bordered by an identity). */
  lemma PaddedInverse(d: Matrix, bl: nat)
    requires ActiveBelow(d, bl) && bl <= d.rows
    ensures StrictLower(Leading(d, bl))
    ensures Leading(Inverse(d), bl) == Inverse(Leading(d, bl))
  {
    InverseBothSides(d);
    LeadingMul(OneMinus(d), Inverse(d), bl);
    Ext(Leading(OneMinus(d), bl), OneMinus(Leading(d, bl)));
    Ext(Leading(Identity(d.rows), bl), Identity(bl));
    InverseUnique(Leading(d, bl), Leading(Inverse(d), bl));
  }

  /** sel_i^T B lifts row r of B to row i*bl + r. */
  lemma LiftRows(B: Matrix, C: nat, bl: nat, i: nat, I: int, s: int)
    requires bl <= B.rows && 0 <= I < C && 0 <= s < B.cols
    ensures Dot(Transpose(Sel(i, C, bl, B.rows)), B, I, s)
            == if i * bl <= I < i * bl + bl then At(B, I - i * bl, s) else 0.0
  {
    var f := Term(Transpose(Sel(i, C, bl, B.rows)), B, I, s);
    if i * bl <= I < i * bl + bl {
      SumSingle(B.rows, I - i * bl, f);
    } else {
      SumZero(B.rows, f);
    }
  }

  lemma LiftCols(B: Matrix, C: nat, bl: nat, j: nat, I: int, J: int)
    requires bl <= B.cols && 0 <= I < B.rows && 0 <= J < C
    ensures Dot(B, Sel(j, C, bl, B.cols), I, J)
            == if j * bl <= J < j * bl + bl then At(B, I, J - j * bl) else 0.0
  {
    var f := Term(B, Sel(j, C, bl, B.cols), I, J);
    if j * bl <= J < j * bl + bl {
      SumSingle(B.cols, J - j * bl, f);
    } else {
      SumZero(B.cols, f);
    }
  }

  /** sel_i^T B sel_j: the leading bl x bl part of B at block (i, j), zero elsewhere. */
  function Place(B: Matrix, C: nat, bl: nat, i: int, j: int): (P: Matrix)
    requires B.rows == B.cols
    ensures P.rows == P.cols == C
  {
    Mul(Mul(Transpose(Sel(i, C, bl, B.rows)), B), Sel(j, C, bl, B.rows))
  }

  lemma PlaceEntry(B: Matrix, C: nat, bl: nat, i: nat, j: nat, I: int, J: int)
    requires B.rows == B.cols >= bl && 0 <= I < C && 0 <= J < C
    ensures At(Place(B, C, bl, i, j), I, J)
            == if i * bl <= I < i * bl + bl && j * bl <= J < j * bl + bl
               then At(Leading(B, bl), I - i * bl, J - j * bl) else 0.0
  {
    hide At, Sel;
    var lifted := Mul(Transpose(Sel(i, C, bl, B.rows)), B);
    LiftCols(lifted, C, bl, j, I, J);
    if j * bl <= J < j * bl + bl { LiftRows(B, C, bl, i, I, J - j * bl); }
  }

  /** Adding the placed tile to a sum that is still zero there pastes its block. */
  lemma AddPlaced(T: Matrix, X: Matrix, B: Matrix, nb: nat, bl: nat, i: nat, j: nat)
    requires bl > 0 && j <= i < nb && X.rows == X.cols == nb * bl <= T.rows == T.cols
    requires B.rows == B.cols >= bl && Leading(B, bl) == Block(X, bl, i, j)
    requires AssembledTo(T, X, bl, i, j)
    ensures Add(T, Place(B, T.rows, bl, i, j)) == Paste(T, bl, i, j, Block(X, bl, i, j))
  {
    hide At, Place, Block, Leading;
    var P := Place(B, T.rows, bl, i, j);
    forall r, c | 0 <= r < T.rows && 0 <= c < T.cols
      ensures At(Add(T, P), r, c) == At(Paste(T, bl, i, j, Block(X, bl, i, j)), r, c)
    {
      PlaceEntry(B, T.rows, bl, i, j, r, c);
      WindowDigits(bl, i, r);
      WindowDigits(bl, j, c);
      assert (i + 1) * bl == i * bl + bl && (j + 1) * bl == j * bl + bl;
    }
    Ext(Add(T, P), Paste(T, bl, i, j, Block(X, bl, i, j)));
  }

  /** Every tile in the table carries its block of X in its leading part. */
  ghost predicate TilesOf(table: Table, X: Matrix, bl: nat, bp: nat) {
    forall key :: key in table ==>
      table[key].rows == table[key].cols == bp && Leading(table[key], bl) == Block(X, bl, key.0, key.1)
  }

  /** acc = sum_{k=j..i-1} A_ik T_kj over padded tiles. */
  method TileSum(A: Matrix, n: nat, nb: nat, bl: nat, bp: nat, table: Table, i: nat, j: nat, ghost X: Matrix)
    returns (acc: Matrix)
    requires StrictLower(A) && n == nb * bl <= A.rows && bl <= bp && j < i < nb
    requires TilesOf(table, X, bl, bp) && forall k :: j <= k < i ==> (k, j) in table
    ensures acc.rows == acc.cols == bp
    ensures Leading(acc, bl) == BlockSum(Leading(A, n), X, bl, i, j, j, i)
    ensures forall r, c :: bl <= r ==> At(acc, r, c) == 0.0
  {
    hide At, Block, Make, Tile, BlockSum, Leading;
    acc := Mul(Tile(A, bl, bp, i, j), table[(j, j)]);
    TileProduct(A, n, nb, bl, bp, table[(j, j)], i, j, j, X);
    FirstTerm(Leading(A, n), X, bl, i, j, acc);
    for k := j + 1 to i
      invariant acc.rows == acc.cols == bp
      invariant Leading(acc, bl) == BlockSum(Leading(A, n), X, bl, i, j, j, k)
      invariant forall r, c :: bl <= r ==> At(acc, r, c) == 0.0
    {
      var t := Mul(Tile(A, bl, bp, i, k), table[(k, j)]);
      TileProduct(A, n, nb, bl, bp, table[(k, j)], i, k, j, X);
      NextTerm(Leading(A, n), X, bl, i, j, k, acc, t);
      acc := Add(acc, t);
    }
  }

  lemma FirstTerm(L: Matrix, X: Matrix, bl: nat, i: int, j: int, t: Matrix)
    requires Leading(t, bl) == Mul(Block(L, bl, i, j), Block(X, bl, j, j))
    ensures Leading(t, bl) == BlockSum(L, X, bl, i, j, j, j + 1)
  {
    hide At, Block, Leading;
    var P := Mul(Block(L, bl, i, j), Block(X, bl, j, j));
    Ext(Add(Zero(bl, bl), P), P);
  }

  lemma NextTerm(L: Matrix, X: Matrix, bl: nat, i: int, j: int, k: int, acc: Matrix, t: Matrix)
    requires acc.rows == acc.cols == t.rows == t.cols >= bl && j <= k
    requires Leading(acc, bl) == BlockSum(L, X, bl, i, j, j, k)
    requires Leading(t, bl) == Mul(Block(L, bl, i, k), Block(X, bl, k, j))
    requires forall r, c :: bl <= r ==> At(acc, r, c) == 0.0 && At(t, r, c) == 0.0
    ensures Leading(Add(acc, t), bl) == BlockSum(L, X, bl, i, j, j, k + 1)
    ensures forall r, c :: bl <= r ==> At(Add(acc, t), r, c) == 0.0
  {
    hide Block;
    Ext(Leading(Add(acc, t), bl), Add(Leading(acc, bl), Leading(t, bl)));
  }

  lemma TileProduct(A: Matrix, n: nat, nb: nat, bl: nat, bp: nat, B: Matrix, i: nat, k: nat, j: nat, X: Matrix)
    requires StrictLower(A) && n == nb * bl <= A.rows && bl <= bp && i < nb && k < nb
    requires B.rows == B.cols == bp && Leading(B, bl) == Block(X, bl, k, j)
    ensures var t := Mul(Tile(A, bl, bp, i, k), B);
            && Leading(t, bl) == Mul(Block(Leading(A, n), bl, i, k), Block(X, bl, k, j))
            && forall r, c :: bl <= r ==> At(t, r, c) == 0.0
  {
    var Aik := Tile(A, bl, bp, i, k);
    TileOfBlock(A, bl, bp, i, k);
    LeadingMul(Aik, B, bl);
    LeadingBlock(A, n, nb, bl, i, k);
    forall r, c | bl <= r
      ensures At(Mul(Aik, B), r, c) == 0.0
    {
      SumZero(bp, Term(Aik, B, r, c));
    }
  }

  /** Every tile of the rows before i is stored, and of row i those from column j on; each carries its block. */
  ghost predicate Filled(table: Table, X: Matrix, bl: nat, bp: nat, i: int, j: int) {
    && TilesOf(table, X, bl, bp)
    && forall p, q :: (p, q) in table <==> 0 <= q <= p < i || (p == i && j <= q <= i)
  }

  lemma StoreTile(table: Table, X: Matrix, bl: nat, bp: nat, i: int, j: int, B: Matrix)
    requires Filled(table, X, bl, bp, i, j + 1) && 0 <= j <= i
    requires B.rows == B.cols == bp && Leading(B, bl) == Block(X, bl, i, j)
    ensures Filled(table[(i, j) := B], X, bl, bp, i, j)
  {
    hide Leading, Block;
  }

  lemma RowFilled(table: Table, X: Matrix, bl: nat, bp: nat, i: int)
    requires Filled(table, X, bl, bp, i, 0) && i >= 0
    ensures Filled(table, X, bl, bp, i + 1, i + 2)
  {
    hide TilesOf;
  }

  /** What block (i, j) reads is stored. */
  lemma ColumnStored(table: Table, X: Matrix, bl: nat, bp: nat, i: int, j: int)
    requires Filled(table, X, bl, bp, i, j + 1) && 0 <= j < i
    ensures TilesOf(table, X, bl, bp) && forall k :: j <= k < i ==> (k, j) in table
  {
    hide TilesOf;
  }

  /** The inverted diagonal tile carries the inverse's diagonal block. */
  ghost predicate DiagonalsOf(tiles: seq<Matrix>, X: Matrix, bl: nat, bp: nat) {
    forall k :: 0 <= k < |tiles| ==> tiles[k].rows == tiles[k].cols == bp && Leading(tiles[k], bl) == Block(X, bl, k, k)
  }

  /** Tile (i, j) is the diagonal tile times the accumulated sum. */
  lemma OffDiagonalTile(A: Matrix, n: nat, nb: nat, bl: nat, bp: nat, D: Matrix, acc: Matrix, i: nat, j: nat)
    requires StrictLower(A) && n == nb * bl <= A.rows && 0 < bl <= bp && j < i < nb
    requires D.rows == D.cols == acc.rows == acc.cols == bp
    requires Leading(D, bl) == Block(Inverse(Leading(A, n)), bl, i, i)
    requires Leading(acc, bl) == BlockSum(Leading(A, n), Inverse(Leading(A, n)), bl, i, j, j, i)
    requires forall r, c :: bl <= r ==> At(acc, r, c) == 0.0
    ensures Leading(Mul(D, acc), bl) == Block(Inverse(Leading(A, n)), bl, i, j)
  {
    hide At, Block, Inverse, Leading, BlockSum, StrictLower;
    MergedEntry(A, n, nb, bl, i, j, Leading(D, bl), Leading(acc, bl));
    LeadingMul(D, acc, bl);
  }

  lemma NoTiles(X: Matrix, bl: nat, bp: nat)
    ensures Filled(map[], X, bl, bp, 0, 1) && DiagonalsOf([], X, bl, bp)
  {
  }

  lemma NextDiagonal(tiles: seq<Matrix>, X: Matrix, bl: nat, bp: nat, D: Matrix)
    requires DiagonalsOf(tiles, X, bl, bp)
    requires D.rows == D.cols == bp && Leading(D, bl) == Block(X, bl, |tiles|, |tiles|)
    ensures DiagonalsOf(tiles + [D], X, bl, bp)
  {
    hide Leading, Block;
  }

  lemma DiagonalAt(tiles: seq<Matrix>, X: Matrix, bl: nat, bp: nat, k: nat)
    requires DiagonalsOf(tiles, X, bl, bp) && k < |tiles|
    ensures tiles[k].rows == tiles[k].cols == bp && Leading(tiles[k], bl) == Block(X, bl, k, k)
  {
    hide Leading, Block;
  }

  lemma AllStored(table: Table, X: Matrix, bl: nat, bp: nat, nb: nat)
    requires Filled(table, X, bl, bp, nb, nb + 1)
    ensures TilesOf(table, X, bl, bp) && forall p, q :: 0 <= q <= p < nb ==> (p, q) in table
  {
    hide TilesOf;
  }

  /** The padded inverse of every diagonal tile. */
  method InvertDiagonals(A: Matrix, n: nat, nb: nat, bl: nat, bp: nat) returns (Tinv: seq<Matrix>)
    requires StrictLower(A) && 0 < bl <= bp && n == nb * bl <= A.rows
    ensures |Tinv| == nb && DiagonalsOf(Tinv, Inverse(Leading(A, n)), bl, bp)
  {
    hide At, Block, Inverse, Make, Leading, Tile, StrictLower, DiagonalsOf;
    ghost var X := Inverse(Leading(A, n));
    Tinv := [];
    NoTiles(X, bl, bp);
    for i := 0 to nb
      invariant |Tinv| == i && DiagonalsOf(Tinv, X, bl, bp)
    {
      DiagonalTile(A, n, nb, bl, bp, i);
      var D := InvBlock(Tile(A, bl, bp, i, i), bl);
      NextDiagonal(Tinv, X, bl, bp, D);
      Tinv := Tinv + [D];
    }
  }

  /** The lower triangle of tiles, row by row and in each row from the diagonal leftwards. */
  method FillTiles(A: Matrix, n: nat, nb: nat, bl: nat, bp: nat, Tinv: seq<Matrix>) returns (table: Table)
    requires StrictLower(A) && 0 < bl <= bp && n == nb * bl <= A.rows
    requires |Tinv| == nb && DiagonalsOf(Tinv, Inverse(Leading(A, n)), bl, bp)
    ensures Filled(table, Inverse(Leading(A, n)), bl, bp, nb, nb + 1)
  {
    hide At, Block, Inverse, Make, Leading, Tile, StrictLower, Filled, TilesOf, DiagonalsOf, BlockSum, Mul;
    ghost var X := Inverse(Leading(A, n));
    table := map[];
    NoTiles(X, bl, bp);
    for i := 0 to nb
      invariant Filled(table, X, bl, bp, i, i + 1)
    {
      DiagonalAt(Tinv, X, bl, bp, i);
      StoreTile(table, X, bl, bp, i, i, Tinv[i]);
      table := table[(i, i) := Tinv[i]];
      var j := i;
      while j > 0
        invariant 0 <= j <= i
        invariant Filled(table, X, bl, bp, i, j)
      {
        j := j - 1;
        ColumnStored(table, X, bl, bp, i, j);
        var acc := TileSum(A, n, nb, bl, bp, table, i, j, X);
        OffDiagonalTile(A, n, nb, bl, bp, Tinv[i], acc, i, j);
        var B := Mul(Tinv[i], acc);
        StoreTile(table, X, bl, bp, i, j, B);
        table := table[(i, j) := B];
      }
      RowFilled(table, X, bl, bp, i);
    }
  }

  lemma WholeFromPlaced(A: Matrix, T: Matrix, n: nat, nb: nat, bl: nat)
    requires StrictLower(A) && 0 < bl <= A.rows && nb == A.rows / bl && n == nb * bl <= A.rows
    requires T.rows == T.cols == A.rows && AssembledTo(T, Inverse(Leading(A, n)), bl, nb, 0)
    ensures T == Covered(A, bl)
    ensures T == Inverse(A) <==> A.rows % bl == 0
  {
    LeadingStrict(A, n);
    InverseZeroAbove(Leading(A, n), bl);
    hide At, Inverse, Leading, AssembledTo, StrictLower, ZeroAbove;
    AssembledAll(T, Inverse(Leading(A, n)), nb, bl);
    CoveredIsInverseIff(A, bl);
  }

  lemma DiagonalTile(A: Matrix, n: nat, nb: nat, bl: nat, bp: nat, i: nat)
    requires StrictLower(A) && n == nb * bl <= A.rows && bl <= bp && i < nb
    ensures ActiveBelow(Tile(A, bl, bp, i, i), bl)
    ensures Leading(Inverse(Tile(A, bl, bp, i, i)), bl) == Block(Inverse(Leading(A, n)), bl, i, i)
  {
    hide At, Block, Inverse, Leading, Tile;
    LeadingStrict(A, n);
    LeadingBlock(A, n, nb, bl, i, i);
    BlockRecurrence(Leading(A, n), nb, bl, i, i);
    TileOfBlock(A, bl, bp, i, i);
    PaddedInverse(Tile(A, bl, bp, i, i), bl);
  }

  /** sum_{i>=j} sel_i^T T_ij sel_j. */
  method SumOfPlaced(C: nat, nb: nat, bl: nat, bp: nat, table: Table, ghost X: Matrix) returns (T: Matrix)
    requires 0 < bl <= bp && X.rows == X.cols == nb * bl <= C
    requires TilesOf(table, X, bl, bp) && forall p, q :: 0 <= q <= p < nb ==> (p, q) in table
    ensures T.rows == T.cols == C && AssembledTo(T, X, bl, nb, 0)
  {
    hide At, Block, Make, Leading, Place, Paste, AssembledTo;
    T := Zero(C, C);
    NothingPlaced(C, X, bl);
    var first := true;
    for i := 0 to nb
      invariant T.rows == T.cols == C && AssembledTo(T, X, bl, i, 0)
      invariant first ==> T == Zero(C, C)
    {
      for j := 0 to i + 1
        invariant T.rows == T.cols == C && AssembledTo(T, X, bl, i, j)
        invariant first ==> T == Zero(C, C)
      {
        var term := Place(table[(i, j)], C, bl, i, j);
        AddPlaced(T, X, table[(i, j)], nb, bl, i, j);
        PasteStep(T, X, nb, bl, i, j);
        if first { AddToZero(term); }
        T := if first then term else Add(T, term);
        first := false;
      }
      NextRow(T, X, bl, i);
    }
  }

  lemma AddToZero(A: Matrix)
    ensures Add(Zero(A.rows, A.cols), A) == A
  {
    Ext(Add(Zero(A.rows, A.cols), A), A);
  }

  lemma NothingPlaced(C: nat, X: Matrix, bl: nat)
    requires bl > 0
    ensures AssembledTo(Zero(C, C), X, bl, 0, 0)
  {
  }

  /** T = (I - A)^-1 on the rows the blocks cover; the whole inverse iff bl divides C. */
  method SolveTBlocked(A: Matrix, bl: nat, bp: nat) returns (T: Matrix)
    requires StrictLower(A) && 0 < bl <= bp && bl <= A.rows
    ensures T == Covered(A, bl)
    ensures T == Inverse(A) <==> A.rows % bl == 0
  {
    hide At, Inverse, Leading, StrictLower, Filled, DiagonalsOf, AssembledTo, Covered;
    var C, nb := A.rows, A.rows / bl;
    var n := nb * bl;
    ghost var X := Inverse(Leading(A, n));
    var Tinv := InvertDiagonals(A, n, nb, bl, bp);
    var table := FillTiles(A, n, nb, bl, bp, Tinv);
    AllStored(table, X, bl, bp, nb);
    T := SumOfPlaced(C, nb, bl, bp, table, X);
    WholeFromPlaced(A, T, n, nb, bl);
  }
}

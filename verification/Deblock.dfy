/** deblock_a16_crouton16_row4: every source slot read once, every destination cell written once. */
module Deblock {
  import opened Arithmetic

  /** The source slot of destination cell (row, c), for m = 32 g rows and n = 32 n32 columns. */
  function Slot(g: nat, n32: nat, row: nat, c: nat): int {
    ((row % 32 / 4 * n32 + c / 32) * (2 * g) + (row / 32 * 2 + row % 4 / 2)) * 64 + c % 32 * 2 + row % 2
  }

  /** The destination cell of source slot q. */
  function CellOf(g: nat, n32: nat, q: nat): (int, int)
    requires g > 0 && n32 > 0
  {
    var u, x := q / 64, q % 64;
    var pair, tile := u % (2 * g), u / (2 * g);
    (pair / 2 * 32 + tile / n32 * 4 + pair % 2 * 2 + x % 2, tile % n32 * 32 + x / 2)
  }

  /** The tile and row pair of a cell, as digits of its slot. */
  lemma SlotDigits(g: nat, n32: nat, row: nat, c: nat)
    requires row < 32 * g && c < 32 * n32
    ensures var tile, pair, x := row % 32 / 4 * n32 + c / 32, row / 32 * 2 + row % 4 / 2, c % 32 * 2 + row % 2;
            && pair < 2 * g && x < 64 && tile < 8 * n32 && tile / n32 == row % 32 / 4 && tile % n32 == c / 32
            && Slot(g, n32, row, c) == (tile * (2 * g) + pair) * 64 + x
  {
    Digits(row % 32 / 4, n32, c / 32);
    InRange(8, n32, row % 32 / 4, c / 32);
  }

  lemma RowParts(row: nat, c: nat)
    ensures var pair, x := row / 32 * 2 + row % 4 / 2, c % 32 * 2 + row % 2;
            && pair / 2 == row / 32 && pair % 2 == row % 4 / 2 && x % 2 == row % 2 && x / 2 == c % 32
    ensures row == row / 32 * 32 + row % 32 / 4 * 4 + row % 4 / 2 * 2 + row % 2
  {
    DivModUnique(row / 32 * 2 + row % 4 / 2, 2, row / 32, row % 4 / 2);
    DivModUnique(c % 32 * 2 + row % 2, 2, c % 32, row % 2);
    FourDigits(row);
  }

  lemma FourDigits(row: nat)
    ensures row == row / 32 * 32 + row % 32 / 4 * 4 + row % 4 / 2 * 2 + row % 2
  {
    ModFour(row);
    ModTwo(row);
  }

  lemma ModFour(row: nat)
    ensures row % 32 % 4 == row % 4
  {
  }

  lemma ModTwo(row: nat)
    ensures row % 4 % 2 == row % 2
  {
  }

  lemma SurfaceSlots(g: nat, n32: nat)
    ensures 8 * n32 * (2 * g) * 64 == 32 * g * (32 * n32)
  {
    assert n32 * g == g * n32;
    assert 8 * n32 * (2 * g) == 16 * (n32 * g);
    assert 32 * g * (32 * n32) == 1024 * (g * n32);
  }

  /** The cell at given digits of a slot. */
  lemma CellAt(g: nat, n32: nat, tile: nat, pair: nat, x: nat)
    requires n32 > 0 && pair < 2 * g && x < 64
    ensures CellOf(g, n32, (tile * (2 * g) + pair) * 64 + x)
            == (pair / 2 * 32 + tile / n32 * 4 + pair % 2 * 2 + x % 2, tile % n32 * 32 + x / 2)
  {
    Digits(tile, 2 * g, pair);
    DivModUnique((tile * (2 * g) + pair) * 64 + x, 64, tile * (2 * g) + pair, x);
  }

  lemma SlotBelow(g: nat, n32: nat, tile: nat, pair: nat, x: nat)
    requires tile < 8 * n32 && pair < 2 * g && x < 64
    ensures 0 <= (tile * (2 * g) + pair) * 64 + x < 32 * g * (32 * n32)
  {
    InRange(8 * n32, 2 * g, tile, pair);
    SurfaceSlots(g, n32);
  }

  /** Every cell reads one slot of the surface, and the slot names the cell. */
  lemma SlotInRange(g: nat, n32: nat, row: nat, c: nat)
    requires row < 32 * g && c < 32 * n32
    ensures 0 <= Slot(g, n32, row, c) < 32 * g * (32 * n32)
    ensures CellOf(g, n32, Slot(g, n32, row, c)) == (row, c)
  {
    hide Slot, CellOf;
    SlotDigits(g, n32, row, c);
    var tile, pair, x := row % 32 / 4 * n32 + c / 32, row / 32 * 2 + row % 4 / 2, c % 32 * 2 + row % 2;
    SlotBelow(g, n32, tile, pair, x);
    CellAt(g, n32, tile, pair, x);
    RowParts(row, c);
  }

  lemma Euclid(n: nat, b: nat)
    requires b > 0
    ensures n / b >= 0 && n == n / b * b + n % b && n % b < b
  {
  }

  /** A slot's digits: quad phase, column tile, row pair and place in the pair. */
  lemma SlotParts(q: nat, g: nat, n32: nat) returns (phase: nat, nt: nat, pair: nat, x: nat)
    requires g > 0 && n32 > 0 && q < 32 * g * (32 * n32)
    ensures phase < 8 && nt < n32 && pair < 2 * g && x < 64
    ensures q == ((phase * n32 + nt) * (2 * g) + pair) * 64 + x
  {
    SlotBound(q, g, n32);
    phase, nt, pair := TileParts(q / 64, g, n32);
    x := q % 64;
  }

  lemma TileParts(u: nat, g: nat, n32: nat) returns (phase: nat, nt: nat, pair: nat)
    requires g > 0 && n32 > 0 && u < 8 * n32 * (2 * g)
    ensures phase < 8 && nt < n32 && pair < 2 * g && u == (phase * n32 + nt) * (2 * g) + pair
  {
    TileBound(u, g, n32);
    Euclid(u, 2 * g);
    var tile := u / (2 * g);
    Euclid(tile, n32);
    assert tile == tile / n32 * n32 + tile % n32;
    phase, nt, pair := tile / n32, tile % n32, u % (2 * g);
    Recompose(u, tile, phase * n32 + nt, 2 * g, pair);
  }

  lemma Recompose(u: nat, tile: nat, same: nat, width: nat, pair: nat)
    requires tile == same && u == tile * width + pair
    ensures u == same * width + pair
  {
  }

  /** Every slot of the surface is the slot of one cell. */
  lemma CellInRange(g: nat, n32: nat, q: nat)
    requires g > 0 && n32 > 0 && q < 32 * g * (32 * n32)
    ensures var (row, c) := CellOf(g, n32, q); 0 <= row < 32 * g && 0 <= c < 32 * n32 && Slot(g, n32, row, c) == q
  {
    hide Slot, CellOf;
    var phase, nt, pair, x := SlotParts(q, g, n32);
    CellFrom(g, n32, phase, nt, pair, x, q);
  }

  lemma CellFrom(g: nat, n32: nat, phase: nat, nt: nat, pair: nat, x: nat, q: nat)
    requires phase < 8 && nt < n32 && pair < 2 * g && x < 64
    requires q == ((phase * n32 + nt) * (2 * g) + pair) * 64 + x
    ensures var (row, c) := CellOf(g, n32, q); 0 <= row < 32 * g && 0 <= c < 32 * n32 && Slot(g, n32, row, c) == q
  {
    hide Slot, CellOf;
    CellAt(g, n32, phase * n32 + nt, pair, x);
    Digits(phase, n32, nt);
    SlotOf(g, n32, phase, nt, pair, x);
    CellParts(phase, nt, pair, x, g, n32);
  }

  lemma SlotBound(q: nat, g: nat, n32: nat)
    requires q < 32 * g * (32 * n32)
    ensures q / 64 < 8 * n32 * (2 * g) && q == q / 64 * 64 + q % 64
  {
    SurfaceSlots(g, n32);
    DivBelow(8 * n32 * (2 * g), 64, q);
  }

  lemma SlotOf(g: nat, n32: nat, phase: nat, nt: nat, pair: nat, x: nat)
    requires phase < 8 && nt < n32 && pair < 2 * g && x < 64
    ensures Slot(g, n32, pair / 2 * 32 + phase * 4 + pair % 2 * 2 + x % 2, nt * 32 + x / 2)
            == ((phase * n32 + nt) * (2 * g) + pair) * 64 + x
  {
    CellParts(phase, nt, pair, x, g, n32);
    CellModTwo(phase, pair, x);
  }

  lemma CellModTwo(phase: nat, pair: nat, x: nat)
    ensures (pair / 2 * 32 + phase * 4 + pair % 2 * 2 + x % 2) % 2 == x % 2
  {
    DivModUnique(pair / 2 * 32 + phase * 4 + pair % 2 * 2 + x % 2, 2, pair / 2 * 16 + phase * 2 + pair % 2, x % 2);
  }

  lemma TileBound(u: nat, g: nat, n32: nat)
    requires g > 0 && n32 > 0 && u < 8 * n32 * (2 * g)
    ensures u / (2 * g) / n32 < 8 && u == u / (2 * g) * (2 * g) + u % (2 * g)
  {
    DivBelow(8 * n32, 2 * g, u);
    DivBelow(8, n32, u / (2 * g));
  }

  lemma CellParts(phase: nat, nt: nat, pair: nat, x: nat, g: nat, n32: nat)
    requires phase < 8 && nt < n32 && pair < 2 * g && x < 64
    ensures var row, c := pair / 2 * 32 + phase * 4 + pair % 2 * 2 + x % 2, nt * 32 + x / 2;
            && row < 32 * g && c < 32 * n32
            && row % 32 / 4 == phase && c / 32 == nt && row / 32 * 2 + row % 4 / 2 == pair && c % 32 * 2 + row % 2 == x
  {
    var row, low := pair / 2 * 32 + phase * 4 + pair % 2 * 2 + x % 2, phase * 4 + pair % 2 * 2 + x % 2;
    DivModUnique(row, 32, pair / 2, low);
    DivModUnique(low, 4, phase, pair % 2 * 2 + x % 2);
    DivModUnique(row, 4, pair / 2 * 8 + phase, pair % 2 * 2 + x % 2);
    CellModTwo(phase, pair, x);
    DivModUnique(nt * 32 + x / 2, 32, nt, x / 2);
  }

  /** Cells whose slot lies before q hold their source value; the others are untouched zeros. */
  ghost predicate FilledTo(dst: array2<int>, src: seq<int>, g: nat, n32: nat, q: int)
    reads dst
  {
    && dst.Length0 == 32 * g && dst.Length1 == 32 * n32
    && forall r: nat, c: nat :: r < 32 * g && c < 32 * n32 ==>
         if Slot(g, n32, r, c) < q
         then 0 <= Slot(g, n32, r, c) < |src| && dst[r, c] == src[Slot(g, n32, r, c)]
         else dst[r, c] == 0
  }

  /** One row pair of one tile: 32 columns, two rows each, from consecutive slots. */
  method DeblockPair(src: seq<int>, dst: array2<int>, g: nat, n32: nat, phase: nat, nt: nat, group: nat, pair: nat,
                     start: nat)
    requires phase < 8 && nt < n32 && group < g && pair < 2 && |src| == 32 * g * (32 * n32)
    requires start == Start(g, n32, phase, nt, group * 2 + pair)
    requires FilledTo(dst, src, g, n32, start)
    modifies dst
    ensures FilledTo(dst, src, g, n32, start + 64)
  {
    hide Slot;
    var row0 := group * 32 + phase * 4 + pair * 2;
    for col := 0 to 32
      invariant FilledTo(dst, src, g, n32, start + col * 2)
    {
      var word := start + col * 2;
      PairSlots(g, n32, phase, nt, group, pair, col, start);
      OnlySlots(g, n32, row0, nt * 32 + col, word);
      dst[row0, nt * 32 + col] := src[word];
      dst[row0 + 1, nt * 32 + col] := src[word + 1];
    }
  }

  lemma PairSlots(g: nat, n32: nat, phase: nat, nt: nat, group: nat, pair: nat, col: nat, start: nat)
    requires phase < 8 && nt < n32 && group < g && pair < 2 && col < 32
    requires start == Start(g, n32, phase, nt, group * 2 + pair)
    ensures var row0, c, word := group * 32 + phase * 4 + pair * 2, nt * 32 + col, start + col * 2;
            && row0 + 1 < 32 * g && c < 32 * n32
            && Slot(g, n32, row0, c) == word && Slot(g, n32, row0 + 1, c) == word + 1
            && word + 1 < 32 * g * (32 * n32)
  {
    hide Slot, CellOf;
    var pr := group * 2 + pair;
    assert pr / 2 == group && pr % 2 == pair && pr < 2 * g;
    SlotOf(g, n32, phase, nt, pr, col * 2);
    SlotOf(g, n32, phase, nt, pr, col * 2 + 1);
    assert col * 2 / 2 == col == (col * 2 + 1) / 2;
    var row0, c := group * 32 + phase * 4 + pair * 2, nt * 32 + col;
    CellParts(phase, nt, pr, col * 2 + 1, g, n32);
    SlotInRange(g, n32, row0 + 1, c);
  }

  /** No other cell has those two slots. */
  lemma OnlySlots(g: nat, n32: nat, row0: nat, c: nat, word: nat)
    requires row0 + 1 < 32 * g && c < 32 * n32
    requires Slot(g, n32, row0, c) == word && Slot(g, n32, row0 + 1, c) == word + 1
    ensures forall r: nat, d: nat :: r < 32 * g && d < 32 * n32 && word <= Slot(g, n32, r, d) <= word + 1 ==>
              d == c && r == row0 + Slot(g, n32, r, d) - word
  {
    hide Slot, CellOf;
    SlotInRange(g, n32, row0, c);
    SlotInRange(g, n32, row0 + 1, c);
    forall r: nat, d: nat | r < 32 * g && d < 32 * n32 && word <= Slot(g, n32, r, d) <= word + 1
      ensures d == c && r == row0 + Slot(g, n32, r, d) - word
    {
      SlotInRange(g, n32, r, d);
    }
  }

  /** The slot where row pair pr of column tile nt starts in quad phase `phase`. */
  function Start(g: nat, n32: nat, phase: nat, nt: nat, pr: nat): nat {
    ((phase * n32 + nt) * (2 * g) + pr) * 64
  }

  /** The four loops advance through the surface without a gap. */
  lemma StartSteps(g: nat, n32: nat, phase: nat, nt: nat, pr: nat)
    ensures Start(g, n32, phase, nt, pr) + 64 == Start(g, n32, phase, nt, pr + 1)
    ensures Start(g, n32, phase, nt, g * 2) == Start(g, n32, phase, nt + 1, 0)
    ensures Start(g, n32, phase, n32, 0) == Start(g, n32, phase + 1, 0, 0)
  {
    assert (phase * n32 + nt) * (2 * g) + g * 2 == (phase * n32 + nt + 1) * (2 * g);
    assert phase * n32 + n32 == (phase + 1) * n32;
  }

  lemma StartEnds(g: nat, n32: nat)
    ensures Start(g, n32, 0, 0, 0) == 0 && Start(g, n32, 8, 0, 0) == 32 * g * (32 * n32)
  {
    SurfaceSlots(g, n32);
  }

  lemma NothingFilled(dst: array2<int>, src: seq<int>, g: nat, n32: nat)
    requires dst.Length0 == 32 * g && dst.Length1 == 32 * n32
    requires forall r, c :: 0 <= r < 32 * g && 0 <= c < 32 * n32 ==> dst[r, c] == 0
    ensures FilledTo(dst, src, g, n32, 0)
  {
    hide Slot;
    AllSlots(g, n32);
  }

  lemma AllFilled(dst: array2<int>, src: seq<int>, g: nat, n32: nat)
    requires FilledTo(dst, src, g, n32, 32 * g * (32 * n32))
    ensures dst.Length0 == 32 * g && dst.Length1 == 32 * n32
    ensures forall r: nat, c: nat :: r < 32 * g && c < 32 * n32 ==>
              0 <= Slot(g, n32, r, c) < |src| && dst[r, c] == src[Slot(g, n32, r, c)]
  {
    hide Slot;
    AllSlots(g, n32);
  }

  lemma AllSlots(g: nat, n32: nat)
    ensures forall r: nat, c: nat :: r < 32 * g && c < 32 * n32 ==> 0 <= Slot(g, n32, r, c) < 32 * g * (32 * n32)
  {
    hide Slot, CellOf;
    forall r: nat, c: nat | r < 32 * g && c < 32 * n32
      ensures 0 <= Slot(g, n32, r, c) < 32 * g * (32 * n32)
    {
      SlotInRange(g, n32, r, c);
    }
  }

  lemma SurfaceArea(m: nat, n: nat)
    requires m % 32 == 0 && n % 32 == 0
    ensures m == 32 * (m / 32) && n == 32 * (n / 32) && m * n == 32 * (m / 32) * (32 * (n / 32))
  {
  }

  /** The whole de-block: dst[row, c] is src at the cell's slot. */
  method DeblockHarness(src: seq<int>, m: nat, n: nat) returns (dst: array2<int>)
    requires m % 32 == 0 && n % 32 == 0 && |src| == m * n
    ensures fresh(dst) && dst.Length0 == m && dst.Length1 == n
    ensures forall r: nat, c: nat :: r < m && c < n ==>
              0 <= Slot(m / 32, n / 32, r, c) < |src| && dst[r, c] == src[Slot(m / 32, n / 32, r, c)]
  {
    hide Slot, Start, FilledTo;
    dst := new int[m, n]((i, j) => 0);
    var g, n32 := m / 32, n / 32;
    SurfaceArea(m, n);
    NothingFilled(dst, src, g, n32);
    StartEnds(g, n32);
    for phase := 0 to 8
      invariant FilledTo(dst, src, g, n32, Start(g, n32, phase, 0, 0))
    {
      for nt := 0 to n32
        invariant FilledTo(dst, src, g, n32, Start(g, n32, phase, nt, 0))
      {
        for group := 0 to g
          invariant FilledTo(dst, src, g, n32, Start(g, n32, phase, nt, group * 2))
        {
          for pair := 0 to 2
            invariant FilledTo(dst, src, g, n32, Start(g, n32, phase, nt, group * 2 + pair))
          {
            DeblockPair(src, dst, g, n32, phase, nt, group, pair, Start(g, n32, phase, nt, group * 2 + pair));
            StartSteps(g, n32, phase, nt, group * 2 + pair);
          }
        }
        StartSteps(g, n32, phase, nt, 0);
      }
      StartSteps(g, n32, phase, 0, 0);
    }
    AllFilled(dst, src, g, n32);
  }
}

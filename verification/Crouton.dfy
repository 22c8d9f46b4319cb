/** The activation crouton and the output de-pack: index permutations. */
module Crouton {
  import opened Arithmetic

  /** Byte of activation (row, col) in the packed surface of an m-row matrix. */
  function PackPos(m: nat, row: nat, col: nat): nat {
    col / 32 * (m * 32) + row % 32 / 8 * (m * 8) + row / 32 * 256 + row % 8 * 32 + col % 32
  }

  /** Byte of output (r, c) in the surface the kernel writes. */
  function DepackPos(r: nat, c: nat): nat {
    c / 32 * 2048 + r % 32 / 8 * 512 + r / 32 * 256 + r % 8 * 32 + c % 32 / 4 * 4 + c % 4
  }

  /** The two layouts agree on every cell exactly for 64-row surfaces. */
  lemma LayoutsAgreeIff(m: nat)
    requires m > 0 && m % 32 == 0
    ensures (forall r: nat, c: nat :: r < m ==> PackPos(m, r, c) == DepackPos(r, c)) <==> m == 64
  {
    if m == 64 {
      forall r: nat, c: nat | r < m
        ensures PackPos(m, r, c) == DepackPos(r, c)
      {
        LowColumns(c);
      }
    } else {
      assert PackPos(m, 8, 0) == m * 8 && DepackPos(8, 0) == 512;
    }
  }

  lemma LowColumns(c: nat)
    ensures c % 32 / 4 * 4 + c % 4 == c % 32
  {
    assert c % 32 % 4 == c % 4;
  }

  /** The row and column of byte p of the packed surface. */
  function PackCell(m: nat, p: nat): (int, int)
    requires m >= 32
  {
    var g := m / 32;
    var block, x := p / 256, p % 256;
    var rest := block / g;
    (block % g * 32 + rest % 4 * 8 + x / 32, rest / 4 * 32 + x % 32)
  }

  lemma PackForm(m: nat, g: nat, row: nat, col: nat)
    requires m == 32 * g && row < m
    ensures var rest := col / 32 * 4 + row % 32 / 8;
            PackPos(m, row, col) == (rest * g + row / 32) * 256 + (row % 8 * 32 + col % 32)
  {
    var kt, r8 := col / 32, row % 32 / 8;
    assert kt * (m * 32) == kt * 4 * g * 256 by { assert m * 32 == 4 * g * 256; Scaled(kt, m * 32, g); }
    assert r8 * (m * 8) == r8 * g * 256 by { ScaledRow(r8, m, g); }
    assert (kt * 4 + r8) * g == kt * 4 * g + r8 * g;
  }

  lemma Scaled(kt: nat, n: nat, g: nat)
    requires n == 1024 * g
    ensures kt * n == kt * 4 * g * 256
  {
  }

  lemma ScaledRow(r8: nat, m: nat, g: nat)
    requires m == 32 * g
    ensures r8 * (m * 8) == r8 * g * 256
  {
  }

  lemma RowDigits(row: nat, col: nat)
    ensures row == row / 32 * 32 + row % 32 / 8 * 8 + row % 8
    ensures var rest, x := col / 32 * 4 + row % 32 / 8, row % 8 * 32 + col % 32;
            && x < 256 && rest / 4 == col / 32 && rest % 4 == row % 32 / 8
            && x / 32 == row % 8 && x % 32 == col % 32
  {
    EightDigits(row);
    DivModUnique(col / 32 * 4 + row % 32 / 8, 4, col / 32, row % 32 / 8);
    DivModUnique(row % 8 * 32 + col % 32, 32, row % 8, col % 32);
  }

  lemma EightDigits(row: nat)
    ensures row == row / 32 * 32 + row % 32 / 8 * 8 + row % 8
  {
    var r := row % 32;
    assert row % 8 == r % 8;
  }

  lemma ByteDigits(block: nat, x: nat)
    requires x < 256
    ensures (block * 256 + x) / 256 == block && (block * 256 + x) % 256 == x
  {
  }

  /** The block that holds (row, col) and its place in it. */
  lemma PackBlock(m: nat, g: nat, k: nat, row: nat, col: nat)
    requires m == 32 * g && k % 32 == 0 && row < m && col < k
    ensures var rest, x := col / 32 * 4 + row % 32 / 8, row % 8 * 32 + col % 32;
            var block := rest * g + row / 32;
            && PackPos(m, row, col) == block * 256 + x && x < 256
            && block / g == rest && block % g == row / 32 && 0 <= block < k / 32 * 4 * g
  {
    hide PackPos;
    var rest := col / 32 * 4 + row % 32 / 8;
    PackForm(m, g, row, col);
    Digits(rest, g, row / 32);
    assert rest < k / 32 * 4 by { assert col / 32 < k / 32; }
    InRange(k / 32 * 4, g, rest, row / 32);
  }

  /** Every cell has one byte. */
  lemma PackPosInRange(m: nat, k: nat, row: nat, col: nat)
    requires m % 32 == 0 && k % 32 == 0 && row < m && col < k
    ensures 0 <= PackPos(m, row, col) < m * k
    ensures PackCell(m, PackPos(m, row, col)) == (row, col)
  {
    var g := m / 32;
    PackBlock(m, g, k, row, col);
    hide PackPos;
    var rest, x := col / 32 * 4 + row % 32 / 8, row % 8 * 32 + col % 32;
    var block := rest * g + row / 32;
    SurfaceSize(m, k, g);
    ByteDigits(block, x);
    RowDigits(row, col);
  }

  lemma SurfaceSize(m: nat, k: nat, g: nat)
    requires m == 32 * g && k % 32 == 0
    ensures k / 32 * 4 * g * 256 == m * k
  {
    var n := k / 32;
    assert k == 32 * n;
    assert m * k == 1024 * (g * n);
    assert n * 4 * g * 256 == 1024 * (n * g);
    assert n * g == g * n;
  }

  /** Every byte belongs to one cell. */
  lemma PackCellInRange(m: nat, k: nat, p: nat)
    requires m > 0 && m % 32 == 0 && k % 32 == 0 && p < m * k
    ensures var (row, col) := PackCell(m, p); 0 <= row < m && 0 <= col < k && PackPos(m, row, col) == p
  {
    var g := m / 32;
    var block, x := p / 256, p % 256;
    var rest, mg := block / g, block % g;
    SurfaceSize(m, k, g);
    BlockBound(block, k / 32, g);
    CellDigits(mg, rest, x);
    CellBounds(mg, rest, x, g, k / 32);
    PackForm(m, g, mg * 32 + rest % 4 * 8 + x / 32, rest / 4 * 32 + x % 32);
    assert x / 32 * 32 + x % 32 == x;
  }

  lemma BlockBound(block: nat, n: nat, g: nat)
    requires g > 0 && block < n * 4 * g
    ensures block / g < n * 4 && block == block / g * g + block % g
  {
    DivBelow(n * 4, g, block);
  }

  lemma CellBounds(mg: nat, rest: nat, x: nat, g: nat, n: nat)
    requires mg < g && rest < n * 4 && x < 256
    ensures 0 <= mg * 32 + rest % 4 * 8 + x / 32 < 32 * g && 0 <= rest / 4 * 32 + x % 32 < 32 * n
  {
  }

  lemma CellDigits(mg: nat, rest: nat, x: nat)
    requires x < 256
    ensures var row, col := mg * 32 + rest % 4 * 8 + x / 32, rest / 4 * 32 + x % 32;
            && row / 32 == mg && row % 32 / 8 == rest % 4 && row % 8 == x / 32
            && col / 32 == rest / 4 && col % 32 == x % 32
  {
    var low := rest % 4 * 8 + x / 32;
    DivModUnique(mg * 32 + low, 32, mg, low);
    DivModUnique(low, 8, rest % 4, x / 32);
    DivModUnique(mg * 32 + low, 8, mg * 4 + rest % 4, x / 32);
    DivModUnique(rest / 4 * 32 + x % 32, 32, rest / 4, x % 32);
  }

  /** The cells of four consecutive columns sit in four consecutive bytes. */
  lemma WordPosition(m: nat, g: nat, kt: nat, r8: nat, mg: nat, sub: nat, cw: nat, i: nat)
    requires m == 32 * g && r8 < 4 && mg < g && sub < 8 && cw < 8 && i < 4
    ensures var row, col := mg * 32 + r8 * 8 + sub, kt * 32 + cw * 4;
            PackPos(m, row, col + i) == ((((kt * 4 + r8) * g + mg) * 8 + sub) * 8 + cw) * 4 + i
  {
    var row, col := mg * 32 + r8 * 8 + sub, kt * 32 + cw * 4 + i;
    PackForm(m, g, row, col);
    DivModUnique(col, 32, kt, cw * 4 + i);
    DivModUnique(row, 32, mg, r8 * 8 + sub);
    DivModUnique(r8 * 8 + sub, 8, r8, sub);
    DivModUnique(row, 8, mg * 4 + r8, sub);
  }

  type Grid = seq<seq<int>>

  predicate Shaped(a: Grid, m: nat, k: nat) {
    |a| == m && forall i :: 0 <= i < m ==> |a[i]| == k
  }

  function Entry(a: Grid, cell: (int, int)): int {
    if 0 <= cell.0 < |a| && 0 <= cell.1 < |a[cell.0]| then a[cell.0][cell.1] else 0
  }

  /** The first n bytes of the buffer are the activation's, in layout order. */
  ghost predicate Packed(buf: seq<int>, act: Grid, m: nat, n: nat)
    requires m >= 32
  {
    n <= |buf| && forall p :: 0 <= p < n ==> buf[p] == Entry(act, PackCell(m, p))
  }

  /** Eight rows of one 32-row group: row_sub by col_word, four bytes at a time. */
  method PackEightRows(buf: array<int>, act: Grid, m: nat, k: nat, kt: nat, r8: nat, mg: nat, start: nat)
    returns (out: nat)
    requires m % 32 == 0 && k % 32 == 0 && Shaped(act, m, k) && buf.Length == m * k
    requires kt < k / 32 && r8 < 4 && mg < m / 32 && start == ((kt * 4 + r8) * (m / 32) + mg) * 256
    requires Packed(buf[..], act, m, start)
    modifies buf
    ensures out == start + 256 && Packed(buf[..], act, m, out)
  {
    hide PackCell, PackPos;
    out := start;
    GroupFits(m, k, kt, r8, mg, start);
    for rowSub := 0 to 8
      invariant out == start + rowSub * 32 && Packed(buf[..], act, m, out)
    {
      var row := mg * 32 + r8 * 8 + rowSub;
      for colWord := 0 to 8
        invariant out == start + rowSub * 32 + colWord * 4 && Packed(buf[..], act, m, out)
      {
        var col := kt * 32 + colWord * 4;
        WordCells(m, k, kt, r8, mg, rowSub, colWord, start);
        ghost var before := buf[..];
        forall p | out <= p < out + 4 { buf[p] := act[row][col + (p - out)]; }
        WordPacked(before, buf[..], act, m, k, row, col, out);
        out := out + 4;
      }
    }
  }

  lemma GroupFits(m: nat, k: nat, kt: nat, r8: nat, mg: nat, start: nat)
    requires m % 32 == 0 && k % 32 == 0 && kt < k / 32 && r8 < 4 && mg < m / 32
    requires start == ((kt * 4 + r8) * (m / 32) + mg) * 256
    ensures start + 256 <= m * k
  {
    InRange(k / 32 * 4, m / 32, kt * 4 + r8, mg);
    SurfaceSize(m, k, m / 32);
  }

  /** Bytes at .. at+3 are row's columns col .. col+3. */
  ghost predicate WordAt(m: nat, at: nat, row: int, col: int)
    requires m >= 32
  {
    forall p :: at <= p < at + 4 ==> PackCell(m, p) == (row, col + (p - at))
  }

  lemma WordCells(m: nat, k: nat, kt: nat, r8: nat, mg: nat, sub: nat, cw: nat, start: nat)
    requires m % 32 == 0 && k % 32 == 0 && kt < k / 32 && r8 < 4 && mg < m / 32 && sub < 8 && cw < 8
    requires start == ((kt * 4 + r8) * (m / 32) + mg) * 256
    ensures var row, col := mg * 32 + r8 * 8 + sub, kt * 32 + cw * 4;
            row < m && col + 4 <= k && WordAt(m, start + sub * 32 + cw * 4, row, col)
  {
    hide PackCell, PackPos;
    var row, col := mg * 32 + r8 * 8 + sub, kt * 32 + cw * 4;
    assert row < m && col + 4 <= k;
    var at := start + sub * 32 + cw * 4;
    forall p | at <= p < at + 4
      ensures PackCell(m, p) == (row, col + (p - at))
    {
      WordPosition(m, m / 32, kt, r8, mg, sub, cw, p - at);
      PackPosInRange(m, k, row, col + (p - at));
    }
  }

  lemma WordPacked(before: seq<int>, after: seq<int>, act: Grid, m: nat, k: nat, row: nat, col: nat, out: nat)
    requires m >= 32 && Shaped(act, m, k) && row < m && col + 4 <= k && out + 4 <= |before| == |after|
    requires Packed(before, act, m, out) && forall p :: 0 <= p < out ==> after[p] == before[p]
    requires WordAt(m, out, row, col)
    requires forall p :: out <= p < out + 4 ==> after[p] == act[row][col + (p - out)]
    ensures Packed(after, act, m, out + 4)
  {
    hide PackCell;
    forall p | 0 <= p < out + 4
      ensures after[p] == Entry(act, PackCell(m, p))
    {
      if p >= out { assert PackCell(m, p) == (row, col + (p - out)); }
    }
  }

  /** The whole activation surface, written through a cursor. */
  method PackActCrouton8(act: Grid, m: nat, k: nat) returns (buf: array<int>)
    requires m > 0 && m % 32 == 0 && k % 32 == 0 && Shaped(act, m, k)
    ensures fresh(buf) && buf.Length == m * k && Packed(buf[..], act, m, m * k)
  {
    hide PackCell;
    buf := new int[m * k](i => 0);
    var out := 0;
    var g := m / 32;
    for kt := 0 to k / 32
      invariant out == kt * 4 * g * 256 && Packed(buf[..], act, m, out)
    {
      for r8 := 0 to 4
        invariant out == (kt * 4 + r8) * g * 256 && Packed(buf[..], act, m, out)
      {
        for mg := 0 to g
          invariant out == ((kt * 4 + r8) * g + mg) * 256 && Packed(buf[..], act, m, out)
        {
          out := PackEightRows(buf, act, m, k, kt, r8, mg, out);
        }
        assert (kt * 4 + r8) * g + g == (kt * 4 + r8 + 1) * g;
      }
      assert kt * 4 + 4 == (kt + 1) * 4;
    }
    SurfaceSize(m, k, g);
  }

  /** The rows of out before r, and its row r before column c, are read from the surface. */
  ghost predicate DepackedTo(out: array2<int>, surface: seq<int>, r: int, c: int)
    reads out
  {
    forall i: nat, j: nat :: i < out.Length0 && j < out.Length1 && (i < r || (i == r && j < c)) ==>
      DepackPos(i, j) < |surface| && out[i, j] == surface[DepackPos(i, j)]
  }

  /** out[r, c] is the surface byte of the closed form. */
  method DepackOutput(surface: seq<int>, m: nat, n: nat) returns (out: array2<int>)
    requires forall r: nat, c: nat :: r < m && c < n ==> DepackPos(r, c) < |surface|
    ensures fresh(out) && out.Length0 == m && out.Length1 == n && DepackedTo(out, surface, m, 0)
  {
    hide DepackPos;
    out := new int[m, n]((i, j) => 0);
    for r := 0 to m
      invariant DepackedTo(out, surface, r, 0)
    {
      var m32, r8, rsub := r / 32, r % 32 / 8, r % 8;
      for c := 0 to n
        invariant DepackedTo(out, surface, r, c)
      {
        var nt, cw, bsub := c / 32, c % 32 / 4, c % 4;
        var byte := nt * 2048 + r8 * 512 + m32 * 256 + rsub * 32 + cw * 4 + bsub;
        DepackForm(r, c);
        out[r, c] := surface[byte];
      }
    }
  }

  lemma DepackForm(r: nat, c: nat)
    ensures DepackPos(r, c)
            == c / 32 * 2048 + r % 32 / 8 * 512 + r / 32 * 256 + r % 8 * 32 + c % 32 / 4 * 4 + c % 4
  {
  }

  /** De-packing a packed 64-row surface gives every cell back. */
  lemma DepackUndoesPack(buf: seq<int>, act: Grid, n: nat, r: nat, c: nat)
    requires n % 32 == 0 && Shaped(act, 64, n) && |buf| == 64 * n && Packed(buf, act, 64, 64 * n) && r < 64 && c < n
    ensures 0 <= DepackPos(r, c) < |buf| && buf[DepackPos(r, c)] == act[r][c]
  {
    LayoutsAgreeIff(64);
    PackPosInRange(64, n, r, c);
    assert PackPos(64, r, c) == DepackPos(r, c);
    hide PackPos, DepackPos, PackCell;
  }

  /** Every m x n activation, packed any way that satisfies the layout, is read back cell by cell. */
  ghost predicate ReadsBack(m: nat, n: nat)
    requires m >= 32
  {
    forall act: Grid, buf: seq<int> | Shaped(act, m, n) && |buf| == m * n && Packed(buf, act, m, m * n) ::
      CellsReadBack(act, buf, m, n)
  }

  ghost predicate CellsReadBack(act: Grid, buf: seq<int>, m: nat, n: nat)
    requires Shaped(act, m, n)
  {
    forall r: nat, c: nat | r < m && c < n :: DepackPos(r, c) < |buf| && buf[DepackPos(r, c)] == act[r][c]
  }

  /** The activation that is 1 at (8, 0) and 0 elsewhere. */
  function Spike(m: nat, n: nat): (act: Grid)
    ensures Shaped(act, m, n)
    ensures forall r, c :: 0 <= r < m && 0 <= c < n ==> act[r][c] == if r == 8 && c == 0 then 1 else 0
  {
    seq(m, r => seq(n, c => if r == 8 && c == 0 then 1 else 0))
  }

  lemma SpikeEntry(m: nat, n: nat, cell: (int, int))
    ensures Entry(Spike(m, n), cell) != 0 ==> cell == (8, 0)
  {
  }

  lemma SpikeLost(m: nat, n: nat)
    requires m > 0 && n > 0 && m % 32 == 0 && n % 32 == 0 && m != 64
    ensures !ReadsBack(m, n)
  {
    var act := Spike(m, n);
    var buf := seq(m * n, p requires 0 <= p < m * n => Entry(act, PackCell(m, p)));
    assert Packed(buf, act, m, m * n);
    SurfaceHolds(m, n);
    assert DepackPos(8, 0) == 512;
    PackCellInRange(m, n, 512);
    assert PackPos(m, 8, 0) == m * 8;
    hide PackCell, PackPos, DepackPos;
    SpikeEntry(m, n, PackCell(m, 512));
    assert buf[512] == 0;
    assert !CellsReadBack(act, buf, m, n) by { assert act[8][0] == 1; }
  }

  lemma SurfaceHolds(m: nat, n: nat)
    requires m >= 32 && n >= 32
    ensures m * n > 512
  {
    assert (m - 32) * n >= 0;
  }

  /** De-packing undoes packing exactly for 64-row surfaces. */
  lemma ReadsBackIff(m: nat, n: nat)
    requires m > 0 && n > 0 && m % 32 == 0 && n % 32 == 0
    ensures ReadsBack(m, n) <==> m == 64
  {
    if m == 64 {
      forall act: Grid, buf: seq<int> | Shaped(act, m, n) && |buf| == m * n && Packed(buf, act, m, m * n)
        ensures CellsReadBack(act, buf, m, n)
      {
        hide PackCell, DepackPos, Packed;
        forall r: nat, c: nat | r < m && c < n
          ensures DepackPos(r, c) < |buf| && buf[DepackPos(r, c)] == act[r][c]
        {
          DepackUndoesPack(buf, act, n, r, c);
        }
      }
    } else {
      SpikeLost(m, n);
    }
  }
}

/** The prepared W16A16 weight sidecar: layout, loops, and that no weight is lost. */
module Sidecar {
  import opened Results
  import opened Arithmetic
  import opened Sums
  import opened Rounding
  import opened Matrices
  import opened Bytes

  /** The clipped 16-bit code of weight (r, c). */
  function Q16(w: Matrix, r: int, c: int): (q: int)
    ensures -32768 <= q <= 32639
  {
    Clip(Rint(At(w, r, c) * 32767.0), -32768, 32639)
  }

  /** n is x rounded to the nearest integer, ties to even, and clipped to -32768 .. 32639. */
  ghost predicate RoundedClipped(n: int, x: real) {
    && (x > 32639.0 ==> n == 32639)
    && (x < -32768.0 ==> n == -32768)
    && (-32768.0 <= x <= 32639.0 ==> Abs(n as real - x) <= 0.5 && (Abs(n as real - x) == 0.5 ==> n % 2 == 0))
  }

  lemma Q16Rounds(w: Matrix, r: int, c: int)
    ensures RoundedClipped(Q16(w, r, c), At(w, r, c) * 32767.0)
  {
    hide At;
    RintEven(At(w, r, c) * 32767.0);
  }

  /** Where a byte of the sidecar comes from: its weight and which half. */
  datatype Cell = Cell(row: int, col: int, high: bool)

  /** Byte x of a 128-byte group, as a cell of the group's 4 x 16 patch. */
  function GroupCell(x: nat): Cell {
    Cell(x % 4, x / 8, x % 8 / 4 == 1)
  }

  /** The byte index of a patch cell. */
  function GroupIndex(row: int, col: int, high: bool): int {
    col * 8 + (if high then 4 else 0) + row
  }

  lemma GroupBijection(x: nat)
    requires x < 128
    ensures var p := GroupCell(x); 0 <= p.row < 4 && 0 <= p.col < 16 && GroupIndex(p.row, p.col, p.high) == x
  {
  }

  lemma GroupBijectionBack(row: nat, col: nat, high: bool)
    requires row < 4 && col < 16
    ensures var x := GroupIndex(row, col, high); 0 <= x < 128 && GroupCell(x) == Cell(row, col, high)
  {
  }

  /** Byte p of the sidecar of a matrix with kts row tiles of 32. */
  function CellOf(kts: nat, p: nat): Cell
    requires kts > 0
  {
    var block, x := p / 1024, p % 1024;
    var kt, th := block % kts, block / kts;
    var g := GroupCell(x % 128);
    Cell(kt * 32 + x / 128 * 4 + g.row, th * 16 + g.col, g.high)
  }

  /** The byte of weight (r, c)'s low or high half. */
  function PosOf(kts: nat, r: int, c: int, high: bool): int {
    (c / 16 * kts + r / 32) * 1024 + r % 32 / 4 * 128 + GroupIndex(r % 4, c % 16, high)
  }

  /** Every byte belongs to one half of one weight. */
  lemma CellOfInRange(kts: nat, ths: nat, p: nat)
    requires kts > 0 && p < ths * kts * 1024
    ensures var q := CellOf(kts, p);
            0 <= q.row < 32 * kts && 0 <= q.col < 16 * ths && PosOf(kts, q.row, q.col, q.high) == p
  {
    var block, x := p / 1024, p % 1024;
    var kt, th := block % kts, block / kts;
    var g := GroupCell(x % 128);
    GroupBijection(x % 128);
    BlockBelow(ths * kts, p);
    DivBelow(ths, kts, block);
    assert block == th * kts + kt;
    Rows(kt, x / 128, g.row);
    Cols(th, g.col);
    hide GroupCell, GroupIndex;
  }

  lemma BlockBelow(n: nat, p: nat)
    requires p < n * 1024
    ensures p / 1024 < n && p == p / 1024 * 1024 + p % 1024 / 128 * 128 + p % 1024 % 128
  {
  }

  lemma Rows(kt: nat, grp: nat, row: nat)
    requires grp < 8 && row < 4
    ensures var r := kt * 32 + grp * 4 + row; r / 32 == kt && r % 32 / 4 == grp && r % 4 == row
  {
  }

  lemma Cols(th: nat, col: nat)
    requires col < 16
    ensures (th * 16 + col) / 16 == th && (th * 16 + col) % 16 == col
  {
  }

  /** The cell at given digits: half tile th, row tile kt, row group grp, byte y of the group. */
  lemma CellOfDigits(kts: nat, th: nat, kt: nat, grp: nat, y: nat)
    requires kt < kts && grp < 8 && y < 128
    ensures var g := GroupCell(y);
            CellOf(kts, (th * kts + kt) * 1024 + grp * 128 + y)
              == Cell(kt * 32 + grp * 4 + g.row, th * 16 + g.col, g.high)
  {
    hide GroupCell;
    var block := th * kts + kt;
    DivModUnique(block * 1024 + (grp * 128 + y), 1024, block, grp * 128 + y);
    DivModUnique(grp * 128 + y, 128, grp, y);
    Digits(th, kts, kt);
  }

  lemma RowDigits(r: nat)
    ensures r == r / 32 * 32 + r % 32 / 4 * 4 + r % 4 && r % 32 / 4 < 8
  {
    assert r % 32 % 4 == r % 4;
  }

  lemma RowTile(kts: nat, r: nat)
    requires r < 32 * kts
    ensures r / 32 < kts
  {
  }

  /** Every half of every weight has one byte. */
  lemma PosOfInRange(kts: nat, ths: nat, r: nat, c: nat, high: bool)
    requires r < 32 * kts && c < 16 * ths
    ensures var p := PosOf(kts, r, c, high); 0 <= p < ths * kts * 1024 && CellOf(kts, p) == Cell(r, c, high)
  {
    var th, kt, grp, y := c / 16, r / 32, r % 32 / 4, GroupIndex(r % 4, c % 16, high);
    GroupBijectionBack(r % 4, c % 16, high);
    RowTile(kts, r);
    RowDigits(r);
    hide GroupIndex, GroupCell, CellOf;
    InRange(ths, kts, th, kt);
    CellOfDigits(kts, th, kt, grp, y);
    BlockEnd(th * kts + kt, grp, y, ths * kts);
  }

  lemma BlockEnd(block: nat, grp: nat, y: nat, n: nat)
    requires grp < 8 && y < 128 && block < n
    ensures block * 1024 + grp * 128 + y < n * 1024
  {
  }

  function ByteOf(w: Matrix, p: Cell): (b: int)
    ensures 0 <= b < 256
  {
    var q := Q16(w, p.row, p.col);
    if p.high then RoundedHighByte(q) else LowByte(q)
  }

  /** The codes of one row group and half, in traversal order. */
  method GroupVals(w: Matrix, k0: nat, n0: nat, half: nat, grp: nat) returns (vals: seq<int>)
    requires half < 2 && grp < 8
    ensures |vals| == 64
    ensures forall v :: 0 <= v < 64 ==>
              vals[v] == Q16(w, k0 + grp * 4 + v % 4, n0 + half * 16 + v / 4)
  {
    vals := [];
    for lane := 0 to 4
      invariant |vals| == lane * 16
      invariant forall v :: 0 <= v < |vals| ==>
                  vals[v] == Q16(w, k0 + grp * 4 + v % 4, n0 + half * 16 + v / 4)
    {
      var ch := grp * 8 + half * 4 + lane;
      for off := ch * 16 to (ch + 1) * 16
        invariant |vals| == lane * 16 + off - ch * 16
        invariant forall v :: 0 <= v < |vals| ==>
                    vals[v] == Q16(w, k0 + grp * 4 + v % 4, n0 + half * 16 + v / 4)
      {
        var rgrp, rem := off / 128, off % 128;
        var col, rmod := rem / 4, rem % 4;
        var row := rgrp * 4 + rmod;
        LanePosition(grp, half, lane, off - ch * 16);
        vals := vals + [Q16(w, k0 + row, n0 + col)];
      }
    }
  }

  lemma LanePosition(grp: nat, half: nat, lane: nat, o: nat)
    requires grp < 8 && half < 2 && lane < 4 && o < 16
    ensures var off, v := (grp * 8 + half * 4 + lane) * 16 + o, lane * 16 + o;
            off / 128 == grp && off % 128 % 4 == v % 4 && off % 128 / 4 == half * 16 + v / 4
  {
  }

  /** The byte of a packed group at index x. */
  function PackedByte(vals: seq<int>, x: nat): int
    requires |vals| == 64 && x < 128
  {
    var v := x / 8 * 4 + x % 4;
    if x % 8 / 4 == 1 then RoundedHighByte(vals[v]) else LowByte(vals[v])
  }

  function LowBytes(b: seq<int>): (r: seq<int>)
    ensures |r| == |b| && forall i :: 0 <= i < |b| ==> r[i] == LowByte(b[i])
  {
    seq(|b|, i requires 0 <= i < |b| => LowByte(b[i]))
  }

  function HighBytes(b: seq<int>): (r: seq<int>)
    ensures |r| == |b| && forall i :: 0 <= i < |b| ==> r[i] == RoundedHighByte(b[i])
  {
    seq(|b|, i requires 0 <= i < |b| => RoundedHighByte(b[i]))
  }

  /** low[0:4], high[0:4], low[4:8], high[4:8] of eight codes. */
  function Sixteen(b: seq<int>): (r: seq<int>)
    requires |b| == 8
    ensures |r| == 16
  {
    LowBytes(b[..4]) + HighBytes(b[..4]) + LowBytes(b[4..]) + HighBytes(b[4..])
  }

  lemma SixteenAt(b: seq<int>, y: nat)
    requires |b| == 8 && y < 16
    ensures Sixteen(b)[y] == if y % 8 < 4 then LowByte(b[y / 8 * 4 + y % 4]) else RoundedHighByte(b[y / 8 * 4 + y % 4])
  {
    hide LowByte, RoundedHighByte;
    if y < 4 {
      assert y % 8 == y % 4 == y && y / 8 == 0;
    } else if y < 8 {
      assert y % 8 == y && y % 4 == y - 4 && y / 8 == 0;
    } else if y < 12 {
      assert y % 8 == y % 4 == y - 8 && y / 8 == 1;
    } else {
      assert y % 8 == y - 8 && y % 4 == y - 12 && y / 8 == 1;
    }
  }

  lemma EightAt(k: nat, y: nat)
    requires y < 16
    ensures var x := k * 16 + y; x / 8 * 4 + x % 4 == k * 8 + (y / 8 * 4 + y % 4) && (x % 8 / 4 == 1 <==> y % 8 >= 4)
  {
    DivModUnique(k * 16 + y, 8, k * 2 + y / 8, y % 8);
    DivModUnique(k * 16 + y, 4, k * 4 + y / 4, y % 4);
  }

  lemma PackedAt(vals: seq<int>, k: nat, y: nat)
    requires |vals| == 64 && k < 8 && y < 16
    ensures Sixteen(vals[k * 8..k * 8 + 8])[y] == PackedByte(vals, k * 16 + y)
  {
    hide LowByte, RoundedHighByte, Sixteen;
    SixteenAt(vals[k * 8..k * 8 + 8], y);
    EightAt(k, y);
  }

  ghost predicate Packed(out: seq<int>, vals: seq<int>)
    requires |vals| == 64
  {
    |out| <= 128 && forall x :: 0 <= x < |out| ==> out[x] == PackedByte(vals, x)
  }

  lemma PackStep(out: seq<int>, vals: seq<int>, k: nat)
    requires |vals| == 64 && k < 8 && |out| == k * 16 && Packed(out, vals)
    ensures Packed(out + Sixteen(vals[k * 8..k * 8 + 8]), vals)
  {
    hide PackedByte, Sixteen;
    var more := Sixteen(vals[k * 8..k * 8 + 8]);
    forall x | k * 16 <= x < k * 16 + 16
      ensures (out + more)[x] == PackedByte(vals, x)
    {
      PackedAt(vals, k, x - k * 16);
    }
  }

  /** The bytes of one row group, eight codes at a time. */
  method PackVals(vals: seq<int>) returns (out: seq<int>)
    requires |vals| == 64
    ensures |out| == 128 && forall x :: 0 <= x < 128 ==> out[x] == PackedByte(vals, x)
  {
    hide PackedByte, Sixteen;
    out := [];
    var idx := 0;
    while idx < 64
      invariant 0 <= idx <= 64 && idx == idx / 8 * 8 && |out| == idx * 2
      invariant Packed(out, vals)
    {
      PackStep(out, vals, idx / 8);
      out := out + Sixteen(vals[idx..idx + 8]);
      idx := idx + 8;
    }
  }

  /** The first n bytes are those the layout assigns. */
  ghost predicate LaidOut(out: seq<int>, w: Matrix, kts: nat)
    requires kts > 0
  {
    forall p :: 0 <= p < |out| ==> out[p] == ByteOf(w, CellOf(kts, p))
  }

  /** Byte x of row group grp in block `block` (half tile th, row tile kt). */
  lemma GroupPosition(kts: nat, th: nat, kt: nat, grp: nat, x: nat)
    requires kt < kts && grp < 8 && x < 128
    ensures var p := (th * kts + kt) * 1024 + grp * 128 + x;
            CellOf(kts, p) == Cell(kt * 32 + grp * 4 + x % 4, th * 16 + x / 8, x % 8 / 4 == 1)
  {
    hide CellOf;
    CellOfDigits(kts, th, kt, grp, x);
  }

  /** The eight row groups of one half tile and row tile. */
  method PackBlock(w: Matrix, kts: nat, t: nat, half: nat, kt: nat, before: seq<int>) returns (out: seq<int>)
    requires kt < kts && half < 2 && |before| == ((2 * t + half) * kts + kt) * 1024 && LaidOut(before, w, kts)
    ensures |out| == |before| + 1024 && LaidOut(out, w, kts)
  {
    hide CellOf, ByteOf;
    out := before;
    for grp := 0 to 8
      invariant |out| == |before| + grp * 128 && LaidOut(out, w, kts)
    {
      var vals := GroupVals(w, kt * 32, t * 32, half, grp);
      var bytes := PackVals(vals);
      AppendGroup(out, bytes, vals, w, kts, t, half, kt, grp);
      out := out + bytes;
    }
  }

  /** The codes of a 4 x 16 patch at (r0, c0), column by column. */
  ghost predicate PatchCodes(vals: seq<int>, w: Matrix, r0: nat, c0: nat) {
    |vals| == 64 && forall v :: 0 <= v < 64 ==> vals[v] == Q16(w, r0 + v % 4, c0 + v / 4)
  }

  lemma PackedCell(vals: seq<int>, w: Matrix, r0: nat, c0: nat, x: nat)
    requires PatchCodes(vals, w, r0, c0) && x < 128
    ensures PackedByte(vals, x) == ByteOf(w, Cell(r0 + x % 4, c0 + x / 8, x % 8 / 4 == 1))
  {
    PatchIndex(x);
    hide Q16, LowByte, RoundedHighByte;
    assert vals[x / 8 * 4 + x % 4] == Q16(w, r0 + x % 4, c0 + x / 8);
  }

  /** Byte x of a packed group is the byte of its cell. */
  lemma GroupByte(bytes: seq<int>, vals: seq<int>, w: Matrix, kts: nat, t: nat, half: nat, kt: nat, grp: nat, x: nat)
    requires kt < kts && half < 2 && grp < 8 && x < 128
    requires PatchCodes(vals, w, kt * 32 + grp * 4, t * 32 + half * 16)
    requires |bytes| == 128 && bytes[x] == PackedByte(vals, x)
    ensures bytes[x] == ByteOf(w, CellOf(kts, ((2 * t + half) * kts + kt) * 1024 + grp * 128 + x))
  {
    hide CellOf, ByteOf, PackedByte;
    PackedCell(vals, w, kt * 32 + grp * 4, t * 32 + half * 16, x);
    GroupPosition(kts, 2 * t + half, kt, grp, x);
  }

  lemma AppendGroup(out: seq<int>, bytes: seq<int>, vals: seq<int>, w: Matrix, kts: nat, t: nat, half: nat, kt: nat,
                    grp: nat)
    requires kt < kts && half < 2 && grp < 8 && LaidOut(out, w, kts)
    requires |out| == ((2 * t + half) * kts + kt) * 1024 + grp * 128
    requires PatchCodes(vals, w, kt * 32 + grp * 4, t * 32 + half * 16)
    requires |bytes| == 128 && forall x :: 0 <= x < 128 ==> bytes[x] == PackedByte(vals, x)
    ensures LaidOut(out + bytes, w, kts)
  {
    hide CellOf, ByteOf, PackedByte, Q16;
    var start := |out|;
    forall p | start <= p < start + 128
      ensures bytes[p - start] == ByteOf(w, CellOf(kts, p))
    {
      GroupByte(bytes, vals, w, kts, t, half, kt, grp, p - start);
    }
  }

  lemma PatchIndex(x: nat)
    requires x < 128
    ensures var v := x / 8 * 4 + x % 4; v < 64 && v % 4 == x % 4 && v / 4 == x / 8
  {
  }

  /** Both halves of one 32-column tile. */
  method PackTile(w: Matrix, kts: nat, t: nat, before: seq<int>) returns (out: seq<int>)
    requires kts > 0 && |before| == 2 * t * kts * 1024 && LaidOut(before, w, kts)
    ensures |out| == 2 * (t + 1) * kts * 1024 && LaidOut(out, w, kts)
  {
    hide LaidOut;
    out := before;
    for half := 0 to 2
      invariant |out| == (2 * t + half) * kts * 1024 && LaidOut(out, w, kts)
    {
      for kt := 0 to kts
        invariant |out| == ((2 * t + half) * kts + kt) * 1024 && LaidOut(out, w, kts)
      {
        out := PackBlock(w, kts, t, half, kt, out);
      }
      assert (2 * t + half) * kts + kts == (2 * t + half + 1) * kts;
    }
  }

  /** The weights of every row tile and column tile, 128 columns at a time, the last group partial. */
  method GenerateSidecar(w: Matrix) returns (r: Result<seq<int>>)
    ensures r.BadShape? <==> w.rows % 32 != 0 || w.cols % 32 != 0
    ensures r.Ok? ==> |r.value| == 2 * w.rows * w.cols
    ensures r.Ok? && w.rows > 0 ==> LaidOut(r.value, w, w.rows / 32)
    ensures r.Ok? ==>
              forall i, j :: 0 <= i < w.rows && 0 <= j < w.cols ==> StoresWeight(r.value, w, w.rows / 32, i, j)
  {
    if w.rows % 32 != 0 || w.cols % 32 != 0 { return BadShape; }
    hide LaidOut, StoresWeight;
    var kts := w.rows / 32;
    var out: seq<int> := [];
    if kts == 0 {
      SidecarSize(w.rows, w.cols, kts, w.cols / 32);
      return Ok(out);
    }
    NothingLaid(w, kts);
    var nBase := 0;
    while nBase < w.cols
      invariant 0 <= nBase && nBase % 32 == 0
      invariant |out| == 2 * (Min(nBase, w.cols) / 32) * kts * 1024 && LaidOut(out, w, kts)
    {
      var tiles := Min(4, (w.cols - nBase) / 32);
      for nt := 0 to tiles
        invariant |out| == 2 * (nBase / 32 + nt) * kts * 1024 && LaidOut(out, w, kts)
      {
        out := PackTile(w, kts, nBase / 32 + nt, out);
      }
      LastTile(nBase, w.cols);
      nBase := nBase + 128;
    }
    SidecarSize(w.rows, w.cols, kts, w.cols / 32);
    AllStored(w, out, kts);
    return Ok(out);
  }

  lemma NothingLaid(w: Matrix, kts: nat)
    requires kts > 0
    ensures LaidOut([], w, kts)
  {
  }

  lemma LastTile(nBase: nat, cols: nat)
    requires nBase < cols && nBase % 32 == 0 && cols % 32 == 0
    ensures nBase / 32 + Min(4, (cols - nBase) / 32) == Min(nBase + 128, cols) / 32
  {
  }

  lemma SidecarSize(rows: nat, cols: nat, kts: nat, nts: nat)
    requires rows == 32 * kts && cols == 32 * nts
    ensures 2 * nts * kts * 1024 == 2 * rows * cols
  {
    assert rows * cols == 1024 * (kts * nts);
  }

  /** Weight (r, c) has its two bytes in out, and they rebuild it in steps of 1 / 32767, rounded and clipped. */
  ghost predicate StoresWeight(out: seq<int>, w: Matrix, kts: nat, r: int, c: int) {
    var lo, hi := PosOf(kts, r, c, false), PosOf(kts, r, c, true);
    && 0 <= lo < |out| && 0 <= hi < |out|
    && RoundedClipped(Signed(out[lo]) + 256 * Signed(out[hi]), At(w, r, c) * 32767.0)
  }

  lemma AllStored(w: Matrix, out: seq<int>, kts: nat)
    requires w.rows == 32 * kts && w.cols % 32 == 0 && |out| == 2 * w.rows * w.cols
    requires kts > 0 ==> LaidOut(out, w, kts)
    ensures forall r, c :: 0 <= r < w.rows && 0 <= c < w.cols ==> StoresWeight(out, w, kts, r, c)
  {
    hide LaidOut, StoresWeight;
    forall r, c | 0 <= r < w.rows && 0 <= c < w.cols
      ensures StoresWeight(out, w, kts, r, c)
    {
      SidecarLossless(w, out, kts, r, c);
    }
  }

  /** Nothing is lost: both bytes of every weight are there and rebuild its clipped code. */
  lemma SidecarLossless(w: Matrix, out: seq<int>, kts: nat, r: nat, c: nat)
    requires w.rows == 32 * kts && kts > 0 && w.cols % 32 == 0 && r < w.rows && c < w.cols
    requires |out| == 2 * w.rows * w.cols && LaidOut(out, w, kts)
    ensures var lo, hi := PosOf(kts, r, c, false), PosOf(kts, r, c, true);
            0 <= lo < |out| && 0 <= hi < |out| && Signed(out[lo]) + 256 * Signed(out[hi]) == Q16(w, r, c)
    ensures StoresWeight(out, w, kts, r, c)
  {
    SurfaceBytes(w.rows, w.cols, kts);
    hide PosOf, CellOf, Q16, RoundedClipped, ByteOf;
    PosOfInRange(kts, w.cols / 16, r, c, false);
    PosOfInRange(kts, w.cols / 16, r, c, true);
    BytesOf(w, r, c);
    RebuiltIff(Q16(w, r, c));
    Q16Rounds(w, r, c);
  }

  lemma SurfaceBytes(rows: nat, cols: nat, kts: nat)
    requires rows == 32 * kts && cols % 32 == 0
    ensures cols == 16 * (cols / 16) && cols / 16 * kts * 1024 == 2 * rows * cols
  {
    SidecarSize(rows, cols, kts, cols / 32);
    assert cols / 16 == 2 * (cols / 32);
  }

  lemma BytesOf(w: Matrix, r: int, c: int)
    ensures ByteOf(w, Cell(r, c, false)) == LowByte(Q16(w, r, c))
    ensures ByteOf(w, Cell(r, c, true)) == RoundedHighByte(Q16(w, r, c))
  {
  }
}

/** Blockwise weight quantisation: one scale per channel times a small integer per block. */
module BlockScales {
  import opened Results
  import opened Arithmetic
  import opened Sums
  import opened Rounding
  import opened Quantizer

  function SeqMax(s: seq<real>): (m: real)
    requires |s| > 0
    ensures m in s && forall x :: x in s ==> x <= m
  {
    assert forall x :: x in s ==> x == s[0] || x in s[1..];
    if |s| == 1 then s[0] else MaxReal(s[0], SeqMax(s[1..]))
  }

  function SeqMin(s: seq<real>): (m: real)
    requires |s| > 0
    ensures m in s && forall x :: x in s ==> m <= x
  {
    assert forall x :: x in s ==> x == s[0] || x in s[1..];
    if |s| == 1 then s[0] else MinReal(s[0], SeqMin(s[1..]))
  }

  /** Scale of a zero-centred code with largest magnitude qmax. */
  function SymmetricScale(lo: real, hi: real, qmax: int): real
    requires qmax > 0
  {
    MaxReal(MaxReal(Abs(lo), Abs(hi)), EPS) / qmax as real
  }

  /** s gives every x of xs, and 10^-12, at most qmax steps. */
  ghost predicate Covers(s: real, xs: seq<real>, qmax: int) {
    0.000000000001 <= Steps(qmax as real, s) && forall x :: x in xs ==> Abs(x) <= Steps(qmax as real, s)
  }

  /** The symmetric scale is the smallest that covers its values. */
  lemma ScaleLeast(xs: seq<real>, qmax: int, y: real)
    requires |xs| > 0 && qmax > 0
    ensures Covers(GroupScale(xs, qmax), xs, qmax)
    ensures Covers(y, xs, qmax) ==> GroupScale(xs, qmax) <= y
  {
    hide Steps;
    var m, lo, hi := qmax as real, SeqMin(xs), SeqMax(xs);
    var top := MaxReal(MaxReal(Abs(lo), Abs(hi)), EPS);
    ScaleCovers(top, m, top / m);
    if Covers(y, xs, qmax) {
      assert Abs(lo) <= Steps(m, y) && Abs(hi) <= Steps(m, y);
      StepsCommute(m, y);
      QuotientAtMost(top, m, y);
    }
  }

  /** A value within the bounds is at most qmax steps from zero, and the scale is positive. */
  lemma SymmetricCovers(x: real, lo: real, hi: real, qmax: int)
    requires qmax > 0 && lo <= x <= hi
    ensures SymmetricScale(lo, hi, qmax) > 0.0
    ensures Abs(x) <= Steps(qmax as real, SymmetricScale(lo, hi, qmax))
  {
    hide Steps;
    var top, m := MaxReal(MaxReal(Abs(lo), Abs(hi)), EPS), qmax as real;
    var s := top / m;
    ScaleCovers(top, m, s);
    StepsCommute(m, s);
    StepsUnits(m);
    if s <= 0.0 { StepsAtMost(s, 0.0, m); }
  }

  function Ceil(x: real): (n: int)
    ensures x <= n as real < x + 1.0
  {
    -((0.0 - x).Floor)
  }

  const MAX_FACTOR := 16

  /** The shared scale: no smaller than the smallest block scale, and at least 1/16 of the largest. */
  function BaseScale(scales: seq<real>): (base: real)
    requires |scales| > 0
    ensures base >= EPS / 16.0
  {
    MaxReal(MaxReal(SeqMin(scales), EPS), MaxReal(SeqMax(scales), EPS) / MAX_FACTOR as real)
  }

  ghost function Floored(scale: real): real {
    MaxReal(scale, 0.000000000001)
  }

  /** base is at least some scale, and 16 times it at least every scale, each scale taken as 10^-12 at least. */
  ghost predicate BaseCovers(base: real, scales: seq<real>) {
    && (exists i :: 0 <= i < |scales| && Floored(scales[i]) <= base)
    && forall i :: 0 <= i < |scales| ==> Floored(scales[i]) <= 16.0 * base
  }

  /** The shared scale: the smallest that does both. */
  ghost predicate IsBase(base: real, scales: seq<real>) {
    BaseCovers(base, scales) && forall y :: BaseCovers(y, scales) ==> base <= y
  }

  lemma BaseIsLeast(scales: seq<real>)
    requires |scales| > 0
    ensures IsBase(BaseScale(scales), scales)
  {
    var lo, hi, base := SeqMin(scales), SeqMax(scales), BaseScale(scales);
    var i :| 0 <= i < |scales| && scales[i] == lo;
    assert Floored(scales[i]) <= base;
    var j :| 0 <= j < |scales| && scales[j] == hi;
    forall y | BaseCovers(y, scales)
      ensures base <= y
    {
      assert Floored(scales[j]) <= 16.0 * y;
      var k :| 0 <= k < |scales| && Floored(scales[k]) <= y;
      assert scales[k] in scales;
    }
    forall k | 0 <= k < |scales|
      ensures Floored(scales[k]) <= 16.0 * base
    {
      assert scales[k] in scales;
    }
  }

  lemma BaseUnique(x: real, y: real, scales: seq<real>)
    requires IsBase(x, scales) && IsBase(y, scales)
    ensures x == y
  {
  }

  function Factor(gs: real, base: real): int
    requires base > 0.0
  {
    Clip(Ceil(gs / base - 0.000000001), 1, MAX_FACTOR)
  }

  /** The factor is in 1..16, covers the block's scale to within 10^-9 of the base, and is the smallest that does. */
  ghost predicate FactorGood(gs: real, base: real, f: int) {
    && 1 <= f <= MAX_FACTOR
    && gs <= Steps(f as real + 0.000000001, base)
    && (f == 1 || Steps(f as real - 1.0 + 0.000000001, base) < gs)
  }

  /** The upper clip of a block factor never acts. */
  lemma FactorFits(scales: seq<real>, b: nat)
    requires b < |scales|
    ensures Ceil(scales[b] / BaseScale(scales) - 0.000000001) <= MAX_FACTOR
  {
    var gs, base := scales[b], BaseScale(scales);
    assert gs in scales;
    var top := MaxReal(SeqMax(scales), EPS);
    assert gs <= top && base >= top / 16.0;
    QuotientAtMost(gs, base, 16.0);
  }

  lemma FactorTight(gs: real, base: real)
    requires base > 0.0 && Ceil(gs / base - 0.000000001) <= MAX_FACTOR
    ensures FactorGood(gs, base, Factor(gs, base))
  {
    hide Ceil, Steps;
    var r, f := gs / base, Factor(gs, base) as real;
    StepsOfQuotient(gs, base);
    StepsAtMost(r, f + 0.000000001, base);
    if f > 1.0 { StepsLess(f - 1.0 + 0.000000001, r, base); }
  }

  /** The tolerance is at most one part in 10^9 of the effective step. */
  lemma FactorSlack(gs: real, base: real, f: int)
    requires base > 0.0 && FactorGood(gs, base, f)
    ensures gs <= 1.000000001 * Steps(f as real, base)
  {
    var x := f as real;
    StepsAtMost(x + 0.000000001, 1.000000001 * x, base);
    Slackened(x, base);
  }

  lemma Slackened(x: real, base: real)
    ensures Steps(1.000000001 * x, base) == 1.000000001 * Steps(x, base)
  {
  }

  /** A value its block scale covers does not clip against the effective scale e, and is restored within e/2. */
  lemma CodeFits(x: real, gs: real, e: real, qmax: int)
    requires 0 < qmax <= 32767 && e > 0.0
    requires Abs(x) <= Steps(qmax as real, gs) && gs <= 1.000000001 * e
    ensures -qmax <= Rint(x / e) <= qmax
    ensures Abs(Steps(Rint(x / e) as real, e) - x) <= 0.5 * e
  {
    hide Rint, Steps;
    var m := qmax as real;
    var top := 1.000000001 * m;
    StepsCommute(m, gs);
    StepsAtMost(gs, 1.000000001 * e, m);
    Reassociate(1.000000001, e, m);
    StepsUnits(e);
    StepsDiff(0.0, top, e);
    QuotientAtMost(x, e, top);
    QuotientAtLeast(x, e, 0.0 - top);
    RintNear(x / e, qmax);
    StepError(Rint(x / e) as real, x, e);
  }

  lemma Reassociate(c: real, e: real, m: real)
    ensures Steps(c * e, m) == Steps(c * m, e)
  {
    assert c * e * m == c * m * e;
  }

  lemma RintNear(y: real, n: int)
    requires -n as real - 0.5 < y < n as real + 0.5
    ensures -n <= Rint(y) <= n
  {
  }

  function Block<T>(row: seq<T>, size: nat, b: nat): seq<T>
    requires (b + 1) * size <= |row|
  {
    row[b * size..(b + 1) * size]
  }

  function GroupScale(block: seq<real>, qmax: int): real
    requires |block| > 0 && qmax > 0
  {
    SymmetricScale(SeqMin(block), SeqMax(block), qmax)
  }

  /** One output channel: the shared scale, a factor per block, and per weight its code, expanded code and value. */
  datatype Channel = Channel(scale: real, factors: seq<int>, codes: seq<int>, expanded: seq<int>, values: seq<real>)

  /** An integer kept in 16 bits, two's complement. */
  function WrapInt16(n: int): (w: int)
    ensures -32768 <= w <= 32767
    ensures w == n <==> -32768 <= n <= 32767
    ensures (n - w) % 65536 == 0
  {
    (n + 32768) % 65536 - 32768
  }

  /**
   Weight x of a block with factor f under the shared scale: coded without clipping, expanded in
   16 bits, and restored within half an effective step exactly when the expansion does not wrap.
   */
  ghost predicate WeightGood(x: real, base: real, f: int, code: int, expanded: int, value: real, qmax: int) {
    var e := Steps(f as real, base);
    && e > 0.0
    && code == Rint(x / e)
    && -qmax <= code <= qmax
    && expanded == WrapInt16(code * f)
    && -16 * qmax <= code * f <= 16 * qmax
    && value == Steps(expanded as real, base)
    && (Abs(value - x) <= 0.5 * e <==> -32768 <= code * f <= 32767)
  }

  lemma WeightFits(x: real, block: seq<real>, base: real, f: int, qmax: int)
    requires x in block && 0 < qmax <= 32767 && base > 0.0
    requires FactorGood(GroupScale(block, qmax), base, f)
    ensures Steps(f as real, base) > 0.0
    ensures var q := Clip(Rint(x / Steps(f as real, base)), -qmax, qmax);
            WeightGood(x, base, f, q, WrapInt16(q * f), Steps(WrapInt16(q * f) as real, base), qmax)
  {
    hide Rint, SymmetricScale, Steps;
    var gs := GroupScale(block, qmax);
    var e := Steps(f as real, base);
    StepsUnits(base);
    StepsAtMost(1.0, f as real, base);
    SymmetricCovers(x, SeqMin(block), SeqMax(block), qmax);
    FactorSlack(gs, base, f);
    CodeFits(x, gs, e, qmax);
    WeightFrom(x, base, f, Rint(x / e), qmax);
  }

  lemma WeightFrom(x: real, base: real, f: int, q: int, qmax: int)
    requires var e := Steps(f as real, base);
             e > 0.0 && q == Rint(x / e) && Abs(Steps(q as real, e) - x) <= 0.5 * e
    requires 1 <= f <= 16 && -qmax <= q <= qmax && base > 0.0
    ensures WeightGood(x, base, f, q, WrapInt16(q * f), Steps(WrapInt16(q * f) as real, base), qmax)
  {
    hide Rint, Steps, WrapInt16;
    Expand(q, f, qmax);
    ExpandedSteps(q, f, base);
    if WrapInt16(q * f) != q * f {
      WrapJump(q * f);
      JumpSeen(q * f, WrapInt16(q * f), f, base, x);
    }
  }

  /** A wrap moves an integer by at least 2^16. */
  lemma WrapJump(n: int)
    ensures WrapInt16(n) != n ==> Magnitude(WrapInt16(n) - n) >= 65536
  {
  }

  /** Which no effective step, at most 16 steps of the shared scale, can hide. */
  lemma JumpSeen(n: int, w: int, f: int, base: real, x: real)
    requires Magnitude(w - n) >= 65536 && 1 <= f <= 16 && base > 0.0
    requires Abs(Steps(n as real, base) - x) <= 0.5 * Steps(f as real, base)
    ensures Abs(Steps(w as real, base) - x) > 0.5 * Steps(f as real, base)
  {
    hide Steps;
    StepsAtMost(f as real, 16.0, base);
    StepsUnits(base);
    StepsLess(16.0, 65536.0, base);
    StepsDiff(w as real, n as real, base);
    StepsDiff(0.0, 65536.0, base);
    if w > n {
      StepsAtMost(65536.0, w as real - n as real, base);
    } else {
      StepsAtMost(w as real - n as real, 0.0 - 65536.0, base);
    }
    StepsLess(0.0, 16.0, base);
  }

  lemma ExpandedSteps(q: int, f: int, s: real)
    ensures Steps((q * f) as real, s) == Steps(q as real, Steps(f as real, s))
  {
    assert (q * f) as real == q as real * f as real;
    assert q as real * (f as real * s) == q as real * f as real * s;
  }

  lemma Expand(q: int, f: int, qmax: int)
    requires 1 <= f <= 16 && -qmax <= q <= qmax
    ensures -16 * qmax <= q * f <= 16 * qmax
  {
  }

  /** The scale of every block, before factorisation. */
  function GroupScales(row: seq<real>, size: nat, qmax: int): (g: seq<real>)
    requires size > 0 && qmax > 0
    ensures |g| == |row| / size
  {
    seq(|row| / size, b requires 0 <= b < |row| / size => BlockScale(row, size, b, qmax))
  }

  function BlockScale(row: seq<real>, size: nat, b: nat, qmax: int): real
    requires size > 0 && qmax > 0 && b < |row| / size
  {
    BlockFits(|row|, size, b);
    GroupScale(Block(row, size, b), qmax)
  }

  lemma BlockFits(n: nat, size: nat, b: nat)
    requires size > 0 && b < n / size
    ensures (b + 1) * size <= n && (b + 1) * size - b * size == size
  {
    assert n / size * size <= n;
    assert (n / size - (b + 1)) * size >= 0;
  }

  /** Factor of the block that weight j lies in. */
  function FactorAt(factors: seq<int>, size: nat, j: int): int
    requires size > 0
  {
    if 0 <= j / size < |factors| then factors[j / size] else 1
  }

  /** The first done weights of a channel are coded correctly. */
  ghost predicate CodedUpTo(row: seq<real>, size: nat, qmax: int, c: Channel, done: nat)
    requires size > 0
  {
    && |c.codes| == |c.expanded| == |c.values| == done <= |row|
    && forall j :: 0 <= j < done ==>
         WeightGood(row[j], c.scale, FactorAt(c.factors, size, j), c.codes[j], c.expanded[j], c.values[j], qmax)
  }

  /** A coded channel: its shared scale, minimal factors in 1..16, and every weight coded as above. */
  ghost predicate ChannelGood(row: seq<real>, size: nat, qmax: int, c: Channel)
    requires 0 < size <= |row| && qmax > 0
  {
    var g := GroupScales(row, size, qmax);
    && |g| > 0
    && IsBase(c.scale, g)
    && |c.factors| == |g|
    && (forall b :: 0 <= b < |g| ==> FactorGood(g[b], c.scale, c.factors[b]))
    && CodedUpTo(row, size, qmax, c, |row|)
  }

  /** lpbq_factorize_group_scales. */
  function Factorize(scales: seq<real>): (r: (real, seq<int>))
    requires |scales| > 0
    ensures |r.1| == |scales| && r.0 > 0.0 && IsBase(r.0, scales)
    ensures forall b :: 0 <= b < |scales| ==> FactorGood(scales[b], r.0, r.1[b])
  {
    var base := BaseScale(scales);
    var factors := seq(|scales|, b requires 0 <= b < |scales| => Factor(scales[b], base));
    assert forall b :: 0 <= b < |scales| ==> FactorGood(scales[b], base, factors[b]) by {
      hide *;
      forall b | 0 <= b < |scales| ensures FactorGood(scales[b], base, factors[b]) {
        FactorFits(scales, b);
        FactorTight(scales[b], base);
      }
    }
    BaseIsLeast(scales);
    (base, factors)
  }

  /** The per-channel and per-group branches: one symmetric scale clips nothing and restores within half a step. */
  lemma SymmetricRoundTrip(x: real, row: seq<real>, qmax: int)
    requires x in row && 0 < qmax <= 32767
    ensures var s := GroupScale(row, qmax);
            s > 0.0 && -qmax <= Rint(x / s) <= qmax && Abs(Steps(Rint(x / s) as real, s) - x) <= 0.5 * s
  {
    hide Rint, SymmetricScale, Steps;
    SymmetricCovers(x, SeqMin(row), SeqMax(row), qmax);
    var s := GroupScale(row, qmax);
    CodeFits(x, s, s, qmax);
  }

  /** What one block appends: codes, expanded codes and values. */
  function BlockCodes(block: seq<real>, e: real, qmax: int): (q: seq<int>)
    requires e > 0.0
    ensures |q| == |block|
  {
    seq(|block|, i requires 0 <= i < |block| => Clip(Rint(block[i] / e), -qmax, qmax))
  }

  function Expanded(codes: seq<int>, f: int): (x: seq<int>)
    ensures |x| == |codes|
  {
    seq(|codes|, i requires 0 <= i < |codes| => WrapInt16(codes[i] * f))
  }

  function Values(expanded: seq<int>, base: real): (v: seq<real>)
    ensures |v| == |expanded|
  {
    seq(|expanded|, i requires 0 <= i < |expanded| => Steps(expanded[i] as real, base))
  }

  function Append(c: Channel, q: seq<int>, f: int): (r: Channel)
    ensures r.scale == c.scale && r.factors == c.factors
  {
    var x := Expanded(q, f);
    c.(codes := c.codes + q, expanded := c.expanded + x, values := c.values + Values(x, c.scale))
  }

  lemma EntryFits(block: seq<real>, i: int, base: real, f: int, qmax: int)
    requires 0 <= i < |block| && 0 < qmax <= 32767 && base > 0.0
    requires FactorGood(GroupScale(block, qmax), base, f)
    ensures Steps(f as real, base) > 0.0
    ensures var q := BlockCodes(block, Steps(f as real, base), qmax);
            WeightGood(block[i], base, f, q[i], Expanded(q, f)[i], Values(Expanded(q, f), base)[i], qmax)
  {
    hide Rint, GroupScale, Steps, WeightGood, Clip;
    WeightFits(block[i], block, base, f, qmax);
  }

  lemma BlockStep(row: seq<real>, size: nat, b: nat, qmax: int, c: Channel)
    requires size > 0 && b < |row| / size && 0 < qmax <= 32767 && c.scale > 0.0 && b < |c.factors|
    requires CodedUpTo(row, size, qmax, c, b * size)
    requires FactorGood(BlockScale(row, size, b, qmax), c.scale, c.factors[b])
    ensures Steps(c.factors[b] as real, c.scale) > 0.0
    ensures (b + 1) * size <= |row|
    ensures CodedUpTo(row, size, qmax,
                      Append(c, BlockCodes(Block(row, size, b), Steps(c.factors[b] as real, c.scale), qmax),
                              c.factors[b]),
                      (b + 1) * size)
  {
    hide GroupScale, FactorGood, Steps, WeightGood, BlockCodes, Expanded, Values;
    BlockFits(|row|, size, b);
    var block, f := Block(row, size, b), c.factors[b];
    EntryFits(block, 0, c.scale, f, qmax);
    var q := BlockCodes(block, Steps(f as real, c.scale), qmax);
    var d := Append(c, q, f);
    forall j | 0 <= j < (b + 1) * size
      ensures WeightGood(row[j], d.scale, FactorAt(d.factors, size, j), d.codes[j], d.expanded[j], d.values[j], qmax)
    {
      if j >= b * size {
        Digits(b, size, j - b * size);
        EntryFits(block, j - b * size, c.scale, f, qmax);
      }
    }
  }

  /** One output channel of the blockwise branch of quantize_weight. */
  method QuantizeChannel(row: seq<real>, size: nat, qmax: int) returns (c: Channel)
    requires 0 < size <= |row| && |row| % size == 0 && 0 < qmax <= 32767
    ensures ChannelGood(row, size, qmax, c)
  {
    hide FactorGood, CodedUpTo, BlockScale, BaseScale, Append, BlockCodes, Steps;
    var blocks := |row| / size;
    assert blocks * size == |row|;
    var groups: seq<real> := [];
    for b := 0 to blocks
      invariant groups == GroupScales(row, size, qmax)[..b]
    {
      groups := groups + [BlockScale(row, size, b, qmax)];
    }
    assert groups == GroupScales(row, size, qmax);
    BlockFits(|row|, size, 0);
    var factored := Factorize(groups);
    var factors := factored.1;
    c := Channel(factored.0, factors, [], [], []);
    NothingCoded(row, size, qmax, c);
    for b := 0 to blocks
      invariant c.scale == factored.0 && c.factors == factors
      invariant CodedUpTo(row, size, qmax, c, b * size)
    {
      BlockStep(row, size, b, qmax, c);
      var e := Steps(factors[b] as real, c.scale);
      c := Append(c, BlockCodes(Block(row, size, b), e, qmax), factors[b]);
    }
  }

  lemma NothingCoded(row: seq<real>, size: nat, qmax: int, c: Channel)
    requires size > 0 && c.codes == c.expanded == [] && c.values == []
    ensures CodedUpTo(row, size, qmax, c, 0)
  {
  }

  /** The blockwise branch of quantize_weight over every output channel of weight[N, K]. */
  method QuantizeWeight(w: seq<seq<real>>, k: nat, size: nat, qmax: int) returns (r: Result<seq<Channel>>)
    requires forall n :: 0 <= n < |w| ==> |w[n]| == k
    requires size > 0 && 0 < qmax <= 32767
    ensures r.BadShape? <==> k <= size || k % size != 0
    ensures r.Ok? ==> |r.value| == |w| && forall n :: 0 <= n < |w| ==> ChannelGood(w[n], size, qmax, r.value[n])
  {
    hide ChannelGood;
    if k <= size || k % size != 0 {
      return BadShape;
    }
    var channels: seq<Channel> := [];
    for n := 0 to |w|
      invariant |channels| == n
      invariant forall m :: 0 <= m < n ==> ChannelGood(w[m], size, qmax, channels[m])
    {
      var c := QuantizeChannel(w[n], size, qmax);
      channels := channels + [c];
    }
    r := Ok(channels);
  }

  /** Up to qmax 2047 no expansion wraps, so every weight of a channel is restored. */
  lemma ChannelRestored(row: seq<real>, size: nat, qmax: int, c: Channel, j: nat)
    requires 0 < size <= |row| && 0 < qmax <= 2047 && ChannelGood(row, size, qmax, c) && j < |row|
    ensures var f := FactorAt(c.factors, size, j);
            c.expanded[j] == c.codes[j] * f && Abs(c.values[j] - row[j]) <= 0.5 * Steps(f as real, c.scale)
  {
    hide Rint, Steps, FactorGood, BaseScale;
    assert WeightGood(row[j], c.scale, FactorAt(c.factors, size, j), c.codes[j], c.expanded[j], c.values[j], qmax);
  }

  lemma OneWeight(row: seq<real>, b: nat, qmax: int)
    requires b < |row| && qmax > 0 && row[b] >= EPS
    ensures b < |row| / 1 && BlockScale(row, 1, b, qmax) == row[b] / qmax as real
  {
    assert Block(row, 1, b) == [row[b]];
  }

  lemma TwoBase(x: real, y: real)
    requires y >= EPS && x == 16.0 * y
    ensures BaseScale([x, y]) == y
  {
    assert [x, y][1..] == [y];
  }

  lemma TopFactor(m: real, base: real, f: int)
    requires m > 0.0 && base == 0.0625 / m && FactorGood(1.0 / m, base, f)
    ensures f == 16 && base > 0.0 && Steps(16.0, base) == 1.0 / m && 1.0 / Steps(16.0, base) == m
  {
    assert 16.0 * base == 1.0 / m;
    assert Steps(15.1, base) < 16.0 * base;
    if f <= 15 { StepsAtMost(f as real + 0.000000001, 15.1, base); }
    Reciprocals(m);
  }

  lemma Reciprocals(m: real)
    requires m > 0.0
    ensures 1.0 / (1.0 / m) == m
  {
    var r := 1.0 / m;
    assert r * m == 1.0;
  }

  lemma RintOf(n: int)
    ensures Rint(n as real) == n
  {
  }

  lemma SmallestScale(m: real)
    requires 0.0 < m <= 32767.0
    ensures 0.0625 / m >= EPS && 1.0 / m == 16.0 * (0.0625 / m)
  {
    QuotientAtLeast(0.0625, m, EPS);
  }

  /** From qmax 2048 on they can: the larger of two weights 16 apart wraps and is not restored. */
  lemma LargestWraps(qmax: int, c: Channel)
    requires 2048 <= qmax <= 32767 && ChannelGood([1.0, 0.0625], 1, qmax, c)
    ensures c.factors[0] == 16 && c.codes[0] == qmax && c.expanded[0] != 16 * qmax
    ensures Abs(c.values[0] - 1.0) > 0.5 * Steps(16.0, c.scale)
  {
    LargestScales(qmax);
    hide Rint, BaseScale, IsBase, FactorGood, GroupScales;
    var row, m := [1.0, 0.0625], qmax as real;
    BaseUnique(c.scale, 0.0625 / m, GroupScales(row, 1, qmax));
    assert FactorGood(GroupScales(row, 1, qmax)[0], c.scale, c.factors[0]);
    TopFactor(m, c.scale, c.factors[0]);
    hide Steps, WeightGood;
    assert FactorAt(c.factors, 1, 0) == 16;
    assert WeightGood(row[0], c.scale, FactorAt(c.factors, 1, 0), c.codes[0], c.expanded[0], c.values[0], qmax);
    TopWeight(qmax, c.scale, c.codes[0], c.expanded[0], c.values[0]);
  }

  lemma TopWeight(qmax: int, base: real, code: int, expanded: int, value: real)
    requires WeightGood(1.0, base, 16, code, expanded, value, qmax) && qmax >= 2048
    requires Steps(16.0, base) > 0.0 && 1.0 / Steps(16.0, base) == qmax as real
    ensures code == qmax && expanded != 16 * qmax && Abs(value - 1.0) > 0.5 * Steps(16.0, base)
  {
    hide Rint, Steps;
    RintOf(qmax);
  }

  lemma LargestScales(qmax: int)
    requires 2048 <= qmax <= 32767
    ensures var g := GroupScales([1.0, 0.0625], 1, qmax);
            |g| == 2 && g[0] == 1.0 / qmax as real && IsBase(0.0625 / qmax as real, g)
  {
    var row, m := [1.0, 0.0625], qmax as real;
    OneWeight(row, 0, qmax);
    OneWeight(row, 1, qmax);
    hide BaseScale, BlockScale;
    var g := GroupScales(row, 1, qmax);
    assert g == [1.0 / m, 0.0625 / m];
    SmallestScale(m);
    TwoBase(1.0 / m, 0.0625 / m);
    BaseIsLeast(g);
  }

  /** Four-bit codes (qmax 7) expand within 112, and so fit a signed byte; from qmax 8 on some do not. */
  lemma ExpandedFitsByteIff(qmax: int)
    requires qmax > 0
    ensures (forall q, f | -qmax <= q <= qmax && 1 <= f <= 16 :: -128 <= q * f <= 127) <==> qmax <= 7
    ensures qmax <= 7 ==> forall q, f | -qmax <= q <= qmax && 1 <= f <= 16 :: -112 <= q * f <= 112
  {
    if qmax <= 7 {
      forall q, f | -qmax <= q <= qmax && 1 <= f <= 16 ensures -112 <= q * f <= 112 {
        Expand(q, f, qmax);
      }
    } else {
      assert 8 * 16 > 127;
    }
  }
}

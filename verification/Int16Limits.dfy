/**
 Exactly when no run of the int16 solver can clip, and exactly when none can overflow its int32
 accumulator, told from max|A| and the block size.
 */
module Int16Limits {
  import opened Arithmetic
  import opened Sums
  import opened Rounding
  import opened Matrices
  import opened Powers
  import opened Triangular
  import opened Int16Solve
  import opened Int16Merge
  import opened Int16Range

  const INT32_LIMIT := 2147483648

  /** A run over an n x n matrix whose entries are within a. */
  ghost predicate RunWithin(A: Matrix, Ti: seq<Codes>, n: nat, b: nat, a: real)
    requires b > 0
  {
    StrictLower(A) && A.rows == n && MaxAbs(A) <= a && |Ti| == n / b && DiagonalsRounded(A, Ti, b)
  }

  /** Every accumulator of every diagonal block fits a signed 32-bit integer. */
  ghost predicate AccsFit(A: Matrix, Ti: seq<Codes>, b: nat) {
    forall i, r, c :: 0 <= i < |Ti| && 0 <= r < b && 0 <= c < b ==>
      Magnitude(Acc(QuantizedBlock(A, b, i), Ti[i], r, c)) < INT32_LIMIT
  }

  /** The largest accumulator of the worst block fits. */
  predicate CannotOverflow(a: real, b: nat)
    requires b > 0
  {
    32767 * WorstSum(a, b - 1) < INT32_LIMIT
  }

  lemma BlocksWithin(A: Matrix, a: real, nb: nat, b: nat, i: nat)
    requires StrictLower(A) && nb * b <= A.rows && i < nb && MaxAbs(A) <= a
    ensures forall r, l :: Abs(At(Dequantize(QuantizedBlock(A, b, i), b, InputScale(A)), r, l)) <= a
    ensures FullCodes(QuantizedBlock(A, b, i))
  {
    hide At, MaxAbs, Rebuilt, Dequantize, InputScale, QuantizedBlock, Code, FullCodes;
    BlockCodes(A, nb, b, i);
    BlockFull(A, b, i);
  }

  lemma BlockFull(A: Matrix, b: nat, i: nat)
    ensures FullCodes(QuantizedBlock(A, b, i))
  {
    hide QuantizeEntry, InputScale;
    forall r, l
      ensures Magnitude(Code(QuantizedBlock(A, b, i), r, l)) <= 32767
    {
      if 0 <= r < b && 0 <= l < b {
        BlockCode(A, b, i, r, l);
        EntryFull(A, i * b + r, i * b + l);
      }
    }
  }

  lemma EntryFull(A: Matrix, r: int, l: int)
    ensures Magnitude(Code(Quantize(A), r, l)) <= 32767
  {
    hide Rint, InputScale;
  }

  lemma FullBlocks(n: nat, b: nat)
    requires b > 0
    ensures n / b * b <= n
  {
  }

  /** The condition suffices for every run. */
  lemma RunsFit(A: Matrix, Ti: seq<Codes>, n: nat, b: nat, a: real)
    requires b > 0 && RunWithin(A, Ti, n, b, a)
    ensures CannotClip(a, b) ==> ClipFree(A, Ti, b)
    ensures CannotOverflow(a, b) ==> AccsFit(A, Ti, b)
  {
    hide At, MaxAbs, Dequantize, InputScale, QuantizedBlock, Code, StrictLower, NothingClips, CannotClip, FullCodes;
    hide RoundedRows, Acc, WorstSum;
    FullBlocks(n, b);
    forall i | 0 <= i < |Ti|
      ensures CannotClip(a, b) ==> NothingClips(QuantizedBlock(A, b, i), Ti[i], InputScale(A), b, b)
      ensures CannotOverflow(a, b) ==> forall r, c :: 0 <= r < b && 0 <= c < b ==>
                Magnitude(Acc(QuantizedBlock(A, b, i), Ti[i], r, c)) < INT32_LIMIT
    {
      BlocksWithin(A, a, |Ti|, b, i);
      if CannotClip(a, b) { WorstDecides(QuantizedBlock(A, b, i), Ti[i], InputScale(A), a, b); }
      if CannotOverflow(a, b) { BlockFits(QuantizedBlock(A, b, i), Ti[i], InputScale(A), a, b); }
    }
  }

  lemma BlockFits(d: Codes, T: Codes, sA: real, a: real, b: nat)
    requires b > 0 && RoundedRows(d, T, sA, b, b) && FullCodes(d) && CannotOverflow(a, b)
    requires forall r, l :: Abs(At(Dequantize(d, b, sA), r, l)) <= a
    ensures forall r, c :: 0 <= r < b && 0 <= c < b ==> Magnitude(Acc(d, T, r, c)) < INT32_LIMIT
  {
    assert a >= 0.0 by { assert Abs(At(Dequantize(d, b, sA), 0, 0)) <= a; }
    hide At, Dequantize, RoundedRows, FullCodes, Acc, WorstSum;
    forall r, c | 0 <= r < b && 0 <= c < b
      ensures Magnitude(Acc(d, T, r, c)) < INT32_LIMIT
    {
      AccDominated(d, T, sA, a, b, r, c);
      if c <= r { WorstSumGrows(a, r - c, b - 1); }
    }
  }

  /** The worst block's own codes. */
  function WorstCodes(a: real, b: nat): (T: Codes)
    ensures Shape(T, b)
  {
    seq(b, i => seq(b, c => if i < c then 0 else WorstCode(a, i - c)))
  }

  lemma FilledScale(n: nat, a: real)
    requires n >= 2 && a > 0.0
    ensures MaxAbs(Filled(n, a)) == a && InputScale(Filled(n, a)) * 32767.0 == a
  {
    var A := Filled(n, a);
    assert At(A, 1, 0) == a;
    hide MaxAbs;
    assert Abs(At(A, 1, 0)) <= MaxAbs(A);
    assert MaxAbs(A) <= a;
  }

  lemma FilledCode(n: nat, a: real, r: int, l: int)
    requires n >= 2 && a > 0.0 && 0 <= l < r < n
    ensures Code(Quantize(Filled(n, a)), r, l) == 32767
  {
    FilledScale(n, a);
    var s := InputScale(Filled(n, a));
    hide InputScale, MaxAbs;
    assert At(Filled(n, a), r, l) == a;
    FullRatio(a, s);
    assert QuantizeEntry(a, s) == 32767;
  }

  lemma FullRatio(a: real, s: real)
    requires s > 0.0 && s * 32767.0 == a
    ensures a / s == 32767.0 && Rint(a / s) == 32767
  {
    assert a / s == 32767.0;
  }

  /** Each diagonal block of the filled matrix is the worst block, and its codes are the worst codes. */
  lemma FilledBlock(n: nat, a: real, b: nat, i: nat, r: nat, c: nat)
    requires n >= 2 && a > 0.0 && i * b + b <= n && c <= r < b
    ensures var A, T := Filled(n, a), WorstCodes(a, b);
            && Acc(QuantizedBlock(A, b, i), T, r, c) == 32767 * WorstSum(a, r - c)
            && RowValue(QuantizedBlock(A, b, i), T, InputScale(A), r, c) == WorstValue(a, r - c)
  {
    hide Quantize, InputScale, QuantizedBlock, Filled, WorstCode, Acc, WorstSum, WorstValue;
    var A, T := Filled(n, a), WorstCodes(a, b);
    FilledScale(n, a);
    forall l | 0 <= l < r
      ensures Code(QuantizedBlock(A, b, i), r, l) == 32767
      ensures Code(T, l, c) == if l < c then 0 else WorstCode(a, l - c)
    {
      BlockCode(A, b, i, r, l);
      FilledCode(n, a, i * b + r, i * b + l);
    }
    WorstAttained(QuantizedBlock(A, b, i), T, InputScale(A), a, r, c);
  }

  lemma FilledRounded(n: nat, a: real, b: nat, i: nat)
    requires n >= 2 && a > 0.0 && i * b + b <= n
    ensures RoundedRows(QuantizedBlock(Filled(n, a), b, i), WorstCodes(a, b), InputScale(Filled(n, a)), b, b)
  {
    hide InputScale, QuantizedBlock, Filled, Rint, RowValue, WorstValue, Quantize, Code, WorstCodes;
    var d, T, s := QuantizedBlock(Filled(n, a), b, i), WorstCodes(a, b), InputScale(Filled(n, a));
    forall r, c | 0 <= r < b && 0 <= c < b
      ensures Code(T, r, c) == Clip(Rint(RowValue(d, T, s, r, c)), -32767, 32767)
    {
      WorstCodesAt(a, b, r, c);
      if c <= r {
        FilledBlock(n, a, b, i, r, c);
      } else {
        AboveZero(d, a, b, r, c);
        ZeroValue(d, T, s, r, c);
      }
    }
  }

  lemma WorstCodesAt(a: real, b: nat, r: nat, c: nat)
    requires r < b && c < b
    ensures Code(WorstCodes(a, b), r, c) == if r < c then 0 else Clip(Rint(WorstValue(a, r - c)), -32767, 32767)
  {
    hide Rint;
    assert Code(WorstCodes(a, b), r, c) == if r < c then 0 else WorstCode(a, r - c);
  }

  lemma AboveZero(d: Codes, a: real, b: nat, r: nat, c: nat)
    requires r < c < b
    ensures Acc(d, WorstCodes(a, b), r, c) == 0
  {
    hide WorstCode;
    var T := WorstCodes(a, b);
    forall l | 0 <= l < r
      ensures AccTerm(d, T, r, c)(l) == 0
    {
      assert Code(T, l, c) == 0;
    }
    ISumZero(r, AccTerm(d, T, r, c));
  }

  /** The run over the filled matrix. */
  lemma FilledRun(n: nat, a: real, b: nat)
    requires 0 < b <= n && n >= 2 && a > 0.0
    ensures RunWithin(Filled(n, a), seq(n / b, i => WorstCodes(a, b)), n, b, a)
  {
    FilledScale(n, a);
    hide InputScale, QuantizedBlock, RoundedRows, WorstCodes, MaxAbs;
    var A, Ti := Filled(n, a), seq(n / b, i => WorstCodes(a, b));
    forall i | 0 <= i < |Ti|
      ensures RoundedRows(QuantizedBlock(A, b, i), Ti[i], InputScale(A), b, b)
    {
      FullBlocks(n, b);
      MulStep(i, n / b, b);
      FilledRounded(n, a, b, i);
    }
  }

  /** A zero bound or a single row leaves nothing to clip or overflow. */
  lemma Harmless(a: real, b: nat)
    requires a >= 0.0 && b > 0 && (a == 0.0 || b == 1)
    ensures CannotClip(a, b) && CannotOverflow(a, b)
  {
    UnitInCodes();
    ZeroSum(a, b - 1);
    InCodeRange(WorstValue(a, b - 1));
  }

  lemma {:induction false} ZeroSum(a: real, k: nat)
    requires a >= 0.0 && (a == 0.0 || k == 0)
    ensures WorstSum(a, k) == if k == 0 then 0 else 16384
    ensures WorstValue(a, k) <= 16383.5
  {
    UnitInCodes();
    if k > 0 {
      ZeroSum(a, k - 1);
      assert WorstValue(a, k - 1) == if k == 1 then 16383.5 else 0.0;
      assert WorstCode(a, k - 1) == if k == 1 then 16384 else 0;
      assert WorstSum(a, k) == WorstSum(a, k - 1) + WorstCode(a, k - 1);
    }
  }

  /** No run within a can clip exactly when the worst block's last row stays in range. */
  lemma NeverClipsIff(n: nat, b: nat, a: real)
    requires 0 < b <= n && a >= 0.0
    ensures (forall A: Matrix, Ti | RunWithin(A, Ti, n, b, a) :: ClipFree(A, Ti, b)) <==> CannotClip(a, b)
  {
    hide RunWithin, ClipFree, CannotClip, CannotOverflow, WorstCodes, Filled;
    forall A: Matrix, Ti | RunWithin(A, Ti, n, b, a)
      ensures CannotClip(a, b) ==> ClipFree(A, Ti, b)
    {
      RunsFit(A, Ti, n, b, a);
    }
    if !CannotClip(a, b) {
      if a == 0.0 || b == 1 { Harmless(a, b); }
      FilledRun(n, a, b);
      FilledClips(n, a, b);
    }
  }

  lemma FilledClips(n: nat, a: real, b: nat)
    requires 0 < b <= n && n >= 2 && a > 0.0 && !CannotClip(a, b)
    ensures !ClipFree(Filled(n, a), seq(n / b, i => WorstCodes(a, b)), b)
  {
    hide Filled, WorstCodes, QuantizedBlock, InputScale, RowValue, WorstValue, Rint;
    var A, Ti := Filled(n, a), seq(n / b, i => WorstCodes(a, b));
    FilledBlock(n, a, b, 0, b - 1, 0);
    FirstBlock(n, b);
    assert !NothingClips(QuantizedBlock(A, b, 0), Ti[0], InputScale(A), b, b);
  }

  lemma FirstBlock(n: nat, b: nat)
    requires 0 < b <= n
    ensures n / b > 0
  {
  }

  /** No run within a can overflow 32 bits exactly when the worst block's largest accumulator fits. */
  lemma NeverOverflowsIff(n: nat, b: nat, a: real)
    requires 0 < b <= n && a >= 0.0
    ensures (forall A: Matrix, Ti | RunWithin(A, Ti, n, b, a) :: AccsFit(A, Ti, b)) <==> CannotOverflow(a, b)
  {
    hide RunWithin, AccsFit, CannotClip, CannotOverflow, WorstCodes, Filled;
    forall A: Matrix, Ti | RunWithin(A, Ti, n, b, a)
      ensures CannotOverflow(a, b) ==> AccsFit(A, Ti, b)
    {
      RunsFit(A, Ti, n, b, a);
    }
    if !CannotOverflow(a, b) {
      if a == 0.0 || b == 1 { Harmless(a, b); }
      FilledRun(n, a, b);
      FilledOverflows(n, a, b);
    }
  }

  lemma FilledOverflows(n: nat, a: real, b: nat)
    requires 0 < b <= n && n >= 2 && a > 0.0 && !CannotOverflow(a, b)
    ensures !AccsFit(Filled(n, a), seq(n / b, i => WorstCodes(a, b)), b)
  {
    hide Filled, WorstCodes, QuantizedBlock, Acc, WorstSum;
    var A, Ti := Filled(n, a), seq(n / b, i => WorstCodes(a, b));
    FilledBlock(n, a, b, 0, b - 1, 0);
    FirstBlock(n, b);
    assert Magnitude(Acc(QuantizedBlock(A, b, 0), Ti[0], b - 1, 0)) >= INT32_LIMIT;
  }

  lemma EighthStep(k: nat, s: int, t: int)
    requires k > 0 && WorstSum(0.125, k) == s && 0 <= t <= 32767
    requires -4 < 8 * t - s < 4 || (t % 2 == 0 && -4 <= 8 * t - s <= 4)
    ensures WorstSum(0.125, k + 1) == s + t
  {
    assert WorstValue(0.125, k) == 0.125 * s as real;
    EighthRounds(s, t);
    assert WorstSum(0.125, k + 1) == WorstSum(0.125, k) + WorstCode(0.125, k);
  }

  lemma EighthRounds(s: int, t: int)
    requires -4 < 8 * t - s < 4 || (t % 2 == 0 && -4 <= 8 * t - s <= 4)
    ensures Rint(0.125 * s as real) == t
  {
    var x := 0.125 * s as real;
    assert 8.0 * x == s as real;
    assert 8.0 * (t as real - x) == (8 * t - s) as real;
    assert -0.5 <= t as real - x <= 0.5;
  }

  /**
   The two conditions differ: with 16-row blocks and entries up to 1/8 nothing ever clips, yet the
   filled matrix overflows 32 bits.
   */
  lemma OverflowWithoutClipping()
    ensures CannotClip(0.125, 16) && !CannotOverflow(0.125, 16)
  {
    FirstSum(0.125);
    hide WorstSum, WorstValue, WorstCode;
    EighthStep(1, 16384, 2048);
    EighthStep(2, 18432, 2304);
    EighthStep(3, 20736, 2592);
    EighthStep(4, 23328, 2916);
    EighthStep(5, 26244, 3280);
    EighthStep(6, 29524, 3690);
    EighthStep(7, 33214, 4152);
    EighthStep(8, 37366, 4671);
    EighthStep(9, 42037, 5255);
    EighthStep(10, 47292, 5912);
    EighthStep(11, 53204, 6650);
    EighthStep(12, 59854, 7482);
    EighthStep(13, 67336, 8417);
    EighthStep(14, 75753, 9469);
    assert WorstSum(0.125, 15) == 85222;
    LastEighth(85222);
  }

  lemma LastEighth(s: int)
    requires WorstSum(0.125, 15) == s && 0 <= s <= 262136
    ensures CannotClip(0.125, 16)
  {
    assert WorstValue(0.125, 15) == 0.125 * s as real;
    InCodeRange(WorstValue(0.125, 15));
  }

  /** The reported peak of a run that cannot overflow is below 2^31. */
  lemma PeakFits(A: Matrix, Ti: seq<Codes>, b: nat, before: nat, peak: nat)
    requires StrictLower(A) && b > 0 && |Ti| == A.rows / b && DiagonalsRounded(A, Ti, b)
    requires PeakOver(A, Ti, b, before, peak) && before < INT32_LIMIT
    requires CannotOverflow(MaxAbs(A), b) || (RealPow(1.0 + MaxAbs(A), b - 1) < 2.0 && b <= 32768)
    ensures peak < INT32_LIMIT
  {
    hide MaxAbs, RealPow, QuantizedBlock, Acc, DiagonalsRounded, WorstSum, Ceiling, CannotClip;
    if RealPow(1.0 + MaxAbs(A), b - 1) < 2.0 { BelowTwo(MaxAbs(A), b); }
    RunsFit(A, Ti, A.rows, b, MaxAbs(A));
  }
}

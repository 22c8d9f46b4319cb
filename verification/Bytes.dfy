/** Splitting 16-bit codes into signed byte halves, and what products of the halves add up to. */
module Bytes {
  import opened Sums

  /** The signed value of a byte. */
  function Signed(byte: int): int {
    if byte < 128 then byte else byte - 256
  }

  /** value & 0xff, two's complement. */
  function LowByte(v: int): (b: int)
    ensures 0 <= b < 256
  {
    v % 256
  }

  /** ((value + 128) >> 8) & 0xff. */
  function RoundedHighByte(v: int): (b: int)
    ensures 0 <= b < 256
  {
    (v + 128) / 256 % 256
  }

  /** What the hardware rebuilds from the two stored bytes. */
  function Rebuilt(v: int): int {
    Signed(LowByte(v)) + 256 * Signed(RoundedHighByte(v))
  }

  /** Of the int16 codes exactly those up to 32639 survive the byte split. */
  lemma RebuiltIff(v: int)
    requires -32768 <= v <= 32767
    ensures Rebuilt(v) == v <==> v <= 32639
  {
    var h := (v + 128) / 256;
    assert -128 <= h <= 128;
  }

  /** 32639 is the largest upper clip under which every code survives. */
  lemma LargestClip(clip: int)
    requires -32768 <= clip <= 32767
    ensures (forall v :: -32768 <= v <= clip ==> Rebuilt(v) == v) <==> clip <= 32639
  {
    forall v | -32768 <= v <= clip
      ensures Rebuilt(v) == v <==> v <= 32639
    {
      RebuiltIff(v);
    }
    if clip > 32639 { assert Rebuilt(clip) != clip; }
  }

  /** Both halves recentred to signed bytes; 256 hi + lo is the code less 128. */
  function SplitHi(q: int): int {
    (q + 32768) / 256 - 128
  }

  function SplitLo(q: int): int {
    (q + 32768) % 256 - 128
  }

  lemma SplitExact(q: int)
    ensures q == 256 * SplitHi(q) + SplitLo(q) + 128
    ensures -128 <= SplitLo(q) <= 127
    ensures -128 <= SplitHi(q) <= 127 <==> -32768 <= q <= 32767
  {
  }

  /** Rounded weight split: w = 256 hi + lo. */
  function WeightHi(w: int): int {
    (w + 128) / 256
  }

  function WeightLo(w: int): int {
    w - 256 * WeightHi(w)
  }

  /** The low half always fits a signed byte; the high half does exactly up to 32639. */
  lemma WeightSplitExact(w: int)
    requires -32768 <= w <= 32767
    ensures w == 256 * WeightHi(w) + WeightLo(w)
    ensures -128 <= WeightLo(w) <= 127
    ensures -128 <= WeightHi(w) <= 127 <==> w <= 32639
  {
  }

  /**
   The script's assertion that both halves are within 127 fails on codes congruent to 128 modulo
   256, and beyond 32639 either way; over the generator's range on those residues only.
   */
  lemma WeightLoAssertion(w: int)
    ensures -127 <= WeightLo(w) <= 127 <==> w % 256 != 128
    ensures -127 <= WeightHi(w) <= 127 && -127 <= WeightLo(w) <= 127 <==> -32639 <= w <= 32639 && w % 256 != 128
    ensures -32512 <= w <= 32512 ==>
              (-127 <= WeightHi(w) <= 127 && -127 <= WeightLo(w) <= 127 <==> w % 256 != 128)
  {
  }

  /** Row t times column t of an integer product. */
  function IDot(n: nat, a: int -> int, w: int -> int): int {
    ISum(n, l => a(l) * w(l))
  }

  lemma {:induction false} DotCombine(n: nat, a: int -> int, x: int -> int, y: int -> int, w: int -> int, c: int,
                                      d: int)
    requires forall l :: 0 <= l < n ==> a(l) == c * x(l) + y(l) + d
    ensures IDot(n, a, w) == c * IDot(n, x, w) + IDot(n, y, w) + d * ISum(n, w)
  {
    if n > 0 {
      hide IDot;
      var m := n - 1;
      DotCombine(m, a, x, y, w, c, d);
      DotStep(m, a, w);
      DotStep(m, x, w);
      DotStep(m, y, w);
      CombineStep(c, d, IDot(m, x, w), IDot(m, y, w), ISum(m, w), a(m), x(m), y(m), w(m),
                  IDot(n, a, w), IDot(n, x, w), IDot(n, y, w), ISum(n, w));
    }
  }

  lemma CombineStep(c: int, d: int, X: int, Y: int, S: int, a: int, x: int, y: int, w: int, A': int, X': int,
                    Y': int, S': int)
    requires A' == c * X + Y + d * S + a * w && a == c * x + y + d
    requires X' == X + x * w && Y' == Y + y * w && S' == S + w
    ensures A' == c * X' + Y' + d * S'
  {
    assert a * w == c * (x * w) + y * w + d * w;
    assert c * X' == c * X + c * (x * w);
  }

  lemma DotStep(n: nat, a: int -> int, w: int -> int)
    ensures IDot(n + 1, a, w) == IDot(n, a, w) + a(n) * w(n)
  {
    ISumExt(n, l => a(l) * w(l), l => a(l) * w(l));
  }

  /** Two activation passes and the column sum give the 16-bit product exactly, before any drain. */
  lemma ActivationPasses(n: nat, a: int -> int, w: int -> int)
    ensures IDot(n, a, w)
            == 256 * IDot(n, l => SplitHi(a(l)), w) + IDot(n, l => SplitLo(a(l)), w) + 128 * ISum(n, w)
  {
    forall l | 0 <= l < n
      ensures a(l) == 256 * SplitHi(a(l)) + SplitLo(a(l)) + 128
    {
      SplitExact(a(l));
    }
    DotCombine(n, a, l => SplitHi(a(l)), l => SplitLo(a(l)), w, 256, 128);
  }

  lemma DotCommutes(n: nat, a: int -> int, w: int -> int)
    ensures IDot(n, a, w) == IDot(n, w, a)
  {
    ISumExt(n, l => a(l) * w(l), l => w(l) * a(l));
  }

  /** Two weight passes give the 16-bit weight product exactly. */
  lemma WeightPasses(n: nat, a: int -> int, w: int -> int)
    ensures IDot(n, a, w) == 256 * IDot(n, a, l => WeightHi(w(l))) + IDot(n, a, l => WeightLo(w(l)))
  {
    DotCombine(n, w, l => WeightHi(w(l)), l => WeightLo(w(l)), a, 256, 0);
    DotCommutes(n, a, w);
    DotCommutes(n, a, l => WeightHi(w(l)));
    DotCommutes(n, a, l => WeightLo(w(l)));
  }

  /** -128 * colsum(w) + bias. */
  function Effective(n: nat, w: int -> int, bias: int): int {
    -128 * ISum(n, w) + bias
  }

  /** The folded bias undoes the activation's zero point of 128. */
  lemma EffectiveRecentres(n: nat, act: int -> int, w: int -> int, bias: int)
    ensures IDot(n, act, w) + Effective(n, w, bias) == IDot(n, l => act(l) - 128, w) + bias
  {
    DotCombine(n, act, l => 0, l => act(l) - 128, w, 0, 128);
  }
}

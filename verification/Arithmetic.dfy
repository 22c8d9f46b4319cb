/** Integer facts shared by the block layouts, the byte layouts and the shifts. */
module Arithmetic {

  function Max(a: int, b: int): int {
    if a < b then b else a
  }

  function Min(a: int, b: int): int {
    if a < b then a else b
  }

  function Magnitude(x: int): nat {
    if x < 0 then -x else x
  }

  /** 2^k. */
  function Pow2(k: nat): (p: nat)
    ensures p > 0
  {
    if k == 0 then 1 else 2 * Pow2(k - 1)
  }

  /** Bits of n: floor(log2 n) + 1, and 0 for 0. */
  function BitLen(n: nat): nat {
    if n == 0 then 0 else 1 + BitLen(n / 2)
  }

  lemma {:induction false} BitLenBounds(n: nat)
    ensures n < Pow2(BitLen(n))
    ensures n > 0 ==> BitLen(n) > 0 && Pow2(BitLen(n) - 1) <= n
  {
    if n > 0 {
      BitLenBounds(n / 2);
      if n / 2 == 0 { assert BitLen(n) == 1; }
    }
  }

  lemma InRange(nb: nat, b: nat, k: int, r: int)
    requires 0 <= k < nb && 0 <= r < b
    ensures 0 <= k * b + r < nb * b
  {
    assert (k + 1) * b <= nb * b;
  }

  lemma SmallMultiple(x: int, b: int)
    requires 0 < b && -b < x * b < b
    ensures x == 0
  {
  }

  /** Quotient and remainder are the only digits of n in base b. */
  lemma DivModUnique(n: nat, b: nat, k: nat, r: nat)
    requires r < b && n == k * b + r
    ensures n / b == k && n % b == r
  {
    var q, m := n / b, n % b;
    assert q * b + m == n && m < b;
    assert (q - k) * b == r - m;
    SmallMultiple(q - k, b);
  }

  lemma Digits(k: nat, b: nat, r: nat)
    requires r < b
    ensures (k * b + r) / b == k && (k * b + r) % b == r
  {
    DivModUnique(k * b + r, b, k, r);
  }

  lemma NotNegative(x: nat, y: nat)
    ensures x * y >= 0
  {
  }

  lemma MulStep(q: int, n: int, b: nat)
    requires q < n
    ensures q * b + b <= n * b
  {
    NotNegative(n - q - 1, b);
    assert (n - q - 1) * b == n * b - q * b - b;
  }

  lemma DivBelow(n: nat, b: nat, r: nat)
    requires b > 0
    ensures r / b < n <==> r < n * b
  {
    var q, p := r / b, n * b;
    assert q * b <= r < q * b + b;
    if q < n { MulStep(q, n, b); } else { MulAtMost(n, q, b); }
  }

  lemma MulAtMost(n: int, q: int, b: nat)
    requires n <= q
    ensures n * b <= q * b
  {
    NotNegative(q - n, b);
    assert (q - n) * b == q * b - n * b;
  }

  lemma DivMonotone(b: nat, c: nat, r: nat)
    requires b > 0 && c <= r
    ensures c / b <= r / b
  {
    DivBelow(c / b, b, r);
  }
}

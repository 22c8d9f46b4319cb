/** Natural powers of a real. */
module Powers {

  function RealPow(x: real, n: nat): real {
    if n == 0 then 1.0 else x * RealPow(x, n - 1)
  }

  lemma {:induction false} PowMonotone(x: real, i: nat, j: nat)
    requires x >= 1.0 && i <= j
    ensures 0.0 < RealPow(x, i) <= RealPow(x, j)
    decreases j
  {
    if i < j {
      PowMonotone(x, i, j - 1);
      Grown(x, RealPow(x, j - 1));
    } else if j > 0 {
      PowMonotone(x, j - 1, j - 1);
      Grown(x, RealPow(x, j - 1));
    }
  }

  lemma Grown(x: real, y: real)
    requires x >= 1.0 && y > 0.0
    ensures x * y >= y
  {
    assert (x - 1.0) * y >= 0.0;
  }

  lemma {:induction false} PowPositive(x: real, n: nat)
    requires x > 0.0
    ensures RealPow(x, n) > 0.0
  {
    if n > 0 { PowPositive(x, n - 1); }
  }
}

/** Powers of two. */
module PowersOfTwo {

  function Power2(n: nat): (r: nat)
    ensures r > 0
  {
    if n == 0 then 1 else 2 * Power2(n - 1)
  }

  lemma {:induction false} Power2Monotone(m: nat, n: nat)
    requires m <= n
    ensures Power2(m) <= Power2(n)
  {
    if m < n {
      Power2Monotone(m, n - 1);
    }
  }

  lemma {:induction false} Power2Sum(m: nat, n: nat)
    ensures Power2(m + n) == Power2(m) * Power2(n)
  {
    if m > 0 {
      Power2Sum(m - 1, n);
      DoubledProduct(Power2(m - 1), Power2(n));
    }
  }

  lemma DoubledProduct(a: nat, b: nat)
    ensures 2 * (a * b) == (2 * a) * b
  {
  }

  lemma Power2Values()
    ensures Power2(5) == 32 && Power2(6) == 64 && Power2(7) == 128 && Power2(8) == 256 && Power2(9) == 512
    ensures Power2(17) == 131072 && Power2(31) == 0x8000_0000 && Power2(32) == 0x1_0000_0000
  {
    Power2Sum(8, 8);
    Power2Sum(16, 16);
    assert Power2(17) == 2 * Power2(16);
    assert Power2(32) == 2 * Power2(31);
  }
}

/** Powers of two, and the facts about products and quotients that the models share. */
module Powers {

  function Pow2(n: nat): (p: nat)
    ensures p >= 1
  {
    if n == 0 then 1 else 2 * Pow2(n - 1)
  }

  lemma {:induction false} Pow2Add(m: nat, n: nat)
    ensures Pow2(m + n) == Pow2(m) * Pow2(n)
  {
    if m == 0 {
    } else {
      Pow2Add(m - 1, n);
      assert Pow2(m + n) == 2 * Pow2(m - 1 + n);
      assert Pow2(m) * Pow2(n) == 2 * (Pow2(m - 1) * Pow2(n));
    }
  }

  lemma {:induction false} Pow2Monotonic(m: nat, n: nat)
    requires m <= n
    ensures Pow2(m) <= Pow2(n)
  {
    if m < n {
      Pow2Monotonic(m, n - 1);
    }
  }

  lemma Pow2Values()
    ensures Pow2(4) == 16 && Pow2(8) == 256 && Pow2(9) == 512 && Pow2(14) == 16384 && Pow2(15) == 32768
    ensures Pow2(16) == 65536 && Pow2(30) == 0x4000_0000 && Pow2(31) == 0x8000_0000 && Pow2(32) == 0x1_0000_0000
  {
    Pow2Add(8, 8);
    Pow2Add(16, 14);
    Pow2Add(16, 15);
    Pow2Add(16, 16);
  }

  lemma SmallPowers()
    ensures Pow2(0) == 1 && Pow2(1) == 2 && Pow2(2) == 4 && Pow2(3) == 8 && Pow2(4) == 16 && Pow2(5) == 32 && Pow2(6) == 64
  {
  }

  /** A quotient is determined by the division identity. */
  lemma DivUnique(n: int, d: int, q: int, r: int)
    requires d > 0 && n == q * d + r && 0 <= r < d
    ensures n / d == q && n % d == r
  {
    var q', r' := n / d, n % d;
    assert (q - q') * d == r' - r;
    MultipleInGap(q - q', d);
  }

  lemma LessFromProduct(a: int, b: int, c: int)
    requires c > 0 && a * c < b * c
    ensures a < b
  {
    MulMonotonic(b, a, c);
  }

  lemma DoubleProduct(x: int, p: int)
    ensures x * (2 * p) == 2 * (x * p)
  {
  }

  lemma MultipleInGap(k: int, d: int)
    requires d > 0 && -d < k * d < d
    ensures k == 0
  {
    MulMonotonic(k, -1, d);
    MulMonotonic(1, k, d);
  }

  lemma MulMonotonic(a: int, b: int, c: int)
    requires c >= 0
    ensures a <= b ==> a * c <= b * c
  {
  }

  lemma ProductBound(a: int, b: int, m: nat, n: nat)
    requires -(m as int) <= a <= m && -(n as int) <= b <= n
    ensures -(m * n) <= a * b <= m * n
  {
    var a', b' := if a < 0 then -a else a, if b < 0 then -b else b;
    MulMonotonic(a', m, b');
    MulMonotonic(b', n, m);
    assert a * b == a' * b' || a * b == -(a' * b');
  }

  lemma NegatedScale(b: int, p: int)
    ensures (-b - 1) * p == -((b + 1) * p) == -(b * p) - p
  {
  }

  lemma DivStaysInside(x: int, d: int)
    requires d >= 1
    ensures x >= 0 ==> 0 <= x / d <= x
    ensures x < 0 ==> x <= x / d < 0
  {
    var q := x / d;
    if x >= 0 {
      MulMonotonic(q, -1, d);
      MulMonotonic(1, d, if q < 0 then 0 else q);
    } else {
      MulMonotonic(0, q, d);
      MulMonotonic(1, d, if q < 0 then -q - 1 else 0);
      NegatedScale(-q - 1, d);
    }
  }
}

/** Division, remainders and powers of two. */
module Arithmetic {
  import opened Bytes

  function Pow2(n: nat): (p: nat)
    ensures p > 0
  {
    if n == 0 then 1 else 2 * Pow2(n - 1)
  }

  lemma MulGe(t: int, d: int)
    requires t >= 1 && d >= 0
    ensures t * d >= d
  {
    Distribute(t, 1, d);
    assert (t - 1) * d >= 0;
  }

  lemma SmallMultiple(t: int, d: int)
    requires -d < t * d < d
    ensures t == 0
  {
    if t > 0 {
      MulGe(t, d);
    } else if t < 0 {
      MulGe(-t, d);
      Distribute(0, t, d);
    }
  }

  lemma DivMod(x: int, d: int)
    requires d > 0
    ensures x == x / d * d + x % d && 0 <= x % d < d
  {
  }

  lemma Distribute(a: int, b: int, d: int)
    ensures (a - b) * d == a * d - b * d && (a + b) * d == a * d + b * d
  {
  }

  lemma DivUnique(x: int, d: int, q: int, r: int)
    requires d > 0 && x == q * d + r && 0 <= r < d
    ensures x / d == q && x % d == r
  {
    var p, s := x / d, x % d;
    assert x == p * d + s;
    Distribute(q, p, d);
    SmallMultiple(q - p, d);
  }

  lemma {:induction false} Pow2Add(a: nat, b: nat)
    ensures Pow2(a + b) == Pow2(a) * Pow2(b)
  {
    if a > 0 {
      Pow2Add(a - 1, b);
      assert 2 * (Pow2(a - 1) * Pow2(b)) == 2 * Pow2(a - 1) * Pow2(b);
    }
  }

  lemma {:induction false} Pow2Grows(n: nat, m: nat)
    requires n <= m
    ensures Pow2(n) <= Pow2(m)
    decreases m
  {
    if n < m {
      Pow2Grows(n, m - 1);
    }
  }

  /** Shifting left and right cancels. */
  lemma DivCancel(y: nat, a: nat, b: nat)
    requires a > 0 && b > 0
    ensures a * b > 0 && y * a / (a * b) == y / b
    ensures y * a % (a * b) == y % b * a
  {
    var q, r := y / b, y % b;
    assert y * a == (q * b + r) * a == q * (a * b) + r * a;
    assert r * a <= (b - 1) * a == a * b - a;
    assert r * a >= 0;
    DivUnique(y * a, a * b, q, r * a);
  }

  lemma Pow2Is()
    ensures Pow2(1) == 2 && Pow2(8) == 0x100 && Pow2(16) == 0x1_0000
    ensures Pow2(24) == 0x100_0000 && Pow2(32) == TWO_32
  {
    assert Pow2(4) == 16;
    Pow2Add(4, 4);
    Pow2Add(8, 8);
    Pow2Add(16, 8);
    Pow2Add(16, 16);
  }
}

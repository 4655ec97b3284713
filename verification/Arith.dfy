/** Small facts about products, powers of two and remainders, stated once. */
module Arith {

  lemma MulMono(x: int, y: int, w: int)
    requires x <= y && w >= 0
    ensures x * w <= y * w
  {
  }

  lemma MulPos(x: int, w: int)
    requires x >= 0 && w >= 0
    ensures x * w >= 0
  {
  }

  lemma Dist(x: int, y: int, w: int)
    ensures (x + y) * w == x * w + y * w
    ensures (x - y) * w == x * w - y * w
  {
  }

  lemma Assoc(x: int, y: int, w: int)
    ensures x * (y * w) == (x * y) * w
  {
  }

  lemma DivMod(x: int, d: int)
    requires d > 0
    ensures x == (x / d) * d + x % d
    ensures 0 <= x % d < d
  {
  }

  /** Quotient and remainder are determined by x == q * d + r with 0 <= r < d. */
  lemma DivModUnique(x: int, d: int, q: int, r: int)
    requires d > 0 && x == q * d + r && 0 <= r < d
    ensures x / d == q && x % d == r
  {
    DivMod(x, d);
    var k := x / d - q;
    Dist(x / d, q, d);
    if k >= 1 { MulMono(1, k, d); }
    if k <= -1 { MulMono(k, -1, d); }
  }

  lemma ModMultiple(k: int, d: int)
    requires d > 0
    ensures (k * d) % d == 0
  {
    DivModUnique(k * d, d, k, 0);
  }

  lemma ModZeroSum(x: int, y: int, d: int)
    requires d > 0 && x % d == 0 && y % d == 0
    ensures (x + y) % d == 0 && (x - y) % d == 0
  {
    DivMod(x, d);
    DivMod(y, d);
    Dist(x / d, y / d, d);
    DivModUnique(x + y, d, x / d + y / d, 0);
    DivModUnique(x - y, d, x / d - y / d, 0);
  }

  lemma ModZeroMul(x: int, y: int, d: int)
    requires d > 0 && x % d == 0
    ensures (x * y) % d == 0
  {
    DivMod(x, d);
    var q := x / d;
    assert x * y == (q * y) * d;
    ModMultiple(q * y, d);
  }

  function Pow2(n: nat): (p: nat)
    ensures p >= 1
  {
    if n == 0 then 1 else 2 * Pow2(n - 1)
  }

  lemma {:induction false} Pow2Add(m: nat, n: nat)
    ensures Pow2(m + n) == Pow2(m) * Pow2(n)
  {
    if m == 0 {
    } else {
      Pow2Add(m - 1, n);
      Assoc(2, Pow2(m - 1), Pow2(n));
    }
  }

  lemma {:induction false} Pow2Mono(m: nat, n: nat)
    requires m <= n
    ensures Pow2(m) <= Pow2(n)
  {
    if m == n {
    } else {
      Pow2Mono(m, n - 1);
    }
  }

  lemma Pow2Of56()
    ensures Pow2(56) == 0x100_0000_0000_0000
  {
    assert Pow2(7) == 128;
    Pow2Add(7, 7);
    Pow2Add(14, 14);
    Pow2Add(28, 28);
  }
}

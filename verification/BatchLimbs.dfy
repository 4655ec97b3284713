/**
  The batch-verification helpers on multi-limb scalars: subtraction and
  comparison over a window of the low limbs, and the zero/one/128-bit tests.
  A scalar is five limbs of 56 bits, least significant first.  Machine words
  wrap at 64 bits; the borrow is the top bit of the wrapped difference.
 */
module BatchLimbs {
  import opened Arith
  import opened Words

  const LIMBS: int := 5

  type Scalar = s: seq<nat> | |s| == LIMBS && forall i :: 0 <= i < |s| ==> s[i] < BASE
    witness [0, 0, 0, 0, 0]

  /** Weight of limb `i`: BASE to the power i. */
  function Weight(i: nat): (w: nat)
    ensures w >= 1
  {
    if i == 0 then 1 else BASE * Weight(i - 1)
  }

  /** The number held in the low `n` limbs. */
  function Low(a: seq<nat>, n: nat): nat
    requires n <= |a|
  {
    if n == 0 then 0 else Low(a, n - 1) + a[n - 1] * Weight(n - 1)
  }

  function Value(a: Scalar): nat { Low(a, LIMBS) }

  /** Borrow after subtracting the low `n` limbs of `b` from those of `a`. */
  function Borrow(a: Scalar, b: Scalar, n: nat): nat
    requires n <= LIMBS
  {
    if n == 0 then 0 else Wrap64(a[n - 1] - b[n - 1] - Borrow(a, b, n - 1)) / SIGN
  }

  /** lt256_modm_batch: compares limbs 0..limbsize. */
  predicate Lt(a: Scalar, b: Scalar, limbsize: nat)
    requires limbsize < LIMBS
  {
    Borrow(a, b, limbsize + 1) != 0
  }

  /** lte256_modm_batch. */
  predicate Lte(a: Scalar, b: Scalar, limbsize: nat)
    requires limbsize < LIMBS
  {
    Borrow(b, a, limbsize + 1) == 0
  }

  /** Limb `i` written by sub256_modm_batch: the top limb of the window is not masked. */
  function SubLimb(a: Scalar, b: Scalar, limbsize: nat, i: nat): nat
    requires i < LIMBS
  {
    var t := Wrap64(a[i] - b[i] - Borrow(a, b, i));
    if i < limbsize then t % BASE else if i == limbsize then t else a[i]
  }

  predicate IsZero(a: Scalar) { forall i :: 0 <= i < LIMBS ==> a[i] == 0 }

  predicate IsOne(a: Scalar) { forall i :: 0 <= i < LIMBS ==> a[i] == if i == 0 then 1 else 0 }

  /** isatmost128bits256_modm_batch: limbs 3 and 4 are zero and bits 16..55 of limb 2 are clear. */
  predicate AtMost128Bits(a: Scalar) { a[4] == 0 && a[3] == 0 && a[2] / 0x10000 % 0x100_0000_0000 == 0 }

  predicate ZeroAbove(a: Scalar, limbsize: nat) { forall i :: limbsize < i < LIMBS ==> a[i] == 0 }

  // ---------- facts about weights and windows ----------

  lemma {:induction false} LowBound(a: Scalar, n: nat)
    requires n <= LIMBS
    ensures 0 <= Low(a, n) < Weight(n)
  {
    if n == 0 {
    } else {
      LowBound(a, n - 1);
      var w := Weight(n - 1);
      MulMono(a[n - 1], BASE - 1, w);
      MulPos(a[n - 1], w);
    }
  }

  lemma {:induction false} WindowIsValue(a: Scalar, limbsize: nat, n: nat)
    requires limbsize < n <= LIMBS && ZeroAbove(a, limbsize)
    ensures Low(a, n) == Low(a, limbsize + 1)
  {
    if n == limbsize + 1 {
    } else {
      WindowIsValue(a, limbsize, n - 1);
      assert a[n - 1] == 0;
    }
  }

  /** One borrow step: the running difference stays in [0, weight) once the borrow is paid back. */
  lemma BorrowStep(x: nat, y: nat, c: nat, e: int, w: nat)
    requires x < BASE && y < BASE && c <= 1 && w >= 1 && 0 <= e < w
    ensures var t := Wrap64(x - y - c);
      && t / SIGN == (if x - y - c < 0 then 1 else 0)
      && t % BASE == x - y - c + t / SIGN * BASE
      && (t / SIGN == 0 ==> t == x - y - c)
      && 0 <= e + (t % BASE) * w < BASE * w
  {
    var t := Wrap64(x - y - c);
    var d := x - y - c;
    if d < 0 {
      assert t == d + WORD;
      assert WORD == 256 * BASE;
      assert t == 255 * BASE + (d + BASE);
    }
    var m := t % BASE;
    MulMono(m, BASE - 1, w);
    MulPos(m, w);
  }

  lemma DigitTimesWeight(x: int, y: int, c: int, k: int, w: int)
    ensures (x - y - c + k * BASE) * w == x * w - y * w - c * w + k * (BASE * w)
  {
    Dist(x - y - c, k * BASE, w);
    Dist(x - y, c, w);
    Dist(x, y, w);
    Assoc(k, BASE, w);
  }

  /** The borrow is exactly the sign of the windowed difference. */
  lemma {:induction false} BorrowMeaning(a: Scalar, b: Scalar, n: nat)
    requires n <= LIMBS
    ensures Borrow(a, b, n) <= 1
    ensures 0 <= Low(a, n) - Low(b, n) + Borrow(a, b, n) * Weight(n) < Weight(n)
    ensures Borrow(a, b, n) == 1 <==> Low(a, n) < Low(b, n)
  {
    if n == 0 {
    } else {
      BorrowMeaning(a, b, n - 1);
      var c, w := Borrow(a, b, n - 1), Weight(n - 1);
      var e := Low(a, n - 1) - Low(b, n - 1) + c * w;
      var x, y := a[n - 1], b[n - 1];
      BorrowStep(x, y, c, e, w);
      var t := Wrap64(x - y - c);
      var k := t / SIGN;
      calc {
        Low(a, n) - Low(b, n) + k * Weight(n);
        e - c * w + x * w - y * w + k * (BASE * w);
        { DigitTimesWeight(x, y, c, k, w); }
        e + (x - y - c + k * BASE) * w;
        e + (t % BASE) * w;
      }
      BorrowIsSign(Low(a, n) - Low(b, n), k, Weight(n));
    }
  }

  lemma BorrowIsSign(d: int, k: nat, w: nat)
    requires k <= 1 && 0 <= d + k * w < w
    ensures k == 1 <==> d < 0
  {
  }

  /** The comparisons mean what they say whenever the window covers both scalars. */
  lemma LtMeaning(a: Scalar, b: Scalar, limbsize: nat)
    requires limbsize < LIMBS && ZeroAbove(a, limbsize) && ZeroAbove(b, limbsize)
    ensures Lt(a, b, limbsize) <==> Value(a) < Value(b)
    ensures Lte(a, b, limbsize) <==> Value(a) <= Value(b)
  {
    BorrowMeaning(a, b, limbsize + 1);
    BorrowMeaning(b, a, limbsize + 1);
    WindowIsValue(a, limbsize, LIMBS);
    WindowIsValue(b, limbsize, LIMBS);
  }

  /** The limbs produced by the masked steps, read as a number. */
  lemma {:induction false} MaskedLow(a: Scalar, b: Scalar, out: seq<nat>, limbsize: nat, n: nat)
    requires limbsize < LIMBS && |out| == LIMBS && n <= limbsize
    requires forall i :: 0 <= i < n ==> out[i] == SubLimb(a, b, limbsize, i)
    ensures forall i :: 0 <= i < n ==> out[i] < BASE
    ensures Low(out, n) == Low(a, n) - Low(b, n) + Borrow(a, b, n) * Weight(n)
  {
    if n == 0 {
    } else {
      MaskedLow(a, b, out, limbsize, n - 1);
      BorrowMeaning(a, b, n - 1);
      var c, w := Borrow(a, b, n - 1), Weight(n - 1);
      var x, y := a[n - 1], b[n - 1];
      var e := Low(a, n - 1) - Low(b, n - 1) + c * w;
      BorrowStep(x, y, c, e, w);
      var k := Wrap64(x - y - c) / SIGN;
      assert out[n - 1] == x - y - c + k * BASE;
      DigitTimesWeight(x, y, c, k, w);
    }
  }

  /** Windowed subtraction is exact subtraction when the window covers both scalars and a >= b. */
  lemma SubMeaning(a: Scalar, b: Scalar, out: seq<nat>, limbsize: nat)
    requires limbsize < LIMBS && ZeroAbove(a, limbsize) && ZeroAbove(b, limbsize)
    requires Value(b) <= Value(a)
    requires |out| == LIMBS && forall i :: 0 <= i < LIMBS ==> out[i] == SubLimb(a, b, limbsize, i)
    ensures forall i :: 0 <= i < LIMBS ==> out[i] < BASE
    ensures ZeroAbove(out, limbsize)
    ensures Value(out) == Value(a) - Value(b)
  {
    var n := limbsize;
    WindowIsValue(a, n, LIMBS);
    WindowIsValue(b, n, LIMBS);
    MaskedLow(a, b, out, limbsize, n);
    TopLimb(a, b, n);
    TopTerm(Low(out, n), Low(a, n), Low(b, n), out[n], a[n], b[n], Borrow(a, b, n), Weight(n));
    assert out[n] < BASE;
    WindowIsValue(out, n, LIMBS);
  }

  /** The top limb of the window is not masked: nothing is borrowed from beyond it. */
  lemma TopLimb(a: Scalar, b: Scalar, n: nat)
    requires n < LIMBS && Low(b, n + 1) <= Low(a, n + 1)
    ensures SubLimb(a, b, n, n) == a[n] - b[n] - Borrow(a, b, n) < BASE
  {
    BorrowMeaning(a, b, n);
    BorrowMeaning(a, b, n + 1);
    BorrowStep(a[n], b[n], Borrow(a, b, n), Low(a, n) - Low(b, n) + Borrow(a, b, n) * Weight(n), Weight(n));
  }

  lemma TopTerm(low: int, x: int, y: int, d: int, u: int, v: int, c: int, w: int)
    requires low == x - y + c * w && d == u - v - c
    ensures low + d * w == (x + u * w) - (y + v * w)
  {
    DigitTimesWeight(u, v, c, 0, w);
  }

  lemma {:induction false} LowZero(a: Scalar, n: nat)
    requires n <= LIMBS
    ensures Low(a, n) == 0 <==> forall i :: 0 <= i < n ==> a[i] == 0
  {
    if n == 0 {
    } else {
      LowZero(a, n - 1);
      var w := Weight(n - 1);
      MulPos(a[n - 1], w);
      if a[n - 1] > 0 { MulMono(1, a[n - 1], w); }
    }
  }

  lemma ZeroMeaning(a: Scalar)
    ensures IsZero(a) <==> Value(a) == 0
  {
    LowZero(a, LIMBS);
  }

  lemma ValueSpread(a: Scalar)
    ensures Value(a) == a[0] + a[1] * 0x100000000000000 + a[2] * 0x10000000000000000000000000000
      + a[3] * 0x1000000000000000000000000000000000000000000
      + a[4] * 0x100000000000000000000000000000000000000000000000000000000
  {
    assert Weight(0) == 1;
    assert Weight(1) == BASE;
    assert Weight(2) == BASE * BASE;
    assert Weight(3) == BASE * (BASE * BASE);
    assert Weight(4) == BASE * (BASE * (BASE * BASE));
    assert Low(a, 1) == a[0];
    assert Low(a, 2) == Low(a, 1) + a[1] * Weight(1);
    assert Low(a, 3) == Low(a, 2) + a[2] * Weight(2);
    assert Low(a, 4) == Low(a, 3) + a[3] * Weight(3);
    assert Low(a, 5) == Low(a, 4) + a[4] * Weight(4);
  }

  lemma OneMeaning(a: Scalar)
    ensures IsOne(a) <==> Value(a) == 1
  {
    ValueSpread(a);
  }

  lemma AtMost128Meaning(a: Scalar)
    ensures AtMost128Bits(a) <==> Value(a) < TWO128
    ensures Value(a) < TWO128 ==> ZeroAbove(a, 2)
  {
    ValueSpread(a);
    assert a[2] / 0x10000 < 0x100_0000_0000;
  }

  /** A scalar of at least 2^127 that vanishes above limb 2 has a nonzero limb 2. */
  lemma TopLimbOf127(a: Scalar)
    requires ZeroAbove(a, 2) && Value(a) >= TWO127
    ensures a[2] != 0
  {
    ValueSpread(a);
  }

  /** A scalar no larger than one whose limb `l` is zero has limb `l` zero too. */
  lemma SmallerTopLimb(x: Scalar, y: Scalar, l: nat)
    requires l < LIMBS && ZeroAbove(x, l) && ZeroAbove(y, l)
    requires Value(y) <= Value(x) && x[l] == 0
    ensures y[l] == 0
  {
    WindowIsValue(x, l, LIMBS);
    WindowIsValue(y, l, LIMBS);
    LowBound(x, l);
    LowBound(y, l);
    if y[l] > 0 { MulMono(1, y[l], Weight(l)); }
  }

  lemma ZeroWindow(x: Scalar)
    requires ZeroAbove(x, 0) && x[0] == 0
    ensures Value(x) == 0
  {
    ZeroMeaning(x);
  }

  lemma {:induction false} WeightIsPow2(i: nat)
    ensures Weight(i) == Pow2(56 * i)
  {
    if i == 0 {
    } else {
      WeightIsPow2(i - 1);
      Pow2Add(56, 56 * (i - 1));
      Pow2Of56();
    }
  }
}

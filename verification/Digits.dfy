/** Sequences of digits read as numbers, and the expansion of a scalar into digits. */
module Digits {
  import opened Arith
  import opened Words
  import opened Modm

  function Power(base: nat, n: nat): (p: nat)
    requires base >= 1
    ensures p >= 1
  {
    if n == 0 then 1 else
      var p := Power(base, n - 1);
      MulMono(1, base, p);
      base * p
  }

  lemma {:induction false} PowerOf2(n: nat)
    ensures Power(2, n) == Pow2(n)
  {
    if n == 0 {
    } else {
      PowerOf2(n - 1);
    }
  }

  lemma {:induction false} PowerOf16(n: nat)
    ensures Power(16, n) == Pow2(4 * n)
  {
    if n == 0 {
    } else {
      PowerOf16(n - 1);
      Pow2Add(4, 4 * (n - 1));
      assert Pow2(4) == 16;
    }
  }

  lemma Pow2Of255()
    ensures Pow2(255) == TWO255
  {
    Pow2Of56();
    assert Pow2(8) == 256;
    Pow2Add(56, 8);
    Pow2Add(64, 64);
    Pow2Add(128, 128);
    assert Pow2(256) == 2 * Pow2(255);
  }

  lemma Pow2Of32()
    ensures Pow2(32) == MASK32
  {
    assert Pow2(8) == 256;
    Pow2Add(8, 8);
    Pow2Add(16, 16);
  }

  /** r[j] + base*r[j+1] + base^2*r[j+2] + ... */
  ghost function Tail(base: nat, r: seq<int>, j: nat): int
    requires j <= |r|
    decreases |r| - j
  {
    if j == |r| then 0 else r[j] + base * Tail(base, r, j + 1)
  }

  /** The digits i..j-1 alone, read from weight 1 up. */
  ghost function Segment(base: nat, r: seq<int>, i: nat, j: nat): int
    requires i <= j <= |r|
    decreases j - i
  {
    if i == j then 0 else r[i] + base * Segment(base, r, i + 1, j)
  }

  lemma {:induction false} TailSame(base: nat, r: seq<int>, q: seq<int>, j: nat)
    requires |r| == |q| && j <= |r| && forall k :: j <= k < |r| ==> r[k] == q[k]
    ensures Tail(base, r, j) == Tail(base, q, j)
    decreases |r| - j
  {
    if j == |r| {
    } else {
      TailSame(base, r, q, j + 1);
    }
  }

  lemma {:induction false} SegmentSame(base: nat, r: seq<int>, q: seq<int>, i: nat, j: nat)
    requires i <= j <= |r| == |q| && forall k :: i <= k < j ==> r[k] == q[k]
    ensures Segment(base, r, i, j) == Segment(base, q, i, j)
    decreases j - i
  {
    if i == j {
    } else {
      SegmentSame(base, r, q, i + 1, j);
    }
  }

  lemma {:induction false} SegmentGrows(base: nat, r: seq<int>, i: nat, j: nat)
    requires base >= 1 && i <= j < |r|
    ensures Segment(base, r, i, j + 1) == Segment(base, r, i, j) + Power(base, j - i) * r[j]
    decreases j - i
  {
    if i == j {
    } else {
      SegmentGrows(base, r, i + 1, j);
      var p := Power(base, j - i - 1);
      Spread(base, Segment(base, r, i + 1, j), p, r[j]);
    }
  }

  lemma {:induction false} TailSplits(base: nat, r: seq<int>, i: nat, j: nat)
    requires base >= 1 && i <= j <= |r|
    ensures Tail(base, r, i) == Segment(base, r, i, j) + Power(base, j - i) * Tail(base, r, j)
    decreases j - i
  {
    if i == j {
    } else {
      TailSplits(base, r, i + 1, j);
      var p := Power(base, j - i - 1);
      Spread(base, Segment(base, r, i + 1, j), p, Tail(base, r, j));
    }
  }

  lemma Spread(base: int, x: int, p: int, y: int)
    ensures base * (x + p * y) == base * x + (base * p) * y
  {
    Assoc(base, p, y);
    assert base * (x + p * y) == base * x + base * (p * y);
  }

  lemma SameStart(seg: int, p: int, x: int, y: int)
    ensures (seg + p * x) - (seg + p * y) == p * (x - y)
  {
  }

  /** Digits below `i` are unchanged, so the tails at `i` decide the difference. */
  lemma TailShift(base: nat, q: seq<int>, r: seq<int>, i: nat)
    requires base >= 1 && |q| == |r| && i <= |r| && forall k :: 0 <= k < i ==> r[k] == q[k]
    ensures Tail(base, r, 0) - Tail(base, q, 0) == Power(base, i) * (Tail(base, r, i) - Tail(base, q, i))
  {
    TailSplits(base, q, 0, i);
    TailSplits(base, r, 0, i);
    SegmentSame(base, q, r, 0, i);
    SameStart(Segment(base, q, 0, i), Power(base, i), Tail(base, r, i), Tail(base, q, i));
  }

  lemma {:induction false} SegmentNonNegative(base: nat, r: seq<int>, i: nat, j: nat)
    requires i <= j <= |r| && forall k :: i <= k < j ==> r[k] >= 0
    ensures Segment(base, r, i, j) >= 0
    decreases j - i
  {
    if i == j {
    } else {
      SegmentNonNegative(base, r, i + 1, j);
      MulPos(base, Segment(base, r, i + 1, j));
    }
  }

  // ---------- from limbs to unsigned digits ----------

  ghost predicate Unsigned(base: nat, r: seq<int>, from: nat, to: nat)
  {
    to <= |r| && forall k :: from <= k < to ==> 0 <= r[k] < base
  }

  /** The `n` low digits of `v0`, least significant first, into r[pos..]. */
  method PutDigits(r: array<int>, pos: nat, v0: nat, n: nat, base: nat)
    requires base >= 2 && pos + n <= r.Length && v0 < Power(base, n) && Unsigned(base, r[..], 0, pos)
    modifies r
    ensures forall k :: 0 <= k < r.Length && (k < pos || pos + n <= k) ==> r[k] == old(r[k])
    ensures Unsigned(base, r[..], 0, pos + n) && Segment(base, r[..], pos, pos + n) == v0
  {
    var v := v0;
    for j := 0 to n
      invariant forall k :: 0 <= k < r.Length && (k < pos || pos + j <= k) ==> r[k] == old(r[k])
      invariant 0 <= v < Power(base, n - j) && Unsigned(base, r[..], 0, pos + j)
      invariant Segment(base, r[..], pos, pos + j) + Power(base, j) * v == v0
    {
      ghost var q := r[..];
      DivMod(v, base);
      r[pos + j] := v % base;
      SegmentSame(base, q, r[..], pos, pos + j);
      SegmentGrows(base, r[..], pos, pos + j);
      NextDigit(Power(base, j), v, base, Power(base, n - j - 1));
      v := v / base;
    }
  }

  lemma NextDigit(p: int, v: int, base: int, top: int)
    requires base >= 1 && 0 <= v < base * top
    ensures p * (v % base) + (base * p) * (v / base) == p * v
    ensures 0 <= v / base < top
  {
    DivMod(v, base);
    var q := v / base;
    Dist(q * base, v % base, p);
    assert p * (q * base) == (base * p) * q;
    if q >= top { MulMono(top, q, base); }
    if q < 0 { MulMono(q, -1, base); }
  }

  ghost function LimbSegment(base: nat, width: nat, r: seq<int>, k: nat): int
    requires width * k + width <= |r|
  {
    Segment(base, r, width * k, width * k + width)
  }

  /** Segment k of the digits holds limb k, for k below n. */
  ghost predicate HoldsLimbs(base: nat, width: nat, r: seq<int>, a: seq<int>, n: nat)
  {
    |r| >= 4 * width && n <= 4 <= |a| && forall k: nat :: k < n ==> SegmentIs(base, width, r, k, a[k])
  }

  ghost predicate SegmentIs(base: nat, width: nat, r: seq<int>, k: nat, v: int)
  {
    width * k + width <= |r| && LimbSegment(base, width, r, k) == v
  }

  lemma HoldsLimbsSame(base: nat, width: nat, q: seq<int>, r: seq<int>, a: seq<int>, n: nat)
    requires HoldsLimbs(base, width, q, a, n) && |r| == |q| && forall k :: 0 <= k < width * n ==> r[k] == q[k]
    ensures HoldsLimbs(base, width, r, a, n)
  {
    forall k: nat | k < n
      ensures SegmentIs(base, width, r, k, a[k])
    {
      assert SegmentIs(base, width, q, k, a[k]);
      MulMono(k + 1, n, width);
      assert width * (k + 1) == width * k + width;
      SegmentSame(base, q, r, width * k, width * k + width);
    }
  }

  lemma LimbSplits(base: nat, width: nat, r: seq<int>, k: nat)
    requires base >= 1 && width * k + width <= |r| && Power(base, width) == BASE
    ensures Tail(base, r, width * k) == LimbSegment(base, width, r, k) + BASE * Tail(base, r, width * k + width)
  {
    TailSplits(base, r, width * k, width * k + width);
  }

  lemma DigitsTotal(base: nat, width: nat, r: seq<int>, a: seq<int>)
    requires base >= 1 && Power(base, width) == BASE && |r| >= 4 * width
    requires HoldsLimbs(base, width, r, a, 4) && |a| == 5 && Segment(base, r, 4 * width, |r|) == a[4]
    ensures Tail(base, r, 0) == V5(a[0], a[1], a[2], a[3], a[4])
  {
    LimbSplits(base, width, r, 0);
    LimbSplits(base, width, r, 1);
    LimbSplits(base, width, r, 2);
    LimbSplits(base, width, r, 3);
    TailSplits(base, r, 4 * width, |r|);
    assert Tail(base, r, |r|) == 0;
    assert SegmentIs(base, width, r, 0, a[0]) && SegmentIs(base, width, r, 1, a[1]);
    assert SegmentIs(base, width, r, 2, a[2]) && SegmentIs(base, width, r, 3, a[3]);
  }

  /** The four full limbs, `width` digits each. */
  method PutLimbs(r: array<int>, a: array<u64>, base: nat, width: nat)
    requires base >= 2 && Power(base, width) == BASE && r.Length >= 4 * width && Limbs(a, MASK32)
    modifies r
    ensures Unsigned(base, r[..], 0, 4 * width) && HoldsLimbs(base, width, r[..], a[..], 4)
  {
    for i := 0 to 4
      invariant Unsigned(base, r[..], 0, width * i) && HoldsLimbs(base, width, r[..], a[..], i)
    {
      ghost var q := r[..];
      MulMono(i + 1, 4, width);
      assert width * (i + 1) == width * i + width;
      PutDigits(r, width * i, a[i], width, base);
      HoldsLimbsSame(base, width, q, r[..], a[..], i);
      assert SegmentIs(base, width, r[..], i, a[i]);
    }
  }

  /** The digits of a scalar: `width` for each of the four low limbs, the rest for the
      32 bits of the top limb. */
  method LimbsToDigits(r: array<int>, a: array<u64>, base: nat, width: nat)
    requires base >= 2 && Power(base, width) == BASE && r.Length >= 4 * width && Limbs(a, MASK32)
    requires Power(base, r.Length - 4 * width) == MASK32
    modifies r
    ensures Unsigned(base, r[..], 0, r.Length) && Tail(base, r[..], 0) == Val(a)
  {
    PutLimbs(r, a, base, width);
    ghost var q := r[..];
    PutDigits(r, 4 * width, a[4], r.Length - 4 * width, base);
    HoldsLimbsSame(base, width, q, r[..], a[..], 4);
    DigitsTotal(base, width, r[..], a[..]);
  }
}

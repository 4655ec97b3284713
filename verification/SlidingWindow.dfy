/**
  contract256_slidingwindow_modm: a scalar recoded into 256 signed digits, almost
  all of them zero, the others odd and small.
 */
module SlidingWindow {
  import opened Arith
  import opened Words
  import opened Modm
  import opened Digits

  const SOPLEN: nat := 256

  ghost predicate Bits(r: seq<int>, from: nat)
  {
    forall k :: from <= k < |r| ==> r[k] == 0 || r[k] == 1
  }

  lemma {:induction false} TailFrom(r: seq<int>, q: seq<int>, i: nat, j: nat)
    requires |r| == |q| && i <= j <= |r| && forall k :: i <= k < j ==> r[k] == q[k]
    requires Tail(2, r, j) == Tail(2, q, j)
    ensures Tail(2, r, i) == Tail(2, q, i)
    decreases j - i
  {
    if i == j {
    } else {
      TailFrom(r, q, i + 1, j);
    }
  }

  lemma {:induction false} TailZeros(r: seq<int>, i: nat, j: nat)
    requires i <= j <= |r| && forall k :: i <= k < j ==> r[k] == 0
    ensures Tail(2, r, i) == Pow2(j - i) * Tail(2, r, j)
    decreases j - i
  {
    if i == j {
    } else {
      TailZeros(r, i + 1, j);
      Assoc(2, Pow2(j - i - 1), Tail(2, r, j));
    }
  }

  lemma {:induction false} TailOnes(r: seq<int>, i: nat, j: nat)
    requires i <= j <= |r| && forall k :: i <= k < j ==> r[k] == 1
    ensures Tail(2, r, i) + 1 == Pow2(j - i) * (Tail(2, r, j) + 1)
    decreases j - i
  {
    if i == j {
    } else {
      TailOnes(r, i + 1, j);
      Assoc(2, Pow2(j - i - 1), Tail(2, r, j) + 1);
    }
  }

  lemma {:induction false} TailOfBits(r: seq<int>, j: nat)
    requires j <= |r| && Bits(r, j)
    ensures 0 <= Tail(2, r, j) < Pow2(|r| - j)
    decreases |r| - j
  {
    if j == |r| {
    } else {
      TailOfBits(r, j + 1);
    }
  }

  /** Adds 1 at position `from`: ones become zeros up to the first zero, which becomes one. */
  method Ripple(r: array<int>, from: nat)
    requires from < r.Length && Bits(r[..], from)
    requires Tail(2, r[..], from) + 1 < Pow2(r.Length - from)
    modifies r
    ensures Bits(r[..], from) && Tail(2, r[..], from) == old(Tail(2, r[..], from)) + 1
    ensures forall k :: 0 <= k < from ==> r[k] == old(r[k])
    ensures old(r[from]) == 1 ==> r[from] == 0
  {
    ghost var q := r[..];
    var k := from;
    while k < r.Length
      invariant from <= k <= r.Length
      invariant forall i :: from <= i < k ==> q[i] == 1 && r[i] == 0
      invariant forall i :: 0 <= i < r.Length && (i < from || k <= i) ==> r[i] == q[i]
    {
      TailOnes(q, from, k);
      if r[k] == 0 {
        r[k] := 1;
        RippleSum(q, r[..], from, k);
        return;
      }
      r[k] := 0;
      k := k + 1;
    }
    TailOnes(q, from, k);
    assert false;
  }

  lemma RippleSum(q: seq<int>, r: seq<int>, from: nat, k: nat)
    requires from <= k < |q| == |r| && q[k] == 0 && r[k] == 1
    requires forall i :: from <= i < k ==> q[i] == 1 && r[i] == 0
    requires forall i :: k < i < |q| ==> r[i] == q[i]
    ensures Tail(2, r, from) == Tail(2, q, from) + 1
  {
    TailOnes(q, from, k);
    TailZeros(r, from, k);
    TailSame(2, r, q, k + 1);
  }

  /** The largest digit of a window of `w` bits: 2^(w-1) - 1. */
  function MaxDigit(w: nat): int
    requires w >= 1
  {
    Pow2(w - 1) - 1
  }

  /** State of the inner loop at digit `j`, `b` bits in, relative to the digits `q`
      before it started. */
  ghost predicate Window(q: seq<int>, r: seq<int>, j: nat, b: nat, w: nat)
  {
    && |q| == |r| == SOPLEN && 2 <= w && 1 <= b && j + b <= SOPLEN
    && (forall k :: 0 <= k < j ==> r[k] == q[k])
    && (forall k :: j < k < j + b ==> r[k] == 0)
    && Bits(r, j + b)
    && Tail(2, r, j) == Tail(2, q, j)
    && r[j] % 2 == 1 && -MaxDigit(w) <= r[j] <= MaxDigit(w)
    && (b < w ==> 1 <= r[j] < Pow2(b))
    && (r[j] < 0 ==> w <= b)
  }

  /** How far what is left at `j` may exceed the scalar: by less than 2^z. */
  ghost predicate Bounded(r: seq<int>, j: nat, z: nat, s: nat)
  {
    && j <= z && j <= |r| == SOPLEN
    && (forall k :: j <= k < z && k < |r| ==> r[k] == 0)
    && Tail(2, r, j) * Pow2(j) < s + Pow2(z)
    && s <= Pow2(255)
  }

  lemma WindowTail(q: seq<int>, r: seq<int>, j: nat, b: nat, w: nat)
    requires Window(q, r, j, b, w)
    ensures Tail(2, r, j) == r[j] + Pow2(b) * Tail(2, r, j + b)
  {
    TailZeros(r, j + 1, j + b);
    Assoc(2, Pow2(b - 1), Tail(2, r, j + b));
  }

  lemma WindowStart(r: seq<int>, j: nat, w: nat)
    requires |r| == SOPLEN && j < SOPLEN && 2 <= w && Bits(r, j) && r[j] != 0
    ensures Window(r, r, j, 1, w)
  {
    Pow2Mono(1, w - 1);
    assert Pow2(1) == 2;
  }

  /** A carry out of the window always finds a zero digit to stop at. */
  lemma RippleSafe(q: seq<int>, r: seq<int>, j: nat, b: nat, w: nat, s: nat)
    requires Window(q, r, j, b, w) && j + b < SOPLEN && r[j] >= 1 && Bounded(q, j, j, s)
    ensures Tail(2, r, j + b) + 1 < Pow2(SOPLEN - (j + b))
  {
    var p := j + b;
    WindowTail(q, r, j, b, w);
    TailOfBits(r, p);
    var t := Tail(2, r, p);
    if t + 1 == Pow2(SOPLEN - p) {
      Pow2Add(b, j);
      Pow2Add(p, SOPLEN - p);
      Pow2Mono(p, 255);
      FullTail(r[j], t, Pow2(b), Pow2(j), Pow2(p), Pow2(SOPLEN - p));
    }
  }

  lemma FullTail(x: int, t: int, b: int, j: int, p: int, top: int)
    requires x >= 1 && j >= 1 && b * j == p && t + 1 == top
    ensures (x + b * t) * j >= j + p * top - p
  {
    Dist(x, b * t, j);
    assert (b * t) * j == (b * j) * t;
    assert p * t == p * top - p;
    MulMono(1, x, j);
  }

  /** The digit after bit `bit` has been taken in at height b. */
  lemma TakeDigit(x: int, bit: int, b: nat, w: nat)
    requires 2 <= w && 1 <= b && (bit == 0 || bit == 1) && x % 2 == 1 && -MaxDigit(w) <= x
      && x + bit * Pow2(b) <= MaxDigit(w)
    requires (b < w ==> 1 <= x < Pow2(b)) && (x < 0 ==> w <= b)
    ensures var y := x + bit * Pow2(b);
      y % 2 == 1 && -MaxDigit(w) <= y && (b + 1 < w ==> 1 <= y < Pow2(b + 1)) && (y < 0 ==> w <= b + 1)
  {
    var h := Pow2(b - 1);
    if bit == 1 {
      assert x + bit * Pow2(b) == x + 2 * h;
    } else {
      assert x + bit * Pow2(b) == x;
    }
  }

  /** Taking bit j+b into the digit. */
  lemma TakeBit(q: seq<int>, r: seq<int>, j: nat, b: nat, w: nat)
    requires Window(q, r, j, b, w) && j + b < SOPLEN && r[j] + r[j + b] * Pow2(b) <= MaxDigit(w)
    ensures Window(q, r[j := r[j] + r[j + b] * Pow2(b)][j + b := 0], j, b + 1, w)
  {
    var r' := r[j := r[j] + r[j + b] * Pow2(b)][j + b := 0];
    TakeBitTail(q, r, r', j, b, w);
    TakeDigit(r[j], r[j + b], b, w);
  }

  lemma TakeSum(x: int, y: int, t: int, u: int, h: int)
    requires u == 2 * h
    ensures x + y * u + 2 * (h * t) == x + u * (y + t)
  {
  }

  lemma TakeBitTail(q: seq<int>, r: seq<int>, r': seq<int>, j: nat, b: nat, w: nat)
    requires Window(q, r, j, b, w) && j + b < SOPLEN && r' == r[j := r[j] + r[j + b] * Pow2(b)][j + b := 0]
    ensures Tail(2, r', j) == Tail(2, r, j)
  {
    var p := j + b;
    WindowTail(q, r, j, b, w);
    TailSame(2, r, r', p + 1);
    TailZeros(r', j + 1, p);
    var t := Tail(2, r', p);
    assert Tail(2, r, p) == r[p] + t;
    assert Tail(2, r', j) == r'[j] + 2 * Tail(2, r', j + 1);
    TakeSum(r[j], r[p], t, Pow2(b), Pow2(b - 1));
  }

  /** Which bit can be borrowed: only the one that completes the window. */
  lemma BorrowPlace(x: int, b: nat, w: nat)
    requires 2 <= w && 1 <= b && -MaxDigit(w) <= x <= MaxDigit(w)
    requires b < w ==> 1 <= x < Pow2(b)
    requires x + Pow2(b) > MaxDigit(w) && x - Pow2(b) >= -MaxDigit(w)
    ensures b == w - 1 && x >= 1
  {
    if b < w - 1 {
      Pow2Mono(b + 1, w - 1);
    } else if b >= w {
      Pow2Mono(w, b);
    }
  }

  lemma BorrowSum(x: int, t: int, u: int, h: int)
    requires u == 2 * h
    ensures x - u + 2 * (h * (t + 1)) == x + u * t
  {
  }

  lemma BorrowBitTail(q: seq<int>, r: seq<int>, r': seq<int>, j: nat, b: nat, w: nat)
    requires Window(q, r, j, b, w) && j + b < SOPLEN && |r'| == |r| && r'[j] == r[j] - Pow2(b)
    requires forall k :: j < k < j + b ==> r'[k] == 0
    requires Tail(2, r', j + b) == Tail(2, r, j + b) + 1
    ensures Tail(2, r', j) == Tail(2, r, j)
  {
    var p := j + b;
    WindowTail(q, r, j, b, w);
    TailZeros(r', j + 1, p);
    assert Tail(2, r', j) == r'[j] + 2 * Tail(2, r', j + 1);
    BorrowSum(r[j], Tail(2, r, p), Pow2(b), Pow2(b - 1));
  }

  /** Taking bit j+b as negative, after 1 has been carried into position j+b. */
  lemma BorrowBit(q: seq<int>, r: seq<int>, r': seq<int>, j: nat, b: nat, w: nat)
    requires Window(q, r, j, b, w) && j + b < SOPLEN && b == w - 1 && r[j] >= 1
    requires |r'| == |r| && r'[j] == r[j] - Pow2(b) && r'[j] >= -MaxDigit(w)
    requires forall k :: 0 <= k < j + b && k != j ==> r'[k] == r[k]
    requires Bits(r', j + b) && r'[j + b] == 0 && Tail(2, r', j + b) == Tail(2, r, j + b) + 1
    ensures Window(q, r', j, b + 1, w)
  {
    BorrowBitTail(q, r, r', j, b, w);
    assert Pow2(b) == 2 * Pow2(b - 1);
  }

  lemma BreakPlace(x: int, b: nat, w: nat)
    requires 2 <= w && 1 <= b && (b < w ==> 1 <= x < Pow2(b))
    requires x - Pow2(b) < -MaxDigit(w)
    ensures b >= w
  {
    if b < w { Pow2Mono(b, w - 1); }
  }

  /** Moves the bit found b places up into digit j. */
  method TakeBitAt(r: array<int>, j: nat, b: nat, w: nat, ghost q: seq<int>)
    requires r.Length == SOPLEN && Window(q, r[..], j, b, w) && j + b < SOPLEN
    requires r[j] + r[j + b] * Pow2(b) <= MaxDigit(w)
    modifies r
    ensures Window(q, r[..], j, b + 1, w)
  {
    ghost var before := r[..];
    TakeBit(q, before, j, b, w);
    r[j] := r[j] + r[j + b] * Pow2(b);
    r[j + b] := 0;
    assert r[..] == before[j := before[j] + before[j + b] * Pow2(b)][j + b := 0];
  }

  /** Takes the bit found b places up from digit j instead, and makes up for it by a carry into its place. */
  method BorrowBitAt(r: array<int>, j: nat, b: nat, w: nat, ghost q: seq<int>, ghost s: nat)
    requires r.Length == SOPLEN && Window(q, r[..], j, b, w) && j + b < SOPLEN && Bounded(q, j, j, s)
    requires r[j] + r[j + b] * Pow2(b) > MaxDigit(w) && r[j] - r[j + b] * Pow2(b) >= -MaxDigit(w)
    modifies r
    ensures Window(q, r[..], j, b + 1, w)
  {
    ghost var before := r[..];
    assert r[j + b] == 1 by { assert before[j + b] == 0 || before[j + b] == 1; }
    BorrowPlace(r[j], b, w);
    RippleSafe(q, before, j, b, w, s);
    r[j] := r[j] - r[j + b] * Pow2(b);
    TailSame(2, before, r[..], j + b);
    Ripple(r, j + b);
    BorrowBit(q, before, r[..], j, b, w);
  }

  /** One pass of the inner loop. */
  method NextBit(r: array<int>, j: nat, b: nat, w: nat, ghost q: seq<int>, ghost s: nat) returns (stop: bool)
    requires r.Length == SOPLEN && Window(q, r[..], j, b, w) && j + b < SOPLEN && Bounded(q, j, j, s)
    modifies r
    ensures stop ==> Window(q, r[..], j, b, w) && b >= w
    ensures !stop ==> Window(q, r[..], j, b + 1, w)
  {
    stop := false;
    assert r[..][j + b] == 0 || r[..][j + b] == 1;
    if r[j] + r[j + b] * Pow2(b) <= MaxDigit(w) {
      TakeBitAt(r, j, b, w, q);
    } else if r[j] - r[j + b] * Pow2(b) >= -MaxDigit(w) {
      BorrowBitAt(r, j, b, w, q, s);
    } else if r[j + b] != 0 {
      BreakPlace(r[j], b, w);
      stop := true;
    }
  }

  /** The inner loop: collects a window of bits into digit `j`. */
  method CollectDigit(r: array<int>, j: nat, w: nat, ghost s: nat)
    requires r.Length == SOPLEN && j < SOPLEN && 2 <= w <= 7 && Bits(r[..], j) && r[j] != 0
    requires Bounded(r[..], j, j, s)
    modifies r
    ensures forall k :: 0 <= k < j ==> r[k] == old(r[k])
    ensures Tail(2, r[..], j) == old(Tail(2, r[..], j)) && Bits(r[..], j + 1)
    ensures r[j] % 2 == 1 && -MaxDigit(w) <= r[j] <= MaxDigit(w)
    ensures forall k :: j < k < j + w && k < SOPLEN ==> r[k] == 0
    ensures r[j] < 0 ==> j + w <= SOPLEN
  {
    ghost var q := r[..];
    var b := 1;
    WindowStart(q, j, w);
    while b < SOPLEN - j && b <= 6
      invariant 1 <= b <= 7 && Window(q, r[..], j, b, w)
    {
      var stop := NextBit(r, j, b, w, q, s);
      if stop { break; }
      b := b + 1;
    }
  }

  /** Zero, or odd and at most 2^(w-1) - 1 in absolute value. */
  predicate Digit(d: int, w: nat)
    requires w >= 1
  {
    d == 0 || (d % 2 == 1 && -MaxDigit(w) <= d <= MaxDigit(w))
  }

  ghost predicate DigitsBelow(r: seq<int>, n: nat, w: nat)
  {
    w >= 1 && n <= |r| && forall k :: 0 <= k < n ==> Digit(r[k], w)
  }

  /** A nonzero digit among the first `n` is followed by w - 1 zeros. */
  ghost predicate Sparse(r: seq<int>, n: nat, w: nat)
  {
    forall i, k :: 0 <= i < n && i < k < i + w && k < |r| && n <= |r| && r[i] != 0 ==> r[k] == 0
  }

  lemma BoundedSkip(r: seq<int>, j: nat, z: nat, s: nat)
    requires Bounded(r, j, z, s) && j < SOPLEN && r[j] == 0
    ensures Bounded(r, j + 1, if z > j then z else j + 1, s)
  {
    Assoc(Tail(2, r, j + 1), 2, Pow2(j));
  }

  lemma BoundedDigit(q: seq<int>, r: seq<int>, j: nat, w: nat, s: nat)
    requires Bounded(q, j, j, s) && |r| == SOPLEN && j < SOPLEN && Tail(2, r, j) == Tail(2, q, j) && 2 <= w
    requires r[j] % 2 == 1 && -MaxDigit(w) <= r[j]
    requires forall k :: j < k < j + w && k < SOPLEN ==> r[k] == 0
    ensures Bounded(r, j + 1, if r[j] < 0 then j + w - 1 else j + 1, s)
  {
    var d, t, u := r[j], Tail(2, r, j + 1), Pow2(j);
    Assoc(t, 2, u);
    Dist(Tail(2, r, j), d, u);
    if d < 0 {
      Pow2Add(w - 1, j);
      MulMono(-d + 1, Pow2(w - 1), u);
      Dist(-d, 1, u);
      assert (-d) * u == -(d * u);
    } else {
      MulMono(1, d, u);
    }
  }

  /** What the outer loop keeps: digits below `j` are final, those from `j` on are bits. */
  ghost predicate Recoding(r: seq<int>, j: nat, z: nat, w: nat, s: nat)
  {
    && |r| == SOPLEN && Bits(r, j) && Tail(2, r, 0) == s
    && DigitsBelow(r, j, w) && Sparse(r, j, w) && Bounded(r, j, z, s)
  }

  method RecodeDigit(r: array<int>, j: nat, w: nat, ghost z: nat, ghost s: nat) returns (ghost z': nat)
    requires r.Length == SOPLEN && j < SOPLEN && 2 <= w <= 7 && Recoding(r[..], j, z, w, s)
    modifies r
    ensures Recoding(r[..], j + 1, z', w, s)
  {
    ghost var q := r[..];
    if r[j] == 0 {
      BoundedSkip(r[..], j, z, s);
      z' := if z > j then z else j + 1;
    } else {
      assert z == j;
      CollectDigit(r, j, w, s);
      TailFrom(q, r[..], 0, j);
      BoundedDigit(q, r[..], j, w, s);
      z' := if r[j] < 0 then j + w - 1 else j + 1;
      SparseNext(q, r[..], j, w);
    }
  }

  /** The outer loop: from bits to sparse signed digits of the same value. */
  method MakeSliding(r: array<int>, w: nat, ghost s: nat)
    requires r.Length == SOPLEN && 2 <= w <= 7 && Bits(r[..], 0) && Tail(2, r[..], 0) == s && s <= Pow2(255)
    modifies r
    ensures Tail(2, r[..], 0) == s && DigitsBelow(r[..], SOPLEN, w) && Sparse(r[..], SOPLEN, w)
  {
    ghost var z := 0;
    assert Pow2(0) == 1;
    for j := 0 to SOPLEN
      invariant Recoding(r[..], j, z, w, s)
    {
      z := RecodeDigit(r, j, w, z, s);
    }
  }

  lemma SparseNext(q: seq<int>, r: seq<int>, j: nat, w: nat)
    requires |q| == |r| && j < |r| && Sparse(q, j, w) && q[j] != 0
    requires forall k :: 0 <= k < j ==> r[k] == q[k]
    requires forall k :: j < k < j + w && k < |r| ==> r[k] == 0
    ensures Sparse(r, j + 1, w)
  {
    forall i, k | 0 <= i < j + 1 && i < k < i + w && k < |r| && r[i] != 0
      ensures r[k] == 0
    {
      if i < j {
        assert q[i] != 0 && q[j] != 0;
        assert k < j;
      }
    }
  }

  /** contract256_slidingwindow_modm: exact for every scalar up to 2^255. */
  method ContractSlidingWindow(r: array<int>, a: array<u64>, windowsize: nat)
    requires r.Length == SOPLEN && 2 <= windowsize <= 7 && Limbs(a, MASK32) && Val(a) <= TWO255
    modifies r
    ensures Tail(2, r[..], 0) == Val(a)
    ensures DigitsBelow(r[..], SOPLEN, windowsize) && Sparse(r[..], SOPLEN, windowsize)
  {
    Pow2Of56();
    PowerOf2(56);
    PowerOf2(32);
    Pow2Of32();
    LimbsToDigits(r, a, 2, 56);
    Pow2Of255();
    MakeSliding(r, windowsize, Val(a));
  }
}

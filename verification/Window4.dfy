/** contract256_window4_modm: a scalar in 64 signed digits of radix 16. */
module Window4 {
  import opened Arith
  import opened Words
  import opened Modm
  import opened Digits

  const QUADS: nat := 64

  /** Digits below `i` are final; the carry is still owed to digit `i`. */
  ghost predicate Signing(r: seq<int>, i: nat, carry: int, s: int)
  {
    && |r| == QUADS && i < QUADS && 0 <= carry <= 1
    && (forall k :: 0 <= k < i ==> -8 <= r[k] <= 7)
    && Unsigned(16, r, i + 1, QUADS) && 0 <= r[i] && r[i] + carry <= 16
    && (if i < 63 then r[63] <= 7 else r[63] + carry <= 8)
    && Tail(16, r, 0) + carry * Power(16, i) == s
  }

  /** Splitting x = r[i] + carry into a digit in [-8, 7], the next digit's share and the new carry. */
  lemma DigitSplit(x: int, y: int, c: int)
    requires 0 <= x <= 16 && y == x % 16 && c == y / 8
    ensures -8 <= y - c * 16 <= 7 && 0 <= c <= 1 && 0 <= x / 16 <= 1
    ensures x == (y - c * 16) + 16 * (x / 16 + c)
    ensures x / 16 + c <= 1
  {
  }

  lemma CarryUp(before: int, after: int, p: int, old0: int, new0: int, carry: int, carry': int, s: int)
    requires new0 - old0 == p * (after - before) && after + 16 * carry' == before + carry
    requires old0 + carry * p == s
    ensures new0 + carry' * (16 * p) == s
  {
    assert p * (after - before) == p * (carry - 16 * carry');
    assert p * (carry - 16 * carry') == carry * p - carry' * (16 * p);
  }

  lemma SignDigit(q: seq<int>, r: seq<int>, i: nat, carry: int, s: int, x: int, carry': int)
    requires Signing(q, i, carry, s) && i < 63
    requires x == q[i] + carry && carry' == x % 16 / 8
    requires r == q[i := x % 16 - carry' * 16][i + 1 := q[i + 1] + x / 16]
    ensures Signing(r, i + 1, carry', s)
  {
    DigitSplit(x, x % 16, carry');
    TailShift(16, q, r, i);
    TailSame(16, q, r, i + 2);
    var t := Tail(16, q, i + 2);
    assert Tail(16, q, i) == q[i] + 16 * (q[i + 1] + 16 * t);
    assert Tail(16, r, i) == r[i] + 16 * (r[i + 1] + 16 * t);
    CarryUp(Tail(16, q, i), Tail(16, r, i), Power(16, i), Tail(16, q, 0), Tail(16, r, 0), carry, carry', s);
  }

  method SignAt(r: array<int>, i: nat, carry: int, ghost s: int) returns (carry': int)
    requires r.Length == QUADS && i < 63 && Signing(r[..], i, carry, s)
    modifies r
    ensures Signing(r[..], i + 1, carry', s)
  {
    ghost var q := r[..];
    var x := r[i] + carry;
    r[i + 1] := r[i + 1] + x / 16;
    carry' := x % 16 / 8;
    r[i] := x % 16 - carry' * 16;
    assert r[..] == q[i := x % 16 - carry' * 16][i + 1 := q[i + 1] + x / 16];
    SignDigit(q, r[..], i, carry, s, x, carry');
  }

  /** The second loop of contract256_window4_modm. */
  method MakeSigned(r: array<int>, ghost s: int)
    requires r.Length == QUADS && Unsigned(16, r[..], 0, QUADS) && r[63] <= 7 && Tail(16, r[..], 0) == s
    modifies r
    ensures Tail(16, r[..], 0) == s
    ensures forall k :: 0 <= k < QUADS ==> -8 <= r[k] <= 8
    ensures forall k :: 0 <= k < 63 ==> r[k] <= 7
  {
    var carry := 0;
    for i := 0 to 63
      invariant Signing(r[..], i, carry, s)
    {
      carry := SignAt(r, i, carry, s);
    }
    ghost var q := r[..];
    r[63] := r[63] + carry;
    LastDigit(q, r[..], 63, carry, s);
  }

  lemma TailOfLast(q: seq<int>, n: nat)
    requires |q| == n + 1
    ensures Tail(16, q, n) == q[n]
  {
    assert Tail(16, q, n + 1) == 0;
  }

  lemma ShiftBy(before: int, after: int, p: int, x: int, y: int, c: int)
    requires after - before == p * (y - x) && y - x == c
    ensures after == before + c * p
  {
  }

  lemma LastShift(q: seq<int>, r: seq<int>, n: nat, carry: int)
    requires |q| == n + 1 && r == q[n := q[n] + carry]
    ensures Tail(16, r, 0) == Tail(16, q, 0) + carry * Power(16, n)
  {
    TailShift(16, q, r, n);
    TailOfLast(q, n);
    TailOfLast(r, n);
    ShiftBy(Tail(16, q, 0), Tail(16, r, 0), Power(16, n), Tail(16, q, n), Tail(16, r, n), carry);
  }

  lemma LastDigit(q: seq<int>, r: seq<int>, n: nat, carry: int, s: int)
    requires Signing(q, n, carry, s) && n == QUADS - 1 && r == q[n := q[n] + carry]
    ensures Tail(16, r, 0) == s
  {
    LastShift(q, r, n, carry);
  }

  lemma TopNibble(r: seq<int>)
    requires |r| == QUADS && Unsigned(16, r, 0, QUADS) && Tail(16, r, 0) < TWO255
    ensures r[63] <= 7
  {
    TailSplits(16, r, 0, 63);
    SegmentNonNegative(16, r, 0, 63);
    assert Tail(16, r, 63) == r[63] + 16 * Tail(16, r, 64);
    var n := 63;
    PowerOf63(n);
    var p, d := Power(16, n), r[63];
    assert p * d < TWO255;
    TopDigit(p, d);
  }

  lemma TopDigit(p: int, d: int)
    requires p >= 1 && p * d < 8 * p
    ensures d <= 7
  {
  }

  /** The exponent is a parameter n, which is 63, so that the verifier does not unroll the power. */
  lemma PowerOf63(n: nat)
    requires n == 63
    ensures 8 * Power(16, n) == TWO255
  {
    PowerOf16(n);
    Pow2Of255();
    assert Pow2(3) == 8;
    Pow2Add(3, 4 * n);
  }

  /** contract256_window4_modm: exact for every scalar below 2^255. */
  method ContractWindow4(r: array<int>, a: array<u64>)
    requires r.Length == QUADS && Limbs(a, MASK32) && Val(a) < TWO255
    modifies r
    ensures Tail(16, r[..], 0) == Val(a)
    ensures forall k :: 0 <= k < QUADS ==> -8 <= r[k] <= 8
    ensures forall k :: 0 <= k < 63 ==> r[k] <= 7
  {
    Pow2Of56();
    PowerOf16(14);
    Pow2Of32();
    PowerOf16(8);
    LimbsToDigits(r, a, 16, 14);
    TopNibble(r[..]);
    MakeSigned(r, Val(a));
  }
}

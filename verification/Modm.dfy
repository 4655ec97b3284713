/**
  Arithmetic modulo the Ed25519 group order m in five 56-bit limbs: conditional
  subtraction, Barrett reduction with the low product columns left out, addition,
  multiplication, and conversion from and to bytes.
 */
module Modm {
  import opened Arith
  import opened Words

  const B1: int := 0x100000000000000
  const B2: int := 0x10000000000000000000000000000
  const B3: int := 0x1000000000000000000000000000000000000000000
  const B4: int := 0x100000000000000000000000000000000000000000000000000000000
  const MASK16: int := 0x1_0000
  const MASK24: int := 0x100_0000
  const MASK32: int := 0x1_0000_0000
  const MASK40: int := 0x100_0000_0000

  /** The group order 2^252 + 27742317777372353535851937790883648493, whole and in limbs. */
  const M: int := 0x1000000000000000000000000000000014def9dea2f79cd65812631a5cf5d3ed
  const M0: int := 0x12631a5cf5d3ed
  const M1: int := 0xf9dea2f79cd658
  const M2: int := 0x14de
  const M3: int := 0
  const M4: int := 0x10000000

  /** floor(2^512 / m), whole and in limbs. */
  const MU: int := 0xfffffffffffffffffffffffffffffffeb2106215d086329a7ed9ce5a30a2c131b
  const MU0: int := 0x9ce5a30a2c131b
  const MU1: int := 0x215d086329a7ed
  const MU2: int := 0xffffffffeb2106
  const MU3: int := 0xffffffffffffff
  const MU4: int := 0xfffffffff

  function V5(a0: int, a1: int, a2: int, a3: int, a4: int): int
  {
    a0 + a1 * B1 + a2 * B2 + a3 * B3 + a4 * B4
  }

  function Val(r: array<u64>): int
    requires r.Length == 5
    reads r
  {
    V5(r[0], r[1], r[2], r[3], r[4])
  }

  /** Five limbs, the low four below 2^56 and the top one below `top`. */
  predicate Limbs(r: array<u64>, top: int)
    reads r
  {
    r.Length == 5 && r[0] < BASE && r[1] < BASE && r[2] < BASE && r[3] < BASE && r[4] < top
  }

  lemma Constants()
    ensures M == 16 * TWO248 + 27742317777372353535851937790883648493 == V5(M0, M1, M2, M3, M4)
    ensures MU == V5(MU0, MU1, MU2, MU3, MU4)
    ensures M * MU <= TWO512 < M * MU + M
    ensures 16 * TWO248 < M && 3 * M < TWO264
  {
  }

  // ---------- one limb of a subtraction with borrow ----------

  function LtModm(a: int, b: int): (c: u64) { Wrap64(a - b) / SIGN }

  /** One limb of a subtraction in 64-bit words: `b` is the borrow, paid back in units of 2^shift, here `unit`. */
  method BorrowLimb(r: u64, pb: u64, unit: int) returns (t: u64, b: u64)
    requires r < SIGN && pb < SIGN && 0 <= unit <= SIGN
    ensures b <= 1 && (b == 1 <==> r < pb)
    ensures b == 0 ==> t == r - pb
    ensures b == 1 && pb <= unit ==> t == r - pb + unit
  {
    b := LtModm(r, pb);
    t := Wrap64(Wrap64(r - pb) + b * unit);
  }

  /** The five-limb subtraction shared by reduce256_modm and barrett_reduce256_modm;
      `unit` is what a borrow out of the top limb adds back to it. */
  method Subtract5(a0: u64, a1: u64, a2: u64, a3: u64, a4: u64, s0: u64, s1: u64, s2: u64, s3: u64, s4: u64, unit: int)
    returns (t0: u64, t1: u64, t2: u64, t3: u64, t4: u64, b: u64)
    requires a0 < BASE && a1 < BASE && a2 < BASE && a3 < BASE && a4 < SIGN
    requires s0 < BASE && s1 < BASE && s2 < BASE && s3 < BASE && s4 < SIGN - 1
    requires 0 <= unit <= SIGN
    ensures t0 < BASE && t1 < BASE && t2 < BASE && t3 < BASE && b <= 1
    ensures b == 0 ==> V5(t0, t1, t2, t3, t4) == V5(a0, a1, a2, a3, a4) - V5(s0, s1, s2, s3, s4) && t4 <= a4
    ensures b == 1 ==> V5(a0, a1, a2, a3, a4) < V5(s0, s1, s2, s3, s4)
    ensures b == 1 && s4 < unit
      ==> V5(t0, t1, t2, t3, t4) == V5(a0, a1, a2, a3, a4) - V5(s0, s1, s2, s3, s4) + unit * B4 && t4 < unit
  {
    var c0, c1, c2, c3;
    t0, c0 := BorrowLimb(a0, s0, B1);
    t1, c1 := BorrowLimb(a1, c0 + s1, B1);
    t2, c2 := BorrowLimb(a2, c1 + s2, B1);
    t3, c3 := BorrowLimb(a3, c2 + s3, B1);
    t4, b := BorrowLimb(a4, c3 + s4, unit);
    SubtractSum(a0, a1, a2, a3, s0, s1, s2, s3, t0, t1, t2, t3, c0, c1, c2, c3);
    SubtractTop(V5(a0, a1, a2, a3, 0), V5(s0, s1, s2, s3, 0), V5(t0, t1, t2, t3, 0), a4, s4, t4, c3, b, unit);
  }

  /** The borrow out of the top limb decides the comparison. */
  lemma SubtractTop(a: int, s: int, t: int, a4: int, s4: int, t4: int, c: int, b: int, unit: int)
    requires t == a - s + c * B4 && 0 <= t < B4
    requires (b == 1 <==> a4 < c + s4) && (b == 0 ==> t4 == a4 - (c + s4))
    ensures b == 0 ==> t + t4 * B4 == (a + a4 * B4) - (s + s4 * B4)
    ensures b == 1 ==> a + a4 * B4 < s + s4 * B4
    ensures b == 1 && t4 == a4 - (c + s4) + unit ==> t + t4 * B4 == (a + a4 * B4) - (s + s4 * B4) + unit * B4
  {
  }

  lemma SubtractSum(a0: int, a1: int, a2: int, a3: int, s0: int, s1: int, s2: int, s3: int,
                    t0: int, t1: int, t2: int, t3: int, c0: int, c1: int, c2: int, c3: int)
    requires t0 == a0 - s0 + c0 * B1 && t1 == a1 - s1 - c0 + c1 * B1
    requires t2 == a2 - s2 - c1 + c2 * B1 && t3 == a3 - s3 - c2 + c3 * B1
    ensures V5(t0, t1, t2, t3, 0) == V5(a0, a1, a2, a3, 0) - V5(s0, s1, s2, s3, 0) + c3 * B4
  {
  }

  lemma MaskSelects(r: bv64, t: bv64)
    ensures r ^ (0 & (r ^ t)) == r
    ensures r ^ (0xffff_ffff_ffff_ffff & (r ^ t)) == t
  {
  }

  /** r ^ (mask & (r ^ t)) for mask = b - 1 with b a bit: see MaskSelects. */
  function Select(b: u64, r: u64, t: u64): u64 { if b == 0 then t else r }

  /** reduce256_modm: subtracts m once if the number is at least m. */
  method Reduce(r: array<u64>)
    requires Limbs(r, SIGN)
    modifies r
    ensures Limbs(r, SIGN)
    ensures Val(r) == if old(Val(r)) >= M then old(Val(r)) - M else old(Val(r))
  {
    Constants();
    var t0, t1, t2, t3, t4, b := Subtract5(r[0], r[1], r[2], r[3], r[4], M0, M1, M2, M3, M4, MASK32);
    r[0] := Select(b, r[0], t0);
    r[1] := Select(b, r[1], t1);
    r[2] := Select(b, r[2], t2);
    r[3] := Select(b, r[3], t3);
    r[4] := Select(b, r[4], t4);
  }

  // ---------- Barrett reduction ----------

  /** One product column with the carry from the column below: the low 40 bits moved
      up by 16, the 16 bits above them, and the carry into the next column. */
  method Column40(products: u128, f: u64) returns (low: u64, high: u64, carry: u64, ghost bits: int)
    requires products < 6 * B2 && f < 8 * B1
    ensures products + f == carry * BASE + high * MASK40 + bits && 0 <= bits < MASK40 && 0 <= high < MASK16
    ensures carry < 8 * B1
    ensures low == bits * MASK16 && low % MASK16 == 0
  {
    var c: u128 := products + f;
    var w := c % WORD;
    high := w / MASK40 % MASK16;
    low := w * MASK16 % WORD % BASE;
    carry := c / BASE;
    ShiftMask(w, MASK16, MASK40, BASE, 256);
    SplitColumn(c, MASK40, MASK16);
    bits := w % MASK40;
    ModMultiple(bits, MASK16);
  }

  /** A column sum read as carry, high bits and low bits, through its low 64-bit word. */
  lemma SplitColumn(c: int, unit: int, up: int)
    requires 0 <= c && unit > 0 && up > 0 && up * unit == BASE
    ensures c == (c / BASE) * BASE + (c % WORD / unit % up) * unit + c % WORD % unit
    ensures 0 <= c % WORD / unit % up < up && 0 <= c % WORD % unit < unit
  {
    var w := c % WORD;
    DivMod(c, WORD);
    DivMod(w, unit);
    var q := w / unit;
    DivMod(q, up);
    var h, b := q % up, w % unit;
    assert w == (q / up) * BASE + h * unit + b by {
      Dist((q / up) * up, h, unit);
      Assoc(q / up, up, unit);
    }
    MulMono(h, up - 1, unit);
    Dist(up, 1, unit);
    MulPos(h, unit);
    DivModUnique(c, BASE, 256 * (c / WORD) + q / up, h * unit + b);
  }

  /** Columns 4 to 8 of mu * q1 plus the carry out of column 3, computed as if
      columns 0 to 2 were zero. */
  ghost function HighColumns(q0: int, q1: int, q2: int, q3: int, q4: int, f3: int): int
  {
    V5(MU0 * q4 + MU4 * q0 + MU3 * q1 + MU1 * q3 + MU2 * q2 + f3,
       MU4 * q1 + MU1 * q4 + MU2 * q3 + MU3 * q2,
       MU4 * q2 + MU2 * q4 + MU3 * q3,
       MU4 * q3 + MU3 * q4,
       MU4 * q4)
  }

  lemma QuotientSum(c4: int, c5: int, c6: int, c7: int, c8: int, n4: int, n5: int, n6: int, n7: int, n8: int,
                    h4: int, h5: int, h6: int, h7: int, h8: int, l4: int, l5: int, l6: int, l7: int, l8: int)
    requires c4 == n4 * BASE + h4 * MASK40 + l4 && c5 + n4 == n5 * BASE + h5 * MASK40 + l5
    requires c6 + n5 == n6 * BASE + h6 * MASK40 + l6 && c7 + n6 == n7 * BASE + h7 * MASK40 + l7
    requires c8 + n7 == n8 * BASE + h8 * MASK40 + l8
    ensures V5(c4, c5, c6, c7, c8)
      == V5(h4 + l5 * MASK16, h5 + l6 * MASK16, h6 + l7 * MASK16, h7 + l8 * MASK16, h8 + n8 * MASK16) * MASK40 + l4
  {
  }

  lemma ColumnBounds(q0: int, q1: int, q2: int, q3: int, q4: int)
    requires 0 <= q0 < BASE && 0 <= q1 < BASE && 0 <= q2 < BASE && 0 <= q3 < BASE && 0 <= q4 < MASK40
    ensures 0 <= MU0 * q3 + MU3 * q0 + MU1 * q2 + MU2 * q1 < 6 * B2
    ensures 0 <= MU0 * q4 + MU4 * q0 + MU3 * q1 + MU1 * q3 + MU2 * q2 < 6 * B2
    ensures 0 <= MU4 * q1 + MU1 * q4 + MU2 * q3 + MU3 * q2 < 6 * B2
    ensures 0 <= MU4 * q2 + MU2 * q4 + MU3 * q3 < 6 * B2
    ensures 0 <= MU4 * q3 + MU3 * q4 < 6 * B2
    ensures 0 <= MU4 * q4 < 16 * MASK40 * MASK32
  {
  }

  method QuotientColumns(q0: u64, q1: u64, q2: u64, q3: u64, q4: u64)
    returns (h4: u64, l5: u64, h5: u64, l6: u64, h6: u64, l7: u64, h7: u64, l8: u64, h8: u64, n8: u64,
             ghost f3: int, ghost s: int, ghost b4: int)
    requires q0 < BASE && q1 < BASE && q2 < BASE && q3 < BASE && q4 < MASK40
    ensures f3 == (MU0 * q3 + MU3 * q0 + MU1 * q2 + MU2 * q1) / BASE
    ensures 0 <= b4 < MASK40
    ensures h4 < MASK16 && h5 < MASK16 && h6 < MASK16 && h7 < MASK16 && h8 < MASK16 && n8 < MASK24 / 2
    ensures l5 <= BASE - MASK16 && l6 <= BASE - MASK16 && l7 <= BASE - MASK16 && l8 <= BASE - MASK16
    ensures l5 % MASK16 == 0 && l6 % MASK16 == 0 && l7 % MASK16 == 0 && l8 % MASK16 == 0
    ensures s == HighColumns(q0, q1, q2, q3, q4, f3)
      == V5(h4 + l5, h5 + l6, h6 + l7, h7 + l8, h8 + n8 * MASK16) * MASK40 + b4
  {
    ColumnBounds(q0, q1, q2, q3, q4);
    var c: u128 := MU0 * q3 + MU3 * q0 + MU1 * q2 + MU2 * q1;
    var f: u64 := c / BASE;
    f3 := f;
    var l4, n4, n5, n6, n7;
    ghost var b5, b6, b7, b8;
    l4, h4, n4, b4 := Column40(MU0 * q4 + MU4 * q0 + MU3 * q1 + MU1 * q3 + MU2 * q2, f);
    l5, h5, n5, b5 := Column40(MU4 * q1 + MU1 * q4 + MU2 * q3 + MU3 * q2, n4);
    l6, h6, n6, b6 := Column40(MU4 * q2 + MU2 * q4 + MU3 * q3, n5);
    l7, h7, n7, b7 := Column40(MU4 * q3 + MU3 * q4, n6);
    l8, h8, n8, b8 := Column40(MU4 * q4, n7);
    s := HighColumns(q0, q1, q2, q3, q4, f3);
    QuotientSum(MU0 * q4 + MU4 * q0 + MU3 * q1 + MU1 * q3 + MU2 * q2 + f, MU4 * q1 + MU1 * q4 + MU2 * q3 + MU3 * q2,
                MU4 * q2 + MU2 * q4 + MU3 * q3, MU4 * q3 + MU3 * q4, MU4 * q4,
                n4, n5, n6, n7, n8, h4, h5, h6, h7, h8, b4, b5, b6, b7, b8);
  }

  /** The top 16 bits of one column under the low 40 of the next. */
  method Raise(h: u64, l: u64) returns (z: u64)
    requires h < MASK16 && l <= BASE - MASK16 && l % MASK16 == 0
    ensures z == h + l < BASE
  {
    z := Or(h, l, MASK16);
  }

  method RaiseTop(h: u64, n: u64) returns (z: u64)
    requires h < MASK16 && n < MASK24 / 2
    ensures z == h + n * MASK16 < MASK40
  {
    ModMultiple(n, MASK16);
    z := Or(h, n * MASK16, MASK16);
  }

  /** q3: the estimate of x / m from the high limbs of x, columns 0 to 2 left out. */
  method Quotient(q0: u64, q1: u64, q2: u64, q3: u64, q4: u64)
    returns (z0: u64, z1: u64, z2: u64, z3: u64, z4: u64, ghost f3: int)
    requires q0 < BASE && q1 < BASE && q2 < BASE && q3 < BASE && q4 < MASK40
    ensures z0 < BASE && z1 < BASE && z2 < BASE && z3 < BASE && z4 < MASK40
    ensures f3 == (MU0 * q3 + MU3 * q0 + MU1 * q2 + MU2 * q1) / BASE
    ensures V5(z0, z1, z2, z3, z4) == HighColumns(q0, q1, q2, q3, q4, f3) / MASK40
  {
    var h4, l5, h5, l6, h6, l7, h7, l8, h8, n8, f, s, b4 := QuotientColumns(q0, q1, q2, q3, q4);
    f3 := f;
    z0 := Raise(h4, l5);
    z1 := Raise(h5, l6);
    z2 := Raise(h6, l7);
    z3 := Raise(h7, l8);
    z4 := RaiseTop(h8, n8);
    DivModUnique(s, MASK40, V5(z0, z1, z2, z3, z4), b4);
  }

  /** The estimate is never too large and misses by less than the bound allows. */
  lemma QuotientBounds(q0: int, q1: int, q2: int, q3: int, q4: int, f3: int, z: int)
    requires 0 <= q0 < BASE && 0 <= q1 < BASE && 0 <= q2 < BASE && 0 <= q3 < BASE && 0 <= q4 < MASK40
    requires f3 == (MU0 * q3 + MU3 * q0 + MU1 * q2 + MU2 * q1) / BASE
    requires z == HighColumns(q0, q1, q2, q3, q4, f3) / MASK40
    ensures z * TWO264 <= MU * V5(q0, q1, q2, q3, q4) < z * TWO264 + TWO264 + 5 * B4
  {
    var col3 := MU0 * q3 + MU3 * q0 + MU1 * q2 + MU2 * q1;
    var low := MU0 * q0 + (MU0 * q1 + MU1 * q0) * B1 + (MU0 * q2 + MU1 * q1 + MU2 * q0) * B2;
    var s := HighColumns(q0, q1, q2, q3, q4, f3);
    assert MU * V5(q0, q1, q2, q3, q4) == s * B4 + (col3 - f3 * BASE) * B3 + low;
    assert 0 <= col3 - f3 * BASE < BASE;
    assert 0 <= low < 4 * B4;
    assert 0 <= s - z * MASK40 < MASK40;
  }

  /** HAC 14.42: with x = q1 * 2^248 + rest, the remainder after the estimate is below 3m. */
  lemma BarrettBound(x: int, q1: int, rest: int, z: int)
    requires x == q1 * TWO248 + rest && 0 <= rest < TWO248 && 0 <= q1 < TWO264
    requires z * TWO264 <= MU * q1 < z * TWO264 + TWO264 + 5 * B4
    ensures 0 <= x - z * M < 3 * M
  {
    Constants();
  }

  lemma SplitAt56(c: int)
    requires 0 <= c < 7 * B2
    ensures c % WORD % BASE == c % BASE && c == (c / BASE) * BASE + c % BASE && 0 <= c / BASE < 8 * B1
  {
    DivMod(c, WORD);
    var w := c % WORD;
    DivMod(w, BASE);
    DivModUnique(c, BASE, c / WORD * 256 + w / BASE, w % BASE);
  }

  /** One product column with the carry from below, cut into a 56-bit limb and a carry. */
  method Column56(products: u128, f: u64) returns (limb: u64, carry: u64)
    requires products < 6 * B2 && f < 8 * B1
    ensures products + f == carry * BASE + limb && 0 <= limb < BASE && 0 <= carry < 8 * B1
  {
    var c: u128 := products + f;
    SplitAt56(c);
    limb := c % WORD % BASE;
    carry := c / BASE;
  }

  lemma SplitAt40(c: int)
    requires 0 <= c
    ensures c % WORD % MASK40 == c % MASK40 && c == (c / MASK40) * MASK40 + c % MASK40
  {
    DivMod(c, WORD);
    var w := c % WORD;
    DivMod(w, MASK40);
    DivModUnique(c, MASK40, c / WORD * MASK24 + w / MASK40, w % MASK40);
  }

  /** The top column, of which only 40 bits are kept. */
  method ColumnTop40(products: u128, f: u64) returns (limb: u64, ghost k: int)
    requires products < 6 * B2 && f < 8 * B1
    ensures products + f == k * MASK40 + limb && 0 <= limb < MASK40
  {
    var c: u128 := products + f;
    SplitAt40(c);
    limb := c % WORD % MASK40;
    k := c / MASK40;
  }

  lemma ProductBounds(z0: int, z1: int, z2: int, z3: int, z4: int)
    requires 0 <= z0 < BASE && 0 <= z1 < BASE && 0 <= z2 < BASE && 0 <= z3 < BASE && 0 <= z4 < MASK40
    ensures 0 <= M0 * z0 < 6 * B2
    ensures 0 <= M0 * z1 + M1 * z0 < 6 * B2
    ensures 0 <= M0 * z2 + M2 * z0 + M1 * z1 < 6 * B2
    ensures 0 <= M0 * z3 + M3 * z0 + M1 * z2 + M2 * z1 < 6 * B2
    ensures 0 <= M0 * z4 + M4 * z0 + M3 * z1 + M1 * z3 + M2 * z2 < 6 * B2
  {
  }

  lemma ProductSum(z0: int, z1: int, z2: int, z3: int, z4: int,
                   r0: int, r1: int, r2: int, r3: int, r4: int, f0: int, f1: int, f2: int, f3: int, k4: int)
    requires M0 * z0 == f0 * BASE + r0
    requires M0 * z1 + M1 * z0 + f0 == f1 * BASE + r1
    requires M0 * z2 + M2 * z0 + M1 * z1 + f1 == f2 * BASE + r2
    requires M0 * z3 + M3 * z0 + M1 * z2 + M2 * z1 + f2 == f3 * BASE + r3
    requires M0 * z4 + M4 * z0 + M3 * z1 + M1 * z3 + M2 * z2 + f3 == k4 * MASK40 + r4
    ensures V5(z0, z1, z2, z3, z4) * M == V5(r0, r1, r2, r3, r4)
      + (k4 + MASK16 * V5(M1 * z4 + M4 * z1 + M2 * z3 + M3 * z2, M2 * z4 + M4 * z2 + M3 * z3,
                          M3 * z4 + M4 * z3, M4 * z4, 0)) * TWO264
  {
  }

  /** r2 = q3 * m mod 2^264. */
  method LowProduct(z0: u64, z1: u64, z2: u64, z3: u64, z4: u64)
    returns (r0: u64, r1: u64, r2: u64, r3: u64, r4: u64, ghost k: int)
    requires z0 < BASE && z1 < BASE && z2 < BASE && z3 < BASE && z4 < MASK40
    ensures r0 < BASE && r1 < BASE && r2 < BASE && r3 < BASE && r4 < MASK40
    ensures V5(z0, z1, z2, z3, z4) * M == V5(r0, r1, r2, r3, r4) + k * TWO264
  {
    ProductBounds(z0, z1, z2, z3, z4);
    var f0, f1, f2, f3;
    r0, f0 := Column56(M0 * z0, 0);
    r1, f1 := Column56(M0 * z1 + M1 * z0, f0);
    r2, f2 := Column56(M0 * z2 + M2 * z0 + M1 * z1, f1);
    r3, f3 := Column56(M0 * z3 + M3 * z0 + M1 * z2 + M2 * z1, f2);
    ghost var k4;
    r4, k4 := ColumnTop40(M0 * z4 + M4 * z0 + M3 * z1 + M1 * z3 + M2 * z2, f3);
    ProductSum(z0, z1, z2, z3, z4, r0, r1, r2, r3, r4, f0, f1, f2, f3, k4);
    k := k4 + MASK16 * V5(M1 * z4 + M4 * z1 + M2 * z3 + M3 * z2, M2 * z4 + M4 * z2 + M3 * z3,
                          M3 * z4 + M4 * z3, M4 * z4, 0);
  }

  /** Two numbers in [0, 2^264) that agree mod 2^264 are equal. */
  lemma SameMod264(x: int, y: int, k: int)
    requires 0 <= x < TWO264 && 0 <= y < TWO264 && x == y + k * TWO264
    ensures x == y
  {
  }

  /** Before the two conditional subtractions: x - q3 * m exactly, although only its
      low 264 bits were computed. */
  lemma Difference(x: int, z: int, a: int, s: int, t: int, ka: int, ks: int, kt: int)
    requires 0 <= x - z * M < 3 * M
    requires x == a + ka * TWO264 && z * M == s + ks * TWO264
    requires t == a - s + kt * TWO264 && 0 <= t < TWO264
    ensures t == x - z * M
  {
    Constants();
    SameMod264(t, x - z * M, kt - ka + ks);
  }

  lemma TwoSubtractions(y: int, x: int, z: int)
    requires y == x - z * M && 0 <= y < 3 * M
    ensures x % M == if y >= 2 * M then y - 2 * M else if y >= M then y - M else y
  {
    var k := if y >= 2 * M then 2 else if y >= M then 1 else 0;
    DivModUnique(x, M, z + k, y - k * M);
  }

  /** x - q3 * m, in [0, 3m), from the high and low parts of x. */
  method Residue(q0: u64, q1: u64, q2: u64, q3: u64, q4: u64, a0: u64, a1: u64, a2: u64, a3: u64, a4: u64, ghost x: int)
    returns (t0: u64, t1: u64, t2: u64, t3: u64, t4: u64, ghost z: int)
    requires q0 < BASE && q1 < BASE && q2 < BASE && q3 < BASE && q4 < MASK40
    requires a0 < BASE && a1 < BASE && a2 < BASE && a3 < BASE && a4 < MASK40
    requires 0 <= x < TWO512 && V5(q0, q1, q2, q3, q4) == x / TWO248 && V5(a0, a1, a2, a3, a4) == x % TWO264
    ensures t0 < BASE && t1 < BASE && t2 < BASE && t3 < BASE && t4 < MASK40
    ensures V5(t0, t1, t2, t3, t4) == x - z * M && 0 <= x - z * M < 3 * M
  {
    var z0, z1, z2, z3, z4, f3 := Quotient(q0, q1, q2, q3, q4);
    z := V5(z0, z1, z2, z3, z4);
    ghost var q := V5(q0, q1, q2, q3, q4);
    QuotientBounds(q0, q1, q2, q3, q4, f3, z);
    DivMod(x, TWO248);
    BarrettBound(x, q, x % TWO248, z);
    var s0, s1, s2, s3, s4, k := LowProduct(z0, z1, z2, z3, z4);
    var b;
    t0, t1, t2, t3, t4, b := Subtract5(a0, a1, a2, a3, a4, s0, s1, s2, s3, s4, MASK40);
    V5Bound(t0, t1, t2, t3, t4);
    DivMod(x, TWO264);
    Difference(x, z, V5(a0, a1, a2, a3, a4), V5(s0, s1, s2, s3, s4), V5(t0, t1, t2, t3, t4), x / TWO264, k, b);
  }

  lemma V5Bound(t0: int, t1: int, t2: int, t3: int, t4: int)
    requires 0 <= t0 < BASE && 0 <= t1 < BASE && 0 <= t2 < BASE && 0 <= t3 < BASE && 0 <= t4 < MASK40
    ensures 0 <= V5(t0, t1, t2, t3, t4) < TWO264
  {
  }

  /** barrett_reduce256_modm: from the high and low parts of any x below 2^512, the
      canonical x mod m.  `r` may be the same array as `r1`. */
  method Barrett(r: array<u64>, q1: array<u64>, r1: array<u64>, ghost x: int)
    requires 0 <= x < TWO512 && r.Length == 5 && Limbs(q1, MASK40) && Limbs(r1, MASK40) && q1 != r
    requires Val(q1) == x / TWO248 && Val(r1) == x % TWO264
    modifies r
    ensures Limbs(r, MASK32) && Val(r) == x % M
  {
    var t0, t1, t2, t3, t4, z := Residue(q1[0], q1[1], q1[2], q1[3], q1[4], r1[0], r1[1], r1[2], r1[3], r1[4], x);
    TwoSubtractions(V5(t0, t1, t2, t3, t4), x, z);
    r[0], r[1], r[2], r[3], r[4] := t0, t1, t2, t3, t4;
    Reduce(r);
    Reduce(r);
    CanonicalTop(r);
  }

  lemma CanonicalTop(r: array<u64>)
    requires Limbs(r, SIGN) && Val(r) < M
    ensures Limbs(r, MASK32)
  {
  }

  // ---------- addition and multiplication ----------

  method CarryLimb(c: u64, x: u64, y: u64) returns (limb: u64, carry: u64)
    requires c <= 1 && x < BASE && y < BASE
    ensures c + x + y == carry * BASE + limb && limb < BASE && carry <= 1
  {
    var t: u64 := c + x + y;
    limb, carry := t % BASE, t / BASE;
  }

  method AddLimbs(x0: u64, x1: u64, x2: u64, x3: u64, x4: u64, y0: u64, y1: u64, y2: u64, y3: u64, y4: u64)
    returns (t0: u64, t1: u64, t2: u64, t3: u64, c: u64)
    requires x0 < BASE && x1 < BASE && x2 < BASE && x3 < BASE && x4 < MASK32
    requires y0 < BASE && y1 < BASE && y2 < BASE && y3 < BASE && y4 < MASK32
    ensures t0 < BASE && t1 < BASE && t2 < BASE && t3 < BASE && c < SIGN
    ensures V5(t0, t1, t2, t3, c) == V5(x0, x1, x2, x3, x4) + V5(y0, y1, y2, y3, y4)
  {
    var c0, c1, c2, c3;
    t0, c0 := CarryLimb(0, x0, y0);
    t1, c1 := CarryLimb(c0, x1, y1);
    t2, c2 := CarryLimb(c1, x2, y2);
    t3, c3 := CarryLimb(c2, x3, y3);
    c := c3 + x4 + y4;
  }

  /** One conditional subtraction is enough for a sum of two reduced numbers. */
  method ReduceSum(r: array<u64>, ghost sum: int)
    requires Limbs(r, SIGN) && Val(r) == sum && 0 <= sum < 2 * M
    modifies r
    ensures Limbs(r, MASK32) && Val(r) == sum % M
  {
    SumMod(sum);
    Reduce(r);
    CanonicalTop(r);
  }

  /** add256_modm; `r` may be `x` or `y`. */
  method Add256(r: array<u64>, x: array<u64>, y: array<u64>)
    requires r.Length == 5 && Limbs(x, MASK32) && Limbs(y, MASK32) && Val(x) < M && Val(y) < M
    modifies r
    ensures Limbs(r, MASK32) && Val(r) == (old(Val(x)) + old(Val(y))) % M
  {
    ghost var sum := Val(x) + Val(y);
    r[0], r[1], r[2], r[3], r[4] := AddLimbs(x[0], x[1], x[2], x[3], x[4], y[0], y[1], y[2], y[3], y[4]);
    ReduceSum(r, sum);
  }

  lemma SumMod(sum: int)
    requires 0 <= sum < 2 * M
    ensures sum % M == if sum >= M then sum - M else sum
  {
    if sum >= M { DivModUnique(sum, M, 1, sum - M); } else { DivModUnique(sum, M, 0, sum); }
  }

  /** One product column of which the low 24 bits go to one limb and the next 32 to another. */
  method Column24(products: u128, f: u64) returns (low: u64, high: u64, carry: u64, ghost bits: int)
    requires products < 6 * B2 && f < 8 * B1
    ensures products + f == carry * BASE + high * MASK24 + bits && 0 <= bits < MASK24 && 0 <= high < MASK32
    ensures carry < 8 * B1
    ensures low == bits * MASK32 && low % MASK32 == 0
  {
    var c: u128 := products + f;
    var w := c % WORD;
    high := w / MASK24 % MASK32;
    low := w * MASK32 % WORD % BASE;
    carry := c / BASE;
    ShiftMask(w, MASK32, MASK24, BASE, 256);
    SplitColumn(c, MASK24, MASK32);
    bits := w % MASK24;
    ModMultiple(bits, MASK32);
  }

  lemma Term(x: int, y: int)
    requires 0 <= x < BASE && 0 <= y < BASE
    ensures 0 <= x * y < B2
  {
    MulMono(x, BASE, y);
    MulMono(y, BASE, BASE);
    MulPos(x, y);
  }

  lemma Times5(x: int, y0: int, y1: int, y2: int, y3: int, y4: int)
    ensures x * V5(y0, y1, y2, y3, y4) == V5(x * y0, x * y1, x * y2, x * y3, x * y4)
  {
    Assoc(x, y1, B1);
    Assoc(x, y2, B2);
    Assoc(x, y3, B3);
    Assoc(x, y4, B4);
    assert x * V5(y0, y1, y2, y3, y4) == x * y0 + x * (y1 * B1) + x * (y2 * B2) + x * (y3 * B3) + x * (y4 * B4);
  }

  /** Five rows of five products, regrouped by column. */
  lemma GroupColumns(p00: int, p01: int, p02: int, p03: int, p04: int, p10: int, p11: int, p12: int, p13: int, p14: int,
                     p20: int, p21: int, p22: int, p23: int, p24: int, p30: int, p31: int, p32: int, p33: int, p34: int,
                     p40: int, p41: int, p42: int, p43: int, p44: int)
    ensures V5(V5(p00, p01, p02, p03, p04), V5(p10, p11, p12, p13, p14), V5(p20, p21, p22, p23, p24),
               V5(p30, p31, p32, p33, p34), V5(p40, p41, p42, p43, p44))
      == V5(p00, p01 + p10, p02 + p20 + p11, p03 + p30 + p12 + p21, p04 + p40 + p31 + p13 + p22)
         + TWO280 * V5(p41 + p14 + p23 + p32, p42 + p24 + p33, p43 + p34, p44, 0)
  {
  }

  lemma ProductRows(x0: int, x1: int, x2: int, x3: int, x4: int, y0: int, y1: int, y2: int, y3: int, y4: int)
    ensures V5(x0, x1, x2, x3, x4) * V5(y0, y1, y2, y3, y4)
      == V5(V5(x0 * y0, x0 * y1, x0 * y2, x0 * y3, x0 * y4), V5(x1 * y0, x1 * y1, x1 * y2, x1 * y3, x1 * y4),
            V5(x2 * y0, x2 * y1, x2 * y2, x2 * y3, x2 * y4), V5(x3 * y0, x3 * y1, x3 * y2, x3 * y3, x3 * y4),
            V5(x4 * y0, x4 * y1, x4 * y2, x4 * y3, x4 * y4))
  {
    var y := V5(y0, y1, y2, y3, y4);
    Times5(y, x0, x1, x2, x3, x4);
    Times5(x0, y0, y1, y2, y3, y4);
    Times5(x1, y0, y1, y2, y3, y4);
    Times5(x2, y0, y1, y2, y3, y4);
    Times5(x3, y0, y1, y2, y3, y4);
    Times5(x4, y0, y1, y2, y3, y4);
    assert V5(x0, x1, x2, x3, x4) * y == y * V5(x0, x1, x2, x3, x4);
  }

  /** The product of two five-limb numbers, column by column. */
  lemma ProductColumns(x0: int, x1: int, x2: int, x3: int, x4: int, y0: int, y1: int, y2: int, y3: int, y4: int)
    ensures V5(x0, x1, x2, x3, x4) * V5(y0, y1, y2, y3, y4)
      == V5(x0 * y0, x0 * y1 + x1 * y0, x0 * y2 + x2 * y0 + x1 * y1,
            x0 * y3 + x3 * y0 + x1 * y2 + x2 * y1,
            x0 * y4 + x4 * y0 + x3 * y1 + x1 * y3 + x2 * y2)
         + TWO280 * V5(x4 * y1 + x1 * y4 + x2 * y3 + x3 * y2, x4 * y2 + x2 * y4 + x3 * y3,
                       x4 * y3 + x3 * y4, x4 * y4, 0)
  {
    ProductRows(x0, x1, x2, x3, x4, y0, y1, y2, y3, y4);
    GroupColumns(x0 * y0, x0 * y1, x0 * y2, x0 * y3, x0 * y4, x1 * y0, x1 * y1, x1 * y2, x1 * y3, x1 * y4,
                 x2 * y0, x2 * y1, x2 * y2, x2 * y3, x2 * y4, x3 * y0, x3 * y1, x3 * y2, x3 * y3, x3 * y4,
                 x4 * y0, x4 * y1, x4 * y2, x4 * y3, x4 * y4);
  }

  lemma RowBounds(x: int, y0: int, y1: int, y2: int, y3: int, y4: int)
    requires 0 <= x < BASE && 0 <= y0 < BASE && 0 <= y1 < BASE && 0 <= y2 < BASE && 0 <= y3 < BASE && 0 <= y4 < BASE
    ensures 0 <= x * y0 < B2 && 0 <= x * y1 < B2 && 0 <= x * y2 < B2 && 0 <= x * y3 < B2 && 0 <= x * y4 < B2
  {
    Term(x, y0); Term(x, y1); Term(x, y2); Term(x, y3); Term(x, y4);
  }

  /** Column 4 straddles both parts: its low 40 bits belong to r1 and its bits from 24 up to q1. */
  method Column4(products: u128, f: u64) returns (low40: u64, high: u64, carry: u64, ghost bits: int)
    requires products < 6 * B2 && f < 8 * B1
    ensures products + f == carry * BASE + high * MASK24 + bits && 0 <= bits < MASK24 && 0 <= high < MASK32
    ensures carry < 8 * B1
    ensures low40 == high % MASK16 * MASK24 + bits
  {
    var c: u128 := products + f;
    var w := c % WORD;
    low40 := w % MASK40;
    high := w / MASK24 % MASK32;
    carry := c / BASE;
    SplitColumn(c, MASK24, MASK32);
    bits := w % MASK24;
    LowForty(w);
  }

  lemma LowForty(w: int)
    requires 0 <= w < WORD
    ensures w % MASK40 == w / MASK24 % MASK32 % MASK16 * MASK24 + w % MASK24
  {
    var q := w / MASK24;
    DivMod(w, MASK24);
    DivMod(q, MASK32);
    DivMod(q % MASK32, MASK16);
    DivModUnique(w, MASK40, q / MASK32 * MASK16 + q % MASK32 / MASK16, q % MASK32 % MASK16 * MASK24 + w % MASK24);
  }

  /** The products as columns, each in range. */
  lemma MulBounds(x0: u64, x1: u64, x2: u64, x3: u64, x4: u64, y0: u64, y1: u64, y2: u64, y3: u64, y4: u64)
    requires x0 < BASE && x1 < BASE && x2 < BASE && x3 < BASE && x4 < BASE
    requires y0 < BASE && y1 < BASE && y2 < BASE && y3 < BASE && y4 < BASE
    ensures 0 <= x0 * y0 < 6 * B2 && 0 <= x0 * y1 + x1 * y0 < 6 * B2
    ensures 0 <= x0 * y2 + x2 * y0 + x1 * y1 < 6 * B2
    ensures 0 <= x0 * y3 + x3 * y0 + x1 * y2 + x2 * y1 < 6 * B2
    ensures 0 <= x0 * y4 + x4 * y0 + x3 * y1 + x1 * y3 + x2 * y2 < 6 * B2
    ensures 0 <= x4 * y1 + x1 * y4 + x2 * y3 + x3 * y2 < 6 * B2
    ensures 0 <= x4 * y2 + x2 * y4 + x3 * y3 < 6 * B2
    ensures 0 <= x4 * y3 + x3 * y4 < 6 * B2 && 0 <= x4 * y4 < 6 * B2
  {
    RowBounds(x0, y0, y1, y2, y3, y4);
    RowBounds(x1, y0, y1, y2, y3, y4);
    RowBounds(x2, y0, y1, y2, y3, y4);
    RowBounds(x3, y0, y1, y2, y3, y4);
    RowBounds(x4, y0, y1, y2, y3, y4);
  }

  /** `h | l` for the 32 low bits of a limb and the 24 bits above them. */
  method Join(h: u64, l: u64, ghost bits: int) returns (limb: u64)
    requires h < MASK32 && l == bits * MASK32 && 0 <= bits < MASK24 && l % MASK32 == 0
    ensures limb == h + bits * MASK32 && limb < BASE
  {
    limb := Or(h, l, MASK32);
  }

  /** Columns 0 to 4: the low 264 bits. */
  method LowColumns(c0: u128, c1: u128, c2: u128, c3: u128, c4: u128)
    returns (r0: u64, r1: u64, r2: u64, r3: u64, r4: u64, h4: u64, n4: u64, ghost b4: int)
    requires c0 < 6 * B2 && c1 < 6 * B2 && c2 < 6 * B2 && c3 < 6 * B2 && c4 < 6 * B2
    ensures r0 < BASE && r1 < BASE && r2 < BASE && r3 < BASE && h4 < MASK32 && n4 < 8 * B1 && 0 <= b4 < MASK24
    ensures r4 == h4 % MASK16 * MASK24 + b4
    ensures V5(c0, c1, c2, c3, c4) == V5(r0, r1, r2, r3, n4 * BASE + h4 * MASK24 + b4)
  {
    var f0, f1, f2, f3;
    r0, f0 := Column56(c0, 0);
    r1, f1 := Column56(c1, f0);
    r2, f2 := Column56(c2, f1);
    r3, f3 := Column56(c3, f2);
    r4, h4, n4, b4 := Column4(c4, f3);
  }

  /** Columns 5 to 8 on top of the 32 high bits of column 4: everything from bit 248 up. */
  method HighBits(h4: u64, n4: u64, c5: u128, c6: u128, c7: u128, c8: u128)
    returns (q0: u64, q1: u64, q2: u64, q3: u64, q4: int)
    requires h4 < MASK32 && n4 < 8 * B1 && c5 < 6 * B2 && c6 < 6 * B2 && c7 < 6 * B2 && c8 < 6 * B2
    ensures q0 < BASE && q1 < BASE && q2 < BASE && q3 < BASE && 0 <= q4
    ensures q0 % MASK32 == h4
    ensures V5(q0, q1, q2, q3, q4) == h4 + MASK32 * (n4 + V5(c5, c6, c7, c8, 0))
  {
    var l5, h5, n5, b5 := Column24(c5, n4);
    var l6, h6, n6, b6 := Column24(c6, n5);
    var l7, h7, n7, b7 := Column24(c7, n6);
    var l8, h8, n8, b8 := Column24(c8, n7);
    q0 := Join(h4, l5, b5);
    q1 := Join(h5, l6, b6);
    q2 := Join(h6, l7, b7);
    q3 := Join(h7, l8, b8);
    ModMultiple(n8, MASK32);
    q4 := Or(h8, n8 * MASK32, MASK32);
    DivModUnique(q0, MASK32, b5, h4);
    HighSum(c5, c6, c7, c8, n4, n5, n6, n7, n8, h4, h5, h6, h7, h8, b5, b6, b7, b8);
  }

  lemma HighSum(c5: int, c6: int, c7: int, c8: int, n4: int, n5: int, n6: int, n7: int, n8: int,
                h4: int, h5: int, h6: int, h7: int, h8: int, b5: int, b6: int, b7: int, b8: int)
    requires c5 + n4 == n5 * BASE + h5 * MASK24 + b5 && c6 + n5 == n6 * BASE + h6 * MASK24 + b6
    requires c7 + n6 == n7 * BASE + h7 * MASK24 + b7 && c8 + n7 == n8 * BASE + h8 * MASK24 + b8
    ensures V5(h4 + b5 * MASK32, h5 + b6 * MASK32, h6 + b7 * MASK32, h7 + b8 * MASK32, h8 + n8 * MASK32)
      == h4 + MASK32 * (n4 + V5(c5, c6, c7, c8, 0))
  {
  }

  /** The parts are the quotient by 2^248 and the remainder by 2^264 of the product. */
  lemma PartsOf(p: int, c: int, d: int, q: int, r0: int, r1: int, r2: int, r3: int, r4: int, h4: int, n4: int, b4: int)
    requires p == c + TWO280 * d && 0 <= h4 < MASK32 && 0 <= b4 < MASK24
    requires 0 <= r0 < BASE && 0 <= r1 < BASE && 0 <= r2 < BASE && 0 <= r3 < BASE && r4 == h4 % MASK16 * MASK24 + b4
    requires c == V5(r0, r1, r2, r3, n4 * BASE + h4 * MASK24 + b4)
    requires q == h4 + MASK32 * (n4 + d)
    ensures q == p / TWO248 && V5(r0, r1, r2, r3, r4) == p % TWO264 && 0 <= r4 < MASK40
  {
    var low := V5(r0, r1, r2, r3, b4);
    assert p == q * TWO248 + low;
    DivModUnique(p, TWO248, q, low);
    var e := h4 / MASK16;
    V5Bound(r0, r1, r2, r3, r4);
    assert p == (e + MASK16 * (n4 + d)) * TWO264 + V5(r0, r1, r2, r3, r4);
    DivModUnique(p, TWO264, e + MASK16 * (n4 + d), V5(r0, r1, r2, r3, r4));
  }

  lemma TopOfQuotient(p: int, q0: int, q1: int, q2: int, q3: int, q4: int)
    requires 0 <= p < TWO512 && V5(q0, q1, q2, q3, q4) == p / TWO248
    requires 0 <= q0 && 0 <= q1 && 0 <= q2 && 0 <= q3 && 0 <= q4
    ensures q4 < MASK40
  {
  }

  /** From the nine columns of a product p below 2^512 to its high and its low part, as
      barrett_reduce256_modm takes them. */
  method SplitProduct(c0: u128, c1: u128, c2: u128, c3: u128, c4: u128, c5: u128, c6: u128, c7: u128, c8: u128,
                      ghost p: int)
    returns (q0: u64, q1: u64, q2: u64, q3: u64, q4: u64, r0: u64, r1: u64, r2: u64, r3: u64, r4: u64)
    requires c0 < 6 * B2 && c1 < 6 * B2 && c2 < 6 * B2 && c3 < 6 * B2 && c4 < 6 * B2
    requires c5 < 6 * B2 && c6 < 6 * B2 && c7 < 6 * B2 && c8 < 6 * B2
    requires 0 <= p < TWO512 && p == V5(c0, c1, c2, c3, c4) + TWO280 * V5(c5, c6, c7, c8, 0)
    ensures q0 < BASE && q1 < BASE && q2 < BASE && q3 < BASE && q4 < MASK40
    ensures r0 < BASE && r1 < BASE && r2 < BASE && r3 < BASE && r4 < MASK40
    ensures V5(q0, q1, q2, q3, q4) == p / TWO248 && V5(r0, r1, r2, r3, r4) == p % TWO264
  {
    var h4, n4, top;
    ghost var b4;
    r0, r1, r2, r3, r4, h4, n4, b4 := LowColumns(c0, c1, c2, c3, c4);
    q0, q1, q2, q3, top := HighBits(h4, n4, c5, c6, c7, c8);
    PartsOf(p, V5(c0, c1, c2, c3, c4), V5(c5, c6, c7, c8, 0), V5(q0, q1, q2, q3, top), r0, r1, r2, r3, r4, h4, n4, b4);
    TopOfQuotient(p, q0, q1, q2, q3, top);
    q4 := top;
  }

  /** The column sums of x * y. */
  method ProductSums(x0: u64, x1: u64, x2: u64, x3: u64, x4: u64, y0: u64, y1: u64, y2: u64, y3: u64, y4: u64)
    returns (c0: u128, c1: u128, c2: u128, c3: u128, c4: u128, c5: u128, c6: u128, c7: u128, c8: u128)
    requires x0 < BASE && x1 < BASE && x2 < BASE && x3 < BASE && x4 < BASE
    requires y0 < BASE && y1 < BASE && y2 < BASE && y3 < BASE && y4 < BASE
    ensures c0 < 6 * B2 && c1 < 6 * B2 && c2 < 6 * B2 && c3 < 6 * B2 && c4 < 6 * B2
    ensures c5 < 6 * B2 && c6 < 6 * B2 && c7 < 6 * B2 && c8 < 6 * B2
    ensures V5(c0, c1, c2, c3, c4) + TWO280 * V5(c5, c6, c7, c8, 0) == V5(x0, x1, x2, x3, x4) * V5(y0, y1, y2, y3, y4)
  {
    MulBounds(x0, x1, x2, x3, x4, y0, y1, y2, y3, y4);
    ProductColumns(x0, x1, x2, x3, x4, y0, y1, y2, y3, y4);
    c0, c1, c2 := x0 * y0, x0 * y1 + x1 * y0, x0 * y2 + x2 * y0 + x1 * y1;
    c3, c4 := x0 * y3 + x3 * y0 + x1 * y2 + x2 * y1, x0 * y4 + x4 * y0 + x3 * y1 + x1 * y3 + x2 * y2;
    c5, c6 := x4 * y1 + x1 * y4 + x2 * y3 + x3 * y2, x4 * y2 + x2 * y4 + x3 * y3;
    c7, c8 := x4 * y3 + x3 * y4, x4 * y4;
  }

  /** mul256_modm; `r` may be `x` or `y`. */
  method Mul256(r: array<u64>, x: array<u64>, y: array<u64>)
    requires r.Length == 5 && Limbs(x, BASE) && Limbs(y, BASE) && Val(x) * Val(y) < TWO512
    modifies r
    ensures Limbs(r, MASK32) && Val(r) == (old(Val(x)) * old(Val(y))) % M
  {
    ghost var p := Val(x) * Val(y);
    MulPos(Val(x), Val(y));
    var c0, c1, c2, c3, c4, c5, c6, c7, c8 :=
      ProductSums(x[0], x[1], x[2], x[3], x[4], y[0], y[1], y[2], y[3], y[4]);
    var q1, r1 := new u64[5], new u64[5];
    q1[0], q1[1], q1[2], q1[3], q1[4], r1[0], r1[1], r1[2], r1[3], r1[4] :=
      SplitProduct(c0, c1, c2, c3, c4, c5, c6, c7, c8, p);
    Barrett(r, q1, r1, p);
  }
}

/**
  Arithmetic modulo p = 2^255 - 19 in five limbs of 51 bits: multiplication and
  squaring with their carry chains, congruence and range together.
 */
module Field25519 {
  import opened Arith
  import opened Words

  const P: int := 0x7fffffffffffffffffffffffffffffffffffffffffffffffffffffffffffffed
  const W1: int := 0x8000000000000
  const W2: int := 0x40000000000000000000000000
  const W3: int := 0x200000000000000000000000000000000000000
  const W4: int := 0x1000000000000000000000000000000000000000000000000000
  const W5: int := 0x8000000000000000000000000000000000000000000000000000000000000000
  const TWO52: int := 0x10000000000000
  const TWO54: int := 0x40000000000000
  const TWO108: int := 0x1000000000000000000000000000

  function F5(a0: int, a1: int, a2: int, a3: int, a4: int): int
  {
    a0 + a1 * W1 + a2 * W2 + a3 * W3 + a4 * W4
  }

  function FVal(a: array<u64>): int
    requires a.Length == 5
    reads a
  {
    F5(a[0], a[1], a[2], a[3], a[4])
  }

  predicate LimbsBelow(a: array<u64>, bound: int)
    reads a
  {
    a.Length == 5 && forall i :: 0 <= i < 5 ==> a[i] < bound
  }

  // ---------- congruence ----------

  predicate Cong(x: int, y: int) { (x - y) % P == 0 }

  lemma CongBy(x: int, y: int, k: int)
    requires x == y + k * P
    ensures Cong(x, y)
  {
    ModMultiple(k, P);
  }

  lemma CongWitness(x: int, y: int) returns (k: int)
    requires Cong(x, y)
    ensures x == y + k * P
  {
    DivMod(x - y, P);
    k := (x - y) / P;
  }

  lemma CongTrans(x: int, y: int, z: int)
    requires Cong(x, y) && Cong(y, z)
    ensures Cong(x, z)
  {
    ModZeroSum(x - y, y - z, P);
  }

  lemma CongSym(x: int, y: int)
    requires Cong(x, y)
    ensures Cong(y, x)
  {
    ModZeroSum(0, x - y, P);
  }

  lemma CongMul(x: int, y: int, u: int, v: int)
    requires Cong(x, y) && Cong(u, v)
    ensures Cong(x * u, y * v)
  {
    ModZeroMul(x - y, u, P);
    ModZeroMul(u - v, y, P);
    assert (x - y) * u + (u - v) * y == x * u - y * v;
    ModZeroSum((x - y) * u, (u - v) * y, P);
  }

  /** Congruent numbers have the same remainder. */
  lemma CongMod(x: int, y: int)
    requires Cong(x, y)
    ensures x % P == y % P
  {
    var k := CongWitness(x, y);
    DivMod(y, P);
    Dist(y / P, k, P);
    DivModUnique(x, P, y / P + k, y % P);
  }

  // ---------- products, column by column ----------

  lemma Times5(x: int, s0: int, s1: int, s2: int, s3: int, s4: int)
    ensures x * F5(s0, s1, s2, s3, s4) == F5(x * s0, x * s1, x * s2, x * s3, x * s4)
  {
    Assoc(x, s1, W1);
    Assoc(x, s2, W2);
    Assoc(x, s3, W3);
    Assoc(x, s4, W4);
    Add5(x, s0, s1 * W1, s2 * W2, s3 * W3, s4 * W4);
  }

  lemma Add5(x: int, a: int, b: int, c: int, d: int, e: int)
    ensures x * (a + b + c + d + e) == x * a + x * b + x * c + x * d + x * e
  {
  }

  /** Grouping 25 products by weight; weight 2^255 and up comes back 19-fold. */
  lemma GroupColumns(p00: int, p01: int, p02: int, p03: int, p04: int, p10: int, p11: int, p12: int, p13: int, p14: int,
                     p20: int, p21: int, p22: int, p23: int, p24: int, p30: int, p31: int, p32: int, p33: int, p34: int,
                     p40: int, p41: int, p42: int, p43: int, p44: int)
    ensures F5(F5(p00, p01, p02, p03, p04), F5(p10, p11, p12, p13, p14), F5(p20, p21, p22, p23, p24),
               F5(p30, p31, p32, p33, p34), F5(p40, p41, p42, p43, p44))
      == F5(p00 + 19 * (p41 + p14 + p23 + p32),
            p01 + p10 + 19 * (p42 + p24 + p33),
            p02 + p20 + p11 + 19 * (p43 + p34),
            p03 + p30 + p12 + p21 + 19 * p44,
            p04 + p40 + p31 + p13 + p22)
         + F5(p41 + p14 + p23 + p32, p42 + p24 + p33, p43 + p34, p44, 0) * P
  {
  }

  /** A product as five rows of five products. */
  lemma ProductRows(r0: int, r1: int, r2: int, r3: int, r4: int, s0: int, s1: int, s2: int, s3: int, s4: int)
    ensures F5(r0, r1, r2, r3, r4) * F5(s0, s1, s2, s3, s4)
      == F5(F5(r0 * s0, r0 * s1, r0 * s2, r0 * s3, r0 * s4), F5(r1 * s0, r1 * s1, r1 * s2, r1 * s3, r1 * s4),
            F5(r2 * s0, r2 * s1, r2 * s2, r2 * s3, r2 * s4), F5(r3 * s0, r3 * s1, r3 * s2, r3 * s3, r3 * s4),
            F5(r4 * s0, r4 * s1, r4 * s2, r4 * s3, r4 * s4))
  {
    var s := F5(s0, s1, s2, s3, s4);
    Times5(s, r0, r1, r2, r3, r4);
    Times5(r0, s0, s1, s2, s3, s4);
    Times5(r1, s0, s1, s2, s3, s4);
    Times5(r2, s0, s1, s2, s3, s4);
    Times5(r3, s0, s1, s2, s3, s4);
    Times5(r4, s0, s1, s2, s3, s4);
    assert F5(r0, r1, r2, r3, r4) * s == s * F5(r0, r1, r2, r3, r4);
  }

  /** Column k of the product, folded at 2^255. */
  ghost predicate Columns(r0: int, r1: int, r2: int, r3: int, r4: int, s0: int, s1: int, s2: int, s3: int, s4: int,
                          t0: int, t1: int, t2: int, t3: int, t4: int)
  {
    && t0 == r0 * s0 + 19 * (r4 * s1 + r1 * s4 + r2 * s3 + r3 * s2)
    && t1 == r0 * s1 + r1 * s0 + 19 * (r4 * s2 + r2 * s4 + r3 * s3)
    && t2 == r0 * s2 + r2 * s0 + r1 * s1 + 19 * (r4 * s3 + r3 * s4)
    && t3 == r0 * s3 + r3 * s0 + r1 * s2 + r2 * s1 + 19 * (r4 * s4)
    && t4 == r0 * s4 + r4 * s0 + r3 * s1 + r1 * s3 + r2 * s2
  }

  /** The folded columns hold the product, up to a multiple of p. */
  lemma ColumnsHoldProduct(r0: int, r1: int, r2: int, r3: int, r4: int, s0: int, s1: int, s2: int, s3: int, s4: int,
                           t0: int, t1: int, t2: int, t3: int, t4: int)
    requires Columns(r0, r1, r2, r3, r4, s0, s1, s2, s3, s4, t0, t1, t2, t3, t4)
    ensures Cong(F5(r0, r1, r2, r3, r4) * F5(s0, s1, s2, s3, s4), F5(t0, t1, t2, t3, t4))
  {
    ProductRows(r0, r1, r2, r3, r4, s0, s1, s2, s3, s4);
    GroupColumns(r0 * s0, r0 * s1, r0 * s2, r0 * s3, r0 * s4, r1 * s0, r1 * s1, r1 * s2, r1 * s3, r1 * s4,
                 r2 * s0, r2 * s1, r2 * s2, r2 * s3, r2 * s4, r3 * s0, r3 * s1, r3 * s2, r3 * s3, r3 * s4,
                 r4 * s0, r4 * s1, r4 * s2, r4 * s3, r4 * s4);
    CongBy(F5(r0, r1, r2, r3, r4) * F5(s0, s1, s2, s3, s4), F5(t0, t1, t2, t3, t4),
           F5(r4 * s1 + r1 * s4 + r2 * s3 + r3 * s2, r4 * s2 + r2 * s4 + r3 * s3, r4 * s3 + r3 * s4, r4 * s4, 0));
  }

  // ---------- carry chains ----------

  /** One step of a carry chain: add the carry, keep 51 bits, pass the rest on. */
  method CarryStep(t: u128, c: u64) returns (limb: u64, carry: u64)
    requires t < 80 * TWO108
    ensures t + c == carry * W1 + limb && 0 <= limb < W1 && carry * W1 <= t + c
  {
    var sum: u128 := t + c;
    SplitAt51(sum);
    limb := sum % WORD % W1;
    carry := sum / W1;
  }

  lemma SplitAt51(x: int)
    requires 0 <= x < 81 * TWO108
    ensures x % WORD % W1 == x % W1 && x == (x / W1) * W1 + x % W1 && 0 <= x / W1 < WORD
  {
    DivMod(x, WORD);
    var w := x % WORD;
    DivMod(w, W1);
    DivModUnique(x, W1, x / WORD * 0x2000 + w / W1, w % W1);
  }

  /** The chain of curve25519_mul and curve25519_square: from folded columns to limbs. */
  method CarryChain(t0: u128, t1: u128, t2: u128, t3: u128, t4: u128)
    returns (r0: u64, r1: u64, r2: u64, r3: u64, r4: u64)
    requires t0 < 80 * TWO108 && t1 < 80 * TWO108 && t2 < 80 * TWO108 && t3 < 80 * TWO108 && t4 < 5 * TWO108
    ensures r0 < W1 && r1 < TWO52 && r2 < W1 && r3 < W1 && r4 < W1
    ensures Cong(F5(t0, t1, t2, t3, t4), F5(r0, r1, r2, r3, r4))
  {
    var a0, c0 := CarryStep(t0, 0);
    var a1, c1 := CarryStep(t1, c0);
    var a2, c2 := CarryStep(t2, c1);
    var a3, c3 := CarryStep(t3, c2);
    var a4, c4 := CarryStep(t4, c3);
    var w: u64 := a0 + c4 * 19;
    r0 := w % W1;
    r1 := a1 + w / W1;
    r2, r3, r4 := a2, a3, a4;
    ChainSum(t0, t1, t2, t3, t4, a0, a1, a2, a3, a4, c0, c1, c2, c3, c4, w);
  }

  lemma ChainSum(t0: int, t1: int, t2: int, t3: int, t4: int, a0: int, a1: int, a2: int, a3: int, a4: int,
                 c0: int, c1: int, c2: int, c3: int, c4: int, w: int)
    requires t0 == c0 * W1 + a0 && t1 + c0 == c1 * W1 + a1 && t2 + c1 == c2 * W1 + a2
    requires t3 + c2 == c3 * W1 + a3 && t4 + c3 == c4 * W1 + a4 && w == a0 + c4 * 19
    ensures Cong(F5(t0, t1, t2, t3, t4), F5(w % W1, a1 + w / W1, a2, a3, a4))
  {
    DivMod(w, W1);
    CongBy(F5(t0, t1, t2, t3, t4), F5(w % W1, a1 + w / W1, a2, a3, a4), c4);
  }

  // ---------- multiplication ----------

  lemma Term(x: int, y: int)
    requires 0 <= x < TWO54 && 0 <= y < TWO54
    ensures 0 <= x * y < TWO108
  {
    MulMono(x, TWO54 - 1, y);
    MulMono(y, TWO54 - 1, TWO54 - 1);
    MulPos(x, y);
  }

  lemma Row(x: int, s0: int, s1: int, s2: int, s3: int, s4: int)
    requires 0 <= x < TWO54 && 0 <= s0 < TWO54 && 0 <= s1 < TWO54 && 0 <= s2 < TWO54 && 0 <= s3 < TWO54
      && 0 <= s4 < TWO54
    ensures 0 <= x * s0 < TWO108 && 0 <= x * s1 < TWO108 && 0 <= x * s2 < TWO108 && 0 <= x * s3 < TWO108
      && 0 <= x * s4 < TWO108
  {
    Term(x, s0);
    Term(x, s1);
    Term(x, s2);
    Term(x, s3);
    Term(x, s4);
  }

  lemma Nineteen(q: int, r: int, s: int)
    requires q == r * 19
    ensures q * s == 19 * (r * s)
  {
  }

  lemma NineteenRow(q: int, r: int, s0: int, s1: int, s2: int, s3: int, s4: int)
    requires q == r * 19
    ensures q * s1 == 19 * (r * s1) && q * s2 == 19 * (r * s2) && q * s3 == 19 * (r * s3) && q * s4 == 19 * (r * s4)
  {
    Nineteen(q, r, s1);
    Nineteen(q, r, s2);
    Nineteen(q, r, s3);
    Nineteen(q, r, s4);
  }

  /** The columns as the code computes them, with the 19-fold limbs q_i = 19 * r_i. */
  lemma MulBounds(r0: u64, r1: u64, r2: u64, r3: u64, r4: u64, q1: u64, q2: u64, q3: u64, q4: u64, s0: u64, s1: u64,
                  s2: u64, s3: u64, s4: u64)
    requires r0 < TWO54 && r1 < TWO54 && r2 < TWO54 && r3 < TWO54 && r4 < TWO54
    requires s0 < TWO54 && s1 < TWO54 && s2 < TWO54 && s3 < TWO54 && s4 < TWO54
    requires q1 == r1 * 19 && q2 == r2 * 19 && q3 == r3 * 19 && q4 == r4 * 19
    ensures Columns(r0, r1, r2, r3, r4, s0, s1, s2, s3, s4,
      r0 * s0 + (q4 * s1 + q1 * s4 + q2 * s3 + q3 * s2),
      r0 * s1 + r1 * s0 + (q4 * s2 + q2 * s4 + q3 * s3),
      r0 * s2 + r2 * s0 + r1 * s1 + (q4 * s3 + q3 * s4),
      r0 * s3 + r3 * s0 + r1 * s2 + r2 * s1 + q4 * s4,
      r0 * s4 + r4 * s0 + r3 * s1 + r1 * s3 + r2 * s2)
    ensures 0 <= r0 * s0 + (q4 * s1 + q1 * s4 + q2 * s3 + q3 * s2) < 80 * TWO108
    ensures 0 <= r0 * s1 + r1 * s0 + (q4 * s2 + q2 * s4 + q3 * s3) < 80 * TWO108
    ensures 0 <= r0 * s2 + r2 * s0 + r1 * s1 + (q4 * s3 + q3 * s4) < 80 * TWO108
    ensures 0 <= r0 * s3 + r3 * s0 + r1 * s2 + r2 * s1 + q4 * s4 < 80 * TWO108
    ensures 0 <= r0 * s4 + r4 * s0 + r3 * s1 + r1 * s3 + r2 * s2 < 5 * TWO108
  {
    Row(r0, s0, s1, s2, s3, s4);
    Row(r1, s0, s1, s2, s3, s4);
    Row(r2, s0, s1, s2, s3, s4);
    Row(r3, s0, s1, s2, s3, s4);
    Row(r4, s0, s1, s2, s3, s4);
    NineteenRow(q1, r1, s0, s1, s2, s3, s4);
    NineteenRow(q2, r2, s0, s1, s2, s3, s4);
    NineteenRow(q3, r3, s0, s1, s2, s3, s4);
    NineteenRow(q4, r4, s0, s1, s2, s3, s4);
  }

  /** Limbs that have been computed are stored last, so that `out` may be an operand. */
  method Write(out: array<u64>, o0: u64, o1: u64, o2: u64, o3: u64, o4: u64)
    requires out.Length == 5 && o0 < TWO52 && o1 < TWO52 && o2 < TWO52 && o3 < TWO52 && o4 < TWO52
    modifies out
    ensures LimbsBelow(out, TWO52) && FVal(out) == F5(o0, o1, o2, o3, o4)
  {
    out[0], out[1], out[2], out[3], out[4] := o0, o1, o2, o3, o4;
  }

  /** curve25519_mul; `out` may be either operand. */
  method Mul(out: array<u64>, in2: array<u64>, in1: array<u64>)
    requires out.Length == 5 && LimbsBelow(in2, TWO54) && LimbsBelow(in1, TWO54)
    modifies out
    ensures LimbsBelow(out, TWO52)
    ensures Cong(FVal(out), old(FVal(in1)) * old(FVal(in2)))
  {
    var o0, o1, o2, o3, o4 :=
      MulLimbs(in1[0], in1[1], in1[2], in1[3], in1[4], in2[0], in2[1], in2[2], in2[3], in2[4], FVal(in1), FVal(in2));
    Write(out, o0, o1, o2, o3, o4);
  }

  method MulLimbs(r0: u64, r1: u64, r2: u64, r3: u64, r4: u64, s0: u64, s1: u64, s2: u64, s3: u64, s4: u64,
                  ghost x: int, ghost y: int)
    returns (o0: u64, o1: u64, o2: u64, o3: u64, o4: u64)
    requires r0 < TWO54 && r1 < TWO54 && r2 < TWO54 && r3 < TWO54 && r4 < TWO54
    requires s0 < TWO54 && s1 < TWO54 && s2 < TWO54 && s3 < TWO54 && s4 < TWO54
    requires x == F5(r0, r1, r2, r3, r4) && y == F5(s0, s1, s2, s3, s4)
    ensures o0 < W1 && o1 < TWO52 && o2 < W1 && o3 < W1 && o4 < W1
    ensures Cong(F5(o0, o1, o2, o3, o4), x * y)
  {
    var q1: u64, q2: u64, q3: u64, q4: u64 := r1 * 19, r2 * 19, r3 * 19, r4 * 19;
    MulBounds(r0, r1, r2, r3, r4, q1, q2, q3, q4, s0, s1, s2, s3, s4);
    var t0: u128 := r0 * s0 + (q4 * s1 + q1 * s4 + q2 * s3 + q3 * s2);
    var t1: u128 := r0 * s1 + r1 * s0 + (q4 * s2 + q2 * s4 + q3 * s3);
    var t2: u128 := r0 * s2 + r2 * s0 + r1 * s1 + (q4 * s3 + q3 * s4);
    var t3: u128 := r0 * s3 + r3 * s0 + r1 * s2 + r2 * s1 + q4 * s4;
    var t4: u128 := r0 * s4 + r4 * s0 + r3 * s1 + r1 * s3 + r2 * s2;
    o0, o1, o2, o3, o4 := CarryChain(t0, t1, t2, t3, t4);
    ColumnsHoldProduct(r0, r1, r2, r3, r4, s0, s1, s2, s3, s4, t0, t1, t2, t3, t4);
    CongTrans(x * y, F5(t0, t1, t2, t3, t4), F5(o0, o1, o2, o3, o4));
    CongSym(x * y, F5(o0, o1, o2, o3, o4));
  }

  // ---------- squaring ----------

  lemma Multiple(k: int, d: int, r: int, s: int)
    requires d == k * r
    ensures d * s == k * (r * s) && s * d == k * (r * s)
  {
    Assoc(k, r, s);
  }

  /** The doubled and 19-fold limbs give the same columns as multiplying by itself. */
  lemma SquareBounds(r0: u64, r1: u64, r2: u64, r3: u64, r4: u64, d0: u64, d1: u64, d2: u64, d4: u64, d419: u64,
                     n3: u64)
    requires r0 < TWO54 && r1 < TWO54 && r2 < TWO54 && r3 < TWO54 && r4 < TWO54
    requires d0 == 2 * r0 && d1 == 2 * r1 && d2 == 38 * r2 && d419 == 19 * r4 && d4 == 38 * r4 && n3 == 19 * r3
    ensures Columns(r0, r1, r2, r3, r4, r0, r1, r2, r3, r4,
      r0 * r0 + d4 * r1 + d2 * r3, d0 * r1 + d4 * r2 + r3 * n3,
      d0 * r2 + r1 * r1 + d4 * r3, d0 * r3 + d1 * r2 + r4 * d419, d0 * r4 + d1 * r3 + r2 * r2)
    ensures 0 <= r0 * r0 + d4 * r1 + d2 * r3 < 80 * TWO108 && 0 <= d0 * r1 + d4 * r2 + r3 * n3 < 80 * TWO108
    ensures 0 <= d0 * r2 + r1 * r1 + d4 * r3 < 80 * TWO108 && 0 <= d0 * r3 + d1 * r2 + r4 * d419 < 80 * TWO108
    ensures 0 <= d0 * r4 + d1 * r3 + r2 * r2 < 5 * TWO108
  {
    Row(r0, r0, r1, r2, r3, r4);
    Row(r1, r0, r1, r2, r3, r4);
    Row(r2, r0, r1, r2, r3, r4);
    Row(r3, r0, r1, r2, r3, r4);
    Row(r4, r0, r1, r2, r3, r4);
    Multiple(38, d4, r4, r1);
    Multiple(38, d4, r4, r2);
    Multiple(38, d4, r4, r3);
    Multiple(38, d2, r2, r3);
    Multiple(2, d0, r0, r1);
    Multiple(2, d0, r0, r2);
    Multiple(2, d0, r0, r3);
    Multiple(2, d0, r0, r4);
    Multiple(2, d1, r1, r2);
    Multiple(2, d1, r1, r3);
    Multiple(19, n3, r3, r3);
    Multiple(19, d419, r4, r4);
  }

  /** The column sums of a square, as both squaring routines form them. */
  method SquareColumns(r0: u64, r1: u64, r2: u64, r3: u64, r4: u64)
    returns (t0: u128, t1: u128, t2: u128, t3: u128, t4: u128)
    requires r0 < TWO54 && r1 < TWO54 && r2 < TWO54 && r3 < TWO54 && r4 < TWO54
    ensures Columns(r0, r1, r2, r3, r4, r0, r1, r2, r3, r4, t0, t1, t2, t3, t4)
    ensures t0 < 80 * TWO108 && t1 < 80 * TWO108 && t2 < 80 * TWO108 && t3 < 80 * TWO108 && t4 < 5 * TWO108
  {
    var d0: u64, d1: u64 := r0 * 2, r1 * 2;
    var d2: u64 := r2 * 2 * 19;
    var d419: u64 := r4 * 19;
    var d4: u64 := d419 * 2;
    var n3: u64 := r3 * 19;
    SquareBounds(r0, r1, r2, r3, r4, d0, d1, d2, d4, d419, n3);
    t0 := r0 * r0 + d4 * r1 + d2 * r3;
    t1 := d0 * r1 + d4 * r2 + r3 * n3;
    t2 := d0 * r2 + r1 * r1 + d4 * r3;
    t3 := d0 * r3 + d1 * r2 + r4 * d419;
    t4 := d0 * r4 + d1 * r3 + r2 * r2;
  }

  /** curve25519_square; `out` may be the operand. */
  method Square(out: array<u64>, in1: array<u64>)
    requires out.Length == 5 && LimbsBelow(in1, TWO54)
    modifies out
    ensures LimbsBelow(out, TWO52)
    ensures Cong(FVal(out), old(FVal(in1)) * old(FVal(in1)))
  {
    var o0, o1, o2, o3, o4 := SquareLimbs(in1[0], in1[1], in1[2], in1[3], in1[4], FVal(in1));
    Write(out, o0, o1, o2, o3, o4);
  }

  method SquareLimbs(r0: u64, r1: u64, r2: u64, r3: u64, r4: u64, ghost x: int)
    returns (o0: u64, o1: u64, o2: u64, o3: u64, o4: u64)
    requires r0 < TWO54 && r1 < TWO54 && r2 < TWO54 && r3 < TWO54 && r4 < TWO54 && x == F5(r0, r1, r2, r3, r4)
    ensures o0 < W1 && o1 < TWO52 && o2 < W1 && o3 < W1 && o4 < W1
    ensures Cong(F5(o0, o1, o2, o3, o4), x * x)
  {
    var t0, t1, t2, t3, t4 := SquareColumns(r0, r1, r2, r3, r4);
    o0, o1, o2, o3, o4 := CarryChain(t0, t1, t2, t3, t4);
    ColumnsHoldProduct(r0, r1, r2, r3, r4, r0, r1, r2, r3, r4, t0, t1, t2, t3, t4);
    CongTrans(x * x, F5(t0, t1, t2, t3, t4), F5(o0, o1, o2, o3, o4));
    CongSym(x * x, F5(o0, o1, o2, o3, o4));
  }

  /** The low 51 bits of a column, and through a left shift by 13 its bits from 51 up. */
  method SplitColumn(t: u128) returns (low: u64, high: u64)
    requires t < 80 * TWO108
    ensures t == high * W1 + low && 0 <= low < W1 && high * W1 <= t
  {
    SplitAt51(t);
    Shift13(t);
    low := t % WORD % W1;
    high := t * 0x2000 % TWO128 / WORD;
  }

  lemma Shift13(t: int)
    requires 0 <= t < 80 * TWO108
    ensures t * 0x2000 % TWO128 / WORD == t / W1
  {
    DivMod(t, W1);
    DivModUnique(t * 0x2000, TWO128, 0, t * 0x2000);
    DivModUnique(t * 0x2000, WORD, t / W1, t % W1 * 0x2000);
  }

  /** One 64-bit carry step. */
  method Carry64(a: u64, c: u64) returns (limb: u64, carry: u64)
    requires a + c < WORD
    ensures a + c == carry * W1 + limb && 0 <= limb < W1 && 0 <= carry < 0x2000
  {
    var t: u64 := a + c;
    limb, carry := t % W1, t / W1;
  }

  /** The chain of curve25519_square_times. */
  method WideChain(t0: u128, t1: u128, t2: u128, t3: u128, t4: u128)
    returns (r0: u64, r1: u64, r2: u64, r3: u64, r4: u64)
    requires t0 < 80 * TWO108 && t1 < 80 * TWO108 && t2 < 80 * TWO108 && t3 < 80 * TWO108 && t4 < 5 * TWO108
    ensures r0 < TWO52 && r1 < W1 && r2 < W1 && r3 < W1 && r4 < W1
    ensures Cong(F5(t0, t1, t2, t3, t4), F5(r0, r1, r2, r3, r4))
  {
    var l0, h0 := SplitColumn(t0);
    var l1, h1 := SplitColumn(t1);
    var l2, h2 := SplitColumn(t2);
    var l3, h3 := SplitColumn(t3);
    var l4, h4 := SplitColumn(t4);
    var a0: u64, a1: u64, a2: u64, a3: u64, a4: u64 := l0 + h4 * 19, l1 + h0, l2 + h1, l3 + h2, l4 + h3;
    var w, c0, c1, c2, c3, c4;
    w, c0 := Carry64(a0, 0);
    r1, c1 := Carry64(a1, c0);
    r2, c2 := Carry64(a2, c1);
    r3, c3 := Carry64(a3, c2);
    r4, c4 := Carry64(a4, c3);
    r0 := w + c4 * 19;
    WideSum(t0, t1, t2, t3, t4, l0, l1, l2, l3, l4, h0, h1, h2, h3, h4, w, r1, r2, r3, r4, c0, c1, c2, c3, c4);
  }

  lemma WideSum(t0: int, t1: int, t2: int, t3: int, t4: int, l0: int, l1: int, l2: int, l3: int, l4: int,
                h0: int, h1: int, h2: int, h3: int, h4: int, w: int, r1: int, r2: int, r3: int, r4: int,
                c0: int, c1: int, c2: int, c3: int, c4: int)
    requires t0 == h0 * W1 + l0 && t1 == h1 * W1 + l1 && t2 == h2 * W1 + l2 && t3 == h3 * W1 + l3 && t4 == h4 * W1 + l4
    requires l0 + h4 * 19 == c0 * W1 + w && l1 + h0 + c0 == c1 * W1 + r1 && l2 + h1 + c1 == c2 * W1 + r2
    requires l3 + h2 + c2 == c3 * W1 + r3 && l4 + h3 + c3 == c4 * W1 + r4
    ensures Cong(F5(t0, t1, t2, t3, t4), F5(w + c4 * 19, r1, r2, r3, r4))
  {
    CongBy(F5(t0, t1, t2, t3, t4), F5(w + c4 * 19, r1, r2, r3, r4), h4 + c4);
  }

  // ---------- powers ----------

  function Exp(z: int, n: nat): int
  {
    if n == 0 then 1 else z * Exp(z, n - 1)
  }

  lemma {:induction false} ExpAdd(z: int, m: nat, n: nat)
    ensures Exp(z, m + n) == Exp(z, m) * Exp(z, n)
  {
    if m == 0 {
    } else {
      ExpAdd(z, m - 1, n);
      Assoc(z, Exp(z, m - 1), Exp(z, n));
    }
  }

  /** curve25519_square_times: `count` squarings, so in^(2^count). */
  method SquareTimes(out: array<u64>, in1: array<u64>, count: nat)
    requires out.Length == 5 && LimbsBelow(in1, TWO54) && count >= 1
    modifies out
    ensures LimbsBelow(out, TWO52)
    ensures Cong(FVal(out), Exp(old(FVal(in1)), Pow2(count)))
  {
    var r0: u64, r1: u64, r2: u64, r3: u64, r4: u64 := in1[0], in1[1], in1[2], in1[3], in1[4];
    ghost var z := FVal(in1);
    assert Exp(z, Pow2(0)) == z * Exp(z, 0);
    for i := 0 to count
      invariant r0 < TWO54 && r1 < TWO54 && r2 < TWO54 && r3 < TWO54 && r4 < TWO54
      invariant i > 0 ==> r0 < TWO52 && r1 < TWO52 && r2 < TWO52 && r3 < TWO52 && r4 < TWO52
      invariant Cong(F5(r0, r1, r2, r3, r4), Exp(z, Pow2(i)))
    {
      ghost var x := F5(r0, r1, r2, r3, r4);
      r0, r1, r2, r3, r4 := SquareOnce(r0, r1, r2, r3, r4, x);
      SquarePower(x, F5(r0, r1, r2, r3, r4), z, i);
    }
    Write(out, r0, r1, r2, r3, r4);
  }

  lemma SquarePower(x: int, o: int, z: int, i: nat)
    requires Cong(x, Exp(z, Pow2(i))) && Cong(o, x * x)
    ensures Cong(o, Exp(z, Pow2(i + 1)))
  {
    var e := Exp(z, Pow2(i));
    CongMul(x, e, x, e);
    CongTrans(o, x * x, e * e);
    ExpAdd(z, Pow2(i), Pow2(i));
    assert Pow2(i + 1) == Pow2(i) + Pow2(i);
  }

  method SquareOnce(r0: u64, r1: u64, r2: u64, r3: u64, r4: u64, ghost x: int)
    returns (o0: u64, o1: u64, o2: u64, o3: u64, o4: u64)
    requires r0 < TWO54 && r1 < TWO54 && r2 < TWO54 && r3 < TWO54 && r4 < TWO54 && x == F5(r0, r1, r2, r3, r4)
    ensures o0 < TWO52 && o1 < W1 && o2 < W1 && o3 < W1 && o4 < W1
    ensures Cong(F5(o0, o1, o2, o3, o4), x * x)
  {
    var t0, t1, t2, t3, t4 := SquareColumns(r0, r1, r2, r3, r4);
    o0, o1, o2, o3, o4 := WideChain(t0, t1, t2, t3, t4);
    ColumnsHoldProduct(r0, r1, r2, r3, r4, r0, r1, r2, r3, r4, t0, t1, t2, t3, t4);
    CongTrans(x * x, F5(t0, t1, t2, t3, t4), F5(o0, o1, o2, o3, o4));
    CongSym(x * x, F5(o0, o1, o2, o3, o4));
  }
}

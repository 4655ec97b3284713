/** Field elements from and to 32 little-endian bytes. */
module FieldBytes {
  import opened Arith
  import opened Words
  import opened Bytes
  import opened Field25519

  const TWO53: int := 0x20_0000_0000_0000
  const TWO63: int := 0x8000_0000_0000_0000

  // ---------- expand ----------

  lemma ExpandedSum(x0: u64, x1: u64, x2: u64, x3: u64)
    ensures F5(x0 % W1, x0 / W1 + x1 % 0x4000000000 * 0x2000, x1 / 0x4000000000 + x2 % 0x2000000 * 0x4000000,
               x2 / 0x2000000 + x3 % 0x1000 * 0x8000000000, x3 / 0x1000 % W1)
      == (x0 + x1 * WORD + x2 * TWO128 + x3 * TWO192) % TWO255
  {
    var low := F5(x0 % W1, x0 / W1 + x1 % 0x4000000000 * 0x2000, x1 / 0x4000000000 + x2 % 0x2000000 * 0x4000000,
                  x2 / 0x2000000 + x3 % 0x1000 * 0x8000000000, x3 / 0x1000 % W1);
    var top := x3 / 0x8000000000000000;
    TopBit(x3);
    assert x0 + x1 * WORD + x2 * TWO128 + x3 * TWO192 == top * TWO255 + low;
    ExpandedBound(x0, x1, x2, x3);
    DivModUnique(x0 + x1 * WORD + x2 * TWO128 + x3 * TWO192, TWO255, top, low);
  }

  lemma TopBit(x: u64)
    ensures x == x / 0x8000000000000000 * 0x8000000000000000 + x / 0x1000 % W1 * 0x1000 + x % 0x1000
  {
    DivMod(x, 0x1000);
    var q := x / 0x1000;
    DivMod(q, W1);
    DivModUnique(x, 0x8000000000000000, q / W1, q % W1 * 0x1000 + x % 0x1000);
  }

  lemma ExpandedBound(x0: u64, x1: u64, x2: u64, x3: u64)
    ensures 0 <= F5(x0 % W1, x0 / W1 + x1 % 0x4000000000 * 0x2000, x1 / 0x4000000000 + x2 % 0x2000000 * 0x4000000,
                    x2 / 0x2000000 + x3 % 0x1000 * 0x8000000000, x3 / 0x1000 % W1) < TWO255
  {
  }

  lemma LE32(b: seq<byte>)
    requires |b| == 32
    ensures LE(b) == Word(b, 0) + Word(b, 1) * WORD + Word(b, 2) * TWO128 + Word(b, 3) * TWO192
  {
    LEOfWords(b, 4);
    assert b[..32] == b;
    WordPowers();
    assert WordSum(b, 1) == Pow2(0) * Word(b, 0) && Pow2(0) == 1;
    assert WordSum(b, 2) == WordSum(b, 1) + Pow2(64) * Word(b, 1);
    assert WordSum(b, 3) == WordSum(b, 2) + Pow2(128) * Word(b, 2);
    assert WordSum(b, 4) == WordSum(b, 3) + Pow2(192) * Word(b, 3);
  }

  method ExpandWords(x0: u64, x1: u64, x2: u64, x3: u64, ghost v: int)
    returns (o0: u64, o1: u64, o2: u64, o3: u64, o4: u64)
    requires v == x0 + x1 * WORD + x2 * TWO128 + x3 * TWO192
    ensures o0 < W1 && o1 < W1 && o2 < W1 && o3 < W1 && o4 < W1
    ensures F5(o0, o1, o2, o3, o4) == v % TWO255
  {
    ExpandedSum(x0, x1, x2, x3);
    o0 := x0 % W1;
    o1 := Glue(x0, x1, W1, 0x2000, 0x4000000000, W1, 0x2000);
    o2 := Glue(x1, x2, 0x4000000000, 0x4000000, 0x2000000, W1, 0x2000);
    o3 := Glue(x2, x3, 0x2000000, 0x8000000000, 0x1000, W1, 0x2000);
    o4 := x3 / 0x1000 % W1;
  }

  /** curve25519_expand: the low 255 bits, unreduced. */
  method Expand(out: array<u64>, input: seq<byte>)
    requires out.Length == 5 && |input| == 32
    modifies out
    ensures LimbsBelow(out, W1) && FVal(out) == LE(input) % TWO255
  {
    LE32(input);
    out[0], out[1], out[2], out[3], out[4] :=
      ExpandWords(Word(input, 0), Word(input, 1), Word(input, 2), Word(input, 3), LE(input));
  }

  // ---------- contract ----------

  /** curve25519_contract_carry: the value is kept, the low four limbs end below 2^51. */
  method CarryPass(t0: u64, t1: u64, t2: u64, t3: u64, t4: u64) returns (r0: u64, r1: u64, r2: u64, r3: u64, r4: u64)
    requires t0 < TWO63 + TWO53 && t1 < TWO63 + TWO53 && t2 < TWO63 + TWO53 && t3 < TWO63 + TWO53 && t4 < TWO63 + TWO53
    ensures r0 < W1 && r1 < W1 && r2 < W1 && r3 < W1 && t4 <= r4 < t4 + 0x2000
    ensures F5(r0, r1, r2, r3, r4) == F5(t0, t1, t2, t3, t4)
  {
    var c0, c1, c2, c3;
    r0, c0 := Carry64(t0, 0);
    r1, c1 := Carry64(t1, c0);
    r2, c2 := Carry64(t2, c1);
    r3, c3 := Carry64(t3, c2);
    r4 := t4 + c3;
  }

  /** The quotient by 2^255 sits above bit 51 of the top limb. */
  lemma TopQuotient(r0: int, r1: int, r2: int, r3: int, r4: int)
    requires 0 <= r0 < W1 && 0 <= r1 < W1 && 0 <= r2 < W1 && 0 <= r3 < W1 && 0 <= r4
    ensures r4 / W1 == F5(r0, r1, r2, r3, r4) / W5
    ensures F5(r0, r1, r2, r3, r4 % W1) == F5(r0, r1, r2, r3, r4) % W5
  {
    DivMod(r4, W1);
    var low := F5(r0, r1, r2, r3, r4 % W1);
    assert 0 <= low < W5;
    DivModUnique(F5(r0, r1, r2, r3, r4), W5, r4 / W1, low);
  }

  /** curve25519_contract_carry_full: what lies above 2^255 comes back 19-fold. */
  method CarryFull(t0: u64, t1: u64, t2: u64, t3: u64, t4: u64, ghost v: int)
    returns (r0: u64, r1: u64, r2: u64, r3: u64, r4: u64)
    requires t0 < TWO63 + TWO53 && t1 < TWO63 && t2 < TWO63 && t3 < TWO63 && t4 < TWO63
    requires v == F5(t0, t1, t2, t3, t4)
    ensures r1 < W1 && r2 < W1 && r3 < W1 && r4 < W1
    ensures r0 == v % W1 + 19 * (v / W5)
    ensures F5(r0, r1, r2, r3, r4) == v % W5 + 19 * (v / W5)
  {
    var a0, a1, a2, a3, a4 := CarryPass(t0, t1, t2, t3, t4);
    TopQuotient(a0, a1, a2, a3, a4);
    LowLimb(a0, a1, a2, a3, a4);
    r0 := a0 + 19 * (a4 / W1);
    r1, r2, r3 := a1, a2, a3;
    r4 := a4 % W1;
  }

  lemma LowLimb(r0: int, r1: int, r2: int, r3: int, r4: int)
    requires 0 <= r0 < W1
    ensures F5(r0, r1, r2, r3, r4) % W1 == r0
  {
    DivModUnique(F5(r0, r1, r2, r3, r4), W1, r1 + r2 * W1 + r3 * W2 + r4 * W3, r0);
  }

  lemma LimbBound(t0: int, t1: int, t2: int, t3: int, t4: int)
    requires 0 <= t0 < TWO63 && 0 <= t1 < TWO63 && 0 <= t2 < TWO63 && 0 <= t3 < TWO63 && 0 <= t4 < TWO63
    ensures 0 <= F5(t0, t1, t2, t3, t4) / W5 <= 0x1000
  {
  }

  /** One full carry brings any input below 2^255 + 19 * 2^13. */
  lemma FirstFold(v: int)
    requires 0 <= v && 0 <= v / W5 <= 0x1000
    ensures 0 <= v % W5 + 19 * (v / W5) < W5 + 0x40000
    ensures (v % W5 + 19 * (v / W5)) % P == v % P
  {
    DivMod(v, W5);
    FoldMod(v % W5 + 19 * (v / W5), v, v / W5);
  }

  lemma FoldMod(x: int, y: int, k: int)
    requires y == x + k * P
    ensures x % P == y % P
  {
    CongBy(y, x, k);
    CongMod(y, x);
  }

  /** A second one brings it below 2^255, with every limb below 2^51. */
  lemma SecondFold(v: int)
    requires 0 <= v < W5 + 0x40000
    ensures 0 <= v % W5 + 19 * (v / W5) < W5
    ensures v % W1 + 19 * (v / W5) < W1
    ensures (v % W5 + 19 * (v / W5)) % P == v % P
  {
    if v < W5 {
      DivModUnique(v, W5, 0, v);
    } else {
      DivModUnique(v, W5, 1, v - W5);
      DivModUnique(v, W1, 0x1000000000000000000000000000000000000000000000000000, v - W5);
      FoldMod(v - W5 + 19, v, 1);
    }
  }

  /** Adding 19 and folding once more leaves the canonical value plus 19. */
  lemma ThirdFold(v: int)
    requires 0 <= v < W5
    ensures (v + 19) % W5 + 19 * ((v + 19) / W5) == v % P + 19
    ensures (v + 19) % W1 + 19 * ((v + 19) / W5) < W1 + 19
  {
    if v < P {
      DivModUnique(v + 19, W5, 0, v + 19);
      DivModUnique(v, P, 0, v);
    } else {
      DivModUnique(v + 19, W5, 1, v + 19 - W5);
      DivModUnique(v, P, 1, v - P);
      DivModUnique(v + 19, W1, 0x1000000000000000000000000000000000000000000000000000, v + 19 - W5);
    }
  }

  /** Adding p and dropping bit 255 takes the 19 away again. */
  lemma FinalFold(r: int)
    requires 0 <= r < P
    ensures (r + 19 + P) % W5 == r
  {
    DivModUnique(r + 19 + P, W5, 1, r);
  }

  /** The first two full carries: below 2^255, properly carried. */
  method Normalize(i0: u64, i1: u64, i2: u64, i3: u64, i4: u64, ghost v: int)
    returns (t0: u64, t1: u64, t2: u64, t3: u64, t4: u64)
    requires v == F5(i0, i1, i2, i3, i4)
    requires i0 < TWO63 && i1 < TWO63 && i2 < TWO63 && i3 < TWO63 && i4 < TWO63
    ensures t0 < W1 && t1 < W1 && t2 < W1 && t3 < W1 && t4 < W1
    ensures F5(t0, t1, t2, t3, t4) % P == v % P
  {
    LimbBound(i0, i1, i2, i3, i4);
    FirstFold(v);
    var a0, a1, a2, a3, a4 := CarryFull(i0, i1, i2, i3, i4, v);
    ghost var w := v % W5 + 19 * (v / W5);
    SecondFold(w);
    t0, t1, t2, t3, t4 := CarryFull(a0, a1, a2, a3, a4, w);
  }

  /** The offset by 2^255 - 19 and curve25519_contract_carry_final. */
  method CarryFinal(t0: u64, t1: u64, t2: u64, t3: u64, t4: u64, ghost v: int)
    returns (r0: u64, r1: u64, r2: u64, r3: u64, r4: u64)
    requires v == F5(t0, t1, t2, t3, t4) + P
    requires t0 < W1 + 19 && t1 < W1 && t2 < W1 && t3 < W1 && t4 < W1
    ensures r0 < W1 && r1 < W1 && r2 < W1 && r3 < W1 && r4 < W1
    ensures F5(r0, r1, r2, r3, r4) == v % W5
  {
    var top;
    r0, r1, r2, r3, top := CarryPass(t0 + (W1 - 19), t1 + (W1 - 1), t2 + (W1 - 1), t3 + (W1 - 1), t4 + (W1 - 1));
    TopQuotient(r0, r1, r2, r3, top);
    r4 := top % W1;
  }

  lemma CanonicalBound(t0: int, t1: int, t2: int, t3: int, t4: int)
    requires 0 <= t0 < W1 && 0 <= t1 < W1 && 0 <= t2 < W1 && 0 <= t3 < W1 && 0 <= t4 < W1
    ensures 0 <= F5(t0, t1, t2, t3, t4) < W5
  {
  }

  /** From normalized limbs to the limbs of the canonical value. */
  method Canonical(i0: u64, i1: u64, i2: u64, i3: u64, i4: u64, ghost v: int)
    returns (t0: u64, t1: u64, t2: u64, t3: u64, t4: u64)
    requires v == F5(i0, i1, i2, i3, i4)
    requires i0 < W1 && i1 < W1 && i2 < W1 && i3 < W1 && i4 < W1
    ensures t0 < W1 && t1 < W1 && t2 < W1 && t3 < W1 && t4 < W1
    ensures F5(t0, t1, t2, t3, t4) == v % P
  {
    CanonicalBound(i0, i1, i2, i3, i4);
    ThirdFold(v);
    var a0, a1, a2, a3, a4 := CarryFull(i0 + 19, i1, i2, i3, i4, v + 19);
    DivMod(v, P);
    FinalFold(v % P);
    t0, t1, t2, t3, t4 := CarryFinal(a0, a1, a2, a3, a4, v % P + 19 + P);
  }

  lemma PackedSum(t0: int, t1: int, t2: int, t3: int, t4: int)
    requires 0 <= t0 < W1 && 0 <= t1 < W1 && 0 <= t2 < W1 && 0 <= t3 < W1 && 0 <= t4 < W1
    ensures F5(t0, t1, t2, t3, t4)
      == (t0 / 1 + t1 % 0x2000 * W1) + (t1 / 0x2000 + t2 % 0x4000000 * 0x4000000000) * WORD
         + (t2 / 0x4000000 + t3 % 0x8000000000 * 0x2000000) * TWO128
           + (t3 / 0x8000000000 + t4 % 0x10000000000000 * 0x1000) * TWO192
  {
  }

  /** curve25519_contract: the 32 bytes of the one number in [0, p) congruent to the input. */
  method Contract(a: array<u64>) returns (out: seq<byte>)
    requires LimbsBelow(a, TWO63)
    ensures |out| == 32 && LE(out) == FVal(a) % P
  {
    var n0, n1, n2, n3, n4 := Normalize(a[0], a[1], a[2], a[3], a[4], FVal(a));
    var t0, t1, t2, t3, t4 := Canonical(n0, n1, n2, n3, n4, F5(n0, n1, n2, n3, n4));
    var w0 := Pack(t0, t1, 1, W1, 0x2000, W1);
    var w1 := Pack(t1, t2, 0x2000, 0x4000000000, 0x4000000, W1);
    var w2 := Pack(t2, t3, 0x4000000, 0x2000000, 0x8000000000, W1);
    var w3 := Pack(t3, t4, 0x8000000000, 0x1000, 0x10000000000000, W1);
    PackedSum(t0, t1, t2, t3, t4);
    out := StoreWords(w0, w1, w2, w3, 8);
  }

  /** Contract after expand: the low 255 bits of the input, reduced mod p. */
  method ExpandContract(input: seq<byte>) returns (out: seq<byte>)
    requires |input| == 32
    ensures |out| == 32 && LE(out) == LE(input) % TWO255 % P
    ensures LE(input) < P ==> out == input
  {
    var a := new u64[5];
    Expand(a, input);
    out := Contract(a);
    if LE(input) < P {
      DivModUnique(LE(input), TWO255, 0, LE(input));
      DivModUnique(LE(input), P, 0, LE(input));
      LEInjective(out, input);
    }
  }
}

/** Scalars modulo the group order from and to little-endian bytes. */
module ModmBytes {
  import opened Arith
  import opened Words
  import opened Bytes
  import opened Modm

  function Words8(x0: int, x1: int, x2: int, x3: int, x4: int, x5: int, x6: int, x7: int): int
  {
    x0 + x1 * WORD + x2 * TWO128 + x3 * TWO192 + x4 * TWO256 + x5 * TWO320 + x6 * TWO384 + x7 * TWO448
  }

  lemma LowWords(b: seq<byte>)
    requires |b| == 64
    ensures WordSum(b, 4) == Word(b, 0) + Word(b, 1) * WORD + Word(b, 2) * TWO128 + Word(b, 3) * TWO192
  {
    WordPowers();
    assert WordSum(b, 1) == Pow2(0) * Word(b, 0) && Pow2(0) == 1;
    assert WordSum(b, 2) == WordSum(b, 1) + Pow2(64) * Word(b, 1);
    assert WordSum(b, 3) == WordSum(b, 2) + Pow2(128) * Word(b, 2);
    assert WordSum(b, 4) == WordSum(b, 3) + Pow2(192) * Word(b, 3);
  }

  lemma HighWords(b: seq<byte>)
    requires |b| == 64
    ensures WordSum(b, 8) == WordSum(b, 4)
      + Word(b, 4) * TWO256 + Word(b, 5) * TWO320 + Word(b, 6) * TWO384 + Word(b, 7) * TWO448
  {
    WordPowers();
    assert WordSum(b, 5) == WordSum(b, 4) + Pow2(256) * Word(b, 4);
    assert WordSum(b, 6) == WordSum(b, 5) + Pow2(320) * Word(b, 5);
    assert WordSum(b, 7) == WordSum(b, 6) + Pow2(384) * Word(b, 6);
    assert WordSum(b, 8) == WordSum(b, 7) + Pow2(448) * Word(b, 7);
  }

  lemma LE64(b: seq<byte>)
    requires |b| == 64
    ensures LE(b)
      == Words8(Word(b, 0), Word(b, 1), Word(b, 2), Word(b, 3), Word(b, 4), Word(b, 5), Word(b, 6), Word(b, 7))
  {
    LEOfWords(b, 8);
    assert b[..64] == b;
    LowWords(b);
    HighWords(b);
  }

  lemma {:induction false} LEZeros(n: nat)
    ensures LE(seq(n, _ => 0)) == 0
  {
    if n == 0 {
    } else {
      LEZeros(n - 1);
      var z: seq<byte> := seq(n, _ => 0);
      var y: seq<byte> := seq(n - 1, _ => 0);
      assert z[1..] == y;
    }
  }

  lemma LEPadded(b: seq<byte>, n: nat)
    ensures LE(b + seq(n, _ => 0)) == LE(b)
  {
    LEZeros(n);
    LEConcat(b, seq(n, _ => 0));
  }

  /** The first five limbs hold the low 264 bits of the eight words. */
  lemma LowLimbs(x0: u64, x1: u64, x2: u64, x3: u64, x4: u64, x5: u64, x6: u64, x7: u64)
    ensures V5(x0 % BASE, x0 / BASE + x1 % 0x1_0000_0000_0000 * 256, x1 / 0x1_0000_0000_0000 + x2 % MASK40 * MASK16,
               x2 / MASK40 + x3 % MASK32 * MASK24, x3 / MASK32 + x4 % 256 * MASK32)
      == Words8(x0, x1, x2, x3, x4, x5, x6, x7) % TWO264
  {
    var low := V5(x0 % BASE, x0 / BASE + x1 % 0x1_0000_0000_0000 * 256, x1 / 0x1_0000_0000_0000 + x2 % MASK40 * MASK16,
                  x2 / MASK40 + x3 % MASK32 * MASK24, x3 / MASK32 + x4 % 256 * MASK32);
    assert low == x0 + x1 * WORD + x2 * TWO128 + x3 * TWO192 + x4 % 256 * TWO256;
    var rest := x4 / 256 + Words8(x5, x6, x7, 0, 0, 0, 0, 0) * 0x100_0000_0000_0000;
    assert Words8(x0, x1, x2, x3, x4, x5, x6, x7) == rest * TWO264 + low;
    DivModUnique(Words8(x0, x1, x2, x3, x4, x5, x6, x7), TWO264, rest, low);
  }

  /** The other five hold everything from bit 248 up. */
  lemma HighLimbs(x0: u64, x1: u64, x2: u64, x3: u64, x4: u64, x5: u64, x6: u64, x7: u64)
    ensures V5(x3 / BASE + x4 % 0x1_0000_0000_0000 * 256, x4 / 0x1_0000_0000_0000 + x5 % MASK40 * MASK16,
               x5 / MASK40 + x6 % MASK32 * MASK24, x6 / MASK32 + x7 % MASK24 * MASK32, x7 / MASK24)
      == Words8(x0, x1, x2, x3, x4, x5, x6, x7) / TWO248
  {
    var high := V5(x3 / BASE + x4 % 0x1_0000_0000_0000 * 256, x4 / 0x1_0000_0000_0000 + x5 % MASK40 * MASK16,
                   x5 / MASK40 + x6 % MASK32 * MASK24, x6 / MASK32 + x7 % MASK24 * MASK32, x7 / MASK24);
    assert high == x3 / BASE + 256 * (x4 + x5 * WORD + x6 * TWO128 + x7 * TWO192);
    var low := x0 + x1 * WORD + x2 * TWO128 + x3 % BASE * TWO192;
    assert Words8(x0, x1, x2, x3, x4, x5, x6, x7) == high * TWO248 + low;
    DivModUnique(Words8(x0, x1, x2, x3, x4, x5, x6, x7), TWO248, high, low);
  }

  method LoadLow(out: array<u64>, x0: u64, x1: u64, x2: u64, x3: u64, x4: u64)
    requires out.Length == 5
    modifies out
    ensures Limbs(out, MASK40)
    ensures out[0] == x0 % BASE && out[1] == x0 / BASE + x1 % 0x1_0000_0000_0000 * 256
    ensures out[2] == x1 / 0x1_0000_0000_0000 + x2 % MASK40 * MASK16
    ensures out[3] == x2 / MASK40 + x3 % MASK32 * MASK24
    ensures out[4] == x3 / MASK32 + x4 % 256 * MASK32
  {
    out[0] := x0 % BASE;
    out[1] := Glue(x0, x1, BASE, 256, 0x1_0000_0000_0000, BASE, 256);
    out[2] := Glue(x1, x2, 0x1_0000_0000_0000, MASK16, MASK40, BASE, 256);
    out[3] := Glue(x2, x3, MASK40, MASK24, MASK32, BASE, 256);
    var t := Glue(x3, x4, MASK32, MASK32, MASK24, BASE, 256);
    out[4] := t % MASK40;
    TopGlue(x3, x4);
  }

  /** The limb at bit 224 is masked to 40 bits instead of 56. */
  lemma TopGlue(a: u64, b: u64)
    ensures (a / MASK32 + (b % MASK24) * MASK32) % MASK40 == a / MASK32 + (b % 256) * MASK32
  {
    var r := b % MASK24;
    DivMod(b, MASK24);
    DivMod(r, 256);
    DivModUnique(b, 256, b / MASK24 * MASK16 + r / 256, r % 256);
    DivModUnique(a / MASK32 + r * MASK32, MASK40, r / 256, a / MASK32 + (b % 256) * MASK32);
  }

  method LoadHigh(x3: u64, x4: u64, x5: u64, x6: u64, x7: u64) returns (q1: array<u64>)
    ensures fresh(q1) && Limbs(q1, MASK40)
    ensures q1[0] == x3 / BASE + x4 % 0x1_0000_0000_0000 * 256
      && q1[1] == x4 / 0x1_0000_0000_0000 + x5 % MASK40 * MASK16
    ensures q1[2] == x5 / MASK40 + x6 % MASK32 * MASK24 && q1[3] == x6 / MASK32 + x7 % MASK24 * MASK32
    ensures q1[4] == x7 / MASK24
  {
    q1 := new u64[5];
    q1[0] := Glue(x3, x4, BASE, 256, 0x1_0000_0000_0000, BASE, 256);
    q1[1] := Glue(x4, x5, 0x1_0000_0000_0000, MASK16, MASK40, BASE, 256);
    q1[2] := Glue(x5, x6, MASK40, MASK24, MASK32, BASE, 256);
    q1[3] := Glue(x6, x7, MASK32, MASK32, MASK24, BASE, 256);
    q1[4] := x7 / MASK24;
  }

  /** expand256_modm: any byte string of up to 64 bytes, reduced mod m. */
  method Expand256(out: array<u64>, input: seq<byte>)
    requires out.Length == 5 && |input| <= 64
    modifies out
    ensures Limbs(out, MASK32) && Val(out) == LE(input) % M
  {
    var work: seq<byte> := input + seq(64 - |input|, _ => 0);
    PaddedValue(input, work);
    var x0, x1, x2, x3 := Word(work, 0), Word(work, 1), Word(work, 2), Word(work, 3);
    var x4, x5, x6, x7 := Word(work, 4), Word(work, 5), Word(work, 6), Word(work, 7);
    LowLimbs(x0, x1, x2, x3, x4, x5, x6, x7);
    HighLimbs(x0, x1, x2, x3, x4, x5, x6, x7);
    LoadLow(out, x0, x1, x2, x3, x4);
    assert Val(out) == LE(input) % TWO264;
    if |input| < 32 {
      ShortInput(input);
      CanonicalTop(out);
      return;
    }
    var q1 := LoadHigh(x3, x4, x5, x6, x7);
    assert Val(q1) == LE(input) / TWO248;
    Barrett(out, q1, out, LE(input));
  }

  lemma PaddedValue(input: seq<byte>, work: seq<byte>)
    requires |work| == 64 && |input| <= 64 && work == input + seq(64 - |input|, _ => 0)
    ensures LE(input)
      == Words8(Word(work, 0), Word(work, 1), Word(work, 2), Word(work, 3), Word(work, 4), Word(work, 5),
          Word(work, 6), Word(work, 7))
    ensures LE(input) < TWO512
  {
    LEPadded(input, 64 - |input|);
    LE64(work);
    assert LE(work) < TWO512 by {
      LEBound(work);
      assert 8 * |work| == 512;
      WordPowers();
    }
  }

  /** An input of fewer than 32 bytes is already below m. */
  lemma ShortInput(input: seq<byte>)
    requires |input| < 32
    ensures LE(input) % M == LE(input) == LE(input) % TWO264 && LE(input) < M
  {
    LEBound(input);
    Pow2Mono(8 * |input|, 248);
    WordPowers();
    Constants();
    DivModUnique(LE(input), M, 0, LE(input));
    DivModUnique(LE(input), TWO264, 0, LE(input));
  }

  // ---------- back to bytes ----------

  lemma PackedSum(a0: int, a1: int, a2: int, a3: int, a4: int)
    requires 0 <= a0 < BASE && 0 <= a1 < BASE && 0 <= a2 < BASE && 0 <= a3 < BASE && 0 <= a4 < MASK32
    ensures V5(a0, a1, a2, a3, a4)
      == (a0 + a1 % 256 * BASE) + (a1 / 256 + a2 % MASK16 * 0x1_0000_0000_0000) * WORD
         + (a2 / MASK16 + a3 % MASK24 * MASK40) * TWO128 + (a3 / MASK24 + a4 % MASK32 * MASK32) * TWO192
  {
  }

  /** contract256_modm: the 32 bytes of a reduced scalar.  Together with Expand256 this
      is a round trip: expanding these bytes gives the scalar back. */
  method Contract256(a: array<u64>) returns (out: seq<byte>)
    requires Limbs(a, MASK32)
    ensures |out| == 32 && LE(out) == Val(a)
    ensures Val(a) < M ==> LE(out) % M == Val(a)
  {
    var w0 := Pack(a[0], a[1], 1, BASE, 256, BASE);
    var w1 := Pack(a[1], a[2], 256, 0x1_0000_0000_0000, MASK16, BASE);
    var w2 := Pack(a[2], a[3], MASK16, MASK40, MASK24, BASE);
    var w3 := Pack(a[3], a[4], MASK24, MASK32, MASK32, BASE);
    PackedSum(a[0], a[1], a[2], a[3], a[4]);
    out := StoreWords(w0, w1, w2, w3, 8);
    if Val(a) < M { DivModUnique(Val(a), M, 0, Val(a)); }
  }
}

/**
  What the byte-level parts of BLAKE2b mean: words are the little-endian numbers of their bytes, a parameter block is
  the 64-byte structure of section 2.5 of RFC 7693, and the constants are those of sections 2.1 and 2.6.
 */
module Blake2bLayout {
  import opened Arith
  import opened Words
  import opened Blake2bRounds
  import opened Blake2bWords
  import opened Blake2bStream
  import opened Blake2bTree
  import opened Blake2b64
  import Bytes

  // ---------- words and bytes ----------

  lemma ByteForth(c: bv8)
    ensures (c as int) as bv8 == c
  {
  }

  lemma NextByte(c: bv8)
    requires c < 255
    ensures (c + 1) as int == c as int + 1
  {
  }

  /** Every byte is the value of a bit vector. */
  lemma ByteVector(b: byte) returns (c: bv8)
    ensures c as int == b
  {
    c := 0;
    if b > 0 {
      var d := ByteVector(b - 1);
      assert d < 255;
      NextByte(d);
      c := d + 1;
    }
  }

  lemma ByteBack(b: byte)
    ensures (b as bv8) as int == b
  {
    var c := ByteVector(b);
    ByteForth(c);
  }

  lemma Or8(x: Word, y: bv8)
    requires x < 0x100
    ensures (x | ((y as Word) << 8)) as int == x as int + 0x100 * (y as int)
    ensures x | ((y as Word) << 8) < 0x1_0000
  {
  }

  lemma Or16(x: Word, y: bv8)
    requires x < 0x1_0000
    ensures (x | ((y as Word) << 16)) as int == x as int + 0x1_0000 * (y as int)
    ensures x | ((y as Word) << 16) < 0x1_000000
  {
  }

  lemma Or24(x: Word, y: bv8)
    requires x < 0x1_000000
    ensures (x | ((y as Word) << 24)) as int == x as int + 0x1_000000 * (y as int)
    ensures x | ((y as Word) << 24) < 0x1_0000_0000
  {
  }

  lemma Or32(x: Word, y: bv8)
    requires x < 0x1_0000_0000
    ensures (x | ((y as Word) << 32)) as int == x as int + 0x1_0000_0000 * (y as int)
    ensures x | ((y as Word) << 32) < 0x1_0000_000000
  {
  }

  lemma Or40(x: Word, y: bv8)
    requires x < 0x1_0000_000000
    ensures (x | ((y as Word) << 40)) as int == x as int + 0x1_0000_000000 * (y as int)
    ensures x | ((y as Word) << 40) < 0x1_0000_0000_0000
  {
  }

  lemma Or48(x: Word, y: bv8)
    requires x < 0x1_0000_0000_0000
    ensures (x | ((y as Word) << 48)) as int == x as int + 0x1_0000_0000_0000 * (y as int)
    ensures x | ((y as Word) << 48) < 0x1_0000_0000_000000
  {
  }

  lemma Or56(x: Word, y: bv8)
    requires x < 0x1_0000_0000_000000
    ensures (x | ((y as Word) << 56)) as int == x as int + 0x1_0000_0000_000000 * (y as int)
  {
  }

  /** One more byte, at bit 8k, where p is 2^(8k). */
  lemma LoadStep(b: seq<byte>, k: nat, x: int, y: int, p: int)
    requires k < |b| && p == Pow2(8 * k) && x == LE(b[..k]) && y == x + p * b[k]
    ensures y == LE(b[..k + 1])
  {
    LELast(b[..k + 1], k);
    assert b[..k + 1][..k] == b[..k];
  }

  lemma BytePowers()
    ensures Pow2(0) == 1 && Pow2(8) == 0x100 && Pow2(16) == 0x1_0000 && Pow2(24) == 0x100_0000
    ensures Pow2(32) == 0x1_0000_0000 && Pow2(40) == 0x100_0000_0000 && Pow2(48) == 0x1_0000_0000_0000
    ensures Pow2(56) == 0x100_0000_0000_0000
  {
    assert Pow2(8) == 256;
    Pow2Add(8, 8);
    Pow2Add(8, 16);
    Pow2Add(8, 24);
    Pow2Add(8, 32);
    Pow2Add(8, 40);
    Pow2Add(8, 48);
  }

  lemma Byte0(b: seq<byte>)
    requires |b| == 8
    ensures Widen(b[0]) as int == LE(b[..1]) && Widen(b[0]) < 0x100
  {
    ByteBack(b[0]);
    WideValue(b[0] as bv8);
    LELast(b[..1], 0);
  }

  lemma WideValue(x: bv8)
    ensures (x as Word) as int == x as int && (x as Word) < 0x100
  {
  }

  lemma Byte1(b: seq<byte>, x: Word)
    requires |b| == 8 && x as int == LE(b[..1]) && x < 0x100
    ensures (x | (Widen(b[1]) << 8)) as int == LE(b[..2])
    ensures x | (Widen(b[1]) << 8) < 0x1_0000
  {
    var y := b[1] as bv8;
    Or8(x, y);
    ByteBack(b[1]);
    BytePowers();
    LoadStep(b, 1, LE(b[..1]), (x | ((y as Word) << 8)) as int, 0x100);
  }

  lemma Byte2(b: seq<byte>, x: Word)
    requires |b| == 8 && x as int == LE(b[..2]) && x < 0x1_0000
    ensures (x | (Widen(b[2]) << 16)) as int == LE(b[..3])
    ensures x | (Widen(b[2]) << 16) < 0x100_0000
  {
    var y := b[2] as bv8;
    Or16(x, y);
    ByteBack(b[2]);
    BytePowers();
    LoadStep(b, 2, LE(b[..2]), (x | ((y as Word) << 16)) as int, 0x1_0000);
  }

  lemma Byte3(b: seq<byte>, x: Word)
    requires |b| == 8 && x as int == LE(b[..3]) && x < 0x100_0000
    ensures (x | (Widen(b[3]) << 24)) as int == LE(b[..4])
    ensures x | (Widen(b[3]) << 24) < 0x1_0000_0000
  {
    var y := b[3] as bv8;
    Or24(x, y);
    ByteBack(b[3]);
    BytePowers();
    LoadStep(b, 3, LE(b[..3]), (x | ((y as Word) << 24)) as int, 0x100_0000);
  }

  lemma Byte4(b: seq<byte>, x: Word)
    requires |b| == 8 && x as int == LE(b[..4]) && x < 0x1_0000_0000
    ensures (x | (Widen(b[4]) << 32)) as int == LE(b[..5])
    ensures x | (Widen(b[4]) << 32) < 0x100_0000_0000
  {
    var y := b[4] as bv8;
    Or32(x, y);
    ByteBack(b[4]);
    BytePowers();
    LoadStep(b, 4, LE(b[..4]), (x | ((y as Word) << 32)) as int, 0x1_0000_0000);
  }

  lemma Byte5(b: seq<byte>, x: Word)
    requires |b| == 8 && x as int == LE(b[..5]) && x < 0x100_0000_0000
    ensures (x | (Widen(b[5]) << 40)) as int == LE(b[..6])
    ensures x | (Widen(b[5]) << 40) < 0x1_0000_0000_0000
  {
    var y := b[5] as bv8;
    Or40(x, y);
    ByteBack(b[5]);
    BytePowers();
    LoadStep(b, 5, LE(b[..5]), (x | ((y as Word) << 40)) as int, 0x100_0000_0000);
  }

  lemma Byte6(b: seq<byte>, x: Word)
    requires |b| == 8 && x as int == LE(b[..6]) && x < 0x1_0000_0000_0000
    ensures (x | (Widen(b[6]) << 48)) as int == LE(b[..7])
    ensures x | (Widen(b[6]) << 48) < 0x100_0000_0000_0000
  {
    var y := b[6] as bv8;
    Or48(x, y);
    ByteBack(b[6]);
    BytePowers();
    LoadStep(b, 6, LE(b[..6]), (x | ((y as Word) << 48)) as int, 0x1_0000_0000_0000);
  }

  lemma Byte7(b: seq<byte>, x: Word)
    requires |b| == 8 && x as int == LE(b[..7]) && x < 0x100_0000_0000_0000
    ensures (x | (Widen(b[7]) << 56)) as int == LE(b[..8])
  {
    var y := b[7] as bv8;
    Or56(x, y);
    ByteBack(b[7]);
    BytePowers();
    LoadStep(b, 7, LE(b[..7]), (x | ((y as Word) << 56)) as int, 0x100_0000_0000_0000);
  }

  /** load64 reads the little-endian number of eight bytes. */
  lemma Load64IsLE(b: seq<byte>)
    requires |b| == 8
    ensures Load64(b) as int == LE(b)
  {
    Byte0(b);
    var x1 := Widen(b[0]);
    Byte1(b, x1);
    var x2 := x1 | (Widen(b[1]) << 8);
    Byte2(b, x2);
    var x3 := x2 | (Widen(b[2]) << 16);
    Byte3(b, x3);
    var x4 := x3 | (Widen(b[3]) << 24);
    Byte4(b, x4);
    var x5 := x4 | (Widen(b[4]) << 32);
    Byte5(b, x5);
    var x6 := x5 | (Widen(b[5]) << 40);
    Byte6(b, x6);
    var x7 := x6 | (Widen(b[6]) << 48);
    Byte7(b, x7);
    assert b[..8] == b;
  }

  lemma {:induction false} AsByteAt(m: seq<bv8>, k: nat)
    requires k < |m|
    ensures AsBytes(m)[k] == m[k] as int
  {
    if k == 0 {
    } else {
      AsByteAt(m[1..], k - 1);
    }
  }

  lemma {:induction false} AsBytesSlice(m: seq<bv8>, i: nat, j: nat)
    requires i <= j <= |m|
    ensures AsBytes(m)[i..j] == AsBytes(m[i..j])
  {
    forall k | i <= k < j
      ensures AsBytes(m)[k] == AsBytes(m[i..j])[k - i]
    {
      AsByteAt(m, k);
      AsByteAt(m[i..j], k - i);
    }
  }

  /** A byte of memory read back as a word. */
  lemma WidenStored(m: seq<bv8>, k: nat)
    requires k < |m|
    ensures Widen(AsBytes(m)[k]) == m[k] as Word
  {
    AsByteAt(m, k);
    ByteForth(m[k]);
  }

  /** Eight bytes of a word, put together again. */
  lemma Reassemble(w: Word)
    ensures (((w & 0xff) as bv8) as Word) | (((((w >> 8) & 0xff) as bv8) as Word) << 8)
            | (((((w >> 16) & 0xff) as bv8) as Word) << 16) | (((((w >> 24) & 0xff) as bv8) as Word) << 24)
            | (((((w >> 32) & 0xff) as bv8) as Word) << 32) | (((((w >> 40) & 0xff) as bv8) as Word) << 40)
            | (((((w >> 48) & 0xff) as bv8) as Word) << 48) | (((((w >> 56) & 0xff) as bv8) as Word) << 56) == w
  {
  }

  /** load64 undoes store64. */
  lemma LoadStore(w: Word)
    ensures Load64(AsBytes(Store64(w))) == w
  {
    var m := Store64(w);
    WidenStored(m, 0);
    WidenStored(m, 1);
    WidenStored(m, 2);
    WidenStored(m, 3);
    WidenStored(m, 4);
    WidenStored(m, 5);
    WidenStored(m, 6);
    WidenStored(m, 7);
    Reassemble(w);
  }

  /** A word that is the number of eight bytes is stored as these. */
  lemma StoredNumber(w: Word, b: seq<byte>)
    requires |b| == 8 && w as int == LE(b)
    ensures AsBytes(Store64(w)) == b
  {
    LoadStore(w);
    Load64IsLE(AsBytes(Store64(w)));
    LEInjective(AsBytes(Store64(w)), b);
  }

  /** store64 undoes load64. */
  lemma StoreLoad(b: seq<byte>)
    requires |b| == 8
    ensures AsBytes(Store64(Load64(b))) == b
  {
    Load64IsLE(b);
    StoredNumber(Load64(b), b);
  }

  /** store64 writes the eight bytes of the number, least significant first. */
  lemma StoreIsToLE(w: Word)
    ensures AsBytes(Store64(w)) == ToLE(w as int, 8)
  {
    LoadStore(w);
    Load64IsLE(AsBytes(Store64(w)));
    LEBound(AsBytes(Store64(w)));
    LEToLE(w as int, 8);
    StoredNumber(w, ToLE(w as int, 8));
  }

  lemma {:induction false} StoredWord(h: seq<Word>, n: nat, i: nat)
    requires i < n <= |h|
    ensures StoreAll(h, n)[8 * i..8 * i + 8] == Store64(h[i])
  {
    if i == n - 1 {
    } else {
      StoredWord(h, n - 1, i);
      assert StoreAll(h, n)[8 * i..8 * i + 8] == StoreAll(h, n - 1)[8 * i..8 * i + 8];
    }
  }

  /** Word i of a hash is stored in its bytes 8i to 8i + 7. */
  lemma HashWord(h: Chaining, i: nat)
    requires i < 8
    ensures HashBytes(h)[8 * i..8 * i + 8] == ToLE(h[i] as int, 8)
  {
    AsBytesSlice(StoreAll(h, 8), 8 * i, 8 * i + 8);
    StoredWord(h, 8, i);
    StoreIsToLE(h[i]);
  }

  /** Word i of a block is the number in its bytes 8i to 8i + 7. */
  lemma BlockWord(block: Block, i: nat)
    requires i < 16
    ensures LoadBlock(block)[i] as int == LE(block[8 * i..8 * i + 8])
  {
    Load64IsLE(block[8 * i..8 * i + 8]);
  }

  // ---------- parameter blocks ----------

  /** The structure blake2b_param, byte by byte. */
  function ParamBytes(p: Param): (b: seq<byte>)
    ensures |b| == 64
  {
    [p.digestLength % 256, p.keyLength % 256, p.fanout % 256, p.depth % 256]
    + Zeros(4) + ToLE(p.nodeOffset % 0x1_0000_0000, 4) + Zeros(4)
    + [p.nodeDepth % 256, p.innerLength % 256] + Zeros(14) + Zeros(16) + Zeros(16)
  }

  ghost predicate InRange(p: Param)
  {
    && p.digestLength < 256 && p.keyLength < 256 && p.fanout < 256 && p.depth < 256
    && p.nodeOffset < 0x1_0000_0000 && p.nodeDepth < 256 && p.innerLength < 256
  }

  lemma ZeroWord(b: seq<byte>)
    requires |b| == 8 && forall i :: 0 <= i < 8 ==> b[i] == 0
    ensures Load64(b) == 0
  {
    assert Widen(0) == 0;
  }

  lemma FourBytes(b: seq<byte>)
    requires |b| == 8 && b[4] == 0 && b[5] == 0 && b[6] == 0 && b[7] == 0
    ensures Load64(b) == Widen(b[0]) | (Widen(b[1]) << 8) | (Widen(b[2]) << 16) | (Widen(b[3]) << 24)
  {
    assert Widen(0) == 0;
  }

  lemma TwoBytes(b: seq<byte>)
    requires |b| == 8 && b[2] == 0 && b[3] == 0 && b[4] == 0 && b[5] == 0 && b[6] == 0 && b[7] == 0
    ensures Load64(b) == Widen(b[0]) | (Widen(b[1]) << 8)
  {
    assert Widen(0) == 0;
  }

  lemma WordOfNumber(w: Word, v: int)
    requires w as int == v && 0 <= v < WORD
    ensures w == v as Word
  {
  }

  /** A 32-bit number followed by four zero bytes. */
  lemma OffsetWord(b: seq<byte>, v: nat) returns (w: Word)
    requires v < 0x1_0000_0000 && b == ToLE(v, 4) + Zeros(4)
    ensures w == v as Word && w as int == LE(b)
  {
    BytePowers();
    LEToLE(v, 4);
    LEConcat(ToLE(v, 4), Zeros(4));
    ZerosValue(4);
    Load64IsLE(b);
    w := Load64(b);
    WordOfNumber(w, v);
  }

  lemma {:induction false} ZerosValue(n: nat)
    ensures LE(Zeros(n)) == 0
  {
    if n == 0 {
    } else {
      ZerosValue(n - 1);
      assert Zeros(n)[1..] == Zeros(n - 1);
    }
  }

  lemma ParamWord0(p: Param)
    ensures Load64(ParamBytes(p)[..8]) == Widen(p.digestLength % 256) | (Widen(p.keyLength % 256) << 8)
            | (Widen(p.fanout % 256) << 16) | (Widen(p.depth % 256) << 24)
  {
    FourBytes(ParamBytes(p)[..8]);
  }

  lemma ParamWord2(p: Param)
    ensures Load64(ParamBytes(p)[16..24]) == Widen(p.nodeDepth % 256) | (Widen(p.innerLength % 256) << 8)
  {
    TwoBytes(ParamBytes(p)[16..24]);
  }

  lemma Word0(p: Param) returns (w: Word)
    ensures w == ParamWords(p)[0] && w as int == LE(ParamBytes(p)[..8])
  {
    ParamWord0(p);
    w := Load64(ParamBytes(p)[..8]);
    Load64IsLE(ParamBytes(p)[..8]);
  }

  lemma Word1(p: Param) returns (w: Word)
    ensures w == ParamWords(p)[1] && w as int == LE(ParamBytes(p)[8..16])
  {
    var v := p.nodeOffset % 0x1_0000_0000;
    assert ParamBytes(p)[8..16] == ToLE(v, 4) + Zeros(4);
    w := OffsetWord(ParamBytes(p)[8..16], v);
  }

  lemma Word2(p: Param) returns (w: Word)
    ensures w == ParamWords(p)[2] && w as int == LE(ParamBytes(p)[16..24])
  {
    ParamWord2(p);
    w := Load64(ParamBytes(p)[16..24]);
    Load64IsLE(ParamBytes(p)[16..24]);
  }

  lemma HighWord(p: Param, i: nat) returns (w: Word)
    requires 3 <= i < 8
    ensures w == ParamWords(p)[i] && w as int == LE(ParamBytes(p)[8 * i..8 * i + 8])
  {
    w := 0;
    assert ParamBytes(p)[8 * i..8 * i + 8] == Zeros(8);
    ZerosValue(8);
  }

  /** Word i of the parameter block is the number in its bytes 8i to 8i + 7. */
  lemma ParamWord(p: Param, i: nat) returns (w: Word)
    requires i < 8
    ensures w == ParamWords(p)[i] && w as int == LE(ParamBytes(p)[8 * i..8 * i + 8])
  {
    if i == 0 {
      w := Word0(p);
    } else if i == 1 {
      w := Word1(p);
    } else if i == 2 {
      w := Word2(p);
    } else {
      w := HighWord(p, i);
    }
  }

  lemma {:induction false} XoredWord(a: seq<Word>, b: seq<Word>, n: nat, i: nat)
    requires i < n <= |a| && n <= |b|
    ensures XorWords(a, b, n)[i] == a[i] ^ b[i]
  {
    if i == n - 1 {
    } else {
      XoredWord(a, b, n - 1, i);
    }
  }

  /** The initial chaining value is the IV xored with the little-endian words of the parameter block. */
  lemma InitialWord(p: Param, i: nat) returns (w: Word)
    requires i < 8
    ensures InitialChaining(p)[i] == IV[i] ^ w && w as int == LE(ParamBytes(p)[8 * i..8 * i + 8])
  {
    w := ParamWord(p, i);
    XoredWord(IV, ParamWords(p), 8, i);
  }

  lemma XorAt0(x: Word, y: Word)
    ensures (((x ^ y) & 0xff) as bv8) == ((x & 0xff) as bv8) ^ ((y & 0xff) as bv8)
  {
  }

  lemma XorByte0(x: Word, y: Word)
    ensures Store64(x ^ y)[0] == Store64(x)[0] ^ Store64(y)[0]
  {
    XorAt0(x, y);
  }

  lemma XorAt8(x: Word, y: Word)
    ensures ((((x ^ y) >> 8) & 0xff) as bv8) == (((x >> 8) & 0xff) as bv8) ^ (((y >> 8) & 0xff) as bv8)
  {
  }

  lemma XorByte1(x: Word, y: Word)
    ensures Store64(x ^ y)[1] == Store64(x)[1] ^ Store64(y)[1]
  {
    XorAt8(x, y);
  }

  lemma XorAt16(x: Word, y: Word)
    ensures ((((x ^ y) >> 16) & 0xff) as bv8) == (((x >> 16) & 0xff) as bv8) ^ (((y >> 16) & 0xff) as bv8)
  {
  }

  lemma XorByte2(x: Word, y: Word)
    ensures Store64(x ^ y)[2] == Store64(x)[2] ^ Store64(y)[2]
  {
    XorAt16(x, y);
  }

  lemma XorAt24(x: Word, y: Word)
    ensures ((((x ^ y) >> 24) & 0xff) as bv8) == (((x >> 24) & 0xff) as bv8) ^ (((y >> 24) & 0xff) as bv8)
  {
  }

  lemma XorByte3(x: Word, y: Word)
    ensures Store64(x ^ y)[3] == Store64(x)[3] ^ Store64(y)[3]
  {
    XorAt24(x, y);
  }

  lemma XorAt32(x: Word, y: Word)
    ensures ((((x ^ y) >> 32) & 0xff) as bv8) == (((x >> 32) & 0xff) as bv8) ^ (((y >> 32) & 0xff) as bv8)
  {
  }

  lemma XorByte4(x: Word, y: Word)
    ensures Store64(x ^ y)[4] == Store64(x)[4] ^ Store64(y)[4]
  {
    XorAt32(x, y);
  }

  lemma XorAt40(x: Word, y: Word)
    ensures ((((x ^ y) >> 40) & 0xff) as bv8) == (((x >> 40) & 0xff) as bv8) ^ (((y >> 40) & 0xff) as bv8)
  {
  }

  lemma XorByte5(x: Word, y: Word)
    ensures Store64(x ^ y)[5] == Store64(x)[5] ^ Store64(y)[5]
  {
    XorAt40(x, y);
  }

  lemma XorAt48(x: Word, y: Word)
    ensures ((((x ^ y) >> 48) & 0xff) as bv8) == (((x >> 48) & 0xff) as bv8) ^ (((y >> 48) & 0xff) as bv8)
  {
  }

  lemma XorByte6(x: Word, y: Word)
    ensures Store64(x ^ y)[6] == Store64(x)[6] ^ Store64(y)[6]
  {
    XorAt48(x, y);
  }

  lemma XorAt56(x: Word, y: Word)
    ensures ((((x ^ y) >> 56) & 0xff) as bv8) == (((x >> 56) & 0xff) as bv8) ^ (((y >> 56) & 0xff) as bv8)
  {
  }

  lemma XorByte7(x: Word, y: Word)
    ensures Store64(x ^ y)[7] == Store64(x)[7] ^ Store64(y)[7]
  {
    XorAt56(x, y);
  }

  lemma PickXor(a: seq<bv8>, b: seq<bv8>, c: seq<bv8>, k: nat, n: nat)
    requires |a| == |b| == |c| == 8 && n <= k < n + 2 && n <= 6
    requires c[n] == a[n] ^ b[n] && c[n + 1] == a[n + 1] ^ b[n + 1]
    ensures c[k] == a[k] ^ b[k]
  {
  }

  lemma PickXor8(a: seq<bv8>, b: seq<bv8>, c: seq<bv8>, k: nat)
    requires |a| == |b| == |c| == 8 && k < 8
    requires c[0] == a[0] ^ b[0] && c[1] == a[1] ^ b[1] && c[2] == a[2] ^ b[2] && c[3] == a[3] ^ b[3]
    requires c[4] == a[4] ^ b[4] && c[5] == a[5] ^ b[5] && c[6] == a[6] ^ b[6] && c[7] == a[7] ^ b[7]
    ensures c[k] == a[k] ^ b[k]
  {
    if k < 2 {
      PickXor(a, b, c, k, 0);
    } else if k < 4 {
      PickXor(a, b, c, k, 2);
    } else if k < 6 {
      PickXor(a, b, c, k, 4);
    } else {
      PickXor(a, b, c, k, 6);
    }
  }

  /** A word xored is its bytes xored. */
  lemma XorStored(x: Word, y: Word, k: nat) returns (c: bv8, d: bv8)
    requires k < 8
    ensures Store64(x)[k] == c && Store64(y)[k] == d && Store64(x ^ y)[k] == c ^ d
  {
    XorByte0(x, y);
    XorByte1(x, y);
    XorByte2(x, y);
    XorByte3(x, y);
    XorByte4(x, y);
    XorByte5(x, y);
    XorByte6(x, y);
    XorByte7(x, y);
    PickXor8(Store64(x), Store64(y), Store64(x ^ y), k);
    c, d := Store64(x)[k], Store64(y)[k];
  }

  lemma StoredByteIs(h: Chaining, i: nat, k: nat, w: Word, c: bv8)
    requires i < 8 && k < 8 && h[i] == w && Store64(w)[k] == c
    ensures StoreAll(h, 8)[8 * i + k] == c
  {
    StoredWord(h, 8, i);
    assert StoreAll(h, 8)[8 * i..8 * i + 8][k] == StoreAll(h, 8)[8 * i + k];
  }

  lemma XoredByte(h: Chaining, iv: Chaining, w: Word, i: nat, k: nat) returns (c: bv8, d: bv8)
    requires i < 8 && k < 8 && h[i] == iv[i] ^ w
    ensures StoreAll(h, 8)[8 * i + k] == c ^ d && StoreAll(iv, 8)[8 * i + k] == c && Store64(w)[k] == d
  {
    c, d := XorStored(iv[i], w, k);
    StoredByteIs(h, i, k, iv[i] ^ w, c ^ d);
    StoredByteIs(iv, i, k, iv[i], c);
  }

  lemma NumberAt(w: Word, b: seq<byte>, k: nat)
    requires |b| == 8 && w as int == LE(b) && k < 8
    ensures Store64(w)[k] == b[k] as bv8
  {
    StoredNumber(w, b);
    AsByteAt(Store64(w), k);
    ByteForth(Store64(w)[k]);
  }

  /** Byte k of word i. */
  lemma InitialByteAt(p: Param, i: nat, k: nat)
    requires i < 8 && k < 8
    ensures StoreAll(InitialChaining(p), 8)[8 * i + k] == StoreAll(IV, 8)[8 * i + k] ^ (ParamBytes(p)[8 * i + k] as bv8)
  {
    var w := InitialWord(p, i);
    var b := ParamBytes(p)[8 * i..8 * i + 8];
    NumberAt(w, b, k);
    var c, d := XoredByte(InitialChaining(p), IV, w, i, k);
    assert b[k] == ParamBytes(p)[8 * i + k];
  }

  /** Byte by byte, the initial chaining value in memory is the IV xored with the parameter block. */
  lemma InitialByte(p: Param, n: nat)
    requires n < 64
    ensures StoreAll(InitialChaining(p), 8)[n] == StoreAll(IV, 8)[n] ^ (ParamBytes(p)[n] as bv8)
  {
    DivMod(n, 8);
    InitialByteAt(p, n / 8, n % 8);
  }

  /** blake2b_init_param, which xors bytes: the chaining value it leaves in memory is the initial one. */
  method InitParam(p: Param) returns (h: array<bv8>)
    ensures fresh(h) && h[..] == StoreAll(InitialChaining(p), 8)
  {
    var v, b := StoreAll(IV, 8), ParamBytes(p);
    ghost var wanted := StoreAll(InitialChaining(p), 8);
    forall n | 0 <= n < 64
      ensures wanted[n] == v[n] ^ (b[n] as bv8)
    {
      InitialByte(p, n);
    }
    h := XorBytes(v, b, wanted);
  }

  method XorBytes(v: seq<bv8>, b: seq<byte>, ghost wanted: seq<bv8>) returns (h: array<bv8>)
    requires |v| == |b| == |wanted| && forall n :: 0 <= n < |v| ==> wanted[n] == v[n] ^ (b[n] as bv8)
    ensures fresh(h) && h[..] == wanted
  {
    h := new bv8[|v|](_ => 0);
    for i := 0 to |v|
      invariant forall k :: 0 <= k < i ==> h[k] == wanted[k]
    {
      h[i] := v[i] ^ (b[i] as bv8);
    }
  }

  // ---------- different hashes start differently ----------

  lemma OffsetDecides(p: Param, q: Param)
    requires p.nodeOffset < 0x1_0000_0000 && q.nodeOffset < 0x1_0000_0000 && ParamBytes(p) == ParamBytes(q)
    ensures p.nodeOffset == q.nodeOffset
  {
    OffsetBytes(p);
    OffsetBytes(q);
    BytePowers();
    LEToLE(p.nodeOffset, 4);
    LEToLE(q.nodeOffset, 4);
  }

  lemma OffsetBytes(p: Param)
    requires p.nodeOffset < 0x1_0000_0000
    ensures ParamBytes(p)[8..12] == ToLE(p.nodeOffset, 4)
  {
  }

  lemma FieldBytes(p: Param)
    requires InRange(p)
    ensures var b := ParamBytes(p);
      && b[0] == p.digestLength && b[1] == p.keyLength && b[2] == p.fanout && b[3] == p.depth
      && b[16] == p.nodeDepth && b[17] == p.innerLength
  {
  }

  lemma BlockDecides(p: Param, q: Param)
    requires InRange(p) && InRange(q) && ParamBytes(p) == ParamBytes(q)
    ensures p == q
  {
    OffsetDecides(p, q);
    FieldBytes(p);
    FieldBytes(q);
  }

  lemma SameByte(a: byte, b: byte)
    requires a as bv8 == b as bv8
    ensures a == b
  {
    ByteBack(a);
    ByteBack(b);
  }

  lemma SameXor(v: bv8, c: bv8, d: bv8, a: byte, b: byte)
    requires c == a as bv8 && d == b as bv8 && v ^ c == v ^ d
    ensures a == b
  {
    XorCancels(v, c, d);
    SameByte(a, b);
  }

  lemma XorCancels(v: bv8, c: bv8, d: bv8)
    requires v ^ c == v ^ d
    ensures c == d
  {
  }

  lemma SameParamByte(p: Param, q: Param, n: nat)
    requires InitialChaining(p) == InitialChaining(q) && n < 64
    ensures ParamBytes(p)[n] == ParamBytes(q)[n]
  {
    var a, b := ParamBytes(p)[n], ParamBytes(q)[n];
    InitialByte(p, n);
    InitialByte(q, n);
    SameXor(StoreAll(IV, 8)[n], a as bv8, b as bv8, a, b);
  }

  /** Parameter blocks with fields in range that differ give different chaining values. */
  lemma InitialInjective(p: Param, q: Param)
    requires InRange(p) && InRange(q) && InitialChaining(p) == InitialChaining(q)
    ensures p == q
  {
    forall n | 0 <= n < 64
      ensures ParamBytes(p)[n] == ParamBytes(q)[n]
    {
      SameParamByte(p, q, n);
    }
    BlockDecides(p, q);
  }

  lemma SmallOffset(i: nat)
    requires i < 4
    ensures ToLE(i, 4) == [i, 0, 0, 0]
  {
    assert ToLE(i / 256, 3) == [0, 0, 0];
  }

  /** The parameter block of leaf i: its number in bytes 8 to 11, depth 0 in byte 16, inner length 64. */
  lemma LeafLayout(outlen: nat, keylen: nat, i: nat)
    requires outlen <= 64 && keylen <= 64 && i < 4
    ensures ParamBytes(Leaf(outlen, keylen, i))
      == [outlen, keylen, 4, 2, 0, 0, 0, 0, i, 0, 0, 0, 0, 0, 0, 0, 0, 64] + Zeros(46)
  {
    SmallOffset(i);
  }

  /** That of the root: offset 0, depth 1. */
  lemma RootLayout(outlen: nat, keylen: nat)
    requires outlen <= 64 && keylen <= 64
    ensures ParamBytes(Root(outlen, keylen))
      == [outlen, keylen, 4, 2, 0, 0, 0, 0, 0, 0, 0, 0, 0, 0, 0, 0, 1, 64] + Zeros(46)
  {
    SmallOffset(0);
  }

  /** That of sequential hashing: fanout and depth 1, everything else 0. */
  lemma SequentialLayout(outlen: nat, keylen: nat)
    requires outlen <= 64 && keylen <= 64
    ensures ParamBytes(Sequential(outlen, keylen)) == [outlen, keylen, 1, 1] + Zeros(60)
  {
    SmallOffset(0);
  }

  /** No two of the leaves, the root and a sequential hash start from the same chaining value. */
  lemma StartsDiffer(outlen: nat, keylen: nat, i: nat, j: nat)
    requires outlen <= 64 && keylen <= 64 && i < j < 4
    ensures InitialChaining(Leaf(outlen, keylen, i)) != InitialChaining(Leaf(outlen, keylen, j))
    ensures InitialChaining(Leaf(outlen, keylen, i)) != InitialChaining(Root(outlen, keylen))
    ensures InitialChaining(Leaf(outlen, keylen, j)) != InitialChaining(Root(outlen, keylen))
    ensures InitialChaining(Leaf(outlen, keylen, i)) != InitialChaining(Sequential(outlen, keylen))
    ensures InitialChaining(Leaf(outlen, keylen, j)) != InitialChaining(Sequential(outlen, keylen))
    ensures InitialChaining(Sequential(outlen, keylen)) != InitialChaining(Root(outlen, keylen))
  {
    var a, b := Leaf(outlen, keylen, i), Leaf(outlen, keylen, j);
    var r, s := Root(outlen, keylen), Sequential(outlen, keylen);
    if InitialChaining(a) == InitialChaining(b) { InitialInjective(a, b); }
    if InitialChaining(a) == InitialChaining(r) { InitialInjective(a, r); }
    if InitialChaining(b) == InitialChaining(r) { InitialInjective(b, r); }
    if InitialChaining(a) == InitialChaining(s) { InitialInjective(a, s); }
    if InitialChaining(b) == InitialChaining(s) { InitialInjective(b, s); }
    if InitialChaining(s) == InitialChaining(r) { InitialInjective(s, r); }
  }

  /** A key becomes one block: its bytes, then zeros; no key, no block. */
  lemma KeyBlockMeans(key: seq<byte>)
    requires |key| <= 64
    ensures |KeyBlock(key)| == if |key| == 0 then 0 else 128
    ensures forall i :: 0 <= i < |key| ==> KeyBlock(key)[i] == key[i]
    ensures forall i :: |key| <= i < |KeyBlock(key)| ==> KeyBlock(key)[i] == 0
  {
  }

  /** Keys of one length are told apart by their blocks. */
  lemma KeyBlockInjective(key: seq<byte>, other: seq<byte>)
    requires |key| == |other| <= 64 && KeyBlock(key) == KeyBlock(other)
    ensures key == other
  {
    KeyBlockMeans(key);
    KeyBlockMeans(other);
    assert forall i :: 0 <= i < |key| ==> key[i] == KeyBlock(key)[i] == KeyBlock(other)[i] == other[i];
  }

  // ---------- the constants ----------

  /** v is the integer part of 2^64 times the square root of p, without the whole part `n`. */
  ghost predicate RootOf(v: int, p: int, n: int)
  {
    (n * WORD + v) * (n * WORD + v) < p * WORD * WORD < (n * WORD + v + 1) * (n * WORD + v + 1) && 0 <= v < WORD
  }

  /** The IV holds the fractional parts of the square roots of the first eight primes. */
  lemma InitialVector()
    ensures RootOf(IV[0] as int, 2, 1) && RootOf(IV[1] as int, 3, 1) && RootOf(IV[2] as int, 5, 2)
    ensures RootOf(IV[3] as int, 7, 2)
  {
  }

  lemma InitialVectorRest()
    ensures RootOf(IV[4] as int, 11, 3) && RootOf(IV[5] as int, 13, 3) && RootOf(IV[6] as int, 17, 4)
    ensures RootOf(IV[7] as int, 19, 4)
  {
  }

  lemma WordBack(x: u64)
    ensures (x as Word) as int == x
  {
    var b := ToLE(x, 8);
    Bytes.WordPowers();
    LEToLE(x, 8);
    Load64IsLE(b);
    WordOfNumber(Load64(b), x);
  }

  /** A raised flag is a word of ones. */
  lemma FlagWord()
    ensures (ONES as Word) == 0xffff_ffff_ffff_ffff
  {
    AllOnes(0xffff_ffff_ffff_ffff);
    WordOfNumber(0xffff_ffff_ffff_ffff, ONES);
  }

  lemma AllOnes(w: Word)
    requires w == 0xffff_ffff_ffff_ffff
    ensures w as int == ONES
  {
  }

  /** Counter and flag words enter the compression with their values, in order. */
  lemma PairWords(x: u64, y: u64)
    ensures WordPair(x, y)[0] as int == x && WordPair(x, y)[1] as int == y
  {
    WordBack(x);
    WordBack(y);
  }

  /** A rotation by k: bit i of the result is bit i + k, modulo 64, of the word. */
  lemma Rotation32(w: Word, i: Word)
    requires i < 64
    ensures (Rotr32(w) >> (i as bv7)) & 1 == (w >> (((i + 32) % 64) as bv7)) & 1
  {
  }

  /** The same for 24. */
  lemma Rotation24(w: Word, i: Word)
    requires i < 64
    ensures (Rotr24(w) >> (i as bv7)) & 1 == (w >> (((i + 24) % 64) as bv7)) & 1
  {
  }

  /** The same for 16. */
  lemma Rotation16(w: Word, i: Word)
    requires i < 64
    ensures (Rotr16(w) >> (i as bv7)) & 1 == (w >> (((i + 16) % 64) as bv7)) & 1
  {
  }

  /** The same for 63. */
  lemma Rotation63(w: Word, i: Word)
    requires i < 64
    ensures (Rotr63(w) >> (i as bv7)) & 1 == (w >> (((i + 63) % 64) as bv7)) & 1
  {
  }

  /** Every round uses each message word once, and the last two repeat the first two. */
  lemma SigmaPermutes(r: nat, w: nat)
    requires r < 12 && w < 16
    ensures |SIGMA| == 12 && |SIGMA[r]| == 16 && w in SIGMA[r]
    ensures SIGMA[10] == SIGMA[0] && SIGMA[11] == SIGMA[1]
  {
  }
}

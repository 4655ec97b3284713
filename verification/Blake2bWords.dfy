/** The two compressions on 64-bit words, each with its own way to rotate. */
module Blake2bWords {
  import opened Blake2bRounds
  import opened Blake2bRows

  type Word = bv64

  function Add(a: Word, b: Word): Word { a + b }
  function Xor(a: Word, b: Word): Word { a ^ b }

  // rotr64 of blake2-impl.h, for the four distances.
  function Rotr32(w: Word): Word { (w >> 32) | (w << 32) }
  function Rotr24(w: Word): Word { (w >> 24) | (w << 40) }
  function Rotr16(w: Word): Word { (w >> 16) | (w << 48) }
  function Rotr63(w: Word): Word { (w >> 63) | (w << 1) }

  // _mm_roti_epi64 with SSE2 only: two shifts joined by exclusive or.
  function Roti32(w: Word): Word { (w >> 32) ^ (w << 32) }
  function Roti24(w: Word): Word { (w >> 24) ^ (w << 40) }
  function Roti16(w: Word): Word { (w >> 16) ^ (w << 48) }
  function Roti63(w: Word): Word { (w >> 63) ^ (w << 1) }

  /** The byte that starts at bit s. */
  function ByteAt(w: Word, s: Word): Word
    requires s <= 56
  {
    (w >> s) & 0xff
  }

  // _mm_roti_epi64 with SSSE3: word and byte shuffles, and an addition for the shift by one.
  function Shuffle32(w: Word): Word { (w >> 32) | ((w & 0xffff_ffff) << 32) }

  function Shuffle24(w: Word): Word
  {
    ByteAt(w, 24) | (ByteAt(w, 32) << 8) | (ByteAt(w, 40) << 16) | (ByteAt(w, 48) << 24)
    | (ByteAt(w, 56) << 32) | (ByteAt(w, 0) << 40) | (ByteAt(w, 8) << 48) | (ByteAt(w, 16) << 56)
  }

  function Shuffle16(w: Word): Word
  {
    ByteAt(w, 16) | (ByteAt(w, 24) << 8) | (ByteAt(w, 32) << 16) | (ByteAt(w, 40) << 24)
    | (ByteAt(w, 48) << 32) | (ByteAt(w, 56) << 40) | (ByteAt(w, 0) << 48) | (ByteAt(w, 8) << 56)
  }

  function Doubled63(w: Word): Word { (w >> 63) ^ (w + w) }

  const REFERENCE: Ops<Word> := Ops(Add, Xor, Rotr32, Rotr24, Rotr16, Rotr63)
  const SSE2: Ops<Word> := Ops(Add, Xor, Roti32, Roti24, Roti16, Roti63)
  const SSSE3: Ops<Word> := Ops(Add, Xor, Shuffle32, Shuffle24, Shuffle16, Doubled63)

  lemma SumOrder(a: Word, b: Word, m: Word)
    ensures (a + m) + b == (a + b) + m
  {
  }

  lemma AddOrder(a: Word, b: Word, m: Word)
    ensures Add(Add(a, m), b) == Add(Add(a, b), m)
  {
    calc {
      Add(Add(a, m), b);
      Add(a + m, b);
      (a + m) + b;
      { SumOrder(a, b, m); }
      (a + b) + m;
      Add(a + b, m);
      Add(Add(a, b), m);
    }
  }

  lemma XorSum(h: Word, a: Word, c: Word)
    ensures h ^ (c ^ a) == (h ^ a) ^ c
  {
  }

  lemma XorLeft(h: Word, a: Word, c: Word)
    ensures Xor(h, Xor(c, a)) == h ^ (c ^ a)
  {
  }

  lemma XorRight(h: Word, a: Word, c: Word)
    ensures Xor(Xor(h, a), c) == (h ^ a) ^ c
  {
  }

  lemma XorOrder(h: Word, a: Word, c: Word)
    ensures Xor(h, Xor(c, a)) == Xor(Xor(h, a), c)
  {
    XorLeft(h, a, c);
    XorSum(h, a, c);
    XorRight(h, a, c);
  }

  lemma WordsLawful(o: Ops<Word>)
    requires forall a, b :: o.add(a, b) == Add(a, b) && o.xor(a, b) == Xor(a, b)
    ensures Lawful(o)
  {
    forall a, b, m: Word ensures o.add(o.add(a, m), b) == o.add(o.add(a, b), m) {
      AddOrder(a, b, m);
    }
    forall h, a, c: Word ensures o.xor(h, o.xor(c, a)) == o.xor(o.xor(h, a), c) {
      XorOrder(h, a, c);
    }
  }

  lemma ShiftsDisjoint(w: Word)
    ensures Roti32(w) == Rotr32(w) && Roti24(w) == Rotr24(w) && Roti16(w) == Rotr16(w) && Roti63(w) == Rotr63(w)
  {
  }

  lemma SwapRotates(w: Word)
    ensures Shuffle32(w) == Rotr32(w)
  {
  }

  lemma Shuffle24Rotates(w: Word)
    ensures Shuffle24(w) == Rotr24(w)
  {
  }

  lemma Shuffle16Rotates(w: Word)
    ensures Shuffle16(w) == Rotr16(w)
  {
  }

  lemma DoublingRotates(w: Word)
    ensures Doubled63(w) == Rotr63(w)
  {
  }

  lemma RotationsAgree(o: Ops<Word>)
    requires o == SSE2 || o == SSSE3
    ensures Agree(o, REFERENCE)
  {
    forall w: Word
      ensures o.r32(w) == REFERENCE.r32(w) && o.r24(w) == REFERENCE.r24(w)
      ensures o.r16(w) == REFERENCE.r16(w) && o.r63(w) == REFERENCE.r63(w)
    {
      ShiftsDisjoint(w);
      SwapRotates(w);
      Shuffle24Rotates(w);
      Shuffle16Rotates(w);
      DoublingRotates(w);
    }
  }

  /** The row-parallel compression, in its SSE2 and in its SSSE3 form, computes what the reference does. */
  method RowCompressWords(h: seq<Word>, iv: seq<Word>, m: seq<Word>, t: seq<Word>, f: seq<Word>, ssse3: bool)
    returns (h': seq<Word>)
    requires |h| == 8 && |iv| == 8 && |m| == 16 && |t| == 2 && |f| == 2
    ensures h' == Compress(REFERENCE, h, iv, m, t, f)
  {
    var o := if ssse3 then SSSE3 else SSE2;
    WordsLawful(o);
    RotationsAgree(o);
    h' := RowCompressAs(o, REFERENCE, h, iv, m, t, f, ssse3);
  }
}

/** Words cut into limbs and limbs packed into words, and words as bytes. */
module Bytes {
  import opened Arith
  import opened Words

  // ---------- words to limbs ----------

  /** ((a >> d) | (b << u)) & mask, where d + u = 64: the high bits of one word under
      the low bits of the next.  `mask` stands for one more than the mask. */
  method Glue(a: u64, b: u64, down: int, up: int, keep: int, mask: int, ratio: int) returns (limb: u64)
    requires down > 0 && up > 0 && keep > 0 && down * up == WORD && up * keep == mask && ratio * mask == WORD
      && ratio > 0
    ensures limb == a / down + (b % keep) * up
  {
    GlueMeaning(a, b, down, up, keep, mask, ratio);
    limb := Or(a / down, b * up % WORD, up) % mask;
  }

  lemma HighPart(a: int, down: int, up: int, top: int)
    requires down > 0 && up > 0 && 0 <= a < top && down * up == top
    ensures 0 <= a / down < up
  {
    DivMod(a, down);
    if a / down >= up { MulMono(up, a / down, down); }
    if a / down < 0 { MulMono(a / down, -1, down); }
  }

  /** A word shifted up is a multiple of the shift, wrap-around included. */
  lemma ShiftedIsMultiple(b: u64, down: int, up: int)
    requires down > 0 && up > 0 && down * up == WORD
    ensures b * up % WORD % up == 0
  {
    DivMod(b * up, WORD);
    var w, q := b * up % WORD, b * up / WORD;
    Dist(b, q * down, up);
    Assoc(q, down, up);
    ModMultiple(b - q * down, up);
  }

  lemma GlueMeaning(a: u64, b: u64, down: int, up: int, keep: int, mask: int, ratio: int)
    requires down > 0 && up > 0 && keep > 0 && down * up == WORD && up * keep == mask && ratio * mask == WORD
      && ratio > 0
    ensures 0 <= a / down < up && b * up % WORD % up == 0 && mask > 0
    ensures (a / down + b * up % WORD) % mask == a / down + (b % keep) * up
    ensures 0 <= (b % keep) * up <= mask - up
  {
    MulMono(1, up, keep);
    HighPart(a, down, up, WORD);
    ShiftedIsMultiple(b, down, up);
    ShiftMask(b, up, keep, mask, ratio);
    var w, k := b * up % WORD, b % keep;
    DivMod(w, mask);
    MulMono(k, keep - 1, up);
    Dist(keep, 1, up);
    MulPos(k, up);
    DivModUnique(a / down + w, mask, w / mask, a / down + k * up);
  }

  // ---------- limbs to words ----------

  lemma ShiftKeeps(b: int, up: int, keep: int)
    requires up > 0 && keep > 0 && up * keep == WORD
    ensures b * up % WORD == (b % keep) * up
    ensures 0 <= (b % keep) * up <= WORD - up
  {
    DivMod(b, keep);
    var k, r := b / keep, b % keep;
    Dist(k * keep, r, up);
    Assoc(k, keep, up);
    MulMono(r, keep - 1, up);
    Dist(keep, 1, up);
    MulPos(r, up);
    DivModUnique(b * up, WORD, k, r * up);
  }

  /** (a >> d) | (b << u) in a 64-bit word, where d + u is the width of limb `a`. */
  method Pack(a: u64, b: u64, down: int, up: int, keep: int, limb: int) returns (w: u64)
    requires 0 <= a < limb && down > 0 && up > 0 && keep > 0 && down * up == limb && up * keep == WORD
    ensures w == a / down + b % keep * up
  {
    ShiftKeeps(b, up, keep);
    ModMultiple(b % keep, up);
    HighPart(a, down, up, limb);
    w := Or(a / down, b * up % WORD, up);
  }

  // ---------- bytes ----------

  lemma WordPowers()
    ensures Pow2(64) == WORD && Pow2(128) == TWO128 && Pow2(192) == TWO192 && Pow2(256) == TWO256
    ensures Pow2(320) == TWO320 && Pow2(384) == TWO384 && Pow2(448) == TWO448 && Pow2(512) == TWO512
      && Pow2(248) == TWO248
  {
    Pow2Of56();
    assert Pow2(8) == 256;
    Pow2Add(56, 8);
    Pow2Add(64, 64);
    Pow2Add(128, 64);
    Pow2Add(128, 128);
    Pow2Add(256, 64);
    Pow2Add(256, 128);
    Pow2Add(256, 192);
    Pow2Add(256, 256);
    Pow2Add(56, 192);
  }

  /** Eight bytes as a word. */
  function Word(b: seq<byte>, i: nat): (w: u64)
    requires 8 * i + 8 <= |b|
  {
    WordBound(b[8 * i..8 * i + 8], 8);
    LE(b[8 * i..8 * i + 8])
  }

  /** The number of bytes is a parameter n, which is 8, so that the verifier does not unroll LE over a literal. */
  lemma WordBound(b: seq<byte>, n: nat)
    requires |b| == n == 8
    ensures LE(b) < WORD
  {
    LEBound(b);
    WordPowers();
    assert Pow2(8 * n) == Pow2(64);
  }

  lemma {:induction false} LEOfWords(b: seq<byte>, n: nat)
    requires 8 * n <= |b|
    ensures LE(b[..8 * n]) == WordSum(b, n)
  {
    if n == 0 {
      assert b[..0] == [];
    } else {
      LEOfWords(b, n - 1);
      assert b[..8 * n] == b[..8 * (n - 1)] + b[8 * (n - 1)..8 * n];
      LEConcat(b[..8 * (n - 1)], b[8 * (n - 1)..8 * n]);
    }
  }

  function WordSum(b: seq<byte>, n: nat): int
    requires 8 * n <= |b|
  {
    if n == 0 then 0 else WordSum(b, n - 1) + Pow2(64 * (n - 1)) * Word(b, n - 1)
  }

  /** One more word, of n = 8 bytes, behind k of them; n is a parameter for the reason given at WordBound. */
  lemma AppendWord(b: seq<byte>, w: u64, n: nat, k: nat, p: int)
    requires n == 8 && |b| == 8 * k && p == Pow2(64 * k)
    ensures LE(b + ToLE(w, n)) == LE(b) + p * w
  {
    WordPowers();
    assert Pow2(8 * n) == Pow2(64);
    LEToLE(w, n);
    LEConcat(b, ToLE(w, n));
    assert 8 * |b| == 64 * k;
  }

  /** Four words written out, n = 8 bytes each; n is a parameter for the reason given at WordBound. */
  method StoreWords(w0: u64, w1: u64, w2: u64, w3: u64, n: nat) returns (out: seq<byte>)
    requires n == 8
    ensures |out| == 32 && LE(out) == w0 + w1 * WORD + w2 * TWO128 + w3 * TWO192
  {
    WordPowers();
    out := [];
    AppendWord(out, w0, n, 0, 1);
    out := out + ToLE(w0, n);
    AppendWord(out, w1, n, 1, WORD);
    out := out + ToLE(w1, n);
    AppendWord(out, w2, n, 2, TWO128);
    out := out + ToLE(w2, n);
    AppendWord(out, w3, n, 3, TWO192);
    out := out + ToLE(w3, n);
  }
}

/** The compression of 64-bit words as the core of the streams: bytes in, bytes out. */
module Blake2b64 {
  import opened Words
  import opened Blake2bRounds
  import opened Blake2bWords
  import opened Blake2bStream

  const IV: seq<Word> := [
    0x6a09e667f3bcc908, 0xbb67ae8584caa73b, 0x3c6ef372fe94f82b, 0xa54ff53a5f1d36f1,
    0x510e527fade682d1, 0x9b05688c2b3e6c1f, 0x1f83d9abfb41bd6b, 0x5be0cd19137e2179]

  type Chaining = h: seq<Word> | |h| == 8 witness IV

  /** A byte as a word. */
  function Widen(b: byte): Word { (b as bv8) as Word }

  /** load64: eight bytes, least significant first. */
  function Load64(b: seq<byte>): Word
    requires |b| == 8
  {
    Widen(b[0]) | (Widen(b[1]) << 8) | (Widen(b[2]) << 16) | (Widen(b[3]) << 24)
    | (Widen(b[4]) << 32) | (Widen(b[5]) << 40) | (Widen(b[6]) << 48) | (Widen(b[7]) << 56)
  }

  function LoadBlock(block: Block): (m: seq<Word>)
    ensures |m| == 16
  {
    seq(16, i requires 0 <= i < 16 => Load64(block[8 * i..8 * i + 8]))
  }

  /** store64. */
  function Store64(w: Word): (b: seq<bv8>)
    ensures |b| == 8
  {
    [(w & 0xff) as bv8, ((w >> 8) & 0xff) as bv8, ((w >> 16) & 0xff) as bv8, ((w >> 24) & 0xff) as bv8,
     ((w >> 32) & 0xff) as bv8, ((w >> 40) & 0xff) as bv8, ((w >> 48) & 0xff) as bv8, ((w >> 56) & 0xff) as bv8]
  }

  /** The first n words in memory, one after the other. */
  function StoreAll(h: seq<Word>, n: nat): (b: seq<bv8>)
    requires n <= |h|
    ensures |b| == 8 * n
  {
    if n == 0 then [] else StoreAll(h, n - 1) + Store64(h[n - 1])
  }

  function AsBytes(m: seq<bv8>): (b: seq<byte>)
    ensures |b| == |m|
  {
    if m == [] then [] else [m[0] as int] + AsBytes(m[1..])
  }

  function HashBytes(h: Chaining): Hash { AsBytes(StoreAll(h, 8)) }

  /** The parameter block as words; the fields left out are zero. */
  function ParamWords(p: Param): (w: seq<Word>)
    ensures |w| == 8
  {
    [Widen(p.digestLength % 256) | (Widen(p.keyLength % 256) << 8) | (Widen(p.fanout % 256) << 16)
     | (Widen(p.depth % 256) << 24),
     (p.nodeOffset % 0x1_0000_0000) as Word,
     Widen(p.nodeDepth % 256) | (Widen(p.innerLength % 256) << 8),
     0, 0, 0, 0, 0]
  }

  /** The first n words of one sequence xored with those of another. */
  function XorWords(a: seq<Word>, b: seq<Word>, n: nat): (w: seq<Word>)
    requires n <= |a| && n <= |b|
    ensures |w| == n
  {
    if n == 0 then [] else XorWords(a, b, n - 1) + [a[n - 1] ^ b[n - 1]]
  }

  /** The parameter block xored into the IV. */
  function InitialChaining(p: Param): Chaining { XorWords(IV, ParamWords(p), 8) }

  function WordPair(x: u64, y: u64): (w: seq<Word>)
    ensures |w| == 2
  {
    [x as Word, y as Word]
  }

  /** Section 3.2 of RFC 7693 on a block of bytes. */
  function CompressBytes(h: Chaining, block: Block, t0: u64, t1: u64, f0: u64, f1: u64): Chaining
  {
    Compress(REFERENCE, h, IV, LoadBlock(block), WordPair(t0, t1), WordPair(f0, f1))
  }

  const BLAKE2B: Core<Chaining> := Core(InitialChaining, CompressBytes, HashBytes)

  lemma CoreCompresses(h: Chaining, block: Block, t0: u64, t1: u64, f0: u64, f1: u64)
    ensures BLAKE2B.f(h, block, t0, t1, f0, f1) == CompressBytes(h, block, t0, t1, f0, f1)
  {
  }

  /** The row-parallel compression is the core's. */
  method RowCompressBlock(h: Chaining, block: Block, t0: u64, t1: u64, f0: u64, f1: u64, ssse3: bool)
    returns (h': Chaining)
    ensures h' == BLAKE2B.f(h, block, t0, t1, f0, f1)
  {
    var r := RowCompressWords(h, IV, LoadBlock(block), WordPair(t0, t1), WordPair(f0, f1), ssse3);
    CoreCompresses(h, block, t0, t1, f0, f1);
    h' := r;
  }

  /** So is the scalar reference. */
  method RefCompressBlock(h: Chaining, block: Block, t0: u64, t1: u64, f0: u64, f1: u64) returns (h': Chaining)
    ensures h' == BLAKE2B.f(h, block, t0, t1, f0, f1)
  {
    var r := RefCompress(REFERENCE, h, IV, LoadBlock(block), WordPair(t0, t1), WordPair(f0, f1));
    CoreCompresses(h, block, t0, t1, f0, f1);
    h' := r;
  }
}

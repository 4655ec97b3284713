/** Machine words.  A variable of type u64 or u128 is proved to stay in range at
    every assignment; where the source lets a word wrap, Wrap64 says so. */
module Words {
  import opened Arith

  const BASE: int := 0x100_0000_0000_0000            // 2^56
  const WORD: int := 0x1_0000_0000_0000_0000         // 2^64
  const SIGN: int := 0x8000_0000_0000_0000           // 2^63
  const TWO127: int := 0x80000000000000000000000000000000
  const TWO128: int := 0x100000000000000000000000000000000
  const TWO192: int := 0x1000000000000000000000000000000000000000000000000
  const TWO223: int := 0x80000000000000000000000000000000000000000000000000000000
  const TWO224: int := 0x100000000000000000000000000000000000000000000000000000000
  const TWO248: int := 0x100000000000000000000000000000000000000000000000000000000000000
  const TWO255: int := 0x8000000000000000000000000000000000000000000000000000000000000000
  const TWO256: int := 0x10000000000000000000000000000000000000000000000000000000000000000
  const TWO264: int := 0x1000000000000000000000000000000000000000000000000000000000000000000
  const TWO280: int := 0x10000000000000000000000000000000000000000000000000000000000000000000000
  const TWO320: int := 0x100000000000000000000000000000000000000000000000000000000000000000000000000000000
  const TWO384: int := 0x1000000000000000000000000000000000000000000000000000000000000000000000000000000000000000000000000
  const TWO448: int := 0x10000000000000000000000000000000000000000000000000000000000000000000000000000000000000000000000000000000000000000
  const TWO512: int := 0x100000000000000000000000000000000000000000000000000000000000000000000000000000000000000000000000000000000000000000000000000000000

  type u64 = x: int | 0 <= x < WORD
  type u128 = x: int | 0 <= x < TWO128
  type byte = x: int | 0 <= x < 256

  function Wrap64(x: int): (r: u64)
    ensures 0 <= x < WORD ==> r == x
    ensures -WORD <= x < 0 ==> r == x + WORD
  {
    x % WORD
  }

  /** `low | high` for words that share no bit: `low` below 2^k, `high` a multiple of it. */
  function Or(low: int, high: int, unit: int): (r: int)
    requires unit > 0 && 0 <= low < unit && high % unit == 0
    ensures r == low + high
  {
    low + high
  }

  /** (f << k) masked keeps the low bits of f; `up` is 2^k, `mask` one more than the mask. */
  lemma ShiftMask(f: int, up: int, keep: int, mask: int, ratio: int)
    requires 0 <= f < WORD && up > 0 && keep > 0 && up * keep == mask && ratio * mask == WORD
    ensures mask > 0 && f * up % WORD % mask == (f % keep) * up
  {
    MulMono(1, up, keep);
    DivMod(f * up, WORD);
    DivMod(f, keep);
    var q, k, r := f * up / WORD, f / keep, f % keep;
    assert f * up == k * mask + r * up by {
      Dist(k * keep, r, up);
      Assoc(k, keep, up);
      assert keep * up == up * keep;
    }
    MulMono(r + 1, keep, up);
    Dist(r, 1, up);
    MulPos(r, up);
    var w := f * up % WORD;
    assert w == (k - q * ratio) * mask + r * up by {
      Dist(k, q * ratio, mask);
      Assoc(q, ratio, mask);
    }
    DivModUnique(w, mask, k - q * ratio, r * up);
  }

  /** The number written by `b`, least significant byte first. */
  function LE(b: seq<byte>): (v: nat)
  {
    if b == [] then 0 else b[0] + 256 * LE(b[1..])
  }

  /** The `n` low bytes of `v`, least significant first. */
  function ToLE(v: nat, n: nat): (b: seq<byte>)
    ensures |b| == n
  {
    if n == 0 then [] else [v % 256] + ToLE(v / 256, n - 1)
  }

  lemma {:induction false} LEBound(b: seq<byte>)
    ensures LE(b) < Pow2(8 * |b|)
  {
    if b == [] {
    } else {
      LEBound(b[1..]);
      Pow2Add(8, 8 * (|b| - 1));
      assert Pow2(8) == 256;
    }
  }

  lemma {:induction false} LEConcat(a: seq<byte>, b: seq<byte>)
    ensures LE(a + b) == LE(a) + Pow2(8 * |a|) * LE(b)
  {
    if a == [] {
      assert a + b == b;
    } else {
      LEConcat(a[1..], b);
      assert (a + b)[1..] == a[1..] + b;
      Pow2Add(8, 8 * (|a| - 1));
      assert Pow2(8) == 256;
      Assoc(256, Pow2(8 * (|a| - 1)), LE(b));
    }
  }

  /** The last byte is the most significant. */
  lemma LELast(s: seq<byte>, n: nat)
    requires |s| == n + 1
    ensures LE(s) == LE(s[..n]) + Pow2(8 * n) * s[n]
  {
    var top := s[n..];
    assert s == s[..n] + top && top[1..] == [];
    LEConcat(s[..n], top);
  }

  lemma {:induction false} LEToLE(v: nat, n: nat)
    requires v < Pow2(8 * n)
    ensures LE(ToLE(v, n)) == v
  {
    if n == 0 {
    } else {
      Pow2Add(8, 8 * (n - 1));
      assert Pow2(8) == 256;
      LEToLE(v / 256, n - 1);
      assert ToLE(v, n)[1..] == ToLE(v / 256, n - 1);
    }
  }

  /** A byte string is determined by its length and its number. */
  lemma {:induction false} LEInjective(a: seq<byte>, b: seq<byte>)
    requires |a| == |b| && LE(a) == LE(b)
    ensures a == b
  {
    if a == [] {
    } else {
      assert a[0] == LE(a) % 256 && b[0] == LE(b) % 256;
      LEInjective(a[1..], b[1..]);
      assert a == [a[0]] + a[1..] && b == [b[0]] + b[1..];
    }
  }
}

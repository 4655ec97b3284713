/** BLAKE2b as a stream: the buffered update and the padded final block. */
module Blake2bStream {
  import opened Arith
  import opened Words

  const BLOCK: int := 128
  const OUT_MAX: int := 64
  const ONES: u64 := WORD - 1

  type Block = b: seq<byte> | |b| == BLOCK witness seq(BLOCK, _ => 0)
  type Hash = b: seq<byte> | |b| == OUT_MAX witness seq(OUT_MAX, _ => 0)

  /** The fields of a parameter block that vary between the hashes built here. */
  datatype Param = Param(digestLength: nat, keyLength: nat, fanout: nat, depth: nat,
                         nodeOffset: nat, nodeDepth: nat, innerLength: nat)

  /** The hash underneath: initial chaining value, compression (chaining value, block,
      two counter words, two flag words), and the bytes of a chaining value. */
  datatype Core<!H> = Core(init: Param -> H, f: (H, Block, u64, u64, u64, u64) -> H, bytes: H -> Hash)

  // ---------- section 3.3 of RFC 7693 ----------

  /** How many blocks n bytes take; no bytes still take one. */
  function BlockCount(n: nat): (dd: nat)
    ensures dd >= 1 && BLOCK * (dd - 1) <= n <= BLOCK * dd && (n > 0 ==> BLOCK * (dd - 1) < n)
  {
    if n == 0 then 1 else (n + 127) / 128
  }

  function Zeros(n: nat): seq<byte> { seq(n, _ => 0) }

  /** Block i of the data, filled up with zeros. */
  function PaddedBlock(data: seq<byte>, i: nat): Block
    requires BLOCK * i <= |data|
  {
    if |data| - BLOCK * i < BLOCK then data[BLOCK * i..] + Zeros(BLOCK * (i + 1) - |data|)
    else data[BLOCK * i..][..BLOCK]
  }

  /** A byte count as the two counter words. */
  function Lo(n: nat): u64 { n % WORD }
  function Hi(n: nat): u64 { n / WORD % WORD }

  /** The chaining value after the first k blocks, none of them the last. */
  function Chain<H>(core: Core<H>, h0: H, data: seq<byte>, k: nat): H
    requires BLOCK * k <= |data|
  {
    if k == 0 then h0 else
      core.f(Chain(core, h0, data, k - 1), PaddedBlock(data, k - 1), Lo(BLOCK * k), Hi(BLOCK * k), 0, 0)
  }

  /** The hash of `data`; the last block carries the byte count and the final flag. */
  function Digest<H>(core: Core<H>, h0: H, data: seq<byte>, lastNode: bool): Hash
  {
    var last := BlockCount(|data|) - 1;
    core.bytes(core.f(Chain(core, h0, data, last), PaddedBlock(data, last), Lo(|data|), Hi(|data|),
                      ONES, if lastNode then ONES else 0))
  }

  lemma {:induction false} ChainExtends<H>(core: Core<H>, h0: H, data: seq<byte>, more: seq<byte>, k: nat)
    requires BLOCK * k <= |data|
    ensures Chain(core, h0, data + more, k) == Chain(core, h0, data, k)
  {
    if k == 0 {
    } else {
      ChainExtends(core, h0, data, more, k - 1);
      assert PaddedBlock(data + more, k - 1) == PaddedBlock(data, k - 1);
    }
  }

  /** k is the only count of whole blocks that leaves between 1 and 128 bytes. */
  lemma BlockCountUnique(n: nat, k: nat)
    requires BLOCK * k < n <= BLOCK * (k + 1)
    ensures BlockCount(n) == k + 1
  {
  }

  /** Two wrapping words with a carry are one number modulo 2^128. */
  lemma CarryChain(t0: u64, t1: u64, inc: u64)
    ensures var lo := Wrap64(t0 + inc); var hi := Wrap64(t1 + if lo < inc then 1 else 0);
      lo + WORD * hi == (t0 + WORD * t1 + inc) % TWO128
  {
    var lo := Wrap64(t0 + inc);
    if t0 + inc < WORD {
      assert lo == t0 + inc;
    } else {
      assert lo == t0 + inc - WORD;
    }
  }

  /** Each counter word is determined by that number. */
  lemma CounterWords(t0: u64, t1: u64, n: nat)
    requires t0 + WORD * t1 == n % TWO128
    ensures t0 == Lo(n) && t1 == Hi(n)
  {
  }

  lemma CounterNumber(n: nat)
    ensures Lo(n) + WORD * Hi(n) == n % TWO128
  {
  }

  /** Counter words for n, advanced by inc, are counter words for n + inc. */
  lemma CounterAdvances(t0: u64, t1: u64, n: nat, inc: nat)
    requires t0 + WORD * t1 == (Lo(n) + WORD * Hi(n) + inc) % TWO128
    ensures t0 == Lo(n + inc) && t1 == Hi(n + inc)
  {
    CounterNumber(n);
    ModSum(n, inc, TWO128);
    CounterWords(t0, t1, n + inc);
  }

  lemma ModSum(n: nat, inc: nat, d: nat)
    requires d > 0
    ensures (n % d + inc) % d == (n + inc) % d
  {
    DivMod(n, d);
    DivMod(n + inc, d);
    Dist((n + inc) / d, n / d, d);
    DivModUnique(n % d + inc, d, (n + inc) / d - n / d, (n + inc) % d);
  }

  lemma ChainStep<H>(core: Core<H>, h0: H, d: seq<byte>, k: nat, block: Block)
    requires BLOCK * (k + 1) <= |d| && block == d[BLOCK * k..BLOCK * (k + 1)]
    ensures Chain(core, h0, d, k + 1)
      == core.f(Chain(core, h0, d, k), block, Lo(BLOCK * k + BLOCK), Hi(BLOCK * k + BLOCK), 0, 0)
  {
    assert PaddedBlock(d, k) == block;
  }

  lemma SameBlock(all: seq<byte>, input: seq<byte>, at: nat, pos: nat)
    requires at + |input| == |all| && all[at..] == input && pos + BLOCK <= |input|
    ensures input[pos..pos + BLOCK] == all[at + pos..at + pos + BLOCK]
  {
    var x, y := input[pos..pos + BLOCK], all[at + pos..at + pos + BLOCK];
    assert |x| == |y| && forall k :: 0 <= k < BLOCK ==> x[k] == input[pos + k] == all[at + pos + k] == y[k];
  }

  lemma Prefix(a: seq<byte>, b: seq<byte>, c: seq<byte>)
    ensures (a + b + c)[..|a| + |b|] == a + b
  {
  }

  /** memcpy(dst + at, piece, |piece|). */
  method Copy(dst: array<byte>, at: nat, piece: seq<byte>)
    requires at + |piece| <= dst.Length
    modifies dst
    ensures dst[..] == old(dst[..at]) + piece + old(dst[at + |piece|..])
  {
    for i := 0 to |piece|
      invariant dst[..] == old(dst[..at]) + piece[..i] + old(dst[at + i..])
    {
      dst[at + i] := piece[i];
    }
  }

  /** blake2b_state.  `data` is everything absorbed so far, key block included. */
  class State<H> {
    const core: Core<H>
    const h0: H
    const lastNode: bool
    const outlen: nat
    const buf: array<byte>
    var h: H
    var t0: u64
    var t1: u64
    var f0: u64
    var f1: u64
    var buflen: nat
    ghost var data: seq<byte>

    /** How many blocks have been compressed: all but the last. */
    ghost function Done(): nat
      reads this
    {
      BlockCount(|data|) - 1
    }

    ghost predicate Valid()
      reads this, buf
    {
      Buffered() && (f0 == 0 ==> Counted(data, Done()))
    }

    /** The buffer holds what was not compressed. */
    ghost predicate Buffered()
      reads this, buf
    {
      && buf.Length == BLOCK && buflen <= BLOCK && outlen <= OUT_MAX
      && |data| == BLOCK * Done() + buflen
      && buf[..buflen] == data[BLOCK * Done()..]
    }

    /** Chaining value, counter and flags after k blocks of d. */
    ghost predicate Counted(d: seq<byte>, k: nat)
      reads this
    {
      && f1 == 0
      && BLOCK * k <= |d|
      && h == Chain(core, h0, d, k)
      && t0 == Lo(BLOCK * k) && t1 == Hi(BLOCK * k)
    }

    /** blake2b_init_param, with the output length and last-node mark that the callers set next. */
    constructor (core: Core<H>, p: Param, outlen: nat, lastNode: bool)
      requires outlen <= OUT_MAX
      ensures Valid() && fresh(buf) && f0 == 0 && data == []
      ensures this.core == core && h0 == core.init(p) && this.outlen == outlen && this.lastNode == lastNode
    {
      this.core, h0, this.outlen, this.lastNode := core, core.init(p), outlen, lastNode;
      h := core.init(p);
      t0, t1, f0, f1 := 0, 0, 0, 0;
      buf := new byte[BLOCK];
      buflen := 0;
      data := [];
    }

    /** blake2b_increment_counter. */
    method IncrementCounter(inc: u64)
      modifies `t0, `t1
      ensures t0 + WORD * t1 == (old(t0 + WORD * t1) + inc) % TWO128
    {
      CarryChain(t0, t1, inc);
      t0 := Wrap64(t0 + inc);
      t1 := Wrap64(t1 + if t0 < inc then 1 else 0);
    }

    /** One more block that is not the last: count it, then compress it. */
    method Absorb(block: Block, ghost d: seq<byte>, ghost k: nat)
      requires BLOCK * (k + 1) <= |d| && block == d[BLOCK * k..BLOCK * (k + 1)]
      requires f0 == 0 ==> Counted(d, k)
      modifies `h, `t0, `t1
      ensures f0 == 0 ==> Counted(d, k + 1)
    {
      IncrementCounter(BLOCK);
      h := core.f(h, block, t0, t1, f0, f1);
      if f0 == 0 {
        CounterAdvances(t0, t1, BLOCK * k, BLOCK);
        ChainStep(core, h0, d, k, block);
      }
    }

    /** The block of input at `pos`, which is block k of all. */
    method AbsorbNext(input: seq<byte>, pos: nat, ghost all: seq<byte>, ghost k: nat)
      requires pos + BLOCK <= |input| <= |all| && |all| - |input| + pos == BLOCK * k
      requires all[|all| - |input|..] == input && (f0 == 0 ==> Counted(all, k))
      modifies `h, `t0, `t1
      ensures f0 == 0 ==> Counted(all, k + 1)
    {
      SameBlock(all, input, |all| - |input|, pos);
      Absorb(input[pos..pos + BLOCK], all, k);
    }

    /** Compresses whole blocks of input while more than one block is left. */
    method Drain(input: seq<byte>, from: nat, ghost all: seq<byte>, ghost k0: nat) returns (pos: nat, ghost k: nat)
      requires from < |input| && |all| - |input| + from == BLOCK * k0
      requires |input| <= |all| && all[|all| - |input|..] == input
      requires f0 == 0 ==> Counted(all, k0)
      modifies `h, `t0, `t1
      ensures from <= pos < |input| <= pos + BLOCK && |all| - |input| + pos == BLOCK * k
      ensures f0 == 0 ==> Counted(all, k)
    {
      pos, k := from, k0;
      while |input| - pos > BLOCK
        invariant from <= pos < |input| && |all| - |input| + pos == BLOCK * k
        invariant f0 == 0 ==> Counted(all, k)
      {
        AbsorbNext(input, pos, all, k);
        k := k + 1;
        pos := pos + BLOCK;
      }
    }

    /** Completes the block in the buffer. */
    method Fill(piece: seq<byte>)
      requires Buffered() && buflen + |piece| == BLOCK
      modifies buf
      ensures buf[..] == (data + piece)[BLOCK * Done()..]
    {
      Copy(buf, buflen, piece);
      assert buf[..] == data[BLOCK * Done()..] + piece;
    }

    /** The buffer overflows: fill it, compress it, go on with the input. */
    method Overflow(input: seq<byte>, ghost all: seq<byte>) returns (pos: nat, ghost k: nat)
      requires Valid() && buflen + |input| > BLOCK && all == data + input
      modifies this, buf
      ensures pos < |input| <= pos + BLOCK && |all| - |input| + pos == BLOCK * k && buflen == 0
      ensures f0 == old(f0) && data == old(data) && (f0 == 0 ==> Counted(all, k))
    {
      k := Done();
      if f0 == 0 { ChainExtends(core, h0, data, input, k); }
      var fill := BLOCK - buflen;
      Fill(input[..fill]);
      assert data + input[..fill] == all[..BLOCK * (k + 1)];
      assert buf[..] == all[BLOCK * k..BLOCK * (k + 1)];
      buflen := 0;
      Absorb(buf[..], all, k);
      pos, k := Drain(input, fill, all, k + 1);
    }

    /** Puts the last 1 to 128 bytes aside. */
    method Keep(rest: seq<byte>, ghost all: seq<byte>, ghost k: nat)
      requires buf.Length == BLOCK && outlen <= OUT_MAX && |rest| > 0 && buflen + |rest| <= BLOCK
      requires BLOCK * k <= |all| && buf[..buflen] + rest == all[BLOCK * k..]
      requires f0 == 0 ==> Counted(all, k)
      modifies `buflen, `data, buf
      ensures Valid() && data == all
    {
      Stash(rest);
      data := all;
      BlockCountUnique(|all|, k);
    }

    /** memcpy behind what the buffer holds. */
    method Stash(rest: seq<byte>)
      requires buf.Length == BLOCK && buflen + |rest| <= BLOCK
      modifies `buflen, buf
      ensures buflen == old(buflen) + |rest| && buf[..buflen] == old(buf[..buflen]) + rest
    {
      Copy(buf, buflen, rest);
      Prefix(old(buf[..buflen]), rest, old(buf[buflen + |rest|..]));
      buflen := buflen + |rest|;
    }

    /** blake2b_update. */
    method Update(input: seq<byte>)
      requires Valid()
      modifies this, buf
      ensures Valid() && data == old(data) + input && f0 == old(f0)
    {
      if |input| > 0 {
        ghost var all := data + input;
        ghost var k := Done();
        var pos := 0;
        if |input| > BLOCK - buflen {
          pos, k := Overflow(input, all);
          assert buf[..0] + input[pos..] == all[BLOCK * k..];
        } else {
          if f0 == 0 { ChainExtends(core, h0, data, input, k); }
          assert buf[..buflen] + input == all[BLOCK * k..];
        }
        Keep(input[pos..], all, k);
      }
    }

    /** memset of the free part of the buffer. */
    method Pad()
      requires Buffered()
      modifies buf
      ensures Buffered() && buf[..] == PaddedBlock(data, Done())
    {
      Copy(buf, buflen, Zeros(BLOCK - buflen));
      assert buf[..buflen] == old(buf[..buflen]);
    }

    /** Counts the last bytes and raises the flags. */
    method Seal()
      requires Valid() && f0 == 0
      modifies `t0, `t1, `f0, `f1
      ensures t0 == Lo(|data|) && t1 == Hi(|data|) && f0 == ONES && f1 == if lastNode then ONES else 0
    {
      IncrementCounter(buflen);
      CounterAdvances(t0, t1, BLOCK * Done(), buflen);
      if lastNode { f1 := ONES; }
      f0 := ONES;
    }

    /** The last block, sealed and padded. */
    method Close()
      requires Valid() && f0 == 0
      modifies this, buf
      ensures Valid() && f0 != 0 && data == old(data)
      ensures core.bytes(h) == Digest(core, h0, data, lastNode)
    {
      Seal();
      Pad();
      CompressLast();
    }

    /** The last compression. */
    method CompressLast()
      requires Buffered() && h == Chain(core, h0, data, Done()) && buf[..] == PaddedBlock(data, Done())
      requires t0 == Lo(|data|) && t1 == Hi(|data|) && f0 == ONES && f1 == if lastNode then ONES else 0
      modifies `h
      ensures core.bytes(h) == Digest(core, h0, data, lastNode)
    {
      h := core.f(h, buf[..], t0, t1, f0, f1);
    }

    /** blake2b_final: -1 if there is no room or the hash was already taken. */
    method Final(out: array?<byte>, room: nat) returns (rc: int)
      requires Valid() && out != buf && (out != null ==> room <= out.Length)
      modifies this, buf, out
      ensures Valid() && data == old(data)
      ensures rc == if out == null || room < outlen || old(f0) != 0 then -1 else 0
      ensures rc == -1 ==> unchanged(this, buf) && (out != null ==> unchanged(out))
      ensures rc == 0 ==> f0 != 0 && out[..] == Digest(core, h0, data, lastNode)[..outlen] + old(out[outlen..])
    {
      if out == null || room < outlen { return -1; }
      if f0 != 0 { return -1; }
      Close();
      Copy(out, 0, core.bytes(h)[..outlen]);
      return 0;
    }
  }

  /** The pieces of a message, put together. */
  function Flatten(pieces: seq<seq<byte>>, n: nat): seq<byte>
    requires n <= |pieces|
  {
    if n == 0 then [] else Flatten(pieces, n - 1) + pieces[n - 1]
  }

  lemma Regroup(a: seq<byte>, b: seq<byte>, c: seq<byte>)
    ensures (a + b) + c == a + (b + c)
  {
  }

  /** The loop of the streaming self-test: a message in pieces of any sizes. */
  method UpdateAll<H>(s: State<H>, pieces: seq<seq<byte>>)
    requires s.Valid()
    modifies s, s.buf
    ensures s.Valid() && s.f0 == old(s.f0) && s.data == old(s.data) + Flatten(pieces, |pieces|)
  {
    for i := 0 to |pieces|
      invariant s.Valid() && s.f0 == old(s.f0) && s.data == old(s.data) + Flatten(pieces, i)
    {
      s.Update(pieces[i]);
      Regroup(old(s.data), Flatten(pieces, i), pieces[i]);
    }
  }

  /** The state is a function of the bytes absorbed, however they were cut up. */
  lemma StateDetermined<H>(a: State<H>, b: State<H>)
    requires a.Valid() && b.Valid() && a.f0 == 0 && b.f0 == 0
    requires a.core == b.core && a.h0 == b.h0 && a.data == b.data
    ensures a.h == b.h && a.t0 == b.t0 && a.t1 == b.t1 && a.buflen == b.buflen && a.buf[..a.buflen] == b.buf[..b.buflen]
    ensures a.data != [] ==> 1 <= a.buflen <= BLOCK
    ensures a.t0 + WORD * a.t1 == (|a.data| - a.buflen) % TWO128
  {
    CounterNumber(BLOCK * a.Done());
  }

  // ---------- sequential BLAKE2b ----------

  function Sequential(outlen: nat, keylen: nat): Param { Param(outlen, keylen, 1, 1, 0, 0, 0) }

  /** The key filled up to a whole block; nothing if there is no key. */
  function KeyBlock(key: seq<byte>): seq<byte>
    requires |key| <= OUT_MAX
  {
    if key == [] then [] else key + Zeros(BLOCK - |key|)
  }

  /** blake2b_init and blake2b_init_key: refused for a bad length. */
  method Init<H>(core: Core<H>, outlen: nat) returns (s: State?<H>)
    ensures s == null <==> outlen == 0 || outlen > OUT_MAX
    ensures s != null ==> fresh(s) && fresh(s.buf) && s.Valid() && s.f0 == 0 && s.data == []
    ensures s != null
      ==> s.core == core && s.h0 == core.init(Sequential(outlen, 0)) && s.outlen == outlen && !s.lastNode
  {
    if outlen == 0 || outlen > OUT_MAX { return null; }
    s := new State(core, Sequential(outlen, 0), outlen, false);
  }

  method InitKey<H>(core: Core<H>, outlen: nat, key: seq<byte>) returns (s: State?<H>)
    ensures s == null <==> outlen == 0 || outlen > OUT_MAX || key == [] || |key| > OUT_MAX
    ensures s != null ==> fresh(s) && fresh(s.buf) && s.Valid() && s.f0 == 0 && s.data == KeyBlock(key)
    ensures s != null
      ==> s.core == core && s.h0 == core.init(Sequential(outlen, |key|)) && s.outlen == outlen && !s.lastNode
  {
    if outlen == 0 || outlen > OUT_MAX { return null; }
    if key == [] || |key| > OUT_MAX { return null; }
    s := new State(core, Sequential(outlen, |key|), outlen, false);
    s.Update(KeyBlock(key));
  }

  /** blake2b, the one call that does it all. */
  method Blake2b<H>(core: Core<H>, out: array?<byte>, outlen: nat, input: seq<byte>, key: seq<byte>) returns (rc: int)
    requires out != null ==> outlen <= out.Length
    modifies out
    ensures rc == if out == null || outlen == 0 || outlen > OUT_MAX || |key| > OUT_MAX then -1 else 0
    ensures rc == -1 && out != null ==> unchanged(out)
    ensures rc == 0 ==>
      out[..]
        == Digest(core, core.init(Sequential(outlen, |key|)), KeyBlock(key) + input, false)[..outlen]
           + old(out[outlen..])
  {
    if out == null || outlen == 0 || outlen > OUT_MAX || |key| > OUT_MAX { return -1; }
    var s: State?<H>;
    if |key| > 0 {
      s := InitKey(core, outlen, key);
    } else {
      s := Init(core, outlen);
    }
    s.Update(input);
    rc := s.Final(out, outlen);
  }
}

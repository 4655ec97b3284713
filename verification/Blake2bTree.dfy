/** BLAKE2bp: four leaves fed in stripes of four blocks, and a root over their hashes. */
module Blake2bTree {
  import opened Words
  import opened Blake2bStream

  const LEAVES: nat := 4
  const STRIPE: int := 512

  // ---------- what BLAKE2bp computes ----------

  /** The bytes of leaf i: those whose block number is i modulo four. */
  function Lane(d: seq<byte>, i: nat): seq<byte>
  {
    if d == [] then [] else
      var p := |d| - 1;
      Lane(d[..p], i) + if p / BLOCK % 4 == i then [d[p]] else []
  }

  function Leaf(outlen: nat, keylen: nat, i: nat): Param { Param(outlen, keylen, 4, 2, i, 0, OUT_MAX) }
  function Root(outlen: nat, keylen: nat): Param { Param(outlen, keylen, 4, 2, 0, 1, OUT_MAX) }

  function LeafHash<H>(core: Core<H>, outlen: nat, key: seq<byte>, d: seq<byte>, i: nat): Hash
    requires |key| <= OUT_MAX
  {
    Digest(core, core.init(Leaf(outlen, |key|, i)), KeyBlock(key) + Lane(d, i), i == 3)
  }

  /** The hashes of the first n leaves. */
  function LeafHashes<H>(core: Core<H>, outlen: nat, key: seq<byte>, d: seq<byte>, n: nat): seq<Hash>
    requires |key| <= OUT_MAX
    ensures |LeafHashes(core, outlen, key, d, n)| == n
  {
    if n == 0 then [] else LeafHashes(core, outlen, key, d, n - 1) + [LeafHash(core, outlen, key, d, n - 1)]
  }

  /** The first n hashes in a row. */
  function Joined(hashes: seq<Hash>, n: nat): seq<byte>
    requires n <= |hashes|
  {
    if n == 0 then [] else Joined(hashes, n - 1) + hashes[n - 1]
  }

  function TreeHash<H>(core: Core<H>, outlen: nat, key: seq<byte>, d: seq<byte>): Hash
    requires |key| <= OUT_MAX
  {
    var hashes := LeafHashes(core, outlen, key, d, LEAVES);
    Digest(core, core.init(Root(outlen, |key|)), Joined(hashes, |hashes|), true)
  }

  // ---------- stripes ----------

  /** What is left for leaf i of less than a stripe, or of a whole one. */
  function Piece(e: seq<byte>, i: nat): seq<byte>
    requires |e| <= STRIPE
  {
    if |e| <= BLOCK * i then []
    else if |e| < BLOCK * (i + 1) then e[BLOCK * i..]
    else e[BLOCK * i..BLOCK * (i + 1)]
  }

  lemma PieceGrows(e: seq<byte>, i: nat)
    requires 0 < |e| <= STRIPE
    ensures var p := |e| - 1;
      Piece(e, i) == Piece(e[..p], i) + if BLOCK * i <= p < BLOCK * (i + 1) then [e[p]] else []
  {
  }

  lemma {:induction false} LaneOfPiece(e: seq<byte>, i: nat)
    requires |e| <= STRIPE && i < 4
    ensures Lane(e, i) == Piece(e, i)
  {
    if e == [] {
    } else {
      var p := |e| - 1;
      LaneOfPiece(e[..p], i);
      PieceGrows(e, i);
      LaneAt(p, i);
    }
  }

  lemma LaneAt(p: nat, i: nat)
    requires p < STRIPE && i < 4
    ensures p / BLOCK % 4 == i <==> BLOCK * i <= p < BLOCK * (i + 1)
  {
    assert p / BLOCK % 4 == p / BLOCK;
  }

  lemma {:induction false} LaneConcat(d: seq<byte>, e: seq<byte>, i: nat)
    requires |d| % STRIPE == 0 && i < 4
    ensures Lane(d + e, i) == Lane(d, i) + Lane(e, i)
  {
    if e == [] {
      assert d + e == d;
    } else {
      var p := |e| - 1;
      LaneConcat(d, e[..p], i);
      assert (d + e)[..|d| + p] == d + e[..p];
      SameLane(|d|, p);
    }
  }

  /** Whole stripes do not change the leaf a byte belongs to. */
  lemma SameLane(n: nat, p: nat)
    requires n % STRIPE == 0
    ensures (n + p) / BLOCK % 4 == p / BLOCK % 4
  {
    var q := n / STRIPE;
    assert n + p == (4 * q) * BLOCK + p;
    assert (n + p) / BLOCK == 4 * q + p / BLOCK;
  }

  lemma SubSlice(d: seq<byte>, at: nat, b: nat)
    requires at + STRIPE <= |d| && b + BLOCK <= STRIPE
    ensures d[at..at + STRIPE][b..b + BLOCK] == d[at + b..at + b + BLOCK]
  {
    var stripe := d[at..at + STRIPE];
    var x, y := stripe[b..b + BLOCK], d[at + b..at + b + BLOCK];
    assert |x| == |y| && forall k :: 0 <= k < BLOCK ==> x[k] == stripe[b + k] == d[at + b + k] == y[k];
  }

  /** What a leaf holds after one more stripe. */
  lemma NextStripe(before: seq<byte>, d: seq<byte>, n: nat, i: nat)
    requires STRIPE * n + STRIPE <= |d| && i < 4
    ensures before + Lane(d[..STRIPE * n], i) + d[STRIPE * n + BLOCK * i..STRIPE * n + BLOCK * (i + 1)]
         == before + Lane(d[..STRIPE * (n + 1)], i)
  {
    var at := STRIPE * n;
    var stripe := d[at..at + STRIPE];
    LaneOfStripe(stripe, i);
    LaneConcat(d[..at], stripe, i);
    assert d[..at] + stripe == d[..at + STRIPE];
    SubSlice(d, at, BLOCK * i);
    Regroup(before, Lane(d[..at], i), Lane(stripe, i));
  }

  lemma TakenStripe(d: seq<byte>, kept: seq<byte>, input: seq<byte>, pos: nat)
    requires pos <= |input| && |d| % STRIPE == 0 && |kept| + pos == STRIPE
    ensures (d + (kept + input[..pos])) + [] + input[pos..] == (d + kept) + input
    ensures |d + (kept + input[..pos])| % STRIPE == 0
  {
  }

  lemma WholeStripes(n: nat)
    ensures (n - n % STRIPE) % STRIPE == 0
  {
  }

  lemma LaneOfStripe(stripe: seq<byte>, i: nat)
    requires |stripe| == STRIPE && i < 4
    ensures Lane(stripe, i) == stripe[BLOCK * i..BLOCK * (i + 1)]
  {
    LaneOfPiece(stripe, i);
  }

  // ---------- one leaf ----------

  /** A leaf takes its block of each whole stripe of the input. */
  method FeedLane<H>(leaf: State<H>, i: nat, input: seq<byte>) returns (left: nat)
    requires leaf.Valid() && i < 4
    modifies leaf, leaf.buf
    ensures leaf.Valid() && leaf.f0 == old(leaf.f0) && left == |input| % STRIPE && left <= |input|
    ensures leaf.data == old(leaf.data) + Lane(input[..|input| - left], i)
  {
    left := |input|;
    ghost var n := 0;
    while left >= STRIPE
      invariant left <= |input| && |input| - left == STRIPE * n
      invariant leaf.Valid() && leaf.f0 == old(leaf.f0) && leaf.data == old(leaf.data) + Lane(input[..STRIPE * n], i)
    {
      var at := |input| - left;
      leaf.Update(input[at + BLOCK * i..at + BLOCK * (i + 1)]);
      NextStripe(old(leaf.data), input, n, i);
      left := left - STRIPE;
      n := n + 1;
    }
  }

  /** A leaf takes its piece of the last, short stripe. */
  method FeedPiece<H>(leaf: State<H>, i: nat, rest: seq<byte>)
    requires leaf.Valid() && i < 4 && |rest| < STRIPE
    modifies leaf, leaf.buf
    ensures leaf.Valid() && leaf.f0 == old(leaf.f0) && leaf.data == old(leaf.data) + Lane(rest, i)
  {
    LaneOfPiece(rest, i);
    if |rest| > BLOCK * i {
      var left := |rest| - BLOCK * i;
      if left > BLOCK { left := BLOCK; }
      assert rest[BLOCK * i..BLOCK * i + left] == Piece(rest, i);
      leaf.Update(rest[BLOCK * i..BLOCK * i + left]);
    }
  }

  /** A leaf has the parameter block and the mark of its place. */
  ghost predicate WiredLeaf<H>(core: Core<H>, outlen: nat, keylen: nat, leaf: State<H>, i: nat)
  {
    && leaf.core == core && leaf.h0 == core.init(Leaf(outlen, keylen, i))
    && leaf.outlen == OUT_MAX && leaf.lastNode == (i == 3)
  }

  ghost predicate Wired<H>(core: Core<H>, outlen: nat, keylen: nat, leaves: seq<State<H>>)
  {
    forall i :: 0 <= i < |leaves| ==> WiredLeaf(core, outlen, keylen, leaves[i], i)
  }

  /** The leaf in place i has taken the key block and its lane of d. */
  ghost predicate FedLeaf<H>(leaf: State<H>, key: seq<byte>, d: seq<byte>, i: nat)
    requires |key| <= OUT_MAX
    reads leaf
  {
    leaf.f0 == 0 && leaf.data == KeyBlock(key) + Lane(d, i)
  }

  /** A leaf takes its last piece and gives up its hash. */
  method FinishLeaf<H>(core: Core<H>, outlen: nat, ghost key: seq<byte>, leaf: State<H>, i: nat, rest: seq<byte>,
                       ghost d: seq<byte>)
    returns (hash: Hash)
    requires leaf.Valid() && i < 4 && |rest| < STRIPE && |key| <= OUT_MAX && WiredLeaf(core, outlen, |key|, leaf, i)
      && |d| % STRIPE == 0
    modifies leaf, leaf.buf
    ensures leaf.Valid()
    ensures old(FedLeaf(leaf, key, d, i)) ==> hash == LeafHash(core, outlen, key, d + rest, i)
  {
    FeedPiece(leaf, i, rest);
    LaneConcat(d, rest, i);
    Regroup(KeyBlock(key), Lane(d, i), Lane(rest, i));
    var out := new byte[OUT_MAX];
    var _ := leaf.Final(out, OUT_MAX);
    hash := out[..];
  }

  /** One leaf of the one-shot form, from its first byte to its hash. */
  method RunLeaf<H>(core: Core<H>, outlen: nat, ghost key: seq<byte>, leaf: State<H>, i: nat, input: seq<byte>)
    returns (hash: Hash)
    requires leaf.Valid() && i < 4 && |key| <= OUT_MAX && WiredLeaf(core, outlen, |key|, leaf, i)
    requires leaf.f0 == 0 && leaf.data == KeyBlock(key)
    modifies leaf, leaf.buf
    ensures leaf.Valid() && hash == LeafHash(core, outlen, key, input, i)
  {
    var left := FeedLane(leaf, i, input);
    var n := |input| - left;
    WholeStripes(|input|);
    assert FedLeaf(leaf, key, input[..n], i);
    hash := FinishLeaf(core, outlen, key, leaf, i, input[n..], input[..n]);
    assert input[..n] + input[n..] == input;
  }

  // ---------- four leaves ----------

  ghost function Buffers<H>(leaves: seq<State<H>>): set<object>
  {
    set l | l in leaves :: l.buf as object
  }

  /** Four leaves that share nothing. */
  ghost predicate Apart<H>(leaves: seq<State<H>>)
  {
    && |leaves| == 4
    && forall i, j :: 0 <= i < j < 4 ==> leaves[i] != leaves[j] && leaves[i].buf != leaves[j].buf
  }

  ghost predicate AllValid<H>(leaves: seq<State<H>>)
    reads leaves, Buffers(leaves)
  {
    forall i :: 0 <= i < |leaves| ==> leaves[i].Valid()
  }

  // Each method for one leaf, called on one of four: the others stay valid.

  method UpdateAt<H>(leaves: seq<State<H>>, i: nat, piece: seq<byte>)
    requires Apart(leaves) && AllValid(leaves) && i < 4
    modifies leaves[i], leaves[i].buf
    ensures AllValid(leaves) && leaves[i].data == old(leaves[i].data) + piece && leaves[i].f0 == old(leaves[i].f0)
  {
    leaves[i].Update(piece);
  }

  method FeedLaneAt<H>(leaves: seq<State<H>>, i: nat, input: seq<byte>)
    requires Apart(leaves) && AllValid(leaves) && i < 4
    modifies leaves[i], leaves[i].buf
    ensures AllValid(leaves) && leaves[i].f0 == old(leaves[i].f0)
    ensures leaves[i].data == old(leaves[i].data) + Lane(input[..|input| - |input| % STRIPE], i)
  {
    var _ := FeedLane(leaves[i], i, input);
  }

  method FinishAt<H>(core: Core<H>, outlen: nat, ghost key: seq<byte>, leaves: seq<State<H>>, i: nat, rest: seq<byte>,
                     ghost d: seq<byte>)
    returns (hash: Hash)
    requires Apart(leaves) && AllValid(leaves) && i < 4 && |key| <= OUT_MAX && Wired(core, outlen, |key|, leaves)
    requires |rest| < STRIPE && |d| % STRIPE == 0
    modifies leaves[i], leaves[i].buf
    ensures AllValid(leaves)
    ensures old(FedLeaf(leaves[i], key, d, i)) ==> hash == LeafHash(core, outlen, key, d + rest, i)
  {
    hash := FinishLeaf(core, outlen, key, leaves[i], i, rest, d);
  }

  method RunAt<H>(core: Core<H>, outlen: nat, ghost key: seq<byte>, leaves: seq<State<H>>, i: nat, input: seq<byte>)
    returns (hash: Hash)
    requires Apart(leaves) && AllValid(leaves) && i < 4 && |key| <= OUT_MAX && Wired(core, outlen, |key|, leaves)
    requires leaves[i].f0 == 0 && leaves[i].data == KeyBlock(key)
    modifies leaves[i], leaves[i].buf
    ensures AllValid(leaves) && hash == LeafHash(core, outlen, key, input, i)
  {
    hash := RunLeaf(core, outlen, key, leaves[i], i, input);
  }

  /** Every leaf takes its block of one stripe. */
  method FeedStripe<H>(leaves: seq<State<H>>, stripe: seq<byte>)
    requires Apart(leaves) && AllValid(leaves) && |stripe| == STRIPE
    modifies leaves, Buffers(leaves)
    ensures AllValid(leaves)
    ensures forall j :: 0 <= j < 4 ==>
              leaves[j].data == old(leaves[j].data) + Lane(stripe, j) && leaves[j].f0 == old(leaves[j].f0)
  {
    for i := 0 to 4
      invariant AllValid(leaves)
      invariant forall j :: 0 <= j < i ==> leaves[j].data == old(leaves[j].data) + Lane(stripe, j)
      invariant forall j :: i <= j < 4 ==> leaves[j].data == old(leaves[j].data)
      invariant forall j :: 0 <= j < 4 ==> leaves[j].f0 == old(leaves[j].f0)
    {
      LaneOfStripe(stripe, i);
      UpdateAt(leaves, i, stripe[BLOCK * i..BLOCK * (i + 1)]);
    }
  }

  /** All leaves take their lanes of the whole stripes; each does so on its own. */
  method FeedLanes<H>(leaves: seq<State<H>>, input: seq<byte>)
    requires Apart(leaves) && AllValid(leaves)
    modifies leaves, Buffers(leaves)
    ensures AllValid(leaves)
    ensures var whole := input[..|input| - |input| % STRIPE];
      forall j :: 0 <= j < 4
        ==> leaves[j].data == old(leaves[j].data) + Lane(whole, j) && leaves[j].f0 == old(leaves[j].f0)
  {
    ghost var whole := input[..|input| - |input| % STRIPE];
    for i := 0 to 4
      invariant AllValid(leaves)
      invariant forall j :: 0 <= j < i ==> leaves[j].data == old(leaves[j].data) + Lane(whole, j)
      invariant forall j :: i <= j < 4 ==> leaves[j].data == old(leaves[j].data)
      invariant forall j :: 0 <= j < 4 ==> leaves[j].f0 == old(leaves[j].f0)
    {
      FeedLaneAt(leaves, i, input);
    }
  }

  /** The leaves from place i on have taken the key block and their lanes of d. */
  ghost predicate FedFrom<H>(leaves: seq<State<H>>, key: seq<byte>, d: seq<byte>, i: nat)
    requires |key| <= OUT_MAX
    reads leaves
  {
    forall j :: i <= j < |leaves| ==> FedLeaf(leaves[j], key, d, j)
  }

  method FinishNext<H>(core: Core<H>, outlen: nat, ghost key: seq<byte>, leaves: seq<State<H>>, rest: seq<byte>,
                       ghost d: seq<byte>, i: nat, hashes: seq<Hash>)
    returns (hashes': seq<Hash>)
    requires Apart(leaves) && AllValid(leaves) && i < 4 && |key| <= OUT_MAX && Wired(core, outlen, |key|, leaves)
    requires |rest| < STRIPE && |d| % STRIPE == 0 && |hashes| == i
    modifies leaves[i], leaves[i].buf
    ensures AllValid(leaves) && |hashes'| == i + 1
    ensures old(FedFrom(leaves, key, d, i)) ==> FedFrom(leaves, key, d, i + 1)
    ensures old(FedFrom(leaves, key, d, i)) && hashes == LeafHashes(core, outlen, key, d + rest, i) ==>
      hashes' == LeafHashes(core, outlen, key, d + rest, i + 1)
  {
    var hash := FinishAt(core, outlen, key, leaves, i, rest, d);
    hashes' := hashes + [hash];
  }

  /** The four hashes, in order, once each leaf has taken its piece of the rest. */
  method FinishLeaves<H>(core: Core<H>, outlen: nat, ghost key: seq<byte>, leaves: seq<State<H>>, rest: seq<byte>,
                         ghost d: seq<byte>)
    returns (hashes: seq<Hash>)
    requires Apart(leaves) && AllValid(leaves) && |key| <= OUT_MAX && Wired(core, outlen, |key|, leaves)
    requires |rest| < STRIPE && |d| % STRIPE == 0
    modifies leaves, Buffers(leaves)
    ensures AllValid(leaves) && |hashes| == 4
    ensures old(FedFrom(leaves, key, d, 0)) ==> hashes == LeafHashes(core, outlen, key, d + rest, LEAVES)
  {
    ghost var fed := FedFrom(leaves, key, d, 0);
    hashes := [];
    for i := 0 to 4
      invariant AllValid(leaves) && |hashes| == i
      invariant fed ==> FedFrom(leaves, key, d, i) && hashes == LeafHashes(core, outlen, key, d + rest, i)
    {
      hashes := FinishNext(core, outlen, key, leaves, rest, d, i, hashes);
    }
  }

  method RunNext<H>(core: Core<H>, outlen: nat, ghost key: seq<byte>, leaves: seq<State<H>>, input: seq<byte>, i: nat,
                    hashes: seq<Hash>)
    returns (hashes': seq<Hash>)
    requires Apart(leaves) && AllValid(leaves) && i < 4 && |key| <= OUT_MAX && Wired(core, outlen, |key|, leaves)
    requires FedFrom(leaves, key, [], i) && hashes == LeafHashes(core, outlen, key, input, i)
    modifies leaves[i], leaves[i].buf
    ensures AllValid(leaves) && FedFrom(leaves, key, [], i + 1)
      && hashes' == LeafHashes(core, outlen, key, input, i + 1)
  {
    assert FedLeaf(leaves[i], key, [], i);
    assert leaves[i].data == KeyBlock(key);
    var hash := RunAt(core, outlen, key, leaves, i, input);
    hashes' := hashes + [hash];
  }

  /** All leaves of the one-shot form. */
  method RunLeaves<H>(core: Core<H>, outlen: nat, ghost key: seq<byte>, leaves: seq<State<H>>, input: seq<byte>)
    returns (hashes: seq<Hash>)
    requires Apart(leaves) && AllValid(leaves) && |key| <= OUT_MAX && Wired(core, outlen, |key|, leaves)
    requires FedFrom(leaves, key, [], 0)
    modifies leaves, Buffers(leaves)
    ensures hashes == LeafHashes(core, outlen, key, input, LEAVES)
  {
    hashes := [];
    for i := 0 to 4
      invariant AllValid(leaves) && FedFrom(leaves, key, [], i) && hashes == LeafHashes(core, outlen, key, input, i)
    {
      hashes := RunNext(core, outlen, key, leaves, input, i, hashes);
    }
  }

  /** The root hashes the leaf hashes. */
  method Combine<H>(root: State<H>, hashes: seq<Hash>, out: array?<byte>, room: nat) returns (rc: int)
    requires root.Valid() && out != root.buf && (out != null ==> room <= out.Length)
      && (root.f0 == 0 ==> root.data == [])
    modifies root, root.buf, out
    ensures root.Valid()
    ensures rc == if out == null || room < root.outlen || old(root.f0) != 0 then -1 else 0
    ensures rc == -1 ==> root.f0 == old(root.f0) && (out != null ==> unchanged(out))
    ensures rc == 0 ==>
      && root.f0 != 0
      && out[..]
         == Digest(root.core, root.h0, Joined(hashes, |hashes|), root.lastNode)[..root.outlen]
            + old(out[root.outlen..])
  {
    for i := 0 to |hashes|
      modifies root, root.buf
      invariant root.Valid() && root.f0 == old(root.f0) && (root.f0 == 0 ==> root.data == Joined(hashes, i))
    {
      root.Update(hashes[i]);
    }
    rc := root.Final(out, room);
  }

  /** blake2bp_init_leaf, with the last-node mark of the fourth. */
  method NewLeaf<H>(core: Core<H>, outlen: nat, keylen: nat, i: nat) returns (leaf: State<H>)
    ensures fresh(leaf) && fresh(leaf.buf) && leaf.Valid() && leaf.f0 == 0 && leaf.data == []
    ensures WiredLeaf(core, outlen, keylen, leaf, i)
  {
    leaf := new State(core, Leaf(outlen, keylen, i), OUT_MAX, i == 3);
  }

  method NewLeaves<H>(core: Core<H>, outlen: nat, keylen: nat) returns (leaves: seq<State<H>>)
    ensures Apart(leaves) && AllValid(leaves) && fresh(leaves) && fresh(Buffers(leaves))
    ensures Wired(core, outlen, keylen, leaves)
    ensures forall i :: 0 <= i < 4 ==> leaves[i].f0 == 0 && leaves[i].data == []
  {
    leaves := [];
    for i := 0 to 4
      modifies {}
      invariant |leaves| == i && AllValid(leaves) && Wired(core, outlen, keylen, leaves)
      invariant forall j :: 0 <= j < i ==>
                  fresh(leaves[j]) && fresh(leaves[j].buf) && leaves[j].f0 == 0 && leaves[j].data == []
      invariant forall a, b :: 0 <= a < b < i ==> leaves[a] != leaves[b] && leaves[a].buf != leaves[b].buf
    {
      var leaf := NewLeaf(core, outlen, keylen, i);
      leaves := leaves + [leaf];
    }
  }

  /** Leaves that have taken the key block, if there is a key. */
  method MakeLeaves<H>(core: Core<H>, outlen: nat, key: seq<byte>) returns (leaves: seq<State<H>>)
    requires |key| <= OUT_MAX
    ensures Apart(leaves) && AllValid(leaves) && fresh(leaves) && fresh(Buffers(leaves))
    ensures Wired(core, outlen, |key|, leaves)
    ensures forall i :: 0 <= i < 4 ==> leaves[i].f0 == 0 && leaves[i].data == KeyBlock(key)
  {
    leaves := NewLeaves(core, outlen, |key|);
    if |key| > 0 {
      for i := 0 to 4
        invariant AllValid(leaves)
        invariant forall j :: 0 <= j < 4 ==> leaves[j].f0 == 0 && leaves[j].data == if j < i then KeyBlock(key) else []
      {
        assert leaves[i].buf in Buffers(leaves);
        UpdateAt(leaves, i, KeyBlock(key));
      }
    }
  }

  lemma FedNothing<H>(leaves: seq<State<H>>, key: seq<byte>)
    requires |key| <= OUT_MAX && forall i :: 0 <= i < |leaves| ==> leaves[i].f0 == 0 && leaves[i].data == KeyBlock(key)
    ensures FedFrom(leaves, key, [], 0)
  {
    forall i: nat ensures KeyBlock(key) + Lane([], i) == KeyBlock(key) { }
  }

  lemma AddStripe(n: nat, m: nat)
    requires n % STRIPE == 0
    ensures (n + m) % STRIPE == m % STRIPE
  {
  }

  /** What stays in the buffer: less than a stripe, after all whole stripes are gone. */
  lemma CutStripes(all: seq<byte>, d: seq<byte>, kept: seq<byte>, rest: seq<byte>)
    requires all == d + kept + rest && |d| % STRIPE == 0 && (kept != [] ==> |kept| + |rest| < STRIPE)
    ensures var tail := |rest| % STRIPE; var n := |all| - |kept| - tail;
      |all| % STRIPE == |kept| + tail && all[..n] == d + rest[..|rest| - tail]
        && all[n..] == kept + rest[|rest| - tail..]
  {
    AddStripe(|d|, |kept| + |rest|);
    if kept != [] {
      assert |rest| % STRIPE == |rest|;
    }
  }

  /** blake2bp_state.  `data` is the message so far. */
  class Tree<H> {
    const core: Core<H>
    const outlen: nat
    ghost const key: seq<byte>
    const leaves: seq<State<H>>
    const root: State<H>
    const buf: array<byte>
    var buflen: nat
    ghost var data: seq<byte>

    ghost predicate Parts()
    {
      && Apart(leaves) && buf != root.buf
      && (forall i :: 0 <= i < 4 ==> leaves[i] != root && leaves[i].buf != root.buf && leaves[i].buf != buf)
      && buf.Length == STRIPE && 1 <= outlen <= OUT_MAX && |key| <= OUT_MAX
      && Wired(core, outlen, |key|, leaves)
      && root.core == core && root.h0 == core.init(Root(outlen, |key|)) && root.outlen == outlen && root.lastNode
    }

    ghost predicate Valid()
      reads this, buf, root, root.buf, leaves, Buffers(leaves)
    {
      && Parts() && buflen == |data| % STRIPE && buf[..buflen] == data[|data| - buflen..]
      && Absorbed(data[..|data| - buflen])
    }

    /** Until the hash is taken, the leaves have taken their lanes of d and the root nothing. */
    ghost predicate Absorbed(d: seq<byte>)
      requires |key| <= OUT_MAX
      reads root, root.buf, leaves, Buffers(leaves)
    {
      AllValid(leaves) && root.Valid() && (root.f0 == 0 ==> root.data == [] && FedFrom(leaves, key, d, 0))
    }

    constructor (core: Core<H>, outlen: nat, ghost key: seq<byte>, leaves: seq<State<H>>, root: State<H>,
                 buf: array<byte>)
      ensures this.core == core && this.outlen == outlen && this.key == key
      ensures this.leaves == leaves && this.root == root && this.buf == buf && buflen == 0 && data == []
    {
      this.core, this.outlen, this.key := core, outlen, key;
      this.leaves, this.root, this.buf := leaves, root, buf;
      buflen := 0;
      data := [];
    }

    /** New parts, put together, are a valid start. */
    lemma Assembled()
      requires Parts() && buflen == 0 && data == [] && AllValid(leaves) && root.Valid() && root.data == []
      requires forall i :: 0 <= i < 4 ==> leaves[i].f0 == 0 && leaves[i].data == KeyBlock(key)
      ensures Valid()
    {
      FedNothing(leaves, key);
      assert data[..|data| - buflen] == [];
    }

    /** Every leaf takes its lane of d after that of `before`. */
    lemma FedMore(before: seq<byte>, d: seq<byte>)
      requires |leaves| == 4 && |key| <= OUT_MAX && |before| % STRIPE == 0
      ensures forall i :: 0 <= i < 4 ==>
                KeyBlock(key) + Lane(before, i) + Lane(d, i) == KeyBlock(key) + Lane(before + d, i)
    {
      forall i | 0 <= i < 4
        ensures KeyBlock(key) + Lane(before, i) + Lane(d, i) == KeyBlock(key) + Lane(before + d, i)
      {
        LaneConcat(before, d, i);
      }
    }

    /** The input completes a stripe in the buffer and the leaves take it. */
    method CompleteStripe(piece: seq<byte>, ghost d: seq<byte>)
      requires Parts() && Absorbed(d) && |d| % STRIPE == 0 && buflen + |piece| == STRIPE
      modifies buf, leaves, Buffers(leaves)
      ensures Absorbed(d + (old(buf[..buflen]) + piece))
    {
      Copy(buf, buflen, piece);
      ghost var stripe := buf[..];
      assert stripe == old(buf[..buflen]) + piece;
      FedMore(d, stripe);
      FeedStripe(leaves, buf[..]);
    }

    /** If the input completes a stripe in the buffer, the leaves take it. */
    method TopUp(input: seq<byte>) returns (left: nat, pos: nat, ghost d: seq<byte>)
      requires Valid()
      modifies buf, leaves, Buffers(leaves)
      ensures Absorbed(d)
      ensures pos <= |input| && left < STRIPE && (left > 0 ==> left + (|input| - pos) < STRIPE)
      ensures |d| % STRIPE == 0 && d + buf[..left] + input[pos..] == data + input
    {
      left, pos, d := buflen, 0, data[..|data| - buflen];
      ghost var kept := buf[..buflen];
      WholeStripes(|data|);
      assert d + kept == data;
      if left > 0 && |input| >= STRIPE - left {
        pos := STRIPE - left;
        CompleteStripe(input[..pos], d);
        TakenStripe(d, kept, input, pos);
        left, d := 0, d + (kept + input[..pos]);
      }
    }

    /** Every leaf takes its lane of the whole stripes of `rest`. */
    method Spread(rest: seq<byte>, ghost d: seq<byte>)
      requires Parts() && Absorbed(d) && |d| % STRIPE == 0
      modifies leaves, Buffers(leaves)
      ensures Absorbed(d + rest[..|rest| - |rest| % STRIPE])
    {
      FedMore(d, rest[..|rest| - |rest| % STRIPE]);
      FeedLanes(leaves, rest);
    }

    /** Puts what is left of `rest` behind the first `left` bytes of the buffer. */
    method Keep(left: nat, rest: seq<byte>, ghost d: seq<byte>, ghost all: seq<byte>)
      requires buf.Length == STRIPE && left < STRIPE && |d| % STRIPE == 0 && (left > 0 ==> left + |rest| < STRIPE)
      requires all == d + buf[..left] + rest
      modifies `buflen, `data, buf
      ensures data == all && buflen == |data| % STRIPE && buf[..buflen] == data[|data| - buflen..]
      ensures data[..|data| - buflen] == d + rest[..|rest| - |rest| % STRIPE]
    {
      var tail := |rest| % STRIPE;
      CutStripes(all, d, buf[..left], rest);
      Copy(buf, left, rest[|rest| - tail..]);
      Prefix(old(buf[..left]), rest[|rest| - tail..], old(buf[left + tail..]));
      buflen := left + tail;
      data := all;
    }

    /** Whole stripes go to the leaves, the rest into the buffer. */
    method Distribute(left: nat, rest: seq<byte>, ghost d: seq<byte>)
      requires Parts() && Absorbed(d) && |d| % STRIPE == 0
      requires left < STRIPE && (left > 0 ==> left + |rest| < STRIPE)
      modifies this, buf, leaves, Buffers(leaves)
      ensures Valid() && data == d + old(buf[..left]) + rest
    {
      Spread(rest, d);
      Keep(left, rest, d, d + buf[..left] + rest);
    }

    /** blake2bp_update. */
    method Update(input: seq<byte>)
      requires Valid()
      modifies this, buf, leaves, Buffers(leaves)
      ensures Valid() && data == old(data) + input && root.f0 == old(root.f0)
    {
      var left, pos;
      ghost var d;
      left, pos, d := TopUp(input);
      Distribute(left, input[pos..], d);
    }

    /** The hashes of the leaves, once each has taken its piece of what is in the buffer. */
    method TakeHashes() returns (hashes: seq<Hash>)
      requires Valid()
      modifies leaves, Buffers(leaves)
      ensures AllValid(leaves) && root.Valid() && |hashes| == 4
      ensures root.f0 == 0 ==> root.data == [] && hashes == LeafHashes(core, outlen, key, data, LEAVES)
    {
      ghost var d := data[..|data| - buflen];
      assert d + buf[..buflen] == data;
      hashes := FinishLeaves(core, outlen, key, leaves, buf[..buflen], d);
    }

    /** The leaves give up their hashes and the root hashes them. */
    method Collect(out: array<byte>) returns (rc: int)
      requires Valid() && outlen <= out.Length && out != buf && out != root.buf && out !in Buffers(leaves)
      modifies out, root, root.buf, leaves, Buffers(leaves)
      ensures AllValid(leaves) && root.Valid() && root.f0 != 0
      ensures rc == if old(root.f0) != 0 then -1 else 0
      ensures rc == -1 ==> unchanged(out)
      ensures rc == 0 ==> out[..] == TreeHash(core, outlen, key, data)[..outlen] + old(out[outlen..])
    {
      var hashes := TakeHashes();
      rc := Combine(root, hashes, out, outlen);
    }

    /** blake2bp_final: -1 if there is no room or the hash was already taken. */
    method Final(out: array?<byte>, room: nat) returns (rc: int)
      requires Valid() && (out != null ==> room <= out.Length)
      requires out != buf && out != root.buf && out !in Buffers(leaves)
      modifies out, root, root.buf, leaves, Buffers(leaves)
      ensures Valid() && data == old(data)
      ensures rc == if out == null || room < outlen || old(root.f0) != 0 then -1 else 0
      ensures rc == -1 && out != null ==> unchanged(out)
      ensures rc == 0 ==> root.f0 != 0 && out[..] == TreeHash(core, outlen, key, data)[..outlen] + old(out[outlen..])
    {
      if out == null || room < outlen { return -1; }
      rc := Collect(out);
    }
  }

  /** blake2bp_init_root. */
  method NewRoot<H>(core: Core<H>, outlen: nat, keylen: nat) returns (root: State<H>)
    requires outlen <= OUT_MAX
    ensures fresh(root) && fresh(root.buf) && root.Valid() && root.f0 == 0 && root.data == []
    ensures root.core == core && root.h0 == core.init(Root(outlen, keylen)) && root.outlen == outlen && root.lastNode
  {
    root := new State(core, Root(outlen, keylen), outlen, true);
  }

  /** Parts put together. */
  method Assemble<H>(core: Core<H>, outlen: nat, key: seq<byte>, leaves: seq<State<H>>, root: State<H>)
    returns (s: Tree<H>)
    requires 1 <= outlen <= OUT_MAX && |key| <= OUT_MAX && Apart(leaves) && AllValid(leaves)
      && Wired(core, outlen, |key|, leaves)
    requires forall i :: 0 <= i < 4 ==> leaves[i] != root && leaves[i].buf != root.buf
    requires forall i :: 0 <= i < 4 ==> leaves[i].f0 == 0 && leaves[i].data == KeyBlock(key)
    requires root.Valid() && root.f0 == 0 && root.data == []
    requires root.core == core && root.h0 == core.init(Root(outlen, |key|)) && root.outlen == outlen && root.lastNode
    ensures fresh(s) && s.Valid() && s.root == root && s.data == []
    ensures s.core == core && s.outlen == outlen && s.key == key
  {
    var buf := new byte[STRIPE];
    s := new Tree(core, outlen, key, leaves, root, buf);
    s.Assembled();
  }

  /** What blake2bp_init and blake2bp_init_key have in common. */
  method NewTree<H>(core: Core<H>, outlen: nat, key: seq<byte>) returns (s: Tree<H>)
    requires 1 <= outlen <= OUT_MAX && |key| <= OUT_MAX
    ensures fresh(s) && s.Valid() && s.root.f0 == 0 && s.data == []
    ensures s.core == core && s.outlen == outlen && s.key == key
  {
    var root := NewRoot(core, outlen, |key|);
    var leaves := MakeLeaves(core, outlen, key);
    assert forall i :: 0 <= i < 4 ==> leaves[i].buf in Buffers(leaves);
    s := Assemble(core, outlen, key, leaves, root);
  }

  /** blake2bp_init: refused for a bad length. */
  method Init<H>(core: Core<H>, outlen: nat) returns (s: Tree?<H>)
    ensures s == null <==> outlen == 0 || outlen > OUT_MAX
    ensures s != null ==> fresh(s) && s.Valid() && s.root.f0 == 0 && s.data == []
    ensures s != null ==> s.core == core && s.outlen == outlen && s.key == []
  {
    if outlen == 0 || outlen > OUT_MAX { return null; }
    s := NewTree(core, outlen, []);
  }

  /** blake2bp_init_key: refused for a bad length or no key. */
  method InitKey<H>(core: Core<H>, outlen: nat, key: seq<byte>) returns (s: Tree?<H>)
    ensures s == null <==> outlen == 0 || outlen > OUT_MAX || key == [] || |key| > OUT_MAX
    ensures s != null ==> fresh(s) && s.Valid() && s.root.f0 == 0 && s.data == []
    ensures s != null ==> s.core == core && s.outlen == outlen && s.key == key
  {
    if outlen == 0 || outlen > OUT_MAX { return null; }
    if key == [] || |key| > OUT_MAX { return null; }
    s := NewTree(core, outlen, key);
  }

  /** The loop of the streaming self-test: a message in pieces of any sizes. */
  method UpdateAll<H>(s: Tree<H>, pieces: seq<seq<byte>>)
    requires s.Valid()
    modifies s, s.buf, s.leaves, Buffers(s.leaves)
    ensures s.Valid() && s.root.f0 == old(s.root.f0) && s.data == old(s.data) + Flatten(pieces, |pieces|)
  {
    for i := 0 to |pieces|
      invariant s.Valid() && s.root.f0 == old(s.root.f0) && s.data == old(s.data) + Flatten(pieces, i)
    {
      s.Update(pieces[i]);
      Regroup(old(s.data), Flatten(pieces, i), pieces[i]);
    }
  }

  /** blake2bp, the one call that does it all. */
  method Blake2bp<H>(core: Core<H>, out: array?<byte>, outlen: nat, input: seq<byte>, key: seq<byte>) returns (rc: int)
    requires out != null ==> outlen <= out.Length
    modifies out
    ensures rc == if out == null || outlen == 0 || outlen > OUT_MAX || |key| > OUT_MAX then -1 else 0
    ensures rc == -1 && out != null ==> unchanged(out)
    ensures rc == 0 ==> out[..] == TreeHash(core, outlen, key, input)[..outlen] + old(out[outlen..])
  {
    if out == null || outlen == 0 || outlen > OUT_MAX || |key| > OUT_MAX { return -1; }
    var leaves := MakeLeaves(core, outlen, key);
    FedNothing(leaves, key);
    var hashes := RunLeaves(core, outlen, key, leaves, input);
    var root := NewRoot(core, outlen, |key|);
    rc := Combine(root, hashes, out, outlen);
  }
}

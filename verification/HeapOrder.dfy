/**
  Max-heap order on an array of indices, keyed by a separate sequence, and what
  the two sift directions preserve.
 */
module HeapOrder {
  import opened Collections

  function Parent(k: nat): (p: nat)
    ensures k >= 1 ==> p < k && (k == 2 * p + 1 || k == 2 * p + 2)
  {
    if k == 0 then 0 else (k - 1) / 2
  }

  /** The first `n` entries of `h` are the indices 0..n-1, each once. */
  ghost predicate Permutes(h: seq<nat>, n: nat)
  {
    && n <= |h|
    && (forall k :: 0 <= k < n ==> h[k] < n)
    && forall i, j :: 0 <= i < j < n ==> h[i] != h[j]
  }

  ghost predicate Keyed(h: seq<nat>, key: seq<nat>, n: nat)
  {
    n <= |key| && Permutes(h, n)
  }

  ghost predicate Ordered(h: seq<nat>, key: seq<nat>, n: nat)
    requires Keyed(h, key, n)
  {
    forall k :: 1 <= k < n ==> key[h[k]] <= key[h[Parent(k)]]
  }

  function Swap(h: seq<nat>, i: nat, j: nat): seq<nat>
    requires i < |h| && j < |h|
  {
    h[i := h[j]][j := h[i]]
  }

  /** Everything is in order except possibly `node` against its parent. */
  ghost predicate Rising(h: seq<nat>, key: seq<nat>, n: nat, node: nat)
    requires Keyed(h, key, n)
  {
    && node < n
    && (forall k :: 1 <= k < n && k != node ==> key[h[k]] <= key[h[Parent(k)]])
    && (forall k :: 1 <= k < n && Parent(k) == node && node >= 1 ==> key[h[k]] <= key[h[Parent(node)]])
  }

  /** Everything is in order except possibly around the element at `hole`. */
  ghost predicate Sinking(h: seq<nat>, key: seq<nat>, n: nat, hole: nat)
    requires Keyed(h, key, n)
  {
    && hole < n
    && (forall k :: 1 <= k < n && k != hole && Parent(k) != hole ==> key[h[k]] <= key[h[Parent(k)]])
    && (forall k :: 1 <= k < n && Parent(k) == hole && hole >= 1 ==> key[h[k]] <= key[h[Parent(hole)]])
  }

  lemma SwapPermutes(h: seq<nat>, n: nat, i: nat, j: nat)
    requires Permutes(h, n) && i < n && j < n
    ensures Permutes(Swap(h, i, j), n)
  {
  }

  lemma RiseStep(h: seq<nat>, key: seq<nat>, n: nat, node: nat)
    requires Keyed(h, key, n) && Rising(h, key, n, node) && node >= 1
    requires key[h[Parent(node)]] <= key[h[node]]
    ensures Keyed(Swap(h, Parent(node), node), key, n)
    ensures Rising(Swap(h, Parent(node), node), key, n, Parent(node))
  {
    var p := Parent(node);
    SwapPermutes(h, n, p, node);
    var g := Swap(h, p, node);
    forall k | 1 <= k < n && k != p
      ensures key[g[k]] <= key[g[Parent(k)]]
    {
      if k == node {
      } else if Parent(k) == node {
      } else if Parent(k) == p {
        assert key[h[k]] <= key[h[p]];
      }
    }
    forall k | 1 <= k < n && Parent(k) == p && p >= 1
      ensures key[g[k]] <= key[g[Parent(p)]]
    {
      assert key[h[p]] <= key[h[Parent(p)]];
      if k != node { assert key[h[k]] <= key[h[p]]; }
    }
  }

  lemma RiseDone(h: seq<nat>, key: seq<nat>, n: nat, node: nat)
    requires Keyed(h, key, n) && Rising(h, key, n, node)
    requires node == 0 || key[h[node]] <= key[h[Parent(node)]]
    ensures Ordered(h, key, n)
  {
  }

  /** Moving the larger child up into the hole. */
  lemma SinkStep(h: seq<nat>, key: seq<nat>, n: nat, hole: nat, child: nat)
    requires Keyed(h, key, n) && Sinking(h, key, n, hole)
    requires 2 * hole + 2 < n && (child == 2 * hole + 1 || child == 2 * hole + 2)
    requires key[h[2 * hole + 1]] <= key[h[child]] && key[h[2 * hole + 2]] <= key[h[child]]
    ensures Keyed(Swap(h, hole, child), key, n)
    ensures Sinking(Swap(h, hole, child), key, n, child)
  {
    SwapPermutes(h, n, hole, child);
    var g := Swap(h, hole, child);
    assert Parent(child) == hole;
    forall k | 1 <= k < n && k != child && Parent(k) != child
      ensures key[g[k]] <= key[g[Parent(k)]]
    {
      if Parent(k) == hole {
        assert k == 2 * hole + 1 || k == 2 * hole + 2;
      } else if k == hole {
      }
    }
    forall k | 1 <= k < n && Parent(k) == child
      ensures key[g[k]] <= key[g[Parent(child)]]
    {
      assert key[h[k]] <= key[h[child]];
    }
  }

  /** A hole with no two children left only has its parent to worry about, if a single child is least. */
  lemma SinkDone(h: seq<nat>, key: seq<nat>, n: nat, hole: nat)
    requires Keyed(h, key, n) && Sinking(h, key, n, hole) && 2 * hole + 2 >= n
    requires 2 * hole + 1 < n ==> key[h[2 * hole + 1]] == 0
    ensures Rising(h, key, n, hole)
  {
    forall k | 1 <= k < n && Parent(k) == hole
      ensures k == 2 * hole + 1
    {
    }
  }

  /** The key of the last entry may fall: it has no children. */
  lemma LastLowered(h: seq<nat>, key: seq<nat>, n: nat)
    requires Keyed(h, key, n) && Ordered(h, key, n) && n >= 2
    ensures Keyed(h, key[h[n - 1] := 0], n) && Ordered(h, key[h[n - 1] := 0], n)
  {
    var low := key[h[n - 1] := 0];
    forall k | 1 <= k < n
      ensures low[h[k]] <= low[h[Parent(k)]]
    {
      assert h[Parent(k)] != h[n - 1];
    }
  }

  /** Above the last entry of an even heap of at least four there are two others that are no smaller. */
  lemma TwoAboveLast(h: seq<nat>, key: seq<nat>, n: nat)
    requires Keyed(h, key, n) && Ordered(h, key, n) && n >= 4
    ensures 1 <= Parent(n - 1) < n - 1 && h[Parent(n - 1)] != h[0]
    ensures h[n - 1] != h[0] && h[n - 1] != h[Parent(n - 1)]
    ensures key[h[n - 1]] <= key[h[Parent(n - 1)]] && key[h[n - 1]] <= key[h[0]]
  {
    RootIsLargest(h, key, n, n - 1);
  }

  /** In an even heap the last entry is never looked at, so it may end above its parent.  Keys 4, 3, 1, 2 are in
      order; when the first falls to 0 it changes places with the 3, stops there and does not rise. */
  lemma EvenHeapBreaks(h: seq<nat>, key: seq<nat>)
    requires h == [0, 1, 2, 3] && key == [4, 3, 1, 2]
    ensures Keyed(h, key, 4) && Ordered(h, key, 4)
    ensures Keyed(Swap(h, 0, 1), key[0 := 0], 4) && !Ordered(Swap(h, 0, 1), key[0 := 0], 4)
  {
    assert Parent(1) == 0 && Parent(2) == 0 && Parent(3) == 1;
    SwapPermutes(h, 4, 0, 1);
    var g := Swap(h, 0, 1);
    assert g[1] == 0 && g[3] == 3 && g[Parent(3)] == 0;
  }

  /** Appending index `n` at position `n` leaves only that node out of place. */
  lemma Append(h: seq<nat>, key: seq<nat>, n: nat)
    requires n < |h| && n < |key| && Keyed(h, key, n) && Ordered(h, key, n)
    ensures Keyed(h[n := n], key, n + 1) && Rising(h[n := n], key, n + 1, n)
  {
    var g := h[n := n];
    forall k | 1 <= k < n + 1
      ensures Parent(k) != n
    {
    }
  }

  /** Lowering the key of the root element leaves only the root out of place. */
  lemma RootLowered(h: seq<nat>, key: seq<nat>, key': seq<nat>, n: nat)
    requires Keyed(h, key, n) && Ordered(h, key, n) && n >= 1 && |key'| == |key|
    requires forall i :: 0 <= i < n && i != h[0] ==> key'[i] == key[i]
    ensures Keyed(h, key', n) && Sinking(h, key', n, 0)
  {
  }

  lemma {:induction false} RootIsLargest(h: seq<nat>, key: seq<nat>, n: nat, k: nat)
    requires Keyed(h, key, n) && Ordered(h, key, n) && k < n
    ensures key[h[k]] <= key[h[0]]
    decreases k
  {
    if k == 0 {
    } else {
      RootIsLargest(h, key, n, Parent(k));
    }
  }

  /** Every position but the root is dominated by one of the root's children. */
  lemma {:induction false} ChildrenDominate(h: seq<nat>, key: seq<nat>, n: nat, k: nat)
    requires Keyed(h, key, n) && Ordered(h, key, n) && 3 <= n && 1 <= k < n
    ensures key[h[k]] <= key[h[1]] || key[h[k]] <= key[h[2]]
    decreases k
  {
    if k <= 2 {
    } else {
      ChildrenDominate(h, key, n, Parent(k));
    }
  }

  /** Pigeonhole: an injective listing of n indices below n lists all of them. */
  lemma Listed(h: seq<nat>, n: nat, i: nat) returns (k: nat)
    requires Permutes(h, n) && i < n
    ensures k < n && h[k] == i
  {
    var image := set k | 0 <= k < n :: h[k];
    ImageSize(h, n);
    if i !in image {
      assert image <= Below(n) - {i};
      SubsetSize(image, Below(n) - {i});
      assert false;
    }
    k :| 0 <= k < n && h[k] == i;
  }

  lemma {:induction false} ImageSize(h: seq<nat>, n: nat)
    requires n <= |h| && forall i, j :: 0 <= i < j < n ==> h[i] != h[j]
    ensures |set k | 0 <= k < n :: h[k]| == n
  {
    if n == 0 {
    } else {
      ImageSize(h, n - 1);
      var less := set k | 0 <= k < n - 1 :: h[k];
      assert (set k | 0 <= k < n :: h[k]) == less + {h[n - 1]};
    }
  }

  function Below(n: nat): (s: set<nat>)
    ensures |s| == n
    ensures forall k: nat :: k in s <==> k < n
  {
    if n == 0 then {} else Below(n - 1) + {n - 1}
  }

  /** What heap_get_top2 relies on: the root is a maximum and the larger of its
      children a maximum of the rest. */
  lemma TopTwo(h: seq<nat>, key: seq<nat>, n: nat, second: nat)
    requires Keyed(h, key, n) && Ordered(h, key, n) && 3 <= n
    requires second == h[1] || second == h[2]
    requires key[h[1]] <= key[second] && key[h[2]] <= key[second]
    ensures second != h[0] && second < n
    ensures forall i :: 0 <= i < n ==> key[i] <= key[h[0]]
    ensures forall i :: 0 <= i < n && i != h[0] ==> key[i] <= key[second]
  {
    forall i | 0 <= i < n
      ensures key[i] <= key[h[0]]
      ensures i != h[0] ==> key[i] <= key[second]
    {
      var k := Listed(h, n, i);
      RootIsLargest(h, key, n, k);
      if k > 0 { ChildrenDominate(h, key, n, k); }
    }
  }
}

/**
  The heap of scalars used by Ed25519 batch verification and the Bos-Carter
  multi-scalar multiplication that runs on it, both updated in place.
 */
module BatchHeap {
  import opened Words
  import opened Collections
  import opened BatchLimbs
  import opened HeapOrder
  import opened SetAside
  import BC = BosCarter
  import FinalLadder

  type Point = BC.Point

  class Batch {
    const heap: array<nat>
    const scalars: array2<nat>
    const points: array<Point>
    var size: nat

    constructor (capacity: nat, initial: Point)
      ensures Shape() && size == 0 && heap.Length == capacity
      ensures fresh(heap) && fresh(scalars) && fresh(points)
      ensures forall i :: 0 <= i < capacity ==> points[i] == initial
    {
      heap := new nat[capacity](_ => 0);
      scalars := new nat[capacity, LIMBS]((_, _) => 0);
      points := new Point[capacity](_ => initial);
      size := 0;
    }

    ghost predicate Shape()
      reads scalars
    {
      && heap.Length == scalars.Length0 == points.Length
      && scalars.Length1 == LIMBS
      && forall i, k :: 0 <= i < scalars.Length0 && 0 <= k < LIMBS ==> scalars[i, k] < BASE
    }

    function Row(i: nat): Scalar
      requires Shape() && i < scalars.Length0
      reads scalars
    {
      [scalars[i, 0], scalars[i, 1], scalars[i, 2], scalars[i, 3], scalars[i, 4]]
    }

    /** The scalars as numbers. */
    ghost function Keys(): (s: seq<nat>)
      requires Shape()
      reads scalars
      ensures |s| == scalars.Length0
    {
      seq(scalars.Length0, i requires Shape() && 0 <= i < scalars.Length0 reads scalars => Value(Row(i)))
    }

    /** The index array lists 0..size-1 in max-heap order. */
    ghost predicate Heaped()
      requires Shape()
      reads this, scalars, heap
    {
      && size <= heap.Length
      && Keyed(heap[..], Keys(), size)
      && Ordered(heap[..], Keys(), size)
    }

    /** How many slots sinking and rising can reach: the last slot of an even heap is an only child. */
    ghost function Reach(): nat
      reads this
    {
      if size % 2 == 0 && size > 0 then size - 1 else size
    }

    /** The index in the slot out of reach, or no index at all. */
    ghost function Idle(): nat
      reads this, heap
    {
      if Reach() < size <= heap.Length then heap[size - 1] else heap.Length
    }

    /** The scalars that take part: the one out of reach counts as 0. */
    ghost function Live(): (s: seq<nat>)
      requires Shape()
      reads this, scalars, heap
      ensures |s| == scalars.Length0
    {
      if Idle() < heap.Length then Keys()[Idle() := 0] else Keys()
    }

    /** The heap order among the scalars that take part. */
    ghost predicate Kept()
      requires Shape()
      reads this, scalars, heap
    {
      && size <= heap.Length
      && Keyed(heap[..], Live(), size)
      && Ordered(heap[..], Live(), size)
    }

    /** A heap in order is kept in order. */
    lemma HeapedIsKept()
      requires Shape() && Heaped()
      ensures Kept()
    {
      if Idle() < heap.Length { LastLowered(heap[..], Keys(), size); }
    }

    ghost predicate Windowed(limbsize: nat)
      requires Shape() && size <= heap.Length
      reads this, scalars, heap
    {
      limbsize < LIMBS && forall i :: 0 <= i < size && i != Idle() ==> ZeroAbove(Row(i), limbsize)
    }

    method HeapSwap(a: nat, b: nat)
      requires a < heap.Length && b < heap.Length
      modifies heap
      ensures heap[..] == HeapOrder.Swap(old(heap[..]), a, b)
    {
      var temp := heap[a];
      heap[a] := heap[b];
      heap[b] := temp;
    }

    /** `key` holds the scalars of the first `n` indices, and the window covers them, except at `idle`. */
    ghost predicate Holds(key: seq<nat>, n: nat, idle: nat, limbsize: nat)
      requires Shape()
      reads scalars
    {
      && limbsize < LIMBS && |key| == scalars.Length0 && n <= |key|
      && forall i :: 0 <= i < n && i != idle ==> ZeroAbove(Row(i), limbsize) && key[i] == Value(Row(i))
    }

    lemma LiveHolds(limbsize: nat)
      requires Shape() && size <= heap.Length && Windowed(limbsize)
      ensures Holds(Live(), size, Idle(), limbsize)
    {
    }

    lemma LtIsOrder(key: seq<nat>, n: nat, idle: nat, limbsize: nat, i: nat, k: nat)
      requires Shape() && Holds(key, n, idle, limbsize) && i < n && k < n && i != idle && k != idle
      ensures Lt(Row(i), Row(k), limbsize) <==> key[i] < key[k]
      ensures Lte(Row(i), Row(k), limbsize) <==> key[i] <= key[k]
    {
      LtMeaning(Row(i), Row(k), limbsize);
    }

    lemma Reachable(p: nat)
      requires size <= heap.Length && p < Reach() && Permutes(heap[..], size)
      ensures heap[p] < size && heap[p] != Idle()
    {
      assert heap[..][p] == heap[p];
      if Idle() < heap.Length { assert heap[..][size - 1] == Idle(); }
    }

    /** The index in the last slot has no more than the key of the last index, and is that index until it moves. */
    ghost predicate LastSlot(key: seq<nat>, last: nat, node: nat)
      reads heap
    {
      && node <= last < heap.Length && last < |key| && heap[last] < |key|
      && key[heap[last]] <= key[last] && (node == last ==> heap[last] == last)
    }

    /** One step up. */
    method RiseOnce(node: nat, parent: nat, last: nat, ghost key: seq<nat>)
      requires 1 <= node && LastSlot(key, last, node) && parent == Parent(node)
      requires Keyed(heap[..], key, last + 1) && Rising(heap[..], key, last + 1, node)
      requires key[heap[parent]] <= key[heap[node]]
      modifies heap
      ensures Keyed(heap[..], key, last + 1) && Rising(heap[..], key, last + 1, parent)
      ensures LastSlot(key, last, parent)
    {
      RiseStep(heap[..], key, last + 1, node);
      HeapSwap(parent, node);
      assert heap[last] == heap[..][last];
    }

    /** The comparison of heap_insert_next. */
    method IsBelow(p: nat, q: nat, n: nat, ghost key: seq<nat>) returns (below: bool)
      requires Shape() && p < n && q < n <= heap.Length
      requires Keyed(heap[..], key, n) && Holds(key, n, heap.Length, LIMBS - 1)
      ensures below <==> key[heap[p]] < key[heap[q]]
    {
      assert heap[..][p] == heap[p] && heap[..][q] == heap[q];
      LtIsOrder(key, n, heap.Length, LIMBS - 1, heap[p], heap[q]);
      below := Lt(Row(heap[p]), Row(heap[q]), LIMBS - 1);
    }

    /** The new index is on its way up at `node`; `below` says whether its parent is smaller. */
    ghost predicate Climbing(key: seq<nat>, last: nat, node: nat, below: bool)
      reads heap, scalars
    {
      && Shape() && LastSlot(key, last, node) && Holds(key, last + 1, heap.Length, LIMBS - 1)
      && Keyed(heap[..], key, last + 1) && Rising(heap[..], key, last + 1, node)
      && (below <==> key[heap[Parent(node)]] < key[heap[node]])
    }

    /** One round of the loop of heap_insert_next. */
    method Climb(node: nat, parent: nat, last: nat, ghost key: seq<nat>) returns (below: bool)
      requires Climbing(key, last, node, true) && node != 0 && parent == Parent(node)
      modifies heap
      ensures Climbing(key, last, parent, below)
    {
      RiseOnce(node, parent, last, key);
      below := IsBelow(Parent(parent), parent, last + 1, key);
    }

    /** The test before the first round. */
    method StartClimb(last: nat, parent: nat, ghost key: seq<nat>) returns (below: bool)
      requires Shape() && LastSlot(key, last, last) && Holds(key, last + 1, heap.Length, LIMBS - 1)
      requires Keyed(heap[..], key, last + 1) && Rising(heap[..], key, last + 1, last) && parent == Parent(last)
      ensures Climbing(key, last, last, below)
    {
      below := IsBelow(parent, last, last + 1, key);
    }

    /** The loop of heap_insert_next, from the last slot upwards. */
    method RiseNew(last: nat, ghost key: seq<nat>)
      requires Shape() && LastSlot(key, last, last) && Holds(key, last + 1, heap.Length, LIMBS - 1)
      requires Keyed(heap[..], key, last + 1) && Rising(heap[..], key, last + 1, last)
      modifies heap
      ensures Keyed(heap[..], key, last + 1) && Ordered(heap[..], key, last + 1)
      ensures key[heap[last]] <= key[last]
    {
      var node: nat := last;
      var parent := Parent(node);
      var below := StartClimb(last, parent, key);
      while node != 0 && below
        invariant Climbing(key, last, node, below) && parent == Parent(node)
        decreases node
      {
        below := Climb(node, parent, last, key);
        node := parent;
        parent := Parent(node);
      }
      RiseDone(heap[..], key, last + 1, node);
    }

    /** The new index goes to the end. */
    method Place(node: nat, ghost keys: seq<nat>)
      requires node < heap.Length && node < |keys| && Keyed(heap[..], keys, node) && Ordered(heap[..], keys, node)
      modifies heap
      ensures Keyed(heap[..], keys, node + 1) && Rising(heap[..], keys, node + 1, node)
      ensures LastSlot(keys, node, node)
    {
      HeapOrder.Append(heap[..], keys, node);
      ghost var h: seq<nat> := heap[..];
      heap[node] := node;
      assert heap[..] == h[node := node];
    }

    lemma KeysHold(n: nat)
      requires Shape() && n <= heap.Length
      ensures Holds(Keys(), n, heap.Length, LIMBS - 1)
    {
    }

    /** The new scalar or a smaller one comes to rest in the last slot. */
    method InsertNext()
      requires Shape() && Heaped() && size < heap.Length
      modifies heap, this`size
      ensures Shape() && Heaped() && size == old(size) + 1
      ensures Keys()[heap[size - 1]] <= Keys()[size - 1]
    {
      ghost var keys := Keys();
      var node: nat := size;
      KeysHold(node + 1);
      Place(node, keys);
      RiseNew(node, keys);
      size := node + 1;
    }

    /** The larger of two children. */
    method LargerChild(childl: nat, childr: nat, limbsize: nat, ghost key: seq<nat>) returns (node: nat)
      requires Shape() && size <= heap.Length && childl < Reach() && childr < Reach()
      requires Keyed(heap[..], key, size) && Holds(key, size, Idle(), limbsize)
      ensures node == childl || node == childr
      ensures key[heap[childl]] <= key[heap[node]] && key[heap[childr]] <= key[heap[node]]
    {
      Reachable(childl);
      Reachable(childr);
      LtIsOrder(key, size, Idle(), limbsize, heap[childl], heap[childr]);
      node := if Lt(Row(heap[childl]), Row(heap[childr]), limbsize) then childr else childl;
    }

    /** Changing places within reach leaves the slot out of reach alone. */
    method SwapWithin(p: nat, q: nat)
      requires p < Reach() && q < Reach() && size <= heap.Length
      modifies heap
      ensures heap[..] == Swap(old(heap[..]), p, q) && Idle() == old(Idle())
    {
      HeapSwap(p, q);
      if Reach() < size { assert heap[..][size - 1] == heap[size - 1]; }
    }

    /** One step down, to the larger child. */
    method SinkOnce(parent: nat, node: nat, ghost key: seq<nat>)
      requires size <= heap.Length && 2 * parent + 2 < Reach() && (node == 2 * parent + 1 || node == 2 * parent + 2)
      requires Keyed(heap[..], key, size) && Sinking(heap[..], key, size, parent)
      requires key[heap[2 * parent + 1]] <= key[heap[node]] && key[heap[2 * parent + 2]] <= key[heap[node]]
      modifies heap
      ensures Keyed(heap[..], key, size) && Sinking(heap[..], key, size, node) && Idle() == old(Idle())
    {
      SinkStep(heap[..], key, size, parent, node);
      SwapWithin(parent, node);
    }

    lemma RightChildInReach(parent: nat)
      requires 2 * parent + 2 < size
      ensures 2 * parent + 2 < Reach()
    {
    }

    /** The order is broken only around `hole`, and the slot out of reach holds `idle`. */
    ghost predicate Falling(key: seq<nat>, hole: nat, idle: nat, limbsize: nat)
      reads this, heap, scalars
    {
      && Shape() && size <= heap.Length && hole < Reach() && Idle() == idle
      && Holds(key, size, idle, limbsize)
      && Keyed(heap[..], key, size) && Sinking(heap[..], key, size, hole)
    }

    /** One round of the first loop of heap_updated_root. */
    method Fall(parent: nat, childl: nat, childr: nat, limbsize: nat, ghost key: seq<nat>, ghost idle: nat)
      returns (node: nat)
      requires Falling(key, parent, idle, limbsize) && childl == 2 * parent + 1 && childr == childl + 1 < size
      modifies heap
      ensures parent < node && Falling(key, node, idle, limbsize)
    {
      RightChildInReach(parent);
      node := LargerChild(childl, childr, limbsize, key);
      SinkOnce(parent, node, key);
    }

    lemma OnlyChildIdle(hole: nat)
      requires size == 2 * hole + 2 <= heap.Length
      ensures heap[..][2 * hole + 1] == Idle()
    {
    }

    lemma Fallen(key: seq<nat>, hole: nat, idle: nat, limbsize: nat)
      requires Falling(key, hole, idle, limbsize) && 2 * hole + 2 >= size
      requires idle < heap.Length ==> key[idle] == 0
      ensures Rising(heap[..], key, size, hole)
    {
      if 2 * hole + 1 < size { OnlyChildIdle(hole); }
      SinkDone(heap[..], key, size, hole);
    }

    /** First half of heap_updated_root: the root sinks along the larger children until it has none or only one. */
    method SinkRoot(limbsize: nat, ghost key: seq<nat>) returns (node: nat)
      requires Shape() && 3 <= size <= heap.Length
      requires Keyed(heap[..], key, size) && Sinking(heap[..], key, size, 0)
      requires Holds(key, size, Idle(), limbsize) && (Idle() < heap.Length ==> key[Idle()] == 0)
      modifies heap
      ensures node < Reach() && Idle() == old(Idle())
      ensures Keyed(heap[..], key, size) && Rising(heap[..], key, size, node)
    {
      ghost var idle := Idle();
      var parent, childl, childr := 0, 1, 2;
      node := 1;
      while childr < size
        invariant Falling(key, parent, idle, limbsize) && childl == 2 * parent + 1 && childr == childl + 1
        invariant parent == 0 || node == parent
        decreases size - parent
      {
        node := Fall(parent, childl, childr, limbsize, key, idle);
        parent := node;
        childl := parent * 2 + 1;
        childr := childl + 1;
      }
      Fallen(key, node, idle, limbsize);
    }

    /** The comparison on the way back up. */
    method IsAtMost(p: nat, q: nat, limbsize: nat, ghost key: seq<nat>) returns (atMost: bool)
      requires Shape() && size <= heap.Length && p < Reach() && q < Reach()
      requires Keyed(heap[..], key, size) && Holds(key, size, Idle(), limbsize)
      ensures atMost <==> key[heap[p]] <= key[heap[q]]
    {
      Reachable(p);
      Reachable(q);
      LtIsOrder(key, size, Idle(), limbsize, heap[p], heap[q]);
      atMost := Lte(Row(heap[p]), Row(heap[q]), limbsize);
    }

    /** One step up within reach. */
    method RiseWithin(node: nat, parent: nat, ghost key: seq<nat>)
      requires 1 <= node < Reach() && parent == Parent(node) && size <= heap.Length
      requires Keyed(heap[..], key, size) && Rising(heap[..], key, size, node) && key[heap[parent]] <= key[heap[node]]
      modifies heap
      ensures Keyed(heap[..], key, size) && Rising(heap[..], key, size, parent) && Idle() == old(Idle())
    {
      RiseStep(heap[..], key, size, node);
      SwapWithin(parent, node);
    }

    /** The order is broken only between `node` and its parent, `atMost` says whether the parent is no larger, and
        the slot out of reach holds `idle`. */
    ghost predicate Returning(key: seq<nat>, node: nat, atMost: bool, idle: nat, limbsize: nat)
      reads this, heap, scalars
    {
      && Shape() && size <= heap.Length && node < Reach() && Idle() == idle
      && Holds(key, size, idle, limbsize)
      && Keyed(heap[..], key, size) && Rising(heap[..], key, size, node)
      && (atMost <==> key[heap[Parent(node)]] <= key[heap[node]])
    }

    /** One round of the second loop of heap_updated_root. */
    method Return(node: nat, parent: nat, limbsize: nat, ghost key: seq<nat>, ghost idle: nat) returns (atMost: bool)
      requires Returning(key, node, true, idle, limbsize) && node != 0 && parent == Parent(node)
      modifies heap
      ensures Returning(key, parent, atMost, idle, limbsize)
    {
      RiseWithin(node, parent, key);
      atMost := IsAtMost(Parent(parent), parent, limbsize, key);
    }

    /** Second half: it rises back to its sorted spot. */
    method RiseBack(leaf: nat, limbsize: nat, ghost key: seq<nat>)
      requires Shape() && 3 <= size <= heap.Length && leaf < Reach()
      requires Keyed(heap[..], key, size) && Rising(heap[..], key, size, leaf)
      requires Holds(key, size, Idle(), limbsize)
      modifies heap
      ensures Idle() == old(Idle())
      ensures Keyed(heap[..], key, size) && Ordered(heap[..], key, size)
    {
      ghost var idle := Idle();
      var node: nat := leaf;
      var parent := Parent(node);
      var atMost := IsAtMost(parent, node, limbsize, key);
      while node != 0 && atMost
        invariant Returning(key, node, atMost, idle, limbsize) && parent == Parent(node)
        decreases node
      {
        atMost := Return(node, parent, limbsize, key, idle);
        node := parent;
        parent := Parent(node);
      }
      RiseDone(heap[..], key, size, node);
    }

    /** heap_updated_root: the order is restored after the root's scalar changed. */
    method UpdatedRoot(limbsize: nat)
      requires Shape() && 3 <= size <= heap.Length
      requires Keyed(heap[..], Live(), size) && Sinking(heap[..], Live(), size, 0)
      requires Windowed(limbsize)
      modifies heap
      ensures Kept() && Windowed(limbsize)
      ensures Idle() == old(Idle()) && Live() == old(Live())
    {
      LiveHolds(limbsize);
      ghost var key := Live();
      var node := SinkRoot(limbsize, key);
      RiseBack(node, limbsize, key);
    }

    method Build(count: nat)
      requires Shape() && 1 <= count <= heap.Length
      modifies heap, this`size
      ensures Heaped() && size == count
    {
      heap[0] := 0;
      size := 0;
      while size < count
        invariant size <= count && Heaped()
      {
        InsertNext();
      }
    }

    method Extend(newCount: nat)
      requires Shape() && Heaped() && size <= newCount <= heap.Length
      modifies heap, this`size
      ensures Heaped() && size == newCount
      ensures newCount > old(size) ==> Keys()[heap[newCount - 1]] <= Keys()[newCount - 1]
    {
      while size < newCount
        invariant old(size) <= size <= newCount && Heaped()
        invariant size > old(size) ==> Keys()[heap[size - 1]] <= Keys()[size - 1]
      {
        InsertNext();
      }
    }

    /** The two largest scalars that take part, at different indices. */
    method GetTop2(limbsize: nat) returns (max1: nat, max2: nat)
      requires Shape() && Kept() && 3 <= size && Windowed(limbsize)
      ensures IsTop2(max1, max2)
    {
      var h0, h1, h2 := heap[0], heap[1], heap[2];
      Reachable(0);
      Reachable(1);
      Reachable(2);
      LtIsOrder(Live(), size, Idle(), limbsize, h1, h2);
      if Lt(Row(h1), Row(h2), limbsize) {
        h1 := h2;
      }
      TopTwo(heap[..], Live(), size, h1);
      max1 := h0;
      max2 := h1;
    }

    /** Limb `i` of sub256_modm_batch; the limbs below the top of the window are masked. */
    method SubtractLimb(o: nat, b: nat, limbsize: nat, i: nat, carry: nat, ghost x: Scalar, ghost y: Scalar)
      returns (carry': nat)
      requires o < scalars.Length0 && b < scalars.Length0 && scalars.Length1 == LIMBS && i <= limbsize < LIMBS
      requires scalars[o, i] == x[i] && scalars[b, i] == y[i] && carry == Borrow(x, y, i)
      modifies scalars
      ensures scalars[o, i] == SubLimb(x, y, limbsize, i) && carry' == Borrow(x, y, i + 1)
      ensures forall r, k :: 0 <= r < scalars.Length0 && 0 <= k < LIMBS && (r != o || k != i) ==>
                scalars[r, k] == old(scalars[r, k])
    {
      var t := Wrap64(scalars[o, i] - scalars[b, i] - carry);
      carry' := t / SIGN;
      scalars[o, i] := if i < limbsize then t % BASE else t;
    }

    /** sub256_modm_batch with the first operand as destination. */
    method SubtractLimbs(o: nat, b: nat, limbsize: nat)
      requires Shape() && o < heap.Length && b < heap.Length && o != b && limbsize < LIMBS
      modifies scalars
      ensures forall k :: 0 <= k < LIMBS ==> scalars[o, k] == SubLimb(old(Row(o)), old(Row(b)), limbsize, k)
      ensures forall r, k :: 0 <= r < scalars.Length0 && r != o && 0 <= k < LIMBS ==>
                scalars[r, k] == old(scalars[r, k])
    {
      ghost var x, y := Row(o), Row(b);
      var i, carry := 0, 0;
      while i <= limbsize
        invariant 0 <= i <= limbsize + 1 && carry == Borrow(x, y, i)
        invariant forall k :: 0 <= k < i ==> scalars[o, k] == SubLimb(x, y, limbsize, k)
        invariant forall k :: i <= k < LIMBS ==> scalars[o, k] == x[k]
        invariant forall r, k :: 0 <= r < scalars.Length0 && r != o && 0 <= k < LIMBS ==>
                    scalars[r, k] == old(scalars[r, k])
      {
        assert scalars[b, i] == y[i];
        carry := SubtractLimb(o, b, limbsize, i, carry, x, y);
        i := i + 1;
      }
    }

    /** Over a window that covers both scalars, the subtraction is the integer one. */
    method Subtract(o: nat, b: nat, limbsize: nat)
      requires Shape() && o < heap.Length && b < heap.Length && o != b && limbsize < LIMBS
      requires ZeroAbove(Row(o), limbsize) && ZeroAbove(Row(b), limbsize)
      requires Value(Row(b)) <= Value(Row(o))
      modifies scalars
      ensures Shape()
      ensures Keys() == old(Keys())[o := old(Value(Row(o))) - old(Value(Row(b)))]
      ensures ZeroAbove(Row(o), limbsize)
      ensures forall i :: 0 <= i < heap.Length && i != o ==> Row(i) == old(Row(i))
    {
      ghost var x, y := Row(o), Row(b);
      SubtractLimbs(o, b, limbsize);
      ghost var out := [scalars[o, 0], scalars[o, 1], scalars[o, 2], scalars[o, 3], scalars[o, 4]];
      SubMeaning(x, y, out, limbsize);
      forall i, k | 0 <= i < scalars.Length0 && 0 <= k < LIMBS
        ensures scalars[i, k] < BASE
      {
        if i == o { assert scalars[o, k] == out[k]; }
      }
      assert Row(o) == out;
    }

    /** One limb less is enough once the largest scalar has nothing there. */
    lemma WindowShrinks(max1: nat, limbsize: nat)
      requires Shape() && size <= heap.Length && Windowed(limbsize) && max1 < size && max1 != Idle()
      requires forall i :: 0 <= i < size ==> Live()[i] <= Live()[max1]
      requires Row(max1)[limbsize] == 0 && Live()[max1] > 0
      ensures limbsize >= 1 && Windowed(limbsize - 1)
    {
      if limbsize == 0 { ZeroWindow(Row(max1)); }
      forall i | 0 <= i < size && i != Idle()
        ensures Row(i)[limbsize] == 0
      {
        assert Live()[i] <= Live()[max1];
        SmallerTopLimb(Row(max1), Row(i), limbsize);
      }
    }

    /** The subtraction among the scalars that take part. */
    method SubtractLive(max1: nat, max2: nat, limbsize: nat)
      requires Shape() && size <= heap.Length && Windowed(limbsize)
      requires max1 < size && max2 < size && max1 != max2 && max1 != Idle() && 0 < Live()[max2] <= Live()[max1]
      modifies scalars
      ensures Shape() && Windowed(limbsize)
      ensures Live() == old(Live())[max1 := old(Live()[max1]) - old(Live()[max2])]
    {
      ghost var keys, live := Keys(), Live();
      Subtract(max1, max2, limbsize);
      assert Keys() == keys[max1 := keys[max1] - keys[max2]];
      assert Live() == live[max1 := live[max1] - live[max2]];
    }

    /** The subtraction of one pass: only the root may be out of order after it. */
    method LowerRoot(max1: nat, max2: nat, limbsize: nat)
      requires Shape() && Kept() && 3 <= size && Windowed(limbsize)
      requires max1 == heap[0] && max2 < size && max1 != max2 && 0 < Live()[max2] <= Live()[max1]
      modifies scalars
      ensures Shape() && Windowed(limbsize)
      ensures Live() == old(Live())[max1 := old(Live()[max1]) - old(Live()[max2])]
      ensures Keyed(heap[..], Live(), size) && Sinking(heap[..], Live(), size, 0)
    {
      ghost var keys, live := Keys(), Live();
      assert heap[..][0] == max1;
      Reachable(0);
      SubtractLive(max1, max2, limbsize);
      RootLowered(heap[..], live, Live(), size);
    }

    /** The point addition of one pass. */
    method AddPoint(max1: nat, max2: nat, ghost dim: nat)
      requires max1 < points.Length && max2 < points.Length && BC.Vectors(points[..], dim)
      modifies points
      ensures BC.Vectors(points[..], dim)
      ensures points[..] == old(points[..])[max2 := BC.Add(old(points[max2]), old(points[max1]))]
    {
      points[max2] := BC.Add(points[max2], points[max1]);
    }

    static lemma StepTaken(s: seq<nat>, pts: seq<Point>, s': seq<nat>, pts': seq<Point>, dim: nat, n: nat, a: nat,
                           b: nat)
      requires |s'| == |s| == |pts| && n <= |s| && a < n && b < n && a != b && 0 < s[b] <= s[a]
      requires BC.Vectors(pts, dim) && BC.Vectors(pts', dim)
      requires s' == s[a := s[a] - s[b]] && pts' == pts[b := BC.Add(pts[b], pts[a])]
      ensures BC.Step(s, pts, s', pts', dim, n, a, b)
    {
    }

    /** One pass of the main loop: subtract, add the points, restore the heap. */
    method Reduce(max1: nat, max2: nat, limbsize: nat, ghost dim: nat)
      requires Shape() && Kept() && 3 <= size && Windowed(limbsize)
      requires max1 == heap[0] && max2 < size && max1 != max2 && 0 < Live()[max2] <= Live()[max1]
      requires BC.Vectors(points[..], dim)
      modifies heap, scalars, points
      ensures Shape() && Kept() && Windowed(limbsize) && Idle() == old(Idle())
      ensures BC.Step(old(Live()), old(points[..]), Live(), points[..], dim, size, max1, max2)
    {
      ghost var s, pts := Live(), points[..];
      LowerRoot(max1, max2, limbsize);
      AddPoint(max1, max2, dim);
      StepTaken(s, pts, Live(), points[..], dim, size, max1, max2);
      UpdatedRoot(limbsize);
    }

    /** While the 128-bit scalars are still out of the heap, the window keeps limb 2:
        the last step left a pair adding up to 2^128, so the maximum is at least 2^127. */
    lemma WindowKeepsLimb2(max1: nat, limbsize: nat, a: nat, b: nat)
      requires Shape() && size <= heap.Length && Windowed(limbsize) && max1 < size && max1 != Idle()
      requires forall i :: 0 <= i < size ==> Live()[i] <= Live()[max1]
      requires BC.LargePair(Live(), size, a, b) && limbsize == 2
      ensures Row(max1)[2] != 0
    {
      assert Live()[a] <= Live()[max1] && Live()[b] <= Live()[max1];
      TopLimbOf127(Row(max1));
    }

    /** The window still covers the scalars of at most 128 bits when they come in. */
    lemma WindowCoversNew(count: nat, limbsize: nat)
      requires Shape() && size <= count <= heap.Length && size % 2 == 1 && Windowed(limbsize) && limbsize >= 2
      requires forall i :: size <= i < count ==> Keys()[i] < TWO128
      ensures forall i :: 0 <= i < count ==> ZeroAbove(Row(i), limbsize)
    {
      forall i | size <= i < count
        ensures ZeroAbove(Row(i), limbsize)
      {
        assert Keys()[i] < TWO128;
        AtMost128Meaning(Row(i));
      }
    }

    /** The state of a run, relative to its start (s0, p0). */
    ghost predicate Running(s0: seq<nat>, p0: seq<Point>, dim: nat, n1: nat, count: nat, limbsize: nat, extended: bool)
      reads this, heap, scalars, points
    {
      && Shape() && 3 <= n1 <= count <= heap.Length && n1 % 2 == 1
      && Kept() && size == (if extended then count else n1)
      && Windowed(limbsize)
      && BC.RunInv(s0, p0, Live(), points[..], dim, size, count)
      && (!extended ==> limbsize >= 2 && forall i :: n1 <= i < count ==> s0[i] < TWO128)
    }

    /** Before the extension: either nothing has happened or a large pair remains. */
    ghost predicate Waiting(s0: seq<nat>, limbsize: nat, a: nat, b: nat)
      requires Shape()
      reads this, scalars, heap
    {
      (Keys() == s0 && limbsize == 4) || BC.LargePair(Keys(), size, a, b)
    }

    /** How the start (sb, pb) that the state is measured against comes from the run's own start (s0, p0): the
        same, or what was left when the slot out of reach took `aside` with it. */
    ghost predicate Owing(s0: seq<nat>, p0: seq<Point>, sb: seq<nat>, pb: seq<Point>, dim: nat, n1: nat, count: nat,
                          extended: bool, aside: Term)
      reads this, heap, points
    {
      && n1 <= count <= |s0| && (extended ==> BC.Extends(s0, n1))
      && (BC.Generators(p0, dim, count) ==> Independent(points[..], dim, count))
      && (aside.scalar == 0 ==> sb == s0 && pb == p0)
      && (aside.scalar > 0 ==>
            && extended && count % 2 == 0 && s0[count - 1] > 0
            && Idle() < count <= points.Length && points[Idle()] == aside.point
            && Owed(s0, p0, sb, pb, dim, count, aside))
      && (AllSmall(s0, count) && extended && count % 2 == 0 ==> aside.scalar > 0)
    }

    /** A largest scalar, at the root, and a largest of the others. */
    ghost predicate IsTop2(max1: nat, max2: nat)
      requires Shape() && size <= heap.Length
      reads this, scalars, heap
    {
      && max1 < size && max2 < size && max1 != max2 && max1 == heap[0]
      && max1 != Idle() && max2 != Idle()
      && (forall i :: 0 <= i < size ==> Live()[i] <= Live()[max1])
      && (forall i :: 0 <= i < size && i != max1 ==> Live()[i] <= Live()[max2])
    }

    ghost predicate Top2(max1: nat, max2: nat)
      requires Shape() && size <= heap.Length
      reads this, scalars, heap
    {
      IsTop2(max1, max2) && Live()[max2] > 0
    }

    lemma Finished(max1: nat, max2: nat, limbsize: nat, extended: bool, s0: seq<nat>, p0: seq<Point>,
                   sb: seq<nat>, pb: seq<Point>, dim: nat, n1: nat, count: nat, a: nat, b: nat, aside: Term)
      requires Running(sb, pb, dim, n1, count, limbsize, extended) && IsTop2(max1, max2) && Live()[max2] == 0
      requires Owing(s0, p0, sb, pb, dim, n1, count, extended, aside)
      requires !extended ==> Waiting(s0, limbsize, a, b)
      ensures BC.OneLeft(Live(), size, max1)
      ensures extended <==> BC.Extends(s0, n1)
    {
      if !extended { BC.NotExtended(s0, p0, Keys(), points[..], dim, n1, count, max1, a, b); }
    }

    /** Narrows the window by one limb when the largest scalar has become zero there. */
    method Exhaust(max1: nat, max2: nat, limbsize: nat, extended: bool, ghost s0: seq<nat>, ghost p0: seq<Point>,
                   ghost dim: nat, ghost n1: nat, ghost count: nat, ghost a: nat, ghost b: nat) returns (limbsize': nat)
      requires Running(s0, p0, dim, n1, count, limbsize, extended) && Top2(max1, max2)
      requires !extended ==> Waiting(s0, limbsize, a, b)
      ensures Running(s0, p0, dim, n1, count, limbsize', extended)
    {
      limbsize' := limbsize;
      if Row(max1)[limbsize] == 0 {
        if !extended && limbsize == 2 { WindowKeepsLimb2(max1, limbsize, a, b); }
        WindowShrinks(max1, limbsize);
        limbsize' := limbsize - 1;
      }
    }

    /** Two scalars that take part are still positive after the second half has come in. */
    lemma StillTwo(max1: nat, max2: nat, x: nat, y: nat)
      requires Shape() && Heaped() && Kept() && 3 <= size && IsTop2(max1, max2)
      requires x < size && y < size && x != y && Keys()[x] > 0 && Keys()[y] > 0
      ensures Live()[max2] > 0
    {
      if Idle() < heap.Length && Keys()[Idle()] > 0 {
        TwoAboveLast(heap[..], Keys(), size);
        assert Live()[heap[Parent(size - 1)]] > 0;
      } else {
        assert Live()[x] > 0 && Live()[y] > 0;
      }
    }

    /** What the slot out of reach takes with it when the heap has grown to `count`. */
    lemma LeftBehind(s0: seq<nat>, p0: seq<Point>, dim: nat, n1: nat, count: nat, limbsize: nat)
      returns (sb: seq<nat>, pb: seq<Point>, aside: Term)
      requires Shape() && Heaped() && size == count && 3 <= n1 <= count <= |s0| && n1 % 2 == 1 && Windowed(limbsize)
      requires BC.RunInv(s0, p0, Keys(), points[..], dim, count, count)
      requires BC.Extends(s0, n1) && (BC.Generators(p0, dim, count) ==> Independent(points[..], dim, count))
      requires count % 2 == 0 && count > 0 ==> Keys()[heap[count - 1]] <= s0[count - 1]
      requires AllSmall(s0, count) ==> Keys() == s0
      ensures Running(sb, pb, dim, n1, count, limbsize, true)
      ensures Owing(s0, p0, sb, pb, dim, n1, count, true, aside)
      ensures BC.Total(Live(), count) <= BC.Total(Keys(), count)
    {
      HeapedIsKept();
      sb, pb, aside := s0, p0, Term(0, []);
      var c := Idle();
      if c < heap.Length {
        assert heap[..][count - 1] == c;
        BC.TotalChange(Keys(), Live(), count, c);
        if Keys()[c] > 0 {
          PutAside(s0, p0, Keys(), points[..], dim, count, count, c);
          sb, pb, aside := Live(), points[..], Term(Keys()[c], points[c]);
        } else {
          assert Live() == Keys();
        }
      }
    }

    /** The two largest after the heap has grown, given two that were positive before. */
    method TopAgain(limbsize: nat, ghost x: nat, ghost y: nat) returns (max1: nat, max2: nat)
      requires Shape() && Heaped() && 3 <= size && Windowed(limbsize)
      requires x < size && y < size && x != y && Keys()[x] > 0 && Keys()[y] > 0
      ensures Top2(max1, max2)
    {
      HeapedIsKept();
      max1, max2 := GetTop2(limbsize);
      StillTwo(max1, max2, x, y);
    }

    /** The heap takes in all `count` scalars, none of which needs more than the window; x and y are positive. */
    method TakeIn(count: nat, limbsize: nat, ghost x: nat, ghost y: nat) returns (max1: nat, max2: nat)
      requires Shape() && Heaped() && size % 2 == 1 && size <= count <= heap.Length && limbsize < LIMBS
      requires forall i :: 0 <= i < count ==> ZeroAbove(Row(i), limbsize)
      requires 3 <= size && x < size && y < size && x != y && Keys()[x] > 0 && Keys()[y] > 0
      modifies heap, this`size
      ensures Shape() && Heaped() && size == count && Windowed(limbsize) && Top2(max1, max2)
      ensures Keys() == old(Keys())
      ensures count % 2 == 0 ==> Keys()[heap[count - 1]] <= Keys()[count - 1]
    {
      Extend(count);
      max1, max2 := TopAgain(limbsize, x, y);
    }

    /** What a run that may be extended knows of its second half. */
    lemma MayGrow(max1: nat, max2: nat, limbsize: nat, s0: seq<nat>, p0: seq<Point>, dim: nat, n1: nat, count: nat)
      requires Running(s0, p0, dim, n1, count, limbsize, false) && Top2(max1, max2) && Keys()[max1] < TWO128
      ensures Heaped() && Keys() == Live() && BC.Extends(s0, n1)
      ensures forall i :: 0 <= i < count ==> ZeroAbove(Row(i), limbsize)
      ensures forall i :: n1 <= i < count ==> Keys()[i] == s0[i]
      ensures BC.RunInv(s0, p0, Keys(), points[..], dim, count, count)
    {
      BC.ExtendsHolds(s0, p0, Keys(), points[..], dim, n1, count, max1, max2);
      WindowCoversNew(count, limbsize);
      BC.RunExtend(s0, p0, Keys(), points[..], dim, n1, count);
    }

    /** The heap grows to `count` once no scalar in it needs more than 128 bits. */
    method Grow(max1: nat, max2: nat, limbsize: nat, ghost s0: seq<nat>, ghost p0: seq<Point>, ghost dim: nat,
                ghost n1: nat, count: nat) returns (max1': nat, max2': nat)
      requires Running(s0, p0, dim, n1, count, limbsize, false) && Top2(max1, max2) && Keys()[max1] < TWO128
      modifies heap, this`size
      ensures Shape() && Heaped() && size == count && Windowed(limbsize) && Top2(max1', max2')
      ensures BC.RunInv(s0, p0, Keys(), points[..], dim, count, count) && BC.Extends(s0, n1)
      ensures count % 2 == 0 ==> Keys()[heap[count - 1]] <= s0[count - 1]
    {
      MayGrow(max1, max2, limbsize, s0, p0, dim, n1, count);
      max1', max2' := TakeIn(count, limbsize, max1, max2);
    }

    /** Brings in the second half, and takes the two largest again. */
    method BringIn(max1: nat, max2: nat, limbsize: nat, ghost s0: seq<nat>, ghost p0: seq<Point>, ghost dim: nat,
                   ghost n1: nat, count: nat)
      returns (max1': nat, max2': nat, ghost sb: seq<nat>, ghost pb: seq<Point>, ghost aside: Term)
      requires Running(s0, p0, dim, n1, count, limbsize, false) && Top2(max1, max2)
      requires BC.Generators(p0, dim, count) ==> Independent(points[..], dim, count)
      requires Keys()[max1] < TWO128 && (AllSmall(s0, count) ==> Keys() == s0)
      modifies heap, this`size
      ensures Running(sb, pb, dim, n1, count, limbsize, true) && Top2(max1', max2')
      ensures Owing(s0, p0, sb, pb, dim, n1, count, true, aside)
      ensures BC.Total(Live(), count) <= BC.Total(old(Live()), count)
    {
      max1', max2' := Grow(max1, max2, limbsize, s0, p0, dim, n1, count);
      sb, pb, aside := LeftBehind(s0, p0, dim, n1, count, limbsize);
    }

    /** The subtraction, the point addition and the new order of the heap. */
    method Step(max1: nat, max2: nat, limbsize: nat, ghost extended: bool, ghost s0: seq<nat>, ghost p0: seq<Point>,
                ghost sb: seq<nat>, ghost pb: seq<Point>, ghost dim: nat, ghost n1: nat, ghost count: nat,
                ghost aside: Term)
      requires Running(sb, pb, dim, n1, count, limbsize, extended) && Top2(max1, max2)
      requires Owing(s0, p0, sb, pb, dim, n1, count, extended, aside)
      requires !extended ==> Keys()[max1] >= TWO128
      modifies heap, scalars, points
      ensures Running(sb, pb, dim, n1, count, limbsize, extended)
      ensures Owing(s0, p0, sb, pb, dim, n1, count, extended, aside)
      ensures !extended ==> Waiting(s0, limbsize, max1, max2)
      ensures BC.Total(Live(), count) < BC.Total(old(Live()), count)
    {
      ghost var s, pts := Live(), points[..];
      Reduce(max1, max2, limbsize, dim);
      BC.RunStep(sb, pb, s, pts, Live(), points[..], dim, size, count, max1, max2);
      if BC.Generators(p0, dim, count) {
        StepIndependent(s, pts, Live(), points[..], dim, size, max1, max2, count);
      }
    }

    /** What holds between two rounds of the loop. */
    ghost predicate Ready(limbsize: nat, extended: bool, s0: seq<nat>, p0: seq<Point>, sb: seq<nat>, pb: seq<Point>,
                          dim: nat, n1: nat, count: nat, a: nat, b: nat, aside: Term)
      reads this, heap, scalars, points
    {
      && Running(sb, pb, dim, n1, count, limbsize, extended)
      && Owing(s0, p0, sb, pb, dim, n1, count, extended, aside)
      && (!extended ==> Waiting(s0, limbsize, a, b) && (AllSmall(s0, count) ==> Keys() == s0))
    }

    /** What holds at the head of the loop. */
    ghost predicate Looping(max1: nat, max2: nat, limbsize: nat, extended: bool, s0: seq<nat>, p0: seq<Point>,
                            sb: seq<nat>, pb: seq<Point>, dim: nat, n1: nat, count: nat, a: nat, b: nat, aside: Term)
      reads this, heap, scalars, points
    {
      Ready(limbsize, extended, s0, p0, sb, pb, dim, n1, count, a, b, aside) && IsTop2(max1, max2)
    }

    /** The rest of the loop body. */
    method Pass(top1: nat, top2: nat, limbsize: nat, extended: bool, count: nat, ghost s0: seq<nat>,
                ghost p0: seq<Point>, ghost sb: seq<nat>, ghost pb: seq<Point>, ghost dim: nat, ghost n1: nat,
                ghost a: nat, ghost b: nat, ghost aside: Term)
      returns (limbsize': nat, extended': bool, max1: nat, max2: nat, ghost sb': seq<nat>, ghost pb': seq<Point>,
               ghost aside': Term)
      requires Ready(limbsize, extended, s0, p0, sb, pb, dim, n1, count, a, b, aside) && Top2(top1, top2)
      modifies heap, scalars, points, this`size
      ensures Ready(limbsize', extended', s0, p0, sb', pb', dim, n1, count, max1, max2, aside')
      ensures BC.Total(Live(), count) < BC.Total(old(Live()), count)
    {
      max1, max2, extended', sb', pb', aside' := top1, top2, extended, sb, pb, aside;
      limbsize' := Exhaust(max1, max2, limbsize, extended, sb, pb, dim, n1, count, a, b);
      AtMost128Meaning(Row(max1));
      if !extended && AtMost128Bits(Row(max1)) {
        max1, max2, sb', pb', aside' := BringIn(max1, max2, limbsize', s0, p0, dim, n1, count);
        extended' := true;
      }
      Step(max1, max2, limbsize', extended', s0, p0, sb', pb', dim, n1, count, aside');
    }

    /** The two largest for the next round; `done`: the second is 0. */
    method NextTop2(limbsize: nat, ghost extended: bool, ghost s0: seq<nat>, ghost p0: seq<Point>, ghost sb: seq<nat>,
                    ghost pb: seq<Point>, ghost dim: nat, ghost n1: nat, ghost count: nat, ghost a: nat, ghost b: nat,
                    ghost aside: Term)
      returns (max1: nat, max2: nat, done: bool)
      requires Ready(limbsize, extended, s0, p0, sb, pb, dim, n1, count, a, b, aside)
      ensures Looping(max1, max2, limbsize, extended, s0, p0, sb, pb, dim, n1, count, a, b, aside)
      ensures done <==> Live()[max2] == 0
    {
      max1, max2 := GetTop2(limbsize);
      ZeroMeaning(Row(max2));
      done := IsZero(Row(max2));
    }

    lemma BuiltIsReady(s0: seq<nat>, p0: seq<Point>, dim: nat, n1: nat, count: nat)
      requires Shape() && Heaped() && size == n1 && 3 <= n1 <= count <= heap.Length && n1 % 2 == 1
      requires s0 == Keys() && p0 == points[..] && (forall i :: n1 <= i < count ==> s0[i] < TWO128)
      requires BC.Vectors(p0, dim)
      ensures Ready(LIMBS - 1, false, s0, p0, s0, p0, dim, n1, count, 0, 0, Term(0, []))
    {
      BC.RunStart(s0, p0, dim, n1, count);
      if BC.Generators(p0, dim, count) { GeneratorsIndependent(p0, dim, count); }
    }

    /** The loop body, and the largest two for its next round. */
    method Round(top1: nat, top2: nat, limbsize: nat, extended: bool, count: nat, ghost s0: seq<nat>,
                 ghost p0: seq<Point>, ghost sb: seq<nat>, ghost pb: seq<Point>, ghost dim: nat, ghost n1: nat,
                 ghost a: nat, ghost b: nat, ghost aside: Term)
      returns (max1: nat, max2: nat, done: bool, limbsize': nat, extended': bool, ghost a': nat, ghost b': nat,
               ghost sb': seq<nat>, ghost pb': seq<Point>, ghost aside': Term)
      requires Looping(top1, top2, limbsize, extended, s0, p0, sb, pb, dim, n1, count, a, b, aside) && Live()[top2] > 0
      modifies heap, scalars, points, this`size
      ensures Looping(max1, max2, limbsize', extended', s0, p0, sb', pb', dim, n1, count, a', b', aside')
      ensures done <==> Live()[max2] == 0
      ensures BC.Total(Live(), count) < BC.Total(old(Live()), count)
    {
      limbsize', extended', a', b', sb', pb', aside' :=
        Pass(top1, top2, limbsize, extended, count, s0, p0, sb, pb, dim, n1, a, b, aside);
      max1, max2, done := NextTop2(limbsize', extended', s0, p0, sb', pb', dim, n1, count, a', b', aside');
    }

    /** The loop of ge25519_multi_scalarmult_vartime, from the built heap to a single
        nonzero scalar among those that take part. */
    method Run(count: nat, n1: nat, ghost dim: nat)
      returns (max1: nat, ghost sb: seq<nat>, ghost pb: seq<Point>, ghost aside: Term)
      requires Shape() && Heaped() && size == n1 && 3 <= n1 <= count <= heap.Length && n1 % 2 == 1
      requires forall i :: n1 <= i < count ==> Keys()[i] < TWO128
      requires BC.Vectors(points[..], dim)
      modifies heap, scalars, points, this`size
      ensures Shape() && size == if BC.Extends(old(Keys()), n1) then count else n1
      ensures BC.RunInv(sb, pb, Live(), points[..], dim, size, count)
      ensures Owing(old(Keys()), old(points[..]), sb, pb, dim, n1, count, BC.Extends(old(Keys()), n1), aside)
      ensures BC.OneLeft(Live(), size, max1) && max1 != Idle()
    {
      ghost var s0, p0 := Keys(), points[..];
      ghost var a: nat, b: nat := 0, 0;
      sb, pb, aside := s0, p0, Term(0, []);
      var limbsize: nat := LIMBS - 1;
      var extended := false;
      var max2, done;
      BuiltIsReady(s0, p0, dim, n1, count);
      max1, max2, done := NextTop2(limbsize, extended, s0, p0, sb, pb, dim, n1, count, a, b, aside);
      while !done
        invariant Looping(max1, max2, limbsize, extended, s0, p0, sb, pb, dim, n1, count, a, b, aside)
        invariant done <==> Live()[max2] == 0
        decreases BC.Total(Live(), count)
      {
        max1, max2, done, limbsize, extended, a, b, sb, pb, aside :=
          Round(max1, max2, limbsize, extended, count, s0, p0, sb, pb, dim, n1, a, b, aside);
      }
      Finished(max1, max2, limbsize, extended, s0, p0, sb, pb, dim, n1, count, a, b, aside);
    }

    /** How many scalars the heap is built from: an odd number, half the batch or one more. */
    static function FirstHalf(count: nat): (n1: nat)
      requires count >= 5
      ensures 3 <= n1 <= count && n1 % 2 == 1 && (count + 1) / 2 <= n1 <= (count + 1) / 2 + 1
    {
      var h := (count + 1) / 2;
      if h % 2 == 1 then h else h + 1
    }

    /** The value handed back for scalars s0 and points p0 with nothing put aside. */
    static ghost predicate Answers(s0: seq<nat>, p0: seq<Point>, dim: nat, count: nat, r: Option<Point>,
                                   survivor: Point)
    {
      && 5 <= count <= |s0| && count <= |p0| && BC.Vectors(p0, dim)
      && var n := BC.Entered(s0, FirstHalf(count), count);
      var g := BC.GcdAll(s0, n);
      r == BC.Returned(g, survivor) && BC.Scale(g, survivor) == BC.Sum(s0, p0, dim, n)
    }

    /** ge25519_multi_scalarmult_vartime.  The scalars past the first half are of at most 128 bits.  With an odd
        count the answer is what the ladder makes of the survivor, whose multiple by the greatest common divisor is
        the sum of the entries taken in; it is the weighted sum of all whenever the starting scalars satisfy
        `Exact`, and over independent points only then.  With an even count the slot out of reach may take a term
        aside, and then the answer is not the sum: never if the last scalar is 0, always if every scalar is nonzero
        and of at most 128 bits. */
    method MultiScalarmult(count: nat, ghost dim: nat)
      returns (r: Option<Point>, ghost aside: Term, ghost survivor: Point)
      requires Shape() && 5 <= count <= heap.Length
      requires forall i :: FirstHalf(count) <= i < count ==> Value(Row(i)) < TWO128
      requires BC.Vectors(points[..], dim)
      modifies heap, scalars, points, this`size
      ensures Shape() && BC.Vectors(points[..], dim)
      ensures count % 2 == 1 || old(Keys())[count - 1] == 0 || !BC.Extends(old(Keys()), FirstHalf(count))
        ==> aside.scalar == 0
      ensures count % 2 == 0 && AllSmall(old(Keys()), count) ==> aside.scalar > 0
      ensures aside.scalar == 0 ==> Answers(old(Keys()), old(points[..]), dim, count, r, survivor)
      ensures aside.scalar == 0 && BC.Exact(old(Keys()), FirstHalf(count), count)
        ==> r == Some(BC.Sum(old(Keys()), old(points[..]), dim, count))
      ensures BC.Generators(old(points[..]), dim, count)
        ==> (r == Some(BC.Sum(old(Keys()), old(points[..]), dim, count))
             <==> aside.scalar == 0 && BC.Exact(old(Keys()), FirstHalf(count), count))
    {
      ghost var s0, p0 := Keys(), points[..];
      var n1 := FirstHalf(count);
      Build(n1);
      var max1;
      ghost var sb, pb;
      max1, sb, pb, aside := Run(count, n1, dim);
      r := FinalLadder.Final(points[max1], Row(max1));
      ghost var s, pts := Live(), points[..];
      survivor := pts[max1];
      assert r == BC.Returned(s[max1], pts[max1]);
      if aside.scalar == 0 {
        BC.SurvivorIsGcd(s0, p0, s, pts, dim, size, count, max1);
        BC.SurvivorHoldsSum(s0, p0, s, pts, dim, size, count, max1);
      }
      if AllSmall(s0, count) { SmallExtends(s0, n1, count); }
      if BC.Generators(p0, dim, count) && r == Some(BC.Sum(s0, p0, dim, count)) {
        if aside.scalar > 0 { AsideSpoils(s0, p0, sb, pb, s, pts, dim, count, max1, Idle(), aside); }
        BC.ExactNecessary(s0, p0, s, pts, dim, n1, size, count, max1);
      }
      if aside.scalar == 0 && BC.Exact(s0, n1, count) {
        BC.ExactSuffices(s0, p0, s, pts, dim, n1, size, count, max1);
      }
    }
  }
}

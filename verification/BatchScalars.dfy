/** The scalars and points that batch verification of Ed25519 signatures puts into the heap. */
module BatchScalars {
  import opened Arith
  import opened Words
  import Bytes
  import opened Collections
  import opened BatchLimbs
  import opened BatchHeap
  import BC = BosCarter
  import Modm
  import ModmBytes

  const M: int := Modm.M

  /** A signature in a batch: its random coefficient, its S, the hash of (R, A, message), and the points that
      its key A and its R decode to, if they do.  `canonical`: the bytes of R are those that packing the point
      gives. */
  datatype Entry = Entry(rand: seq<byte>, s: seq<byte>, hram: seq<byte>, key: Option<Point>, nonce: Option<Point>,
                         canonical: bool)

  ghost predicate Sized(e: Entry, dim: nat)
  {
    && |e.rand| == 16 && |e.s| == 32 && |e.hram| == 64
    && (e.key.Some? ==> |e.key.value| == dim) && (e.nonce.Some? ==> |e.nonce.value| == dim)
  }

  ghost predicate AllSized(es: seq<Entry>, dim: nat)
  {
    forall i :: 0 <= i < |es| ==> Sized(es[i], dim)
  }

  predicate Decoded(es: seq<Entry>)
  {
    forall i :: 0 <= i < |es| ==> es[i].key.Some? && es[i].nonce.Some?
  }

  // ---------- scalars modulo m in the rows of the heap ----------

  lemma RowValue(a: Scalar)
    ensures Value(a) == Modm.V5(a[0], a[1], a[2], a[3], a[4])
  {
    assert Weight(1) == Modm.B1 && Weight(2) == Modm.B2 && Weight(3) == Modm.B3 && Weight(4) == Modm.B4;
    assert Low(a, 1) == a[0];
    assert Low(a, 2) == Low(a, 1) + a[1] * Weight(1);
    assert Low(a, 3) == Low(a, 2) + a[2] * Weight(2);
    assert Low(a, 4) == Low(a, 3) + a[3] * Weight(3);
    assert Low(a, 5) == Low(a, 4) + a[4] * Weight(4);
  }

  method LoadRow(batch: Batch, i: nat) returns (a: array<u64>)
    requires batch.Shape() && i < batch.scalars.Length0
    ensures fresh(a) && Modm.Limbs(a, BASE) && Modm.Val(a) == batch.Keys()[i]
  {
    var row := batch.Row(i);
    a := new u64[5];
    a[0], a[1], a[2], a[3], a[4] := row[0], row[1], row[2], row[3], row[4];
    RowValue(row);
  }

  method StoreRow(batch: Batch, i: nat, a: array<u64>)
    requires batch.Shape() && i < batch.scalars.Length0 && Modm.Limbs(a, BASE)
    modifies batch.scalars
    ensures batch.Shape() && batch.Keys() == old(batch.Keys())[i := Modm.Val(a)]
  {
    ghost var keys := batch.Keys();
    batch.scalars[i, 0], batch.scalars[i, 1], batch.scalars[i, 2] := a[0], a[1], a[2];
    batch.scalars[i, 3], batch.scalars[i, 4] := a[3], a[4];
    forall k | 0 <= k < batch.scalars.Length0 && k != i
      ensures batch.Row(k) == old(batch.Row(k))
    {
    }
    RowValue(batch.Row(i));
  }

  method ExpandRow(batch: Batch, i: nat, input: seq<byte>)
    requires batch.Shape() && i < batch.scalars.Length0 && |input| <= 64
    modifies batch.scalars
    ensures batch.Shape() && batch.Keys() == old(batch.Keys())[i := LE(input) % M]
  {
    var a := new u64[5];
    ModmBytes.Expand256(a, input);
    StoreRow(batch, i, a);
  }

  method MulRow(batch: Batch, o: nat, y: nat)
    requires batch.Shape() && o < batch.scalars.Length0 && y < batch.scalars.Length0
    requires batch.Keys()[o] < M && batch.Keys()[y] < M
    modifies batch.scalars
    ensures batch.Shape() && batch.Keys() == old(batch.Keys())[o := old(batch.Keys()[o] * batch.Keys()[y]) % M]
  {
    var a := LoadRow(batch, o);
    var b := LoadRow(batch, y);
    SmallProduct(Modm.Val(a), Modm.Val(b));
    Modm.Mul256(a, a, b);
    StoreRow(batch, o, a);
  }

  lemma SmallProduct(x: nat, y: nat)
    requires x < M && y < M
    ensures x * y < TWO512
  {
    MulMono(x, M, y);
    MulMono(y, M, M);
  }

  method AddRow(batch: Batch, o: nat, y: nat)
    requires batch.Shape() && o < batch.scalars.Length0 && y < batch.scalars.Length0
    requires batch.Keys()[o] < M && batch.Keys()[y] < M
    modifies batch.scalars
    ensures batch.Shape() && batch.Keys() == old(batch.Keys())[o := old(batch.Keys()[o] + batch.Keys()[y]) % M]
  {
    var a := LoadRow(batch, o);
    var b := LoadRow(batch, y);
    Modm.CanonicalTop(a);
    Modm.CanonicalTop(b);
    Modm.Add256(a, a, b);
    StoreRow(batch, o, a);
  }

  // ---------- the scalars of a batch ----------

  /** r_k * s_k and r_k * h_k, reduced. */
  ghost function Response(e: Entry): nat { (LE(e.s) % M) * (LE(e.rand) % M) % M }

  ghost function Challenge(e: Entry): nat { (LE(e.hram) % M) * (LE(e.rand) % M) % M }

  /** r_1*s_1 + ... + r_n*s_n, reduced after every addition. */
  ghost function Responses(es: seq<Entry>, n: nat): (v: nat)
    requires n <= |es|
    ensures v < M
  {
    if n == 0 then 0 else (Responses(es, n - 1) + Response(es[n - 1])) % M
  }

  /** The last |es| rows hold the random coefficients. */
  ghost predicate Randoms(keys: seq<nat>, es: seq<Entry>)
  {
    |keys| >= 2 * |es| + 1 && forall k :: 0 <= k < |es| ==> keys[|es| + 1 + k] == LE(es[k].rand) % M
  }

  /** Rows `from`, ..., |es| - 1 hold the products r_k * s_k. */
  ghost predicate Products(keys: seq<nat>, es: seq<Entry>, from: nat)
  {
    |keys| >= |es| && forall k :: from <= k < |es| ==> keys[k] == Response(es[k])
  }

  /** The rows hold what the batch equation asks for. */
  ghost predicate Built(keys: seq<nat>, es: seq<Entry>)
  {
    && Randoms(keys, es) && keys[0] == Responses(es, |es|)
    && forall k :: 0 <= k < |es| ==> keys[k + 1] == Challenge(es[k])
  }

  method FillRandoms(batch: Batch, es: seq<Entry>, ghost dim: nat)
    requires batch.Shape() && 2 * |es| + 1 <= batch.heap.Length && AllSized(es, dim)
    modifies batch.scalars
    ensures batch.Shape() && Randoms(batch.Keys(), es)
  {
    var i := 0;
    while i < |es|
      invariant 0 <= i <= |es| && batch.Shape()
      invariant forall k :: 0 <= k < i ==> batch.Keys()[|es| + 1 + k] == LE(es[k].rand) % M
    {
      ExpandRow(batch, |es| + 1 + i, es[i].rand);
      i := i + 1;
    }
  }

  /** Row `o` becomes the reduced product of `input` and coefficient `i`. */
  method FillProduct(batch: Batch, es: seq<Entry>, o: nat, i: nat, input: seq<byte>)
    requires batch.Shape() && 2 * |es| + 1 <= batch.heap.Length && |input| <= 64 && o <= |es| && i < |es|
    requires Randoms(batch.Keys(), es)
    modifies batch.scalars
    ensures batch.Shape() && Randoms(batch.Keys(), es)
    ensures batch.Keys() == old(batch.Keys())[o := (LE(input) % M) * (LE(es[i].rand) % M) % M]
  {
    ExpandRow(batch, o, input);
    assert batch.Keys()[|es| + 1 + i] == LE(es[i].rand) % M;
    MulRow(batch, o, |es| + 1 + i);
  }

  method FillResponses(batch: Batch, es: seq<Entry>, ghost dim: nat)
    requires batch.Shape() && 2 * |es| + 1 <= batch.heap.Length && AllSized(es, dim)
    requires Randoms(batch.Keys(), es)
    modifies batch.scalars
    ensures batch.Shape() && Randoms(batch.Keys(), es) && Products(batch.Keys(), es, 0)
  {
    var i := 0;
    while i < |es|
      invariant 0 <= i <= |es| && batch.Shape() && Randoms(batch.Keys(), es)
      invariant forall k :: 0 <= k < i ==> batch.Keys()[k] == Response(es[k])
    {
      FillProduct(batch, es, i, i, es[i].s);
      i := i + 1;
    }
  }

  method AddResponse(batch: Batch, es: seq<Entry>, i: nat)
    requires batch.Shape() && 2 * |es| + 1 <= batch.heap.Length && 1 <= i < |es|
    requires Randoms(batch.Keys(), es) && Products(batch.Keys(), es, 1) && batch.Keys()[0] == Responses(es, i)
    modifies batch.scalars
    ensures batch.Shape() && Randoms(batch.Keys(), es) && Products(batch.Keys(), es, 1)
    ensures batch.Keys()[0] == Responses(es, i + 1)
  {
    AddRow(batch, 0, i);
  }

  method AddResponses(batch: Batch, es: seq<Entry>)
    requires batch.Shape() && 2 * |es| + 1 <= batch.heap.Length && |es| >= 1
    requires Randoms(batch.Keys(), es) && Products(batch.Keys(), es, 0)
    modifies batch.scalars
    ensures batch.Shape() && Randoms(batch.Keys(), es) && batch.Keys()[0] == Responses(es, |es|)
  {
    FirstResponse(es);
    var i := 1;
    while i < |es|
      invariant 1 <= i <= |es| && batch.Shape() && Randoms(batch.Keys(), es)
      invariant Products(batch.Keys(), es, 1) && batch.Keys()[0] == Responses(es, i)
    {
      AddResponse(batch, es, i);
      i := i + 1;
    }
  }

  lemma FirstResponse(es: seq<Entry>)
    requires |es| >= 1
    ensures Responses(es, 1) == Response(es[0])
  {
    DivModUnique(Response(es[0]), M, 0, Response(es[0]));
    assert Responses(es, 1) == (Responses(es, 0) + Response(es[0])) % M;
  }

  method FillChallenges(batch: Batch, es: seq<Entry>, ghost dim: nat)
    requires batch.Shape() && 2 * |es| + 1 <= batch.heap.Length && AllSized(es, dim)
    requires Randoms(batch.Keys(), es) && batch.Keys()[0] == Responses(es, |es|)
    modifies batch.scalars
    ensures batch.Shape() && Built(batch.Keys(), es)
  {
    var i := 0;
    while i < |es|
      invariant 0 <= i <= |es| && batch.Shape() && Randoms(batch.Keys(), es)
      invariant batch.Keys()[0] == Responses(es, |es|)
      invariant forall k :: 0 <= k < i ==> batch.Keys()[k + 1] == Challenge(es[k])
    {
      FillProduct(batch, es, i + 1, i, es[i].hram);
      i := i + 1;
    }
  }

  /** All scalars of a batch. */
  method FillScalars(batch: Batch, es: seq<Entry>, ghost dim: nat)
    requires batch.Shape() && 2 * |es| + 1 <= batch.heap.Length && |es| >= 1 && AllSized(es, dim)
    modifies batch.scalars
    ensures batch.Shape() && Built(batch.Keys(), es)
  {
    FillRandoms(batch, es, dim);
    FillResponses(batch, es, dim);
    AddResponses(batch, es);
    FillChallenges(batch, es, dim);
  }

  // ---------- the points of a batch ----------

  /** The base point, then the negated keys, then the negated R. */
  ghost predicate Placed(pts: seq<Point>, es: seq<Entry>, base: Point)
    requires Decoded(es)
  {
    && |pts| >= 2 * |es| + 1 && pts[0] == base
    && (forall k :: 0 <= k < |es| ==> pts[k + 1] == BC.Scale(-1, es[k].key.value))
    && forall k :: 0 <= k < |es| ==> pts[|es| + 1 + k] == BC.Scale(-1, es[k].nonce.value)
  }

  method PlacePoints(batch: Batch, es: seq<Entry>, base: Point, ghost dim: nat) returns (ok: bool)
    requires 2 * |es| + 1 <= batch.points.Length && AllSized(es, dim) && |base| == dim
    requires BC.Vectors(batch.points[..], dim)
    modifies batch.points
    ensures BC.Vectors(batch.points[..], dim)
    ensures ok == Decoded(es) && (ok ==> Placed(batch.points[..], es, base))
  {
    batch.points[0] := base;
    var i := 0;
    while i < |es|
      invariant 0 <= i <= |es| && BC.Vectors(batch.points[..], dim) && batch.points[0] == base
      invariant forall k :: 0 <= k < i ==> es[k].key.Some? && batch.points[k + 1] == BC.Scale(-1, es[k].key.value)
    {
      if es[i].key.None? { return false; }
      batch.points[i + 1] := BC.Scale(-1, es[i].key.value);
      i := i + 1;
    }
    ok := PlaceNonces(batch, es, base, dim);
  }

  method PlaceNonces(batch: Batch, es: seq<Entry>, ghost base: Point, ghost dim: nat) returns (ok: bool)
    requires 2 * |es| + 1 <= batch.points.Length && AllSized(es, dim) && batch.points[0] == base
    requires BC.Vectors(batch.points[..], dim)
    requires forall k :: 0 <= k < |es| ==> es[k].key.Some? && batch.points[k + 1] == BC.Scale(-1, es[k].key.value)
    modifies batch.points
    ensures BC.Vectors(batch.points[..], dim)
    ensures ok == Decoded(es) && (ok ==> Placed(batch.points[..], es, base))
  {
    var n, i := |es|, 0;
    while i < n
      invariant 0 <= i <= n && BC.Vectors(batch.points[..], dim) && batch.points[0] == base
      invariant forall k :: 0 <= k < n ==> batch.points[k + 1] == BC.Scale(-1, es[k].key.value)
      invariant forall k :: 0 <= k < i ==>
                  es[k].nonce.Some? && batch.points[n + 1 + k] == BC.Scale(-1, es[k].nonce.value)
    {
      if es[i].nonce.None? { return false; }
      batch.points[n + 1 + i] := BC.Scale(-1, es[i].nonce.value);
      i := i + 1;
    }
    ok := true;
  }

  // ---------- scalars and points as values ----------

  /** The first 2n + 1 scalars of the heap. */
  ghost function Coefficients(es: seq<Entry>): (c: seq<nat>)
    ensures |c| == 2 * |es| + 1
  {
    var n := |es|;
    seq(2 * n + 1, k requires 0 <= k < 2 * n + 1 =>
      if k == 0 then Responses(es, n) else if k <= n then Challenge(es[k - 1]) else LE(es[k - n - 1].rand) % M)
  }

  /** The first 2n + 1 points of the heap. */
  ghost function PointsOf(es: seq<Entry>, base: Point): (p: seq<Point>)
    requires Decoded(es)
    ensures |p| == 2 * |es| + 1
  {
    var n := |es|;
    seq(2 * n + 1, k requires 0 <= k < 2 * n + 1 =>
      if k == 0 then base else if k <= n then BC.Scale(-1, es[k - 1].key.value)
      else BC.Scale(-1, es[k - n - 1].nonce.value))
  }

  lemma PointsAreVectors(es: seq<Entry>, base: Point, dim: nat)
    requires Decoded(es) && AllSized(es, dim) && |base| == dim
    ensures BC.Vectors(PointsOf(es, base), dim)
  {
    forall k | 0 <= k < 2 * |es| + 1
      ensures |PointsOf(es, base)[k]| == dim
    {
      if 1 <= k <= |es| { assert Sized(es[k - 1], dim); }
      if |es| < k { assert Sized(es[k - |es| - 1], dim); }
    }
  }

  lemma BuiltIsCoefficients(keys: seq<nat>, es: seq<Entry>)
    requires Built(keys, es)
    ensures keys[..2 * |es| + 1] == Coefficients(es)
  {
    var n, c := |es|, Coefficients(es);
    forall k | 0 <= k < 2 * n + 1
      ensures keys[k] == c[k]
    {
      if k == 0 {
      } else if k <= n {
        assert keys[(k - 1) + 1] == Challenge(es[k - 1]);
      } else {
        assert keys[n + 1 + (k - n - 1)] == LE(es[k - n - 1].rand) % M;
      }
    }
  }

  lemma PlacedIsPoints(pts: seq<Point>, es: seq<Entry>, base: Point)
    requires Decoded(es) && Placed(pts, es, base)
    ensures pts[..2 * |es| + 1] == PointsOf(es, base)
  {
    var n, p := |es|, PointsOf(es, base);
    forall k | 0 <= k < 2 * n + 1
      ensures pts[k] == p[k]
    {
      if k == 0 {
      } else if k <= n {
        assert pts[(k - 1) + 1] == BC.Scale(-1, es[k - 1].key.value);
      } else {
        assert pts[n + 1 + (k - n - 1)] == BC.Scale(-1, es[k - n - 1].nonce.value);
      }
    }
  }

  lemma RandomBound(rand: seq<byte>)
    requires |rand| == 16
    ensures LE(rand) % M == LE(rand) < TWO128
  {
    LEBound(rand);
    assert 8 * |rand| == 128;
    Bytes.WordPowers();
    DivModUnique(LE(rand), M, 0, LE(rand));
  }

  lemma CoefficientsSmall(es: seq<Entry>, dim: nat, i: nat)
    requires AllSized(es, dim) && |es| < i < 2 * |es| + 1
    ensures Coefficients(es)[i] < TWO128
  {
    assert Sized(es[i - |es| - 1], dim);
    RandomBound(es[i - |es| - 1].rand);
  }
}

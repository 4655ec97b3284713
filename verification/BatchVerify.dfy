/**
  Verification of Ed25519 signatures, one alone and in batches: what each accepts, and how a list of signatures
  is settled by batches that fall back on single verification.
 */
module BatchVerify {
  import opened Arith
  import opened Words
  import opened Collections
  import opened BatchLimbs
  import opened BatchHeap
  import opened BatchScalars
  import opened BatchEquation
  import opened BatchVerdict
  import BC = BosCarter
  import Bytes
  import ModmBytes
  import ScalarMult

  // ---------- one signature alone ----------

  /** The largest S that single verification looks at is below this. */
  const S_BOUND: int := 32 * TWO248

  /** What verifying the signature alone accepts. */
  ghost predicate Single(e: Entry, g: Group)
    requires Lawful(g) && Sized(e, |g.base|)
  {
    LE(e.s) < S_BOUND && e.canonical && Genuine(e, g)
  }

  lemma BelowBound(low: nat, top: nat)
    requires low < TWO248
    ensures top < 32 <==> low + TWO248 * top < S_BOUND
  {
  }

  lemma TopByte(s: seq<byte>)
    requires |s| == 32
    ensures s[31] < 32 <==> LE(s) < S_BOUND
  {
    LELast(s, 31);
    LEBound(s[..31]);
    Bytes.WordPowers();
    BelowBound(LE(s[..31]), s[31]);
  }

  /** Packing a point gives the bytes of R: they are canonical and decode to that point. */
  predicate PacksTo(e: Entry, p: Point, orders: seq<nat>)
    requires e.nonce.Some? ==> |e.nonce.value| == |p|
    requires |p| == |orders| && forall j :: 0 <= j < |orders| ==> orders[j] > 0
  {
    e.canonical && e.nonce.Some? && Neutral(BC.Add(p, BC.Scale(-1, e.nonce.value)), orders)
  }

  lemma PacksGenuine(e: Entry, g: Group, p: Point)
    requires Lawful(g) && Sized(e, |g.base|) && e.key.Some?
    requires p == BC.Add(BC.Scale(LE(e.hram) % M, BC.Scale(-1, e.key.value)), BC.Scale(LE(e.s) % M, g.base))
    ensures PacksTo(e, p, g.orders) <==> e.canonical && Genuine(e, g)
  {
    if e.nonce.Some? {
      var d := BC.Add(p, BC.Scale(-1, e.nonce.value));
      forall j | 0 <= j < |g.base|
        ensures d[j] == Defect(e, g, j)
      {
        NegatedTerm((LE(e.s) % M) * g.base[j], LE(e.hram) % M, e.key.value[j]);
      }
    }
  }

  /** h * (-A) + s * B, as ge25519_double_scalarmult_vartime finds it. */
  method Recompute(e: Entry, key: Point, g: Group, table: seq<ScalarMult.Element>) returns (p: Point)
    requires |e.s| == 32 && |e.hram| == 64 && |key| == |g.base| && ScalarMult.OddMultiplesOfB(table)
    ensures p == BC.Add(BC.Scale(LE(e.hram) % M, BC.Scale(-1, key)), BC.Scale(LE(e.s) % M, g.base))
  {
    var hram, s := new u64[5], new u64[5];
    ModmBytes.Expand256(hram, e.hram);
    ModmBytes.Expand256(s, e.s);
    var r := ScalarMult.DoubleScalarmult(hram, s, table);
    p := BC.Add(BC.Scale(r.p, BC.Scale(-1, key)), BC.Scale(r.b, g.base));
  }

  /** ed25519_sign_open. */
  method SignOpen(e: Entry, g: Group, table: seq<ScalarMult.Element>) returns (ok: bool)
    requires Lawful(g) && Sized(e, |g.base|) && ScalarMult.OddMultiplesOfB(table)
    ensures ok == Single(e, g)
  {
    TopByte(e.s);
    if e.s[31] / 32 != 0 || e.key.None? { return false; }
    var p := Recompute(e, e.key.value, g, table);
    PacksGenuine(e, g, p);
    ok := PacksTo(e, p, g.orders);
  }

  // ---------- where the two disagree ----------

  lemma ThirtyTwoBytes(v: nat)
    requires v < TWO256
    ensures LE(ToLE(v, 32)) == v
  {
    Bytes.WordPowers();
    LEToLE(v, 32);
  }

  lemma SameResidue(x: nat)
    ensures (x + 2 * M) % M == x % M
  {
    DivMod(x, M);
    DivModUnique(x + 2 * M, M, x / M + 2, x % M);
  }

  /** A signature accepted alone has a twin with S + 2m for S: as genuine, and refused alone. */
  lemma HighTwin(e: Entry, g: Group) returns (f: Entry)
    requires Lawful(g) && Sized(e, |g.base|) && Single(e, g)
    ensures f == e.(s := f.s) && Sized(f, |g.base|) && Genuine(f, g) && !Single(f, g) && Response(f) == Response(e)
  {
    var v := LE(e.s) + 2 * M;
    f := e.(s := ToLE(v, 32));
    ThirtyTwoBytes(v);
    SameResidue(LE(e.s));
    forall j | 0 <= j < |g.base|
      ensures Defect(f, g, j) == Defect(e, g, j)
    {
    }
  }

  lemma AddResponseSame(es: seq<Entry>, fs: seq<Entry>, n: nat, x: nat, y: nat)
    requires 1 <= n <= |es| == |fs| && Responses(es, n - 1) == Responses(fs, n - 1)
    requires x == Response(es[n - 1]) && y == Response(fs[n - 1]) && x == y
    ensures Responses(es, n) == Responses(fs, n)
  {
    assert Responses(es, n) == (Responses(es, n - 1) + x) % M;
    assert Responses(fs, n) == (Responses(fs, n - 1) + y) % M;
  }

  lemma {:induction false} TwinResponses(es: seq<Entry>, i: nat, f: Entry, fs: seq<Entry>, n: nat)
    requires i < |es| && n <= |es| && Response(f) == Response(es[i]) && fs == es[i := f]
    ensures Responses(fs, n) == Responses(es, n)
  {
    if n == 0 {
    } else {
      TwinResponses(es, i, f, fs, n - 1);
      AddResponseSame(es, fs, n, Response(es[n - 1]), Response(fs[n - 1]));
    }
  }

  /** In a batch a signature and its twin are one: the heap gets the same scalars and the same points. */
  lemma TwinSameBatch(es: seq<Entry>, i: nat, f: Entry, base: Point)
    requires i < |es| && f == es[i].(s := f.s) && Response(f) == Response(es[i]) && Decoded(es)
    ensures Coefficients(es[i := f]) == Coefficients(es)
    ensures Decoded(es[i := f]) && PointsOf(es[i := f], base) == PointsOf(es, base)
  {
    TwinResponses(es, i, f, es[i := f], |es|);
  }

  // ---------- one batch ----------

  lemma {:induction false} GcdPrefix(s: seq<nat>, t: seq<nat>, n: nat)
    requires n <= |t| <= |s| && s[..|t|] == t
    ensures BC.GcdAll(s, n) == BC.GcdAll(t, n)
  {
    if n == 0 {
    } else {
      GcdPrefix(s, t, n - 1);
      assert s[n - 1] == s[..|t|][n - 1];
    }
  }

  lemma EnteredPrefix(s: seq<nat>, t: seq<nat>, n1: nat, count: nat)
    requires n1 <= count == |t| <= |s| && s[..count] == t
    ensures BC.Entered(s, n1, count) == BC.Entered(t, n1, count)
  {
    GcdPrefix(s, t, n1);
    assert forall i :: 0 <= i < count ==> s[i] == t[i];
    assert BC.TwoNonzero(s, n1) <==> BC.TwoNonzero(t, n1);
  }

  lemma SumPrefix(s: seq<nat>, p: seq<Point>, t: seq<nat>, q: seq<Point>, dim: nat, n: nat)
    requires n <= |t| <= |s| && n <= |q| <= |p| && s[..|t|] == t && p[..|q|] == q
    requires BC.Vectors(p, dim) && BC.Vectors(q, dim)
    ensures BC.Sum(s, p, dim, n) == BC.Sum(t, q, dim, n)
  {
    assert forall i :: 0 <= i < n ==> s[i] == s[..|t|][i] && p[i] == p[..|q|][i];
    forall j | 0 <= j < dim
      ensures BC.Dot(s, p, dim, j, n) == BC.Dot(t, q, dim, j, n)
    {
      BC.DotSame(s, p, t, q, dim, j, n);
    }
  }

  /** What the multiplication answers, in terms of the signatures. */
  lemma AnswerMeans(keys: seq<nat>, pts: seq<Point>, es: seq<Entry>, g: Group, r: Option<Point>, survivor: Point)
    requires Batched(es, g) && |es| >= 2 && Built(keys, es) && Placed(pts, es, g.base) && BC.Vectors(pts, |g.base|)
    requires Batch.Answers(keys, pts, |g.base|, 2 * |es| + 1, r, survivor)
    ensures r == BC.Returned(Survivor(es), survivor) && BC.Scale(Survivor(es), survivor) == SumOf(es, g, Taken(es))
  {
    KeysTaken(keys, es, 2 * |es| + 1);
    KeysSum(keys, pts, es, g, Taken(es));
  }

  lemma KeysTaken(keys: seq<nat>, es: seq<Entry>, count: nat)
    requires Built(keys, es) && |es| >= 2 && count == 2 * |es| + 1
    ensures BC.Entered(keys, Batch.FirstHalf(count), count) == Taken(es)
    ensures BC.GcdAll(keys, Taken(es)) == Survivor(es)
  {
    BuiltIsCoefficients(keys, es);
    EnteredPrefix(keys, Coefficients(es), Batch.FirstHalf(count), count);
    GcdPrefix(keys, Coefficients(es), Taken(es));
  }

  lemma KeysSum(keys: seq<nat>, pts: seq<Point>, es: seq<Entry>, g: Group, n: nat)
    requires Batched(es, g) && Built(keys, es) && Placed(pts, es, g.base) && BC.Vectors(pts, |g.base|)
    requires n <= 2 * |es| + 1
    ensures BC.Sum(keys, pts, |g.base|, n) == SumOf(es, g, n)
  {
    BuiltIsCoefficients(keys, es);
    PlacedIsPoints(pts, es, g.base);
    PointsAreVectors(es, g.base, |g.base|);
    SumPrefix(keys, pts, Coefficients(es), PointsOf(es, g.base), |g.base|, n);
  }

  /** Whether the answer is neutral. */
  lemma VerdictMeans(es: seq<Entry>, g: Group, r: Option<Point>, survivor: Point)
    requires Batched(es, g) && |es| >= 2 && r == BC.Returned(Survivor(es), survivor)
    requires BC.Scale(Survivor(es), survivor) == SumOf(es, g, Taken(es)) && Faithful(Survivor(es))
    ensures r.Some? && |r.value| == |g.base|
    ensures Neutral(r.value, g.orders) <==> Neutral(SumOf(es, g, Taken(es)), g.orders)
  {
    FactorNeutral(Survivor(es), BC.LadderFactor(Survivor(es)).value, survivor, g);
  }

  lemma RandomsSmall(keys: seq<nat>, es: seq<Entry>, dim: nat, i: nat)
    requires AllSized(es, dim) && Built(keys, es) && |es| >= 2
    requires Batch.FirstHalf(2 * |es| + 1) <= i < 2 * |es| + 1
    ensures keys[i] < TWO128
  {
    BuiltIsCoefficients(keys, es);
    CoefficientsSmall(es, dim, i);
    assert keys[i] == keys[..2 * |es| + 1][i];
  }

  /** The multiplication, called with what it asks for. */
  method Multiply(batch: Batch, es: seq<Entry>, count: nat, ghost g: Group)
    returns (r: Option<Point>, ghost survivor: Point)
    requires batch.Shape() && |es| >= 2 && count == 2 * |es| + 1 <= batch.heap.Length && Batched(es, g)
    requires BC.Vectors(batch.points[..], |g.base|)
    requires Built(batch.Keys(), es) && Placed(batch.points[..], es, g.base)
    modifies batch, batch.heap, batch.scalars, batch.points
    ensures batch.Shape() && BC.Vectors(batch.points[..], |g.base|)
    ensures r == BC.Returned(Survivor(es), survivor) && BC.Scale(Survivor(es), survivor) == SumOf(es, g, Taken(es))
  {
    forall i | Batch.FirstHalf(count) <= i < count
      ensures Value(batch.Row(i)) < TWO128
    {
      RandomsSmall(batch.Keys(), es, |g.base|, i);
    }
    DivModUnique(count, 2, |es|, 1);
    ghost var keys, pts := batch.Keys(), batch.points[..];
    ghost var aside;
    r, aside, survivor := batch.MultiScalarmult(count, |g.base|);
    AnswerMeans(keys, pts, es, g, r, survivor);
  }

  /** One batch through the heap: unless the ladder is not faithful, it passes if and only if the sum of the
      entries taken in is neutral. */
  method CheckBatch(batch: Batch, es: seq<Entry>, g: Group) returns (decoded: bool, passed: bool)
    requires batch.Shape() && 2 <= |es| && 2 * |es| + 1 <= batch.heap.Length
    requires Lawful(g) && AllSized(es, |g.base|) && BC.Vectors(batch.points[..], |g.base|)
    modifies batch, batch.heap, batch.scalars, batch.points
    ensures batch.Shape() && BC.Vectors(batch.points[..], |g.base|)
    ensures decoded == Decoded(es) && (passed ==> decoded)
    ensures decoded && Faithful(Survivor(es)) ==> (passed <==> Neutral(SumOf(es, g, Taken(es)), g.orders))
    ensures decoded && Decisive(es) ==> (passed <==> Balanced(es, g))
  {
    FillScalars(batch, es, |g.base|);
    passed := false;
    decoded := PlacePoints(batch, es, g.base, |g.base|);
    if decoded {
      var r;
      ghost var survivor;
      r, survivor := Multiply(batch, es, 2 * |es| + 1, g);
      if Faithful(Survivor(es)) { VerdictMeans(es, g, r, survivor); }
      if Decisive(es) { DecisiveBalanced(es, g); }
      passed := r.Some? && Neutral(r.value, g.orders);
    }
  }
}

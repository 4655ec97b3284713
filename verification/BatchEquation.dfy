/**
  The equation that batch verification decides.  The points of the curve form a group of order 8m.  A point is a
  vector of coordinates, each counted modulo m or modulo 8; the base point has no part modulo 8.
 */
module BatchEquation {
  import opened Arith
  import opened Words
  import opened BatchScalars
  import BC = BosCarter

  type Point = BC.Point

  const COFACTOR: int := 8

  /** What each coordinate is counted by, and the base point. */
  datatype Group = Group(orders: seq<nat>, base: Point)

  ghost predicate Lawful(g: Group)
  {
    && |g.orders| == |g.base|
    && forall j :: 0 <= j < |g.orders| ==>
         g.orders[j] == M || (g.orders[j] == COFACTOR && g.base[j] % COFACTOR == 0)
  }

  /** The signatures of a batch, all decoded, over a group. */
  ghost predicate Batched(es: seq<Entry>, g: Group)
  {
    Lawful(g) && AllSized(es, |g.base|) && Decoded(es)
  }

  /** The point is the neutral one: ge25519_is_neutral_vartime. */
  predicate Neutral(p: Point, orders: seq<nat>)
    requires |p| == |orders| && forall j :: 0 <= j < |orders| ==> orders[j] > 0
  {
    forall j :: 0 <= j < |p| ==> p[j] % orders[j] == 0
  }

  // ---------- congruences ----------

  ghost predicate Cong(x: int, y: int, q: int)
    requires q > 0
  {
    (x - y) % q == 0
  }

  lemma CongMul(x: int, y: int, c: int, q: int)
    requires q > 0 && Cong(x, y, q)
    ensures Cong(x * c, y * c, q)
  {
    ModZeroMul(x - y, c, q);
    Dist(x, y, c);
  }

  lemma CongMod(x: int, q: int)
    requires q > 0
    ensures Cong(x % q, x, q)
  {
    DivMod(x, q);
    ModMultiple(-(x / q), q);
    assert -(x / q) * q == -((x / q) * q);
  }

  lemma CongZero(x: int, y: int, q: int)
    requires q > 0 && Cong(x, y, q)
    ensures x % q == 0 <==> y % q == 0
  {
    if y % q == 0 { ModZeroSum(x - y, y, q); }
    if x % q == 0 { ModZeroSum(x, x - y, q); }
  }

  // ---------- one signature ----------

  /** Coordinate `j` of s*B - h*A - R, with s and h reduced modulo m as the code does. */
  ghost function Defect(e: Entry, g: Group, j: nat): int
    requires e.key.Some? && e.nonce.Some? && j < |g.base| && j < |e.key.value| && j < |e.nonce.value|
  {
    (LE(e.s) % M) * g.base[j] - (LE(e.hram) % M) * e.key.value[j] - e.nonce.value[j]
  }

  /** s*B = R + h*A. */
  ghost predicate Genuine(e: Entry, g: Group)
    requires Lawful(g) && Sized(e, |g.base|)
  {
    && e.key.Some? && e.nonce.Some?
    && forall j :: 0 <= j < |g.base| ==> Defect(e, g, j) % g.orders[j] == 0
  }

  /** How often m goes into r*h: what reducing the challenge takes away. */
  ghost function Wraps(e: Entry): nat
  {
    (LE(e.hram) % M) * (LE(e.rand) % M) / M
  }

  // ---------- sums over a batch ----------

  /** r_1*D_1 + ... + r_n*D_n, coordinate `j`. */
  ghost function Weighted(es: seq<Entry>, g: Group, j: nat, n: nat): int
    requires n <= |es| && Batched(es, g) && j < |g.base|
  {
    if n == 0 then 0 else Weighted(es, g, j, n - 1) + LE(es[n - 1].rand) * Defect(es[n - 1], g, j)
  }

  /** w_1*A_1 + ... + w_n*A_n, coordinate `j`, for the numbers of wraps w_i. */
  ghost function Wrapped(es: seq<Entry>, g: Group, j: nat, n: nat): int
    requires n <= |es| && Batched(es, g) && j < |g.base|
  {
    if n == 0 then 0 else Wrapped(es, g, j, n - 1) + Wraps(es[n - 1]) * es[n - 1].key.value[j]
  }

  /** r_1*s_1 + ... + r_n*s_n. */
  ghost function ResponseSum(es: seq<Entry>, n: nat): int
    requires n <= |es|
  {
    if n == 0 then 0 else ResponseSum(es, n - 1) + LE(es[n - 1].rand) * (LE(es[n - 1].s) % M)
  }

  ghost function KeySum(es: seq<Entry>, g: Group, j: nat, n: nat): int
    requires n <= |es| && Batched(es, g) && j < |g.base|
  {
    if n == 0 then 0 else KeySum(es, g, j, n - 1) + Challenge(es[n - 1]) * es[n - 1].key.value[j]
  }

  ghost function NonceSum(es: seq<Entry>, g: Group, j: nat, n: nat): int
    requires n <= |es| && Batched(es, g) && j < |g.base|
  {
    if n == 0 then 0 else NonceSum(es, g, j, n - 1) + LE(es[n - 1].rand) * es[n - 1].nonce.value[j]
  }

  /** One term: the reduced challenge `ch` and the wraps `w` make up r*h. */
  lemma TermParts(r: int, s: int, h: int, b: int, a: int, c: int, ch: int, w: int)
    requires h * r == w * M + ch
    ensures r * (s * b - h * a - c) == r * s * b - ch * a - M * (w * a) - r * c
  {
    Assoc(r, s, b);
    Assoc(r, h, a);
    Dist(s * b - h * a, c, r);
    Dist(s * b, h * a, r);
    Dist(w * M, ch, a);
    assert w * M * a == M * (w * a);
  }

  lemma {:induction false} WeightedParts(es: seq<Entry>, g: Group, j: nat, n: nat)
    requires n <= |es| && Batched(es, g) && j < |g.base|
    ensures Weighted(es, g, j, n) + M * Wrapped(es, g, j, n)
      == ResponseSum(es, n) * g.base[j] - KeySum(es, g, j, n) - NonceSum(es, g, j, n)
  {
    if n == 0 {
    } else {
      var e := es[n - 1];
      WeightedParts(es, g, j, n - 1);
      var h, r := LE(e.hram) % M, LE(e.rand);
      RandomBound(e.rand);
      DivMod(h * r, M);
      TermParts(r, LE(e.s) % M, h, g.base[j], e.key.value[j], e.nonce.value[j], Challenge(e), Wraps(e));
      Dist(ResponseSum(es, n - 1), r * (LE(e.s) % M), g.base[j]);
      Dist(Wrapped(es, g, j, n - 1), Wraps(e) * e.key.value[j], M);
    }
  }

  lemma ResponseMod(e: Entry)
    requires |e.rand| == 16
    ensures Cong(Response(e), LE(e.rand) * (LE(e.s) % M), M)
  {
    var r, s := LE(e.rand), LE(e.s) % M;
    RandomBound(e.rand);
    assert r * s == s * r;
    CongMod(s * r, M);
  }

  /** A sum reduced after its second part was. */
  lemma AddCong(x: int, y: int, u: int, v: int, sum: int, q: int)
    requires q > 0 && Cong(x, y, q) && Cong(u, v, q) && Cong(sum, x + u, q)
    ensures Cong(sum, y + v, q)
  {
    ModZeroSum(x - y, u - v, q);
    ModZeroSum(sum - (x + u), (x - y) + (u - v), q);
    assert (sum - (x + u)) + ((x - y) + (u - v)) == sum - (y + v);
  }

  lemma {:induction false} ResponsesMod(es: seq<Entry>, dim: nat, n: nat)
    requires n <= |es| && AllSized(es, dim)
    ensures Cong(Responses(es, n), ResponseSum(es, n), M)
  {
    if n == 0 {
    } else {
      var e := es[n - 1];
      var x, u := Responses(es, n - 1), Response(e);
      ResponsesMod(es, dim, n - 1);
      ResponseMod(e);
      CongMod(x + u, M);
      AddCong(x, ResponseSum(es, n - 1), u, LE(e.rand) * (LE(e.s) % M), Responses(es, n), M);
    }
  }

  // ---------- the sum asked of the heap ----------

  lemma NegatedTerm(d: int, x: int, a: int)
    ensures d + x * (-1 * a) == d - x * a
  {
  }

  /** The base point and the first `n` keys. */
  lemma {:induction false} KeyPart(es: seq<Entry>, g: Group, j: nat, n: nat)
    requires n <= |es| && Batched(es, g) && j < |g.base| && BC.Vectors(PointsOf(es, g.base), |g.base|)
    ensures BC.Dot(Coefficients(es), PointsOf(es, g.base), |g.base|, j, n + 1)
      == Responses(es, |es|) * g.base[j] - KeySum(es, g, j, n)
  {
    var c, p := Coefficients(es), PointsOf(es, g.base);
    if n == 0 {
      assert BC.Dot(c, p, |g.base|, j, 0) == 0;
    } else {
      var e := es[n - 1];
      KeyPart(es, g, j, n - 1);
      assert c[n] == Challenge(e) && p[n][j] == -1 * e.key.value[j];
      NegatedTerm(BC.Dot(c, p, |g.base|, j, n), c[n], e.key.value[j]);
    }
  }

  lemma NonceRow(es: seq<Entry>, g: Group, j: nat, i: nat)
    requires i < |es| && Batched(es, g) && j < |g.base|
    ensures Coefficients(es)[|es| + 1 + i] == LE(es[i].rand)
    ensures |PointsOf(es, g.base)[|es| + 1 + i]| > j
    ensures PointsOf(es, g.base)[|es| + 1 + i][j] == -1 * es[i].nonce.value[j]
  {
    var k := |es| + 1 + i;
    assert Sized(es[i], |g.base|);
    RandomBound(es[i].rand);
    assert k - |es| - 1 == i;
    assert Coefficients(es)[k] == LE(es[i].rand) % M;
    assert PointsOf(es, g.base)[k] == BC.Scale(-1, es[i].nonce.value);
  }

  lemma NonceStep(es: seq<Entry>, g: Group, j: nat, i: nat, k: nat)
    requires i < |es| && k == |es| + 1 + i && Batched(es, g) && j < |g.base|
    requires BC.Vectors(PointsOf(es, g.base), |g.base|)
    ensures BC.Dot(Coefficients(es), PointsOf(es, g.base), |g.base|, j, k + 1)
      == BC.Dot(Coefficients(es), PointsOf(es, g.base), |g.base|, j, k) - LE(es[i].rand) * es[i].nonce.value[j]
  {
    NonceRow(es, g, j, i);
    NegatedTerm(BC.Dot(Coefficients(es), PointsOf(es, g.base), |g.base|, j, k), LE(es[i].rand), es[i].nonce.value[j]);
  }

  /** Those and the first `n` of the R. */
  lemma {:induction false} NoncePart(es: seq<Entry>, g: Group, j: nat, n: nat)
    requires n <= |es| && Batched(es, g) && j < |g.base| && BC.Vectors(PointsOf(es, g.base), |g.base|)
    ensures BC.Dot(Coefficients(es), PointsOf(es, g.base), |g.base|, j, |es| + 1 + n)
      == Responses(es, |es|) * g.base[j] - KeySum(es, g, j, |es|) - NonceSum(es, g, j, n)
  {
    if n == 0 {
      KeyPart(es, g, j, |es|);
    } else {
      NoncePart(es, g, j, n - 1);
      NonceStep(es, g, j, n - 1, |es| + n);
    }
  }

  /** The sum asked of the heap is the weighted sum of the defects, plus m times the wrapped keys. */
  lemma Equation(es: seq<Entry>, g: Group, j: nat)
    requires Batched(es, g) && j < |g.base| && BC.Vectors(PointsOf(es, g.base), |g.base|)
    ensures Cong(BC.Dot(Coefficients(es), PointsOf(es, g.base), |g.base|, j, 2 * |es| + 1),
                 Weighted(es, g, j, |es|) + M * Wrapped(es, g, j, |es|), g.orders[j])
  {
    NoncePart(es, g, j, |es|);
    WeightedParts(es, g, j, |es|);
    ResponsesMod(es, |g.base|, |es|);
    BasePart(Responses(es, |es|), ResponseSum(es, |es|), g.base[j], g.orders[j]);
  }

  /** Reducing what multiplies the base point changes nothing: m times it is neutral. */
  lemma BasePart(x: int, y: int, b: int, q: int)
    requires Cong(x, y, M) && (q == M || (q == COFACTOR && b % COFACTOR == 0))
    ensures Cong(x * b, y * b, q)
  {
    if q == M {
      CongMul(x, y, b, M);
    } else {
      ModZeroMul(b, x - y, COFACTOR);
      assert b * (x - y) == (x - y) * b;
      Dist(x, y, b);
    }
  }

  /** The equation of the batch holds. */
  ghost predicate Balanced(es: seq<Entry>, g: Group)
    requires Batched(es, g)
  {
    forall j :: 0 <= j < |g.base| ==>
      (Weighted(es, g, j, |es|) + M * Wrapped(es, g, j, |es|)) % g.orders[j] == 0
  }

  lemma NeutralIsBalanced(es: seq<Entry>, g: Group)
    requires Batched(es, g) && BC.Vectors(PointsOf(es, g.base), |g.base|)
    ensures Neutral(BC.Sum(Coefficients(es), PointsOf(es, g.base), |g.base|, 2 * |es| + 1), g.orders)
      <==> Balanced(es, g)
  {
    var sum := BC.Sum(Coefficients(es), PointsOf(es, g.base), |g.base|, 2 * |es| + 1);
    forall j | 0 <= j < |g.base|
      ensures sum[j] % g.orders[j] == 0
        <==> (Weighted(es, g, j, |es|) + M * Wrapped(es, g, j, |es|)) % g.orders[j] == 0
    {
      Equation(es, g, j);
      CongZero(sum[j], Weighted(es, g, j, |es|) + M * Wrapped(es, g, j, |es|), g.orders[j]);
    }
  }

  // ---------- genuine signatures ----------

  ghost predicate AllGenuine(es: seq<Entry>, g: Group)
    requires Lawful(g) && AllSized(es, |g.base|)
  {
    forall i :: 0 <= i < |es| ==> Genuine(es[i], g)
  }

  /** The wrapped keys have no part modulo 8. */
  ghost predicate Unwrapped(es: seq<Entry>, g: Group)
    requires Batched(es, g)
  {
    forall j :: 0 <= j < |g.base| && g.orders[j] == COFACTOR ==> Wrapped(es, g, j, |es|) % COFACTOR == 0
  }

  lemma {:induction false} GenuineWeighted(es: seq<Entry>, g: Group, j: nat, n: nat)
    requires n <= |es| && Batched(es, g) && j < |g.base| && AllGenuine(es, g)
    ensures Weighted(es, g, j, n) % g.orders[j] == 0
  {
    if n == 0 {
    } else {
      var e, q := es[n - 1], g.orders[j];
      GenuineWeighted(es, g, j, n - 1);
      assert Genuine(e, g);
      ModZeroMul(Defect(e, g, j), LE(e.rand), q);
      assert LE(e.rand) * Defect(e, g, j) == Defect(e, g, j) * LE(e.rand);
      ModZeroSum(Weighted(es, g, j, n - 1), LE(e.rand) * Defect(e, g, j), q);
    }
  }

  lemma GenuineDecoded(es: seq<Entry>, g: Group)
    requires Lawful(g) && AllSized(es, |g.base|) && AllGenuine(es, g)
    ensures Decoded(es)
  {
    forall i | 0 <= i < |es|
      ensures es[i].key.Some? && es[i].nonce.Some?
    {
      assert Genuine(es[i], g);
    }
  }

  lemma TimesOrder(w: int)
    ensures (M * w) % M == 0 && ((M * w) % COFACTOR == 0 <==> w % COFACTOR == 0)
  {
    ModMultiple(w, M);
    assert w * M == M * w;
    assert M * w == 8 * (M / 8 * w) + 5 * w;
  }

  /** A batch of genuine signatures balances if and only if its wrapped keys have no part modulo 8. */
  lemma GenuineBalanced(es: seq<Entry>, g: Group)
    requires Batched(es, g) && AllGenuine(es, g)
    ensures Balanced(es, g) <==> Unwrapped(es, g)
  {
    forall j | 0 <= j < |g.base|
      ensures (Weighted(es, g, j, |es|) + M * Wrapped(es, g, j, |es|)) % g.orders[j] == 0
        <==> (g.orders[j] == COFACTOR ==> Wrapped(es, g, j, |es|) % COFACTOR == 0)
    {
      var d, w := Weighted(es, g, j, |es|), Wrapped(es, g, j, |es|);
      GenuineWeighted(es, g, j, |es|);
      TimesOrder(w);
      CongZero(d + M * w, M * w, g.orders[j]);
    }
  }

  /** Keys in the subgroup of order m. */
  ghost predicate PureKeys(es: seq<Entry>, g: Group)
    requires Batched(es, g)
  {
    forall i, j :: 0 <= i < |es| && 0 <= j < |g.base| && g.orders[j] == COFACTOR ==>
      es[i].key.value[j] % COFACTOR == 0
  }

  lemma {:induction false} PureUnwrapped(es: seq<Entry>, g: Group, j: nat, n: nat)
    requires n <= |es| && Batched(es, g) && PureKeys(es, g) && j < |g.base| && g.orders[j] == COFACTOR
    ensures Wrapped(es, g, j, n) % COFACTOR == 0
  {
    if n == 0 {
    } else {
      var a, w := es[n - 1].key.value[j], Wraps(es[n - 1]);
      PureUnwrapped(es, g, j, n - 1);
      ModZeroMul(a, w, COFACTOR);
      assert a * w == w * a;
      ModZeroSum(Wrapped(es, g, j, n - 1), w * a, COFACTOR);
    }
  }

  /** With keys in the subgroup of order m, genuine signatures balance, whatever the coefficients. */
  lemma PureKeysBalance(es: seq<Entry>, g: Group)
    requires Batched(es, g) && PureKeys(es, g) && AllGenuine(es, g)
    ensures Unwrapped(es, g) && Balanced(es, g)
  {
    forall j | 0 <= j < |g.base| && g.orders[j] == COFACTOR
      ensures Wrapped(es, g, j, |es|) % COFACTOR == 0
    {
      PureUnwrapped(es, g, j, |es|);
    }
    GenuineBalanced(es, g);
  }

  // ---------- coefficients that let a bad signature through ----------

  ghost predicate Inverse(x: int, y: int) { (x * y) % M == 1 }

  ghost predicate Invertible(x: int) { exists y :: Inverse(x, y) }

  lemma CancelFactor(x: int, d: int)
    requires Invertible(d)
    ensures (x * d) % M == 0 <==> x % M == 0
  {
    var y :| Inverse(d, y);
    if x % M == 0 { ModZeroMul(x, d, M); }
    if (x * d) % M == 0 {
      ModZeroMul(x * d, y, M);
      Assoc(x, d, y);
      CongMod(d * y, M);
      CongMul(1, d * y, x, M);
      CongZero(x, d * y * x, M);
      assert d * y * x == x * (d * y);
    }
  }

  /** Changing one coefficient changes the combination by the difference times that defect. */
  lemma {:induction false} WeightedChange(es: seq<Entry>, fs: seq<Entry>, g: Group, j: nat, n: nat, k: nat)
    requires |es| == |fs| && k < |es| && n <= |es| && j < |g.base| && Batched(es, g) && Batched(fs, g)
    requires fs == es[k := es[k].(rand := fs[k].rand)]
    ensures Weighted(es, g, j, n) - Weighted(fs, g, j, n)
      == if k < n then (LE(es[k].rand) - LE(fs[k].rand)) * Defect(es[k], g, j) else 0
  {
    if n == 0 {
    } else {
      WeightedChange(es, fs, g, j, n - 1, k);
      if n - 1 == k { Dist(LE(es[k].rand), LE(fs[k].rand), Defect(es[k], g, j)); }
    }
  }

  lemma SmallDifference(r: nat, t: nat)
    requires r < TWO128 && t < TWO128 && (r - t) % M == 0
    ensures r == t
  {
    var x := r - t;
    if x > 0 { DivModUnique(x, M, 0, x); } else if x < 0 { DivModUnique(x, M, -1, x + M); }
  }

  /** With everything else fixed, at most one of the 2^128 coefficients of a signature lets a batch balance when
      its defect has an inverse modulo m. */
  lemma OneCoefficientBalances(es: seq<Entry>, fs: seq<Entry>, g: Group, k: nat, j: nat)
    requires |es| == |fs| && k < |es| && Batched(es, g) && Batched(fs, g)
    requires j < |g.base| && g.orders[j] == M
    requires fs == es[k := es[k].(rand := fs[k].rand)] && Invertible(Defect(es[k], g, j))
    requires Balanced(es, g) && Balanced(fs, g)
    ensures LE(es[k].rand) == LE(fs[k].rand)
  {
    var x, y := Weighted(es, g, j, |es|), Weighted(fs, g, j, |es|);
    var u, v := Wrapped(es, g, j, |es|), Wrapped(fs, g, j, |es|);
    TimesOrder(u);
    TimesOrder(v);
    CongZero(x + M * u, x, M);
    CongZero(y + M * v, y, M);
    ModZeroSum(x, y, M);
    WeightedChange(es, fs, g, j, |es|, k);
    RandomBound(es[k].rand);
    RandomBound(fs[k].rand);
    CancelFactor(LE(es[k].rand) - LE(fs[k].rand), Defect(es[k], g, j));
    SmallDifference(LE(es[k].rand), LE(fs[k].rand));
  }
}

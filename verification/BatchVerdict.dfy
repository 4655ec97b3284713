/**
  What the verdict on a batch says.  The multi-scalar multiplication takes in some of the entries and returns a
  multiple of the survivor's point; this is neutral exactly if the sum of the entries taken in is.
 */
module BatchVerdict {
  import opened Arith
  import opened Words
  import opened Collections
  import opened BatchScalars
  import opened BatchEquation
  import BC = BosCarter
  import BatchHeap
  import Bytes

  /** How many of the 2n + 1 entries the multiplication takes in. */
  ghost function Taken(es: seq<Entry>): (n: nat)
    requires |es| >= 2
    ensures n <= 2 * |es| + 1
  {
    BC.Entered(Coefficients(es), BatchHeap.Batch.FirstHalf(2 * |es| + 1), 2 * |es| + 1)
  }

  ghost function Survivor(es: seq<Entry>): nat
    requires |es| >= 2
  {
    BC.GcdAll(Coefficients(es), Taken(es))
  }

  /** The sum of the first `n` entries. */
  ghost function SumOf(es: seq<Entry>, g: Group, n: nat): (p: Point)
    requires Batched(es, g) && n <= 2 * |es| + 1
    ensures |p| == |g.base|
  {
    PointsAreVectors(es, g.base, |g.base|);
    BC.Sum(Coefficients(es), PointsOf(es, g.base), |g.base|, n)
  }

  // ---------- the ladder does not change whether a multiple is neutral ----------

  /** The ladder returns the survivor's multiple, or factor and survivor both have inverses modulo m. */
  ghost predicate Faithful(x: nat)
  {
    var k := BC.LadderFactor(x);
    k.Some? && (k.value == x || (Invertible(x) && Invertible(k.value)))
  }

  lemma NextPow2Double(t: nat)
    requires t >= 1
    ensures BC.NextPow2(t) == 2 * BC.NextPow2(t / 2)
  {
  }

  lemma NextPow2Of8(t: nat)
    requires t >= 4
    ensures BC.NextPow2(t) % 8 == 0
  {
    var u := t / 2;
    var v := u / 2;
    NextPow2Double(t);
    NextPow2Double(u);
    NextPow2Double(v);
    ModMultiple(BC.NextPow2(v / 2), 8);
  }

  lemma SmallFactors(t: nat, k: nat)
    requires 1 <= t < 4 && k == t + BC.NextPow2(t)
    ensures k == if t == 1 then 3 else if t == 2 then 6 else 7
  {
    assert BC.NextPow2(0) == 1;
    assert BC.NextPow2(1) == 2;
    NextPow2Double(t);
  }

  lemma CongTransZero(x: int, t: int, y: int)
    requires Cong(x, t, 8)
    ensures (x * y) % 8 == 0 <==> (t * y) % 8 == 0
  {
    CongMul(x, t, y, 8);
    CongZero(x * y, t * y, 8);
  }

  /** The low 224 bits hold the remainder modulo 8. */
  lemma LowBitsMod8(x: nat)
    ensures Cong(x, x % TWO224, 8)
  {
    var q, eighth := x / TWO224, TWO224 / 8;
    DivMod(x, TWO224);
    ModMultiple(q * eighth, 8);
    Assoc(q, eighth, 8);
  }

  lemma OddFactor(t: nat, k: nat, y: int)
    requires t >= 1 && k == t + BC.NextPow2(t)
    ensures (k * y) % 8 == 0 <==> (t * y) % 8 == 0
  {
    if t >= 4 {
      NextPow2Of8(t);
      CongTransZero(k, t, y);
    } else {
      SmallFactors(t, k);
      SmallUnits(y);
    }
  }

  lemma SmallUnits(y: int)
    ensures (3 * y) % 8 == 0 <==> (1 * y) % 8 == 0
    ensures (6 * y) % 8 == 0 <==> (2 * y) % 8 == 0
    ensures (7 * y) % 8 == 0 <==> (3 * y) % 8 == 0
  {
    ThreeIsUnit(y);
    ThreeIsUnit(2 * y);
    ModMultiple(y, 8);
    if y % 8 == 0 { ModZeroSum(y * 8, y, 8); }
    if (7 * y) % 8 == 0 { ModZeroSum(y * 8, 7 * y, 8); }
  }

  lemma ThreeIsUnit(y: int)
    ensures (3 * y) % 8 == 0 <==> y % 8 == 0
  {
    if y % 8 == 0 {
      ModZeroMul(y, 3, 8);
    }
    if (3 * y) % 8 == 0 {
      ModZeroMul(3 * y, 3, 8);
      ModMultiple(y, 8);
      ModZeroSum(3 * y * 3, y * 8, 8);
    }
  }

  /** Modulo 8 the factor differs from the survivor by a unit. */
  lemma FactorMod8(x: nat, k: nat, y: int)
    requires BC.LadderFactor(x) == Some(k)
    ensures (k * y) % 8 == 0 <==> (x * y) % 8 == 0
  {
    if x > 1 {
      LowBitsMod8(x);
      CongTransZero(x, x % TWO224, y);
      OddFactor(x % TWO224, k, y);
    }
  }

  lemma FactorNeutral(x: nat, k: nat, q: Point, g: Group)
    requires Lawful(g) && |q| == |g.base| && Faithful(x) && BC.LadderFactor(x) == Some(k)
    ensures Neutral(BC.Scale(k, q), g.orders) <==> Neutral(BC.Scale(x, q), g.orders)
  {
    forall j | 0 <= j < |q|
      ensures (k * q[j]) % g.orders[j] == 0 <==> (x * q[j]) % g.orders[j] == 0
    {
      if k != x && g.orders[j] == M {
        CancelFactor(q[j], k);
        CancelFactor(q[j], x);
        assert q[j] * k == k * q[j] && q[j] * x == x * q[j];
      } else if k != x {
        FactorMod8(x, k, q[j]);
      }
    }
  }

  // ---------- batches on which the verdict is that of the equation ----------

  /** Nothing but zeros was left out, and the ladder is faithful. */
  ghost predicate Decisive(es: seq<Entry>)
    requires |es| >= 2
  {
    Faithful(Survivor(es)) && forall i :: Taken(es) <= i < 2 * |es| + 1 ==> Coefficients(es)[i] == 0
  }

  lemma DecisiveBalanced(es: seq<Entry>, g: Group)
    requires Batched(es, g) && |es| >= 2 && Decisive(es)
    ensures Neutral(SumOf(es, g, Taken(es)), g.orders) <==> Balanced(es, g)
  {
    var c, p, n, count := Coefficients(es), PointsOf(es, g.base), Taken(es), 2 * |es| + 1;
    PointsAreVectors(es, g.base, |g.base|);
    forall j | 0 <= j < |g.base|
      ensures BC.Dot(c, p, |g.base|, j, n) == BC.Dot(c, p, |g.base|, j, count)
    {
      BC.RestOfZeros(c, p, |g.base|, j, n, count);
    }
    assert SumOf(es, g, n) == SumOf(es, g, count);
    NeutralIsBalanced(es, g);
  }

  /** Batches on which the multiplication returns the sum itself are among them. */
  lemma ExactDecisive(es: seq<Entry>)
    requires |es| >= 2 && BC.Exact(Coefficients(es), BatchHeap.Batch.FirstHalf(2 * |es| + 1), 2 * |es| + 1)
    ensures Decisive(es)
  {
    BC.LadderExactMeaning(Survivor(es));
  }

  // ---------- a genuine batch that does not balance ----------

  /** Coefficient 2, hash `h`, S = 0; the key is the point of order 8, and R is -h times it. */
  ghost predicate Twisted(e: Entry, h: int)
  {
    && Sized(e, 2) && LE(e.rand) == 2 && LE(e.s) == 0 && LE(e.hram) == h && e.canonical
    && e.key == Some([0, 1]) && e.nonce == Some([0, -h])
  }

  /** Coefficient 1, hash 1, S = 0, with neutral key and R. */
  ghost predicate Plain(e: Entry)
  {
    && Sized(e, 2) && LE(e.rand) == 1 && LE(e.s) == 0 && LE(e.hram) == 1 && e.canonical
    && e.key == Some([0, 0]) && e.nonce == Some([0, 0])
  }

  const SMALL_GROUP: Group := Group([M, 8], [1, 0])

  lemma ByteOrder(v: nat, n: nat)
    requires v < 256 && n >= 1
    ensures LE(ToLE(v, n)) == v
  {
    Pow2Mono(8, 8 * n);
    assert Pow2(8) == 256;
    LEToLE(v, n);
  }

  /** There are such signatures. */
  lemma TwistedExists(h: nat) returns (t: Entry, p: Entry)
    requires 2 * h == M + 1
    ensures Twisted(t, h) && Plain(p)
  {
    var a: int := h;
    t := Entry(ToLE(2, 16), ToLE(0, 32), ToLE(h, 64), Some([0, 1]), Some([0, -a]), true);
    p := Entry(ToLE(1, 16), ToLE(0, 32), ToLE(1, 64), Some([0, 0]), Some([0, 0]), true);
    ByteOrder(2, 16);
    ByteOrder(0, 32);
    ByteOrder(1, 16);
    ByteOrder(1, 64);
    HashOrder(h);
  }

  lemma HashOrder(h: nat)
    requires h < M
    ensures LE(ToLE(h, 64)) == h
  {
    Bytes.WordPowers();
    LEToLE(h, 64);
  }

  lemma TwistedGenuine(e: Entry, h: int, g: Group)
    requires Twisted(e, h) && 2 * h == M + 1 && g == SMALL_GROUP
    ensures Lawful(g) && Genuine(e, g) && Wraps(e) == 1 && Challenge(e) == 1
  {
    DivModUnique(h, M, 0, h);
    DivModUnique(2, M, 0, 2);
    DivModUnique(h * 2, M, 1, 1);
    assert Defect(e, g, 0) == 0 && Defect(e, g, 1) == 0;
  }

  lemma PlainGenuine(e: Entry, g: Group)
    requires Plain(e) && g == SMALL_GROUP
    ensures Lawful(g) && Genuine(e, g) && Challenge(e) == 1
  {
    DivModUnique(1, M, 0, 1);
    assert Defect(e, g, 0) == 0 && Defect(e, g, 1) == 0;
  }

  lemma {:induction false} WrappedOfFirst(es: seq<Entry>, g: Group, j: nat, n: nat)
    requires Batched(es, g) && j < |g.base| && 1 <= n <= |es|
    requires forall i :: 1 <= i < |es| ==> es[i].key.value[j] == 0
    ensures Wrapped(es, g, j, n) == Wraps(es[0]) * es[0].key.value[j]
  {
    if n == 1 {
      assert Wrapped(es, g, j, 0) == 0;
    } else {
      WrappedOfFirst(es, g, j, n - 1);
    }
  }

  /** Genuine signatures, one key with a part modulo 8: the verdict is that of the equation, which fails. */
  lemma TwistedKeyFails(es: seq<Entry>, h: nat, g: Group)
    requires |es| >= 3 && Twisted(es[0], h) && 2 * h == M + 1 && g == SMALL_GROUP
    requires forall i :: 1 <= i < |es| ==> Plain(es[i])
    ensures Batched(es, g) && AllGenuine(es, g) && Decisive(es) && !Balanced(es, g)
  {
    TwistedGenuine(es[0], h, g);
    forall i | 1 <= i < |es|
      ensures Genuine(es[i], g) && Challenge(es[i]) == 1
    {
      PlainGenuine(es[i], g);
    }
    GenuineDecoded(es, g);
    WrappedOfFirst(es, g, 1, |es|);
    assert g.orders[1] == COFACTOR;
    GenuineBalanced(es, g);
    OnesDecisive(es);
  }

  lemma GcdOfOne(s: seq<nat>, n: nat, i: nat)
    requires i < n <= |s| && s[i] == 1
    ensures BC.GcdAll(s, n) == 1
  {
    var d := BC.GcdAll(s, n);
    BC.GcdPositive(s, n, i);
    BC.GcdAllDivides(s, n, d);
    assert d % d == 0;
    BC.MultipleIsLarger(1, d);
  }

  /** Two challenges of 1 make a batch decisive. */
  lemma OnesDecisive(es: seq<Entry>)
    requires |es| >= 2 && Challenge(es[0]) == 1 && Challenge(es[1]) == 1
    ensures Decisive(es)
  {
    var c, count := Coefficients(es), 2 * |es| + 1;
    var n1 := BatchHeap.Batch.FirstHalf(count);
    assert c[1] == 1 && c[2] == 1;
    GcdOfOne(c, n1, 1);
    GcdOfOne(c, count, 1);
    assert BC.TwoNonzero(c, n1);
    ExactDecisive(es);
  }
}

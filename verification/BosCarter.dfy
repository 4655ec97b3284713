/**
  The Bos-Carter reduction on plain values.  A point is a vector of integer
  coefficients over a fixed list of starting points, so addition is the addition
  of the free abelian group on them and every identity proved here carries over
  to any abelian group.
 */
module BosCarter {
  import opened Arith
  import opened Words
  import opened Collections

  type Point = seq<int>

  function Add(p: Point, q: Point): (r: Point)
    requires |p| == |q|
    ensures |r| == |p| && forall j :: 0 <= j < |p| ==> r[j] == p[j] + q[j]
  {
    seq(|p|, j requires 0 <= j < |p| => p[j] + q[j])
  }

  function Scale(c: int, p: Point): (r: Point)
    ensures |r| == |p| && forall j :: 0 <= j < |p| ==> r[j] == c * p[j]
  {
    seq(|p|, j requires 0 <= j < |p| => c * p[j])
  }

  ghost predicate Vectors(pts: seq<Point>, dim: nat)
  {
    forall i :: 0 <= i < |pts| ==> |pts[i]| == dim
  }

  /** Coordinate `j` of s_0*P_0 + ... + s_(n-1)*P_(n-1). */
  ghost function Dot(s: seq<nat>, pts: seq<Point>, dim: nat, j: nat, n: nat): int
    requires n <= |s| && n <= |pts| && Vectors(pts, dim) && j < dim
  {
    if n == 0 then 0 else Dot(s, pts, dim, j, n - 1) + s[n - 1] * pts[n - 1][j]
  }

  ghost function Total(s: seq<nat>, n: nat): nat
    requires n <= |s|
  {
    if n == 0 then 0 else Total(s, n - 1) + s[n - 1]
  }

  // ---------- common divisors ----------

  ghost predicate CommonDivisor(d: nat, s: seq<nat>, n: nat)
    requires n <= |s|
  {
    d >= 1 && forall i :: 0 <= i < n ==> s[i] % d == 0
  }

  function Gcd(a: nat, b: nat): nat
    decreases b
  {
    if b == 0 then a else Gcd(b, a % b)
  }

  /** Greatest common divisor of the first `n` scalars (0 when all are 0). */
  function GcdAll(s: seq<nat>, n: nat): nat
    requires n <= |s|
  {
    if n == 0 then 0 else Gcd(GcdAll(s, n - 1), s[n - 1])
  }

  lemma {:induction false} GcdDivides(a: nat, b: nat, d: nat)
    requires d >= 1
    ensures Gcd(a, b) % d == 0 <==> a % d == 0 && b % d == 0
    decreases b
  {
    if b == 0 {
    } else {
      GcdDivides(b, a % b, d);
      DivMod(a, b);
      var q := a / b;
      if b % d == 0 {
        ModZeroMul(b, q, d);
        assert b * q == q * b;
        if a % d == 0 { ModZeroSum(a, q * b, d); }
        if (a % b) % d == 0 { ModZeroSum(q * b, a % b, d); }
      }
    }
  }

  lemma {:induction false} GcdAllDivides(s: seq<nat>, n: nat, d: nat)
    requires n <= |s| && d >= 1
    ensures CommonDivisor(d, s, n) <==> GcdAll(s, n) % d == 0
  {
    if n == 0 {
    } else {
      GcdAllDivides(s, n - 1, d);
      GcdDivides(GcdAll(s, n - 1), s[n - 1], d);
    }
  }

  lemma DividesZero(x: nat)
    requires forall d: nat :: d >= 1 ==> x % d == 0
    ensures x == 0
  {
    DivModUnique(x, x + 1, 0, x);
    assert x % (x + 1) == 0;
  }

  /** Numbers with the same divisors are equal. */
  lemma SameDivisors(x: nat, y: nat)
    requires forall d: nat :: d >= 1 ==> (x % d == 0 <==> y % d == 0)
    ensures x == y
  {
    if x == 0 {
      DividesZero(y);
    } else if y == 0 {
      DividesZero(x);
    } else {
      assert x % x == 0 && y % y == 0;
      MultipleIsLarger(y, x);
      MultipleIsLarger(x, y);
    }
  }

  lemma MultipleIsLarger(x: nat, d: nat)
    requires x > 0 && d > 0 && x % d == 0
    ensures d <= x
  {
    if x < d { DivModUnique(x, d, 0, x); }
  }

  lemma GcdUnique(g: nat, s: seq<nat>, n: nat)
    requires n <= |s|
    requires forall d: nat :: d >= 1 ==> (CommonDivisor(d, s, n) <==> g % d == 0)
    ensures g == GcdAll(s, n)
  {
    var h := GcdAll(s, n);
    forall d: nat | d >= 1
      ensures g % d == 0 <==> h % d == 0
    {
      GcdAllDivides(s, n, d);
    }
    SameDivisors(g, h);
  }

  // ---------- sums under a change of one or two entries ----------

  lemma {:induction false} DotSame(s: seq<nat>, pts: seq<Point>, s': seq<nat>, pts': seq<Point>, dim: nat, j: nat,
                                   n: nat)
    requires n <= |s| && n <= |pts| && n <= |s'| && n <= |pts'|
    requires Vectors(pts, dim) && Vectors(pts', dim) && j < dim
    requires forall i :: 0 <= i < n ==> s[i] == s'[i] && pts[i] == pts'[i]
    ensures Dot(s, pts, dim, j, n) == Dot(s', pts', dim, j, n)
  {
    if n == 0 {
    } else {
      DotSame(s, pts, s', pts', dim, j, n - 1);
    }
  }

  lemma {:induction false} DotChange(s: seq<nat>, pts: seq<Point>, s': seq<nat>, pts': seq<Point>, dim: nat, j: nat,
                                     n: nat, a: nat)
    requires a < n <= |s| && n <= |pts| && n <= |s'| && n <= |pts'|
    requires Vectors(pts, dim) && Vectors(pts', dim) && j < dim
    requires forall i :: 0 <= i < n && i != a ==> s[i] == s'[i] && pts[i] == pts'[i]
    ensures Dot(s', pts', dim, j, n) == Dot(s, pts, dim, j, n) + s'[a] * pts'[a][j] - s[a] * pts[a][j]
  {
    if n - 1 == a {
      DotSame(s, pts, s', pts', dim, j, n - 1);
    } else {
      DotChange(s, pts, s', pts', dim, j, n - 1, a);
    }
  }

  lemma {:induction false} TotalChange(s: seq<nat>, s': seq<nat>, n: nat, a: nat)
    requires n <= |s| && n <= |s'|
    requires forall i :: 0 <= i < n && i != a ==> s[i] == s'[i]
    ensures Total(s', n) as int == Total(s, n) as int + if a < n then s'[a] as int - s[a] as int else 0
  {
    if n == 0 {
    } else {
      TotalChange(s, s', n - 1, a);
    }
  }

  // ---------- one reduction step ----------

  /** (s_a, s_b; P_a, P_b) becomes (s_a - s_b, s_b; P_a, P_b + P_a). */
  ghost predicate Step(s: seq<nat>, pts: seq<Point>, s': seq<nat>, pts': seq<Point>, dim: nat, n: nat, a: nat, b: nat)
  {
    && |s'| == |s| == |pts| == |pts'| && n <= |s|
    && Vectors(pts, dim) && Vectors(pts', dim)
    && a < n && b < n && a != b && 0 < s[b] <= s[a]
    && s' == s[a := s[a] - s[b]]
    && pts' == pts[b := Add(pts[b], pts[a])]
  }

  lemma StepKeepsSum(s: seq<nat>, pts: seq<Point>, s': seq<nat>, pts': seq<Point>, dim: nat, n: nat, a: nat, b: nat,
                     j: nat, count: nat)
    requires Step(s, pts, s', pts', dim, n, a, b) && j < dim && n <= count <= |s|
    ensures Dot(s', pts', dim, j, count) == Dot(s, pts, dim, j, count)
  {
    DotChange(s, pts, s', pts, dim, j, count, a);
    DotChange(s', pts, s', pts', dim, j, count, b);
    var x, y, p, q := s[a], s[b], pts[a][j], pts[b][j];
    assert pts'[b][j] == q + p;
    Dist(x, y, p);
    assert y * (q + p) == y * q + y * p;
  }

  lemma StepShrinks(s: seq<nat>, pts: seq<Point>, s': seq<nat>, pts': seq<Point>, dim: nat, n: nat, a: nat, b: nat,
                    count: nat)
    requires Step(s, pts, s', pts', dim, n, a, b) && n <= count <= |s|
    ensures Total(s', count) < Total(s, count)
  {
    TotalChange(s, s', count, a);
  }

  lemma StepKeepsDivisors(s: seq<nat>, pts: seq<Point>, s': seq<nat>, pts': seq<Point>, dim: nat, n: nat, a: nat,
                          b: nat, d: nat)
    requires Step(s, pts, s', pts', dim, n, a, b)
    ensures CommonDivisor(d, s, n) <==> CommonDivisor(d, s', n)
  {
    if CommonDivisor(d, s, n) {
      ModZeroSum(s[a], s[b], d);
    }
    if CommonDivisor(d, s', n) {
      assert s'[b] == s[b];
      ModZeroSum(s'[a], s'[b], d);
      forall i | 0 <= i < n
        ensures s[i] % d == 0
      {
        if i != a { assert s'[i] == s[i]; }
      }
    }
  }

  // ---------- whole runs ----------

  ghost predicate TwoNonzero(s: seq<nat>, n: nat)
    requires n <= |s|
  {
    exists i, k :: 0 <= i < k < n && s[i] > 0 && s[k] > 0
  }

  /** Decided by the starting scalars: will a run that starts with the first `n1`
      of them bring in the rest? */
  ghost predicate Extends(s: seq<nat>, n1: nat)
    requires n1 <= |s|
  {
    TwoNonzero(s, n1) && GcdAll(s, n1) < TWO128
  }

  /** Two scalars of the heap that still add up to 2^128: left by the last step
      of a run that has not been extended. */
  ghost predicate LargePair(s: seq<nat>, n: nat, a: nat, b: nat)
  {
    n <= |s| && a < n && b < n && a != b && s[b] > 0 && s[a] + s[b] >= TWO128
  }

  /** What relates the state (s, pts) of a run over the first `n` of `count`
      entries to its start (s0, p0). */
  ghost predicate RunInv(s0: seq<nat>, p0: seq<Point>, s: seq<nat>, pts: seq<Point>, dim: nat, n: nat, count: nat)
  {
    && n <= count <= |s| && |s0| == |p0| == |s| == |pts|
    && Vectors(p0, dim) && Vectors(pts, dim)
    && (forall j :: 0 <= j < dim ==> Dot(s, pts, dim, j, count) == Dot(s0, p0, dim, j, count))
    && (forall i :: n <= i < |s| ==> s[i] == s0[i] && pts[i] == p0[i])
    && (forall d: nat :: CommonDivisor(d, s, n) <==> CommonDivisor(d, s0, n))
    && (forall i :: 0 <= i < n && s[i] > 0 ==> s0[i] > 0)
    && (forall j :: 0 <= j < dim && Absent(p0, n, j) ==> Absent(pts, n, j))
  }

  /** Coordinate `j` is zero in each of the first `n` points. */
  ghost predicate Absent(pts: seq<Point>, n: nat, j: nat)
  {
    n <= |pts| && forall i :: 0 <= i < n ==> j < |pts[i]| && pts[i][j] == 0
  }

  lemma RunStart(s0: seq<nat>, p0: seq<Point>, dim: nat, n: nat, count: nat)
    requires n <= count <= |s0| == |p0| && Vectors(p0, dim)
    ensures RunInv(s0, p0, s0, p0, dim, n, count)
  {
  }

  lemma RunStep(s0: seq<nat>, p0: seq<Point>, s: seq<nat>, pts: seq<Point>, s': seq<nat>, pts': seq<Point>,
                dim: nat, n: nat, count: nat, a: nat, b: nat)
    requires RunInv(s0, p0, s, pts, dim, n, count) && Step(s, pts, s', pts', dim, n, a, b)
    ensures RunInv(s0, p0, s', pts', dim, n, count)
    ensures Total(s', count) < Total(s, count)
    ensures s[a] >= TWO128 ==> LargePair(s', n, a, b)
  {
    StepShrinks(s, pts, s', pts', dim, n, a, b, count);
    forall j | 0 <= j < dim
      ensures Dot(s', pts', dim, j, count) == Dot(s0, p0, dim, j, count)
    {
      StepKeepsSum(s, pts, s', pts', dim, n, a, b, j, count);
    }
    forall d: nat
      ensures CommonDivisor(d, s', n) <==> CommonDivisor(d, s0, n)
    {
      StepKeepsDivisors(s, pts, s', pts', dim, n, a, b, d);
    }
  }

  /** Bringing in the entries n..count-1, none of which a run has touched. */
  lemma RunExtend(s0: seq<nat>, p0: seq<Point>, s: seq<nat>, pts: seq<Point>, dim: nat, n: nat, count: nat)
    requires RunInv(s0, p0, s, pts, dim, n, count)
    ensures RunInv(s0, p0, s, pts, dim, count, count)
  {
    forall d: nat
      ensures CommonDivisor(d, s, count) <==> CommonDivisor(d, s0, count)
    {
      assert CommonDivisor(d, s, n) <==> CommonDivisor(d, s0, n);
      if CommonDivisor(d, s, count) { assert CommonDivisor(d, s, n); }
      if CommonDivisor(d, s0, count) { assert CommonDivisor(d, s0, n); }
    }
    forall j | 0 <= j < dim && Absent(p0, count, j)
      ensures Absent(pts, count, j)
    {
      assert Absent(p0, n, j);
    }
  }

  /** When a step is about to be taken on two nonzero scalars with the larger
      below 2^128, the starting scalars satisfied `Extends`. */
  lemma ExtendsHolds(s0: seq<nat>, p0: seq<Point>, s: seq<nat>, pts: seq<Point>, dim: nat, n: nat, count: nat, a: nat,
                     b: nat)
    requires RunInv(s0, p0, s, pts, dim, n, count)
    requires a < n && b < n && a != b && 0 < s[b] && 0 < s[a] < TWO128
    ensures Extends(s0, n)
  {
    assert s0[a] > 0 && s0[b] > 0;
    assert TwoNonzero(s0, n) by {
      var i, k := if a < b then a else b, if a < b then b else a;
      assert 0 <= i < k < n && s0[i] > 0 && s0[k] > 0;
    }
    var g := GcdAll(s0, n);
    if g >= 1 {
      GcdAllDivides(s0, n, g);
      assert g % g == 0;
      assert CommonDivisor(g, s, n);
      MultipleIsLarger(s[a], g);
    }
  }

  /** All entries of the heap but one are zero. */
  ghost predicate OneLeft(s: seq<nat>, n: nat, a: nat)
  {
    a < n <= |s| && forall i :: 0 <= i < n && i != a ==> s[i] == 0
  }

  /** The survivor is the greatest common divisor of what was put in. */
  lemma SurvivorIsGcd(s0: seq<nat>, p0: seq<Point>, s: seq<nat>, pts: seq<Point>, dim: nat, n: nat, count: nat, a: nat)
    requires RunInv(s0, p0, s, pts, dim, n, count) && OneLeft(s, n, a)
    ensures s[a] == GcdAll(s0, n)
  {
    forall d: nat | d >= 1
      ensures CommonDivisor(d, s0, n) <==> s[a] % d == 0
    {
      assert CommonDivisor(d, s, n) <==> CommonDivisor(d, s0, n);
    }
    GcdUnique(s[a], s0, n);
  }

  /** A run that ends without having been extended had a start that forbids it. */
  lemma NotExtended(s0: seq<nat>, p0: seq<Point>, s: seq<nat>, pts: seq<Point>, dim: nat, n: nat, count: nat, a: nat,
                    x: nat, y: nat)
    requires RunInv(s0, p0, s, pts, dim, n, count) && OneLeft(s, n, a)
    requires s == s0 || LargePair(s, n, x, y)
    ensures !Extends(s0, n)
  {
    SurvivorIsGcd(s0, p0, s, pts, dim, n, count, a);
    if s == s0 {
      assert !TwoNonzero(s0, n);
    } else {
      assert y == a && s[x] == 0;
    }
  }

  /** The sum of the parts not yet in the heap. */
  ghost function Rest(s: seq<nat>, pts: seq<Point>, dim: nat, j: nat, n: nat, count: nat): int
    requires n <= count <= |s| && count <= |pts| && Vectors(pts, dim) && j < dim
  {
    Dot(s, pts, dim, j, count) - Dot(s, pts, dim, j, n)
  }

  lemma {:induction false} DotOneLeft(s: seq<nat>, pts: seq<Point>, dim: nat, j: nat, n: nat, a: nat)
    requires n <= |s| && n <= |pts| && Vectors(pts, dim) && j < dim
    requires forall i :: 0 <= i < n && i != a ==> s[i] == 0
    ensures Dot(s, pts, dim, j, n) == if a < n then s[a] * pts[a][j] else 0
  {
    if n == 0 {
    } else {
      DotOneLeft(s, pts, dim, j, n - 1, a);
    }
  }

  lemma {:induction false} RestSame(s: seq<nat>, pts: seq<Point>, s': seq<nat>, pts': seq<Point>, dim: nat, j: nat,
                                    n: nat, count: nat)
    requires n <= count <= |s| == |pts| == |s'| == |pts'|
    requires Vectors(pts, dim) && Vectors(pts', dim) && j < dim
    requires forall i :: n <= i < count ==> s[i] == s'[i] && pts[i] == pts'[i]
    ensures Rest(s, pts, dim, j, n, count) == Rest(s', pts', dim, j, n, count)
    decreases count
  {
    if n == count {
    } else {
      RestSame(s, pts, s', pts', dim, j, n, count - 1);
    }
  }

  /** When one scalar is left, the starting sum is that scalar times its point
      plus whatever was never put in. */
  lemma RunEnd(s0: seq<nat>, p0: seq<Point>, s: seq<nat>, pts: seq<Point>, dim: nat, n: nat, count: nat, a: nat, j: nat)
    requires RunInv(s0, p0, s, pts, dim, n, count) && OneLeft(s, n, a) && j < dim
    ensures Dot(s0, p0, dim, j, count) == GcdAll(s0, n) * pts[a][j] + Rest(s0, p0, dim, j, n, count)
  {
    SurvivorIsGcd(s0, p0, s, pts, dim, n, count, a);
    DotOneLeft(s, pts, dim, j, n, a);
    RestSame(s, pts, s0, p0, dim, j, n, count);
  }

  /** How many of the entries a run takes in. */
  ghost function Entered(s: seq<nat>, n1: nat, count: nat): (n: nat)
    requires n1 <= count <= |s|
    ensures n == n1 || n == count
  {
    if Extends(s, n1) then count else n1
  }

  /** The survivor times its point is the sum of everything that was put in. */
  lemma SurvivorHoldsSum(s0: seq<nat>, p0: seq<Point>, s: seq<nat>, pts: seq<Point>, dim: nat, n: nat, count: nat,
                         a: nat)
    requires RunInv(s0, p0, s, pts, dim, n, count) && OneLeft(s, n, a)
    ensures Scale(GcdAll(s0, n), pts[a]) == Sum(s0, p0, dim, n)
  {
    var left, right := Scale(GcdAll(s0, n), pts[a]), Sum(s0, p0, dim, n);
    forall j | 0 <= j < dim
      ensures left[j] == right[j]
    {
      RunEnd(s0, p0, s, pts, dim, n, count, a, j);
    }
  }

  // ---------- the closing ladder and when the whole computation is exact ----------

  /** The least power of two above `t`. */
  function NextPow2(t: nat): (p: nat)
    ensures p >= 1
  {
    if t == 0 then 1 else 2 * NextPow2(t / 2)
  }

  /** The multiple of its point that the closing ladder computes for the surviving
      scalar `s`.  Scalars 0 and 1 are special cases.  For any other the ladder
      starts at limb 3, so it sees only the low 224 bits, and it counts the top set
      bit of those twice.  None: the low 224 bits are all zero and the scan for a
      set bit runs off the scalar. */
  function LadderFactor(s: nat): Option<nat>
  {
    if s <= 1 then Some(s)
    else if s % TWO224 == 0 then None
    else Some(s % TWO224 + NextPow2(s % TWO224))
  }

  /** The surviving scalars for which the ladder returns that multiple of the point. */
  predicate LadderExact(s: nat)
  {
    s <= 1 || TWO224 + TWO223 <= s < 2 * TWO224
  }

  lemma {:induction false} NextPow2Above(t: nat)
    ensures t < NextPow2(t)
    ensures t >= 1 ==> NextPow2(t) <= 2 * t
  {
    if t == 0 {
    } else {
      NextPow2Above(t / 2);
    }
  }

  lemma {:induction false} NextPow2Unique(t: nat, e: nat)
    requires Pow2(e) <= t < 2 * Pow2(e)
    ensures NextPow2(t) == 2 * Pow2(e)
  {
    if e > 0 { NextPow2Unique(t / 2, e - 1); }
    else { assert NextPow2(0) == 1; }
  }

  lemma {:induction false} NextPow2Below(t: nat, e: nat)
    requires t < Pow2(e)
    ensures NextPow2(t) <= Pow2(e)
  {
    if t == 0 {
    } else {
      NextPow2Below(t / 2, e - 1);
    }
  }

  lemma BigPowers()
    ensures Pow2(223) == TWO223 && Pow2(224) == TWO224
  {
    Pow2Of56();
    Pow2Add(56, 56);
    Pow2Add(112, 112);
    assert Pow2(224) == 2 * Pow2(223);
  }

  lemma LadderExactMeaning(s: nat)
    ensures LadderFactor(s) == Some(s) <==> LadderExact(s)
  {
    if s > 1 {
      var t := s % TWO224;
      DivMod(s, TWO224);
      BigPowers();
      NextPow2Above(t);
      NextPow2Below(t, 224);
      if t >= TWO223 {
        NextPow2Unique(t, 223);
      } else {
        NextPow2Below(t, 223);
      }
    }
  }

  /** s_0*P_0 + ... + s_(count-1)*P_(count-1). */
  ghost function Sum(s: seq<nat>, pts: seq<Point>, dim: nat, count: nat): Point
    requires count <= |s| && count <= |pts| && Vectors(pts, dim)
  {
    seq(dim, j requires 0 <= j < dim => Dot(s, pts, dim, j, count))
  }

  /** The first `count` points are independent generators. */
  ghost predicate Generators(pts: seq<Point>, dim: nat, count: nat)
  {
    && count <= |pts| && count <= dim && Vectors(pts, dim)
    && forall i, j :: 0 <= i < count && 0 <= j < dim ==> pts[i][j] == if i == j then 1 else 0
  }

  /** The starting scalars for which the run returns exactly their weighted sum. */
  ghost predicate Exact(s: seq<nat>, n1: nat, count: nat)
    requires n1 <= count <= |s|
  {
    if Extends(s, n1) then GcdAll(s, count) == 1
    else (forall i :: n1 <= i < count ==> s[i] == 0) && LadderExact(GcdAll(s, n1))
  }

  lemma {:induction false} DotOfGenerators(s: seq<nat>, pts: seq<Point>, dim: nat, j: nat, n: nat, count: nat)
    requires Generators(pts, dim, count) && n <= count <= |s| && j < dim
    ensures Dot(s, pts, dim, j, n) == if j < n then s[j] else 0
  {
    if n == 0 {
    } else {
      DotOfGenerators(s, pts, dim, j, n - 1, count);
      assert pts[n - 1][j] == if n - 1 == j then 1 else 0;
    }
  }

  lemma {:induction false} RestOfZeros(s: seq<nat>, pts: seq<Point>, dim: nat, j: nat, n: nat, count: nat)
    requires n <= count <= |s| && count <= |pts| && Vectors(pts, dim) && j < dim
    requires forall i :: n <= i < count ==> s[i] == 0
    ensures Rest(s, pts, dim, j, n, count) == 0
    decreases count
  {
    if n == count {
    } else {
      RestOfZeros(s, pts, dim, j, n, count - 1);
    }
  }

  lemma {:induction false} SomeNonzero(s: seq<nat>, n: nat) returns (i: nat)
    requires n <= |s| && GcdAll(s, n) != 0
    ensures i < n && s[i] != 0
  {
    if s[n - 1] != 0 { i := n - 1; } else { i := SomeNonzero(s, n - 1); }
  }

  lemma GcdPositive(s: seq<nat>, n: nat, i: nat)
    requires i < n <= |s| && s[i] > 0
    ensures GcdAll(s, n) >= 1
  {
    var d := s[i] + 1;
    GcdAllDivides(s, n, d);
    DivModUnique(s[i], d, 0, s[i]);
  }

  /** A gcd over more scalars is no larger. */
  lemma GcdShrinks(s: seq<nat>, n1: nat, count: nat)
    requires n1 <= count <= |s| && TwoNonzero(s, n1)
    ensures 1 <= GcdAll(s, count) <= GcdAll(s, n1)
  {
    var g, h := GcdAll(s, count), GcdAll(s, n1);
    var i, k :| 0 <= i < k < n1 && s[i] > 0 && s[k] > 0;
    GcdPositive(s, count, i);
    GcdPositive(s, n1, i);
    GcdAllDivides(s, count, g);
    GcdAllDivides(s, n1, g);
    assert g % g == 0;
    assert CommonDivisor(g, s, n1);
    MultipleIsLarger(h, g);
  }

  lemma SameMultiple(k: int, g: int, p: int)
    requires p != 0 && k * p == g * p
    ensures k == g
  {
  }

  /** The value handed back for a survivor `g` at `point`. */
  ghost function Returned(g: nat, point: Point): Option<Point>
  {
    match LadderFactor(g) case None => None case Some(k) => Some(Scale(k, point))
  }

  lemma ExactSuffices(s0: seq<nat>, p0: seq<Point>, s: seq<nat>, pts: seq<Point>, dim: nat, n1: nat, n: nat,
                      count: nat, a: nat)
    requires RunInv(s0, p0, s, pts, dim, n, count) && OneLeft(s, n, a) && n1 <= count
    requires n == (if Extends(s0, n1) then count else n1)
    requires Exact(s0, n1, count)
    ensures Returned(s[a], pts[a]) == Some(Sum(s0, p0, dim, count))
  {
    SurvivorIsGcd(s0, p0, s, pts, dim, n, count, a);
    var g := s[a];
    LadderExactMeaning(g);
    assert LadderFactor(g) == Some(g);
    forall j | 0 <= j < dim
      ensures Scale(g, pts[a])[j] == Sum(s0, p0, dim, count)[j]
    {
      RunEnd(s0, p0, s, pts, dim, n, count, a, j);
      RestOfZeros(s0, p0, dim, j, n, count);
    }
    assert Scale(g, pts[a]) == Sum(s0, p0, dim, count);
  }

  /** If the returned multiple is right on a nonzero sum, the ladder factor is the survivor. */
  lemma FactorForced(s0: seq<nat>, p0: seq<Point>, s: seq<nat>, pts: seq<Point>, dim: nat, n: nat, count: nat, a: nat)
    requires RunInv(s0, p0, s, pts, dim, n, count) && OneLeft(s, n, a) && Generators(p0, dim, count)
    requires Returned(s[a], pts[a]) == Some(Sum(s0, p0, dim, count))
    ensures LadderExact(GcdAll(s0, n))
  {
    SurvivorIsGcd(s0, p0, s, pts, dim, n, count, a);
    var g := s[a];
    if g != 0 {
      var i := SomeNonzero(s0, n);
      RunEnd(s0, p0, s, pts, dim, n, count, a, i);
      DotOfGenerators(s0, p0, dim, i, count, count);
      DotOfGenerators(s0, p0, dim, i, n, count);
      assert g * pts[a][i] == s0[i];
      var k := LadderFactor(g).value;
      assert Sum(s0, p0, dim, count)[i] == s0[i];
      assert Scale(k, pts[a])[i] == k * pts[a][i];
      SameMultiple(k, g, pts[a][i]);
      LadderExactMeaning(g);
    }
  }

  lemma ExactNecessary(s0: seq<nat>, p0: seq<Point>, s: seq<nat>, pts: seq<Point>, dim: nat, n1: nat, n: nat,
                       count: nat, a: nat)
    requires RunInv(s0, p0, s, pts, dim, n, count) && OneLeft(s, n, a) && n1 <= count
    requires n == (if Extends(s0, n1) then count else n1)
    requires Generators(p0, dim, count)
    requires Returned(s[a], pts[a]) == Some(Sum(s0, p0, dim, count))
    ensures Exact(s0, n1, count)
  {
    FactorForced(s0, p0, s, pts, dim, n, count, a);
    if Extends(s0, n1) {
      GcdShrinks(s0, n1, count);
    } else {
      var k := LadderFactor(s[a]).value;
      forall i | n1 <= i < count
        ensures s0[i] == 0
      {
        assert Absent(p0, n1, i);
        assert Absent(pts, n1, i);
        DotOfGenerators(s0, p0, dim, i, count, count);
        assert Sum(s0, p0, dim, count)[i] == s0[i];
        assert Scale(k, pts[a])[i] == k * pts[a][i] == 0;
      }
    }
  }

  /** Scalars that are all even leave 2 behind, and the ladder makes 6 of it. */
  lemma EvenScalarsNotExact()
    ensures Extends([2, 2, 2, 2, 2], 3) && !Exact([2, 2, 2, 2, 2], 3, 5)
    ensures LadderFactor(2) == Some(6)
  {
    var s := [2, 2, 2, 2, 2];
    assert s[0] > 0 && s[1] > 0;
    assert Gcd(0, 2) == 2 && Gcd(2, 2) == 2;
    assert GcdAll(s, 1) == 2 && GcdAll(s, 2) == 2 && GcdAll(s, 3) == 2;
    assert GcdAll(s, 4) == 2 && GcdAll(s, 5) == 2;
    assert NextPow2(2) == 4 by { assert NextPow2(1) == 2; }
  }

  /** With one scalar of the first half left, the second half never enters. */
  lemma LateScalarNotExact()
    ensures !Extends([1, 0, 0, 1, 0], 3) && !Exact([1, 0, 0, 1, 0], 3, 5)
  {
    var s := [1, 0, 0, 1, 0];
    assert s[3] != 0;
  }
}

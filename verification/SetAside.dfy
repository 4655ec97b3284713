/**
  What a run with an even number of scalars leaves out: the entry in the last slot of the heap never takes
  part, so its term is missing from the sum, and over independent points nothing can make up for it.
 */
module SetAside {
  import opened Arith
  import opened Words
  import opened Collections
  import opened BosCarter

  /** A scalar and a point that a run has put aside. */
  datatype Term = Term(scalar: nat, point: Point)

  /** All scalars are nonzero and of at most 128 bits. */
  predicate AllSmall(s: seq<nat>, count: nat)
  {
    count <= |s| && forall i :: 0 <= i < count ==> 0 < s[i] < TWO128
  }

  lemma SmallExtends(s: seq<nat>, n: nat, count: nat)
    requires AllSmall(s, count) && 2 <= n <= count
    ensures Extends(s, n)
  {
    assert s[0] > 0 && s[1] > 0;
    var g := GcdAll(s, n);
    GcdPositive(s, n, 0);
    GcdAllDivides(s, n, g);
    assert g % g == 0;
    MultipleIsLarger(s[0], g);
  }

  /** The first `n` coordinates of x times those of y, added up. */
  ghost function Inner(x: Point, y: Point, n: nat): int
    requires n <= |x| && n <= |y|
  {
    if n == 0 then 0 else Inner(x, y, n - 1) + x[n - 1] * y[n - 1]
  }

  lemma {:induction false} InnerAdd(x: Point, x': Point, y: Point, n: nat)
    requires |x| == |x'| && n <= |x| && n <= |y|
    ensures Inner(Add(x, x'), y, n) == Inner(x, y, n) + Inner(x', y, n)
  {
    if n == 0 {
    } else {
      InnerAdd(x, x', y, n - 1);
      Dist(x[n - 1], x'[n - 1], y[n - 1]);
    }
  }

  lemma {:induction false} InnerScale(c: int, x: Point, y: Point, n: nat)
    requires n <= |x| && n <= |y|
    ensures Inner(Scale(c, x), y, n) == c * Inner(x, y, n)
  {
    if n == 0 {
    } else {
      InnerScale(c, x, y, n - 1);
      Dist(Inner(x, y, n - 1), x[n - 1] * y[n - 1], c);
      Assoc(c, x[n - 1], y[n - 1]);
    }
  }

  lemma {:induction false} InnerFlip(x: Point, y: Point, n: nat)
    requires n <= |x| && n <= |y|
    ensures Inner(x, y, n) == Inner(y, x, n)
  {
    if n == 0 {
    } else {
      InnerFlip(x, y, n - 1);
    }
  }

  /** `duals` reads off each of the first `count` points: its own as 1, every other as 0. */
  ghost predicate Duals(pts: seq<Point>, duals: seq<Point>, dim: nat, count: nat)
  {
    && count <= |pts| && count <= |duals| && Vectors(pts, dim) && Vectors(duals, dim)
    && forall i, j :: 0 <= i < count && 0 <= j < count ==> Inner(pts[i], duals[j], dim) == if i == j then 1 else 0
  }

  ghost predicate Independent(pts: seq<Point>, dim: nat, count: nat)
  {
    exists duals :: Duals(pts, duals, dim, count)
  }

  lemma {:induction false} InnerOfUnit(x: Point, y: Point, k: nat, n: nat)
    requires n <= |x| && n <= |y| && forall j :: 0 <= j < n ==> y[j] == if j == k then 1 else 0
    ensures Inner(x, y, n) == if k < n then x[k] else 0
  {
    if n == 0 {
    } else {
      InnerOfUnit(x, y, k, n - 1);
    }
  }

  lemma GeneratorsIndependent(pts: seq<Point>, dim: nat, count: nat)
    requires Generators(pts, dim, count)
    ensures Independent(pts, dim, count)
  {
    forall i, j | 0 <= i < count && 0 <= j < count
      ensures Inner(pts[i], pts[j], dim) == if i == j then 1 else 0
    {
      InnerOfUnit(pts[i], pts[j], j, dim);
    }
    assert Duals(pts, pts, dim, count);
  }

  /** Adding one point to another keeps them independent: its dual loses the other's. */
  lemma StepIndependent(s: seq<nat>, pts: seq<Point>, s': seq<nat>, pts': seq<Point>, dim: nat, n: nat, a: nat,
                        b: nat, count: nat)
    requires Step(s, pts, s', pts', dim, n, a, b) && n <= count && Independent(pts, dim, count)
    ensures Independent(pts', dim, count)
  {
    var duals :| Duals(pts, duals, dim, count);
    var duals' := duals[a := Add(duals[a], Scale(-1, duals[b]))];
    forall i, j | 0 <= i < count && 0 <= j < count
      ensures Inner(pts'[i], duals'[j], dim) == if i == j then 1 else 0
    {
      DualStep(pts, duals, dim, count, a, b, i, j);
    }
    assert Duals(pts', duals', dim, count);
  }

  lemma DualStep(pts: seq<Point>, duals: seq<Point>, dim: nat, count: nat, a: nat, b: nat, i: nat, j: nat)
    requires Duals(pts, duals, dim, count) && a < count && b < count && a != b && i < count && j < count
    ensures var p := if i == b then Add(pts[b], pts[a]) else pts[i];
      var d := if j == a then Add(duals[a], Scale(-1, duals[b])) else duals[j];
      Inner(p, d, dim) == if i == j then 1 else 0
  {
    var d := if j == a then Add(duals[a], Scale(-1, duals[b])) else duals[j];
    InnerOfDual(pts, duals, dim, count, a, b, i, j);
    if i == b {
      InnerAdd(pts[b], pts[a], d, dim);
      InnerOfDual(pts, duals, dim, count, a, b, a, j);
    }
  }

  lemma InnerOfDual(pts: seq<Point>, duals: seq<Point>, dim: nat, count: nat, a: nat, b: nat, i: nat, j: nat)
    requires Duals(pts, duals, dim, count) && a < count && b < count && i < count && j < count
    ensures var d := if j == a then Add(duals[a], Scale(-1, duals[b])) else duals[j];
      Inner(pts[i], d, dim)
      == (if i == j then 1 else 0) - (if j == a then Inner(pts[i], duals[b], dim) else 0)
  {
    if j == a {
      var minus := Scale(-1, duals[b]);
      var d := Add(duals[a], minus);
      InnerFlip(pts[i], d, dim);
      InnerAdd(duals[a], minus, pts[i], dim);
      InnerFlip(duals[a], pts[i], dim);
      InnerScale(-1, duals[b], pts[i], dim);
      InnerFlip(duals[b], pts[i], dim);
    }
  }

  /** No multiple of one independent point makes up for a term of another. */
  lemma TermMissing(pts: seq<Point>, dim: nat, count: nat, a: nat, c: nat, k: int, g: int, t: int)
    requires Independent(pts, dim, count) && a < count && c < count && a != c
    requires Scale(k, pts[a]) == Add(Scale(g, pts[a]), Scale(t, pts[c]))
    ensures t == 0
  {
    var duals :| Duals(pts, duals, dim, count);
    var d := duals[c];
    InnerScale(k, pts[a], d, dim);
    InnerAdd(Scale(g, pts[a]), Scale(t, pts[c]), d, dim);
    InnerScale(g, pts[a], d, dim);
    InnerScale(t, pts[c], d, dim);
    assert Inner(pts[a], d, dim) == 0 && Inner(pts[c], d, dim) == 1;
  }

  /** The starting sum is that of the run's own base plus the term put aside. */
  ghost predicate Owed(s0: seq<nat>, p0: seq<Point>, sb: seq<nat>, pb: seq<Point>, dim: nat, count: nat, aside: Term)
  {
    && count <= |s0| && count <= |p0| && count <= |sb| && count <= |pb| && Vectors(p0, dim) && Vectors(pb, dim)
    && |aside.point| == dim
    && forall j :: 0 <= j < dim ==>
         Dot(s0, p0, dim, j, count) == Dot(sb, pb, dim, j, count) + aside.scalar * aside.point[j]
  }

  /** Putting the scalar of entry c aside. */
  lemma PutAside(s0: seq<nat>, p0: seq<Point>, s: seq<nat>, pts: seq<Point>, dim: nat, n: nat, count: nat, c: nat)
    requires RunInv(s0, p0, s, pts, dim, n, count) && c < count
    ensures Owed(s0, p0, s[c := 0], pts, dim, count, Term(s[c], pts[c]))
    ensures RunInv(s[c := 0], pts, s[c := 0], pts, dim, count, count)
  {
    RunStart(s[c := 0], pts, dim, count, count);
    forall j | 0 <= j < dim
      ensures Dot(s0, p0, dim, j, count) == Dot(s[c := 0], pts, dim, j, count) + s[c] * pts[c][j]
    {
      DotChange(s, pts, s[c := 0], pts, dim, j, count, c);
    }
  }

  /** What the run returns with a term put aside: a multiple of its own sum, never the starting one. */
  lemma AsideSpoils(s0: seq<nat>, p0: seq<Point>, sb: seq<nat>, pb: seq<Point>, s: seq<nat>, pts: seq<Point>,
                    dim: nat, count: nat, a: nat, c: nat, aside: Term)
    requires RunInv(sb, pb, s, pts, dim, count, count) && OneLeft(s, count, a)
      && Owed(s0, p0, sb, pb, dim, count, aside)
    requires c < count && c != a && aside.point == pts[c] && aside.scalar > 0 && Independent(pts, dim, count)
    ensures Returned(s[a], pts[a]) != Some(Sum(s0, p0, dim, count))
  {
    SurvivorIsGcd(sb, pb, s, pts, dim, count, count, a);
    var g := s[a];
    if Returned(g, pts[a]) == Some(Sum(s0, p0, dim, count)) {
      var k := LadderFactor(g).value;
      forall j | 0 <= j < dim
        ensures Scale(k, pts[a])[j] == Add(Scale(g, pts[a]), Scale(aside.scalar, pts[c]))[j]
      {
        RunEnd(sb, pb, s, pts, dim, count, count, a, j);
      }
      assert Scale(k, pts[a]) == Add(Scale(g, pts[a]), Scale(aside.scalar, pts[c]));
      TermMissing(pts, dim, count, a, c, k, g, aside.scalar);
    }
  }
}

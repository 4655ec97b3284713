/**
  The scalar multiplications built on the recodings.  A point is given by its
  coefficients over two generators, the caller's point P and the base point B, so
  the group operations are those of the free abelian group on P and B.
 */
module ScalarMult {
  import opened Arith
  import opened Words
  import opened Modm
  import opened Digits
  import opened SlidingWindow
  import opened Window4

  /** p * P + b * B */
  datatype Element = Element(p: int, b: int)

  const NEUTRAL := Element(0, 0)

  function Plus(x: Element, y: Element): Element { Element(x.p + y.p, x.b + y.b) }
  function Negate(x: Element): Element { Element(-x.p, -x.b) }
  function Double(x: Element): Element { Plus(x, x) }

  const S1_WINDOW: nat := 5
  const S1_TABLE: nat := 8
  const S2_WINDOW: nat := 7
  const S2_TABLE: nat := 32

  /** Entry i of the precomputed table is (2i + 1) * B. */
  ghost predicate OddMultiplesOfB(table: seq<Element>)
  {
    |table| == S2_TABLE && forall i :: 0 <= i < S2_TABLE ==> table[i] == Element(0, 2 * i + 1)
  }

  /** A nonzero digit picks an entry inside the table, and that entry, negated for a
      negative digit, is the digit times the generator. */
  lemma TableIndex(d: int, w: nat)
    requires w == S1_WINDOW || w == S2_WINDOW
    requires d != 0 && Digit(d, w)
    ensures var a := if d < 0 then -d else d;
      0 <= a / 2 < (if w == S1_WINDOW then S1_TABLE else S2_TABLE) && 2 * (a / 2) + 1 == a
  {
    assert Pow2(4) == 16 && Pow2(6) == 64;
  }

  /** pre1: the odd multiples of P, each from the one before. */
  method BuildTable(point: Element) returns (pre: array<Element>)
    requires point == Element(1, 0)
    ensures fresh(pre) && pre.Length == S1_TABLE
    ensures forall i :: 0 <= i < S1_TABLE ==> pre[i] == Element(2 * i + 1, 0)
  {
    pre := new Element[S1_TABLE](_ => NEUTRAL);
    var d1 := Double(point);
    pre[0] := point;
    for i := 0 to S1_TABLE - 1
      invariant forall k :: 0 <= k <= i ==> pre[k] == Element(2 * k + 1, 0)
    {
      pre[i + 1] := Plus(d1, pre[i]);
    }
  }

  /** One digit position: double, then add the table entries the two digits pick. */
  method AddDigits(acc: Element, d1: int, d2: int, pre: array<Element>, table: seq<Element>) returns (r: Element)
    requires Digit(d1, S1_WINDOW) && Digit(d2, S2_WINDOW) && OddMultiplesOfB(table)
    requires pre.Length == S1_TABLE && forall i :: 0 <= i < S1_TABLE ==> pre[i] == Element(2 * i + 1, 0)
    ensures r == Element(2 * acc.p + d1, 2 * acc.b + d2)
  {
    r := Double(acc);
    if d1 != 0 {
      TableIndex(d1, S1_WINDOW);
      var e := pre[(if d1 < 0 then -d1 else d1) / 2];
      r := Plus(r, if d1 < 0 then Negate(e) else e);
    }
    if d2 != 0 {
      TableIndex(d2, S2_WINDOW);
      var e := table[(if d2 < 0 then -d2 else d2) / 2];
      r := Plus(r, if d2 < 0 then Negate(e) else e);
    }
  }

  /** ge25519_double_scalarmult_vartime: s1 * P + s2 * B. */
  method DoubleScalarmult(s1: array<u64>, s2: array<u64>, table: seq<Element>) returns (r: Element)
    requires Limbs(s1, MASK32) && Limbs(s2, MASK32) && Val(s1) <= TWO255 && Val(s2) <= TWO255
    requires OddMultiplesOfB(table)
    ensures r == Element(Val(s1), Val(s2))
  {
    var slide1, slide2 := new int[SOPLEN], new int[SOPLEN];
    ContractSlidingWindow(slide1, s1, S1_WINDOW);
    assert Tail(2, slide1[..], 0) == Val(s1);
    ContractSlidingWindow(slide2, s2, S2_WINDOW);
    assert Tail(2, slide1[..], 0) == Val(s1) && Tail(2, slide2[..], 0) == Val(s2);
    var pre := BuildTable(Element(1, 0));
    var d1, d2 := slide1[..], slide2[..];
    r := Interleave(d1, d2, pre, table);
  }

  /** The digit loop, from the highest position where either digit is nonzero. */
  method Interleave(d1: seq<int>, d2: seq<int>, pre: array<Element>, table: seq<Element>) returns (r: Element)
    requires DigitsBelow(d1, SOPLEN, S1_WINDOW) && DigitsBelow(d2, SOPLEN, S2_WINDOW) && |d1| == |d2| == SOPLEN
    requires OddMultiplesOfB(table)
    requires pre.Length == S1_TABLE && forall i :: 0 <= i < S1_TABLE ==> pre[i] == Element(2 * i + 1, 0)
    ensures r == Element(Tail(2, d1, 0), Tail(2, d2, 0))
  {
    r := NEUTRAL;
    var i := SOPLEN - 1;
    while i >= 0 && d1[i] == 0 && d2[i] == 0
      invariant -1 <= i < SOPLEN
      invariant Tail(2, d1, i + 1) == 0 && Tail(2, d2, i + 1) == 0
    {
      i := i - 1;
    }
    while i >= 0
      invariant -1 <= i < SOPLEN
      invariant r == Element(Tail(2, d1, i + 1), Tail(2, d2, i + 1))
    {
      r := AddDigits(r, d1[i], d2[i], pre, table);
      i := i - 1;
    }
  }

  // ---------- fixed base ----------

  /** Entry 8*pos + i of the base point table is (i + 1) * 256^pos * B. */
  ghost predicate BaseTable(table: seq<int>)
  {
    |table| == 256 && forall pos, i {:trigger Entry(table, pos, i)} :: 0 <= pos < 32 && 0 <= i < 8 ==>
                        Entry(table, pos, i) == (i + 1) * Power(256, pos)
  }

  function Entry(table: seq<int>, pos: int, i: int): int
    requires |table| == 256 && 0 <= pos < 32 && 0 <= i < 8
  {
    table[pos * 8 + i]
  }

  /** ge25519_scalarmult_base_choose_niels: b * 256^pos * B by eight conditional moves. */
  method Choose(table: seq<int>, pos: nat, b: int) returns (t: int)
    requires BaseTable(table) && pos < 32 && -8 <= b <= 8
    ensures t == b * Power(256, pos)
  {
    var u := if b < 0 then -b else b;
    t := 0;
    for i := 0 to 8
      invariant t == (if 1 <= u <= i then u * Power(256, pos) else 0)
    {
      assert Entry(table, pos, i) == (i + 1) * Power(256, pos);
      if u == i + 1 { t := Entry(table, pos, i); }
    }
    if b < 0 { t := -t; }
  }

  /** b[0] + b[2]*256 + ... and b[1] + b[3]*256 + ..., the first k terms of each. */
  ghost function Evens(b: seq<int>, k: nat): int
    requires 2 * k <= |b|
  {
    if k == 0 then 0 else Evens(b, k - 1) + b[2 * k - 2] * Power(256, k - 1)
  }

  ghost function Odds(b: seq<int>, k: nat): int
    requires 2 * k <= |b|
  {
    if k == 0 then 0 else Odds(b, k - 1) + b[2 * k - 1] * Power(256, k - 1)
  }

  lemma {:induction false} Power256(k: nat)
    ensures Power(16, 2 * k) == Power(256, k) && Power(16, 2 * k + 1) == 16 * Power(256, k)
  {
    if k == 0 {
    } else {
      Power256(k - 1);
    }
  }

  /** The odd-digits, four-doublings, even-digits schedule adds up all digits. */
  lemma {:induction false} Schedule(b: seq<int>, k: nat)
    requires 2 * k <= |b|
    ensures Segment(16, b, 0, 2 * k) == Evens(b, k) + 16 * Odds(b, k)
  {
    if k == 0 {
    } else {
      Schedule(b, k - 1);
      SegmentGrows(16, b, 0, 2 * k - 2);
      SegmentGrows(16, b, 0, 2 * k - 1);
      Power256(k - 1);
      TwoDigits(Power(256, k - 1), b[2 * k - 2], b[2 * k - 1]);
    }
  }

  lemma TwoDigits(p: int, x: int, y: int)
    ensures p * x + (16 * p) * y == x * p + 16 * (y * p)
  {
  }

  /** ge25519_scalarmult_base_niels: s * B. */
  method ScalarmultBase(table: seq<int>, s: array<u64>) returns (r: int)
    requires BaseTable(table) && Limbs(s, MASK32) && Val(s) < TWO255
    ensures r == Val(s)
  {
    var b := new int[QUADS];
    ContractWindow4(b, s);
    var digits := b[..];
    assert Tail(16, digits, 0) == Val(s);
    var odd := AddOdds(table, digits);
    r := odd + odd;
    r := r + r;
    r := r + r;
    r := r + r;
    var even := AddEvens(table, digits, r);
    r := even;
    AllDigits(digits);
  }

  lemma AllDigits(b: seq<int>)
    requires |b| == QUADS
    ensures Tail(16, b, 0) == Evens(b, 32) + 16 * Odds(b, 32)
  {
    Schedule(b, 32);
    TailSplits(16, b, 0, |b|);
    assert Tail(16, b, |b|) == 0;
  }

  /** The first half: the digits 1, 3, ..., 63. */
  method AddOdds(table: seq<int>, b: seq<int>) returns (r: int)
    requires BaseTable(table) && |b| == QUADS && forall k :: 0 <= k < QUADS ==> -8 <= b[k] <= 8
    ensures r == Odds(b, 32)
  {
    r := Choose(table, 0, b[1]);
    assert Power(256, 0) == 1;
    var i := 3;
    while i < 64
      invariant 3 <= i <= 65 && i % 2 == 1 && r == Odds(b, i / 2)
    {
      var t := Choose(table, i / 2, b[i]);
      r := r + t;
      i := i + 2;
    }
  }

  /** The second half: the digits 0, 2, ..., 62. */
  method AddEvens(table: seq<int>, b: seq<int>, start: int) returns (r: int)
    requires BaseTable(table) && |b| == QUADS && forall k :: 0 <= k < QUADS ==> -8 <= b[k] <= 8
    ensures r == start + Evens(b, 32)
  {
    var t := Choose(table, 0, b[0]);
    assert Power(256, 0) == 1;
    r := start + t;
    var i := 2;
    while i < 64
      invariant 2 <= i <= 64 && i % 2 == 0 && r == start + Evens(b, i / 2)
    {
      t := Choose(table, i / 2, b[i]);
      r := r + t;
      i := i + 2;
    }
  }
}

/** The closing step of the multi-scalar multiplication: one point times the surviving scalar. */
module FinalLadder {
  import opened Arith
  import opened Words
  import opened Collections
  import opened BatchLimbs
  import opened BosCarter

  const TOP_BIT: int := 0x80_0000_0000_0000       // 2^55
  const LIMB_128_BITS: nat := (128 + 56 - 1) / 56

  /** The part of the scalar the ladder reads is its remainder mod 2^224. */
  lemma LowFour(s: Scalar)
    ensures Low(s, 4) == Value(s) % TWO224
  {
    LowBound(s, 4);
    WeightIsPow2(4);
    BigPowers();
    DivModUnique(Value(s), TWO224, s[4], Low(s, 4));
  }

  lemma {:induction false} LowUpTo(s: Scalar, limb: nat, n: nat)
    requires limb <= n <= LIMBS && forall i :: limb <= i < n ==> s[i] == 0
    ensures Low(s, n) == Low(s, limb)
  {
    if limb == n {
    } else {
      LowUpTo(s, limb, n - 1);
    }
  }

  /** The top set bit of the low four limbs, as a number. */
  lemma TopBit(s: Scalar, limb: nat, flag: nat, e: nat)
    requires limb < 4 && flag == Pow2(e) && flag <= s[limb] < 2 * flag
    requires forall i :: limb < i < 4 ==> s[i] == 0
    ensures NextPow2(Low(s, 4)) == 2 * (flag * Weight(limb))
    ensures Low(s, 4) == Low(s, limb) + s[limb] * Weight(limb)
    ensures 1 <= Low(s, 4)
  {
    var w, u := Weight(limb), s[limb];
    LowUpTo(s, limb + 1, 4);
    LowBound(s, limb);
    WeightIsPow2(limb);
    Pow2Add(e, 56 * limb);
    MulMono(flag, u, w);
    MulMono(u + 1, 2 * flag, w);
    Dist(u, 1, w);
    Assoc(2, flag, w);
    NextPow2Unique(Low(s, 4), e + 56 * limb);
  }

  /** One bit: doubling, and adding when the bit is set, shifts the bit from the
      unread remainder into the factor. */
  lemma OneBit(c: int, u: nat, flag: nat, w: nat, low: int, total: int)
    requires flag >= 1
    requires c * (2 * flag * w) + low + (u % (2 * flag)) * w == total
    ensures (2 * c + (u / flag) % 2) * (flag * w) + low + (u % flag) * w == total
  {
    var b := (u / flag) % 2;
    BitSplit(u, flag);
    assert u % (2 * flag) == b * flag + u % flag;
    Dist(b * flag, u % flag, w);
    Assoc(b, flag, w);
    Dist(2 * c, b, flag * w);
    assert c * (2 * flag * w) == 2 * c * (flag * w);
  }

  lemma BitSplit(u: nat, flag: nat)
    requires flag >= 1
    ensures u % (2 * flag) == ((u / flag) % 2) * flag + u % flag
  {
    DivMod(u, flag);
    var q := u / flag;
    DivMod(q, 2);
    var b := q % 2;
    assert u == (q / 2) * (2 * flag) + (b * flag + u % flag);
    MulMono(b, 1, flag);
    MulPos(b, flag);
    DivModUnique(u, 2 * flag, q / 2, b * flag + u % flag);
  }

  /** Moving on to the next lower limb. */
  lemma NextLimb(c: int, s: Scalar, limb: nat, total: int)
    requires 1 <= limb < LIMBS
    requires c * (1 * Weight(limb)) + Low(s, limb) + (s[limb] % 1) * Weight(limb) == total
    ensures c * (2 * TOP_BIT * Weight(limb - 1)) + Low(s, limb - 1) + (s[limb - 1] % (2 * TOP_BIT)) * Weight(limb - 1)
      == total
  {
    assert 2 * TOP_BIT == BASE;
    assert s[limb] % 1 == 0;
    assert s[limb - 1] % BASE == s[limb - 1];
  }

  /** What a ladder position still owes: the factor so far at its weight, plus the
      bits of the low four limbs below `width` in limb `limb`. */
  ghost predicate Owes(c: int, s: Scalar, limb: nat, width: nat, total: int)
    requires limb < LIMBS && width >= 1
  {
    c * (width * Weight(limb)) + Low(s, limb) + (s[limb] % width) * Weight(limb) == total
  }

  lemma OwesStart(s: Scalar, limb: nat, flag: nat)
    requires limb < 4 && 1 <= flag <= s[limb] < 2 * flag
    requires Low(s, 4) == Low(s, limb) + s[limb] * Weight(limb)
    requires NextPow2(Low(s, 4)) == 2 * (flag * Weight(limb))
    ensures Owes(1, s, limb, 2 * flag, Low(s, 4) + NextPow2(Low(s, 4)))
  {
    DivModUnique(s[limb], 2 * flag, 0, s[limb]);
    Assoc(2, flag, Weight(limb));
  }

  lemma OwesBit(c: int, s: Scalar, limb: nat, flag: nat, total: int)
    requires limb < LIMBS && flag >= 1 && Owes(c, s, limb, 2 * flag, total)
    ensures Owes(2 * c + (s[limb] / flag) % 2, s, limb, flag, total)
  {
    OneBit(c, s[limb], flag, Weight(limb), Low(s, limb), total);
  }

  lemma OwesNextLimb(c: int, s: Scalar, limb: nat, total: int)
    requires 1 <= limb < LIMBS && Owes(c, s, limb, 1, total)
    ensures Owes(c, s, limb - 1, 2 * TOP_BIT, total)
  {
    NextLimb(c, s, limb, total);
  }

  lemma OwesNothing(c: int, s: Scalar, total: int)
    requires Owes(c, s, 0, 1, total)
    ensures c == total
  {
  }

  lemma ScaleStep(c: int, bit: int, point: Point, r: Point)
    requires 0 <= bit <= 1 && r == Scale(c, point)
    ensures (if bit == 1 then Add(Add(r, r), point) else Add(r, r)) == Scale(2 * c + bit, point)
  {
    forall j | 0 <= j < |point|
      ensures (2 * c + bit) * point[j] == 2 * (c * point[j]) + bit * point[j]
    {
      Dist(2 * c, bit, point[j]);
    }
  }

  lemma TestBit(u: nat, flag: nat)
    requires flag >= 1 && u < 2 * flag
    ensures (u / flag) % 2 == if u >= flag then 1 else 0
  {
    if u >= flag { DivModUnique(u, flag, 1, u - flag); } else { DivModUnique(u, flag, 0, u); }
  }

  /** The limb and the flag of the first set bit, found as the source finds them. */
  method FindTop(scalar: Scalar) returns (limb: int, flag: nat, ghost e: nat)
    ensures limb < 0 <==> Low(scalar, 4) == 0
    ensures limb >= 0 ==> limb < 4 && flag == Pow2(e) && flag <= scalar[limb] < 2 * flag && e <= 55
    ensures limb >= 0 ==> forall i :: limb < i < 4 ==> scalar[i] == 0
  {
    limb := LIMB_128_BITS;
    while limb >= 0 && scalar[limb] == 0
      invariant -1 <= limb <= 3 && forall i :: limb < i < 4 ==> scalar[i] == 0
    {
      limb := limb - 1;
    }
    LowZero(scalar, 4);
    flag, e := TOP_BIT, 55;
    Pow2Of56();
    if limb < 0 { return; }
    while (scalar[limb] / flag) % 2 == 0
      invariant flag == Pow2(e) && e <= 55 && scalar[limb] < 2 * flag
      decreases e
    {
      TestBit(scalar[limb], flag);
      assert e > 0;
      flag, e := flag / 2, e - 1;
    }
    TestBit(scalar[limb], flag);
  }

  /** ge25519_multi_scalarmult_vartime_final: returns LadderFactor(scalar) times the
      point, and None where the scan for a set bit leaves the scalar. */
  method Final(point: Point, scalar: Scalar) returns (r: Option<Point>)
    ensures r == Returned(Value(scalar), point)
  {
    OneMeaning(scalar);
    ZeroMeaning(scalar);
    if IsOne(scalar) {
      assert Scale(1, point) == point;
      return Some(point);
    } else if IsZero(scalar) {
      var neutral := seq(|point|, _ => 0);
      assert Scale(0, point) == neutral;
      return Some(neutral);
    }
    LowFour(scalar);
    var limb, flag, e := FindTop(scalar);
    if limb < 0 { return None; }
    TopBit(scalar, limb, flag, e);
    r := Ladder(point, scalar, limb, flag, e);
  }

  /** One turn of the ladder: double, and add the point for a set bit. */
  method DoubleAdd(acc: Point, point: Point, bit: nat, ghost c: int) returns (r: Point)
    requires bit <= 1 && acc == Scale(c, point)
    ensures r == Scale(2 * c + bit, point)
  {
    ScaleStep(c, bit, point, acc);
    r := Add(acc, acc);
    if bit == 1 { r := Add(r, point); }
  }

  /** To the next lower bit, of the next lower limb when the limb is used up. */
  method NextBit(scalar: Scalar, limb: nat, flag: nat, ghost e: nat, ghost c: int, ghost total: int)
    returns (limb': nat, flag': nat, ghost e': nat)
    requires limb < 4 && flag == Pow2(e) && e <= 55 && Owes(c, scalar, limb, flag, total) && (flag == 1 ==> limb > 0)
    ensures limb' < 4 && flag' == Pow2(e') && e' <= 55 && Owes(c, scalar, limb', 2 * flag', total)
    ensures limb' < limb || (limb' == limb && e' < e)
  {
    if flag == 1 {
      OwesNextLimb(c, scalar, limb, total);
      Pow2Of56();
      limb', flag', e' := limb - 1, TOP_BIT, 55;
    } else {
      assert e > 0;
      assert flag == 2 * (flag / 2);
      limb', flag', e' := limb, flag / 2, e - 1;
    }
  }

  method Ladder(point: Point, scalar: Scalar, limb0: nat, flag0: nat, ghost e0: nat) returns (r: Option<Point>)
    requires limb0 < 4 && flag0 == Pow2(e0) && e0 <= 55 && flag0 <= scalar[limb0] < 2 * flag0
    requires Low(scalar, 4) == Low(scalar, limb0) + scalar[limb0] * Weight(limb0)
    requires NextPow2(Low(scalar, 4)) == 2 * (flag0 * Weight(limb0))
    ensures r == Some(Scale(Low(scalar, 4) + NextPow2(Low(scalar, 4)), point))
  {
    var acc, limb: nat, flag: nat := point, limb0, flag0;
    ghost var e: nat, c: int := e0, 1;
    ghost var total := Low(scalar, 4) + NextPow2(Low(scalar, 4));
    assert Scale(1, point) == point;
    OwesStart(scalar, limb, flag);
    while true
      invariant 0 <= limb < 4 && flag == Pow2(e) && e <= 55
      invariant acc == Scale(c, point)
      invariant Owes(c, scalar, limb, 2 * flag, total)
      decreases limb, e
    {
      var bit := (scalar[limb] / flag) % 2;
      OwesBit(c, scalar, limb, flag, total);
      acc := DoubleAdd(acc, point, bit, c);
      c := 2 * c + bit;
      if flag == 1 && limb == 0 { break; }
      limb, flag, e := NextBit(scalar, limb, flag, e, c, total);
    }
    OwesNothing(c, scalar, total);
    r := Some(acc);
  }
}

/** The addition chains for inversion and square roots: which power they compute. */
module FieldChains {
  import opened Arith
  import opened Words
  import opened Field25519

  /** The array holds z^e, with limbs small enough for every operation of the chains. */
  ghost predicate Holds(a: array<u64>, z: int, e: nat)
    reads a
  {
    LimbsBelow(a, TWO54) && Cong(FVal(a), Exp(z, e))
  }

  lemma {:induction false} ExpMul(z: int, e: nat, n: nat)
    ensures e * n >= 0 && Exp(Exp(z, e), n) == Exp(z, e * n)
  {
    if n == 0 {
    } else {
      ExpMul(z, e, n - 1);
      assert e * n == e + e * (n - 1);
      ExpAdd(z, e, e * (n - 1));
    }
  }

  lemma {:induction false} CongExp(x: int, y: int, n: nat)
    requires Cong(x, y)
    ensures Cong(Exp(x, n), Exp(y, n))
  {
    if n == 0 {
    } else {
      CongExp(x, y, n - 1);
      CongMul(x, y, Exp(x, n - 1), Exp(y, n - 1));
    }
  }

  /** 2^n - 1: n ones in binary. */
  function Ones(n: nat): nat { Pow2(n) - 1 }

  lemma OnesStep(m: nat, k: nat)
    ensures Ones(m) * Pow2(k) + Ones(k) == Ones(m + k)
  {
    Pow2Add(m, k);
    Dist(Pow2(m), 1, Pow2(k));
  }

  method MulPowers(out: array<u64>, x: array<u64>, y: array<u64>, ghost z: int, ghost ex: nat, ghost ey: nat)
    requires out.Length == 5 && Holds(x, z, ex) && Holds(y, z, ey)
    modifies out
    ensures Holds(out, z, ex + ey)
  {
    ghost var vx, vy := FVal(x), FVal(y);
    Mul(out, x, y);
    CongMul(vy, Exp(z, ey), vx, Exp(z, ex));
    CongTrans(FVal(out), vy * vx, Exp(z, ey) * Exp(z, ex));
    ExpAdd(z, ey, ex);
  }

  method SquarePowers(out: array<u64>, x: array<u64>, count: nat, ghost z: int, ghost e: nat)
    requires out.Length == 5 && Holds(x, z, e) && count >= 1
    modifies out
    ensures e * Pow2(count) >= 0 && Holds(out, z, e * Pow2(count))
  {
    ghost var v := FVal(x);
    SquareTimes(out, x, count);
    CongExp(v, Exp(z, e), Pow2(count));
    CongTrans(FVal(out), Exp(v, Pow2(count)), Exp(Exp(z, e), Pow2(count)));
    ExpMul(z, e, Pow2(count));
  }

  /** From m ones in `x` and k ones in `y` to m + k ones: square k times, multiply. */
  method JoinOnes(out: array<u64>, t0: array<u64>, x: array<u64>, y: array<u64>, m: nat, k: nat, ghost z: int)
    requires out.Length == 5 && t0.Length == 5 && t0 != y && k >= 1
    requires Holds(x, z, Ones(m)) && Holds(y, z, Ones(k))
    modifies out, t0
    ensures Holds(out, z, Ones(m + k))
  {
    SquarePowers(t0, x, k, z, Ones(m));
    MulPowers(out, t0, y, z, Ones(m) * Pow2(k), Ones(k));
    OnesStep(m, k);
  }

  /** The pattern the chain repeats: from m ones over 2m and 4m to 5m. */
  method FiveFoldOnes(b: array<u64>, m: nat, t0: array<u64>, c: array<u64>, ghost z: int)
    requires m >= 1 && Holds(b, z, Ones(m)) && t0.Length == 5 && c.Length == 5 && t0 != b && c != b && t0 != c
    modifies b, t0, c
    ensures Holds(b, z, Ones(5 * m))
  {
    JoinOnes(c, t0, b, b, m, m, z);
    JoinOnes(t0, t0, c, c, 2 * m, 2 * m, z);
    JoinOnes(b, t0, t0, b, 4 * m, m, z);
  }

  /** curve25519_pow_two5mtwo0_two250mtwo0 with `n` for 5: from n ones to 50n. */
  method FiftyFoldOnes(b: array<u64>, n: nat, ghost z: int)
    requires n >= 1 && Holds(b, z, Ones(n))
    modifies b
    ensures Holds(b, z, Ones(50 * n))
  {
    var t0, c := new u64[5], new u64[5];
    JoinOnes(b, t0, b, b, n, n, z);
    FiveFoldOnes(b, 2 * n, t0, c, z);
    FiveFoldOnes(b, 10 * n, t0, c, z);
  }

  /** The common start of both chains: z^11 and z^31. */
  method Eleven(a: array<u64>, b: array<u64>, z: array<u64>, ghost v: int)
    requires a.Length == 5 && b.Length == 5 && a != b && a != z && b != z && Holds(z, v, 1)
    modifies a, b
    ensures Holds(a, v, 11) && Holds(b, v, 31)
  {
    var t0 := new u64[5];
    assert Pow2(1) == 2 && Pow2(2) == 4;
    SquarePowers(a, z, 1, v, 1);
    SquarePowers(t0, a, 2, v, 2);
    MulPowers(b, t0, z, v, 8, 1);
    MulPowers(a, b, a, v, 9, 2);
    SquarePowers(t0, a, 1, v, 11);
    MulPowers(b, t0, b, v, 22, 9);
  }

  lemma HoldsSelf(z: array<u64>)
    requires LimbsBelow(z, TWO54)
    ensures Holds(z, FVal(z), 1)
  {
    assert Exp(FVal(z), 1) == FVal(z) * Exp(FVal(z), 0);
  }

  /** Both chains: z^11 beside, and n * 50 ones shifted up by `up` in, b.  The number of ones that the chain starts
      from is a parameter n, which is 5, so that the exponents stay names to the verifier: with the literal it
      would unroll 2^250. */
  method ShiftedOnes(a: array<u64>, b: array<u64>, z: array<u64>, n: nat, up: nat, ghost v: int)
    requires a.Length == 5 && b.Length == 5 && a != b && a != z && b != z && Holds(z, v, 1) && n == 5 && up >= 1
    modifies a, b
    ensures Holds(a, v, 11) && Holds(b, v, Ones(50 * n) * Pow2(up))
  {
    Eleven(a, b, z, v);
    assert Ones(5) == 31;
    FiftyFoldOnes(b, n, v);
    SquarePowers(b, b, up, v, Ones(50 * n));
  }

  lemma ChainExponents(n: nat)
    ensures Pow2(n + 5) >= 21 && Ones(n) * Pow2(5) + 11 == Pow2(n + 5) - 21
    ensures Pow2(n + 2) >= 3 && Ones(n) * Pow2(2) + 1 == Pow2(n + 2) - 3
  {
    assert Pow2(5) == 32 && Pow2(2) == 4;
    Pow2Add(5, n);
    Pow2Add(2, n);
  }

  /** The chain of curve25519_recip; n is 5, as for ShiftedOnes. */
  method RecipChain(out: array<u64>, z: array<u64>, n: nat)
    requires out.Length == 5 && LimbsBelow(z, TWO54) && n == 5
    modifies out
    ensures LimbsBelow(out, TWO54)
    ensures Pow2(50 * n + 5) >= 21 && Cong(FVal(out), Exp(old(FVal(z)), Pow2(50 * n + 5) - 21))
  {
    ghost var v := FVal(z);
    var a, b := new u64[5], new u64[5];
    HoldsSelf(z);
    ShiftedOnes(a, b, z, n, 5, v);
    ChainExponents(50 * n);
    MulPowers(out, b, a, v, Ones(50 * n) * Pow2(5), 11);
  }

  /** curve25519_recip: z^(2^255 - 21), that is z^(p - 2). */
  method Recip(out: array<u64>, z: array<u64>)
    requires out.Length == 5 && LimbsBelow(z, TWO54)
    modifies out
    ensures LimbsBelow(out, TWO54)
    ensures Pow2(255) >= 21 && Cong(FVal(out), Exp(old(FVal(z)), Pow2(255) - 21))
  {
    RecipChain(out, z, 5);
  }

  /** The chain of curve25519_pow_two252m3; n is 5, as for ShiftedOnes. */
  method PowChain(out: array<u64>, z: array<u64>, n: nat)
    requires out.Length == 5 && LimbsBelow(z, TWO54) && n == 5
    modifies out
    ensures LimbsBelow(out, TWO54)
    ensures Pow2(50 * n + 2) >= 3 && Cong(FVal(out), Exp(old(FVal(z)), Pow2(50 * n + 2) - 3))
  {
    ghost var v := FVal(z);
    var c, b := new u64[5], new u64[5];
    HoldsSelf(z);
    ShiftedOnes(c, b, z, n, 2, v);
    ChainExponents(50 * n);
    MulPowers(out, b, z, v, Ones(50 * n) * Pow2(2), 1);
  }

  /** curve25519_pow_two252m3: z^(2^252 - 3), that is z^((p - 5) / 8). */
  method PowTwo252m3(out: array<u64>, z: array<u64>)
    requires out.Length == 5 && LimbsBelow(z, TWO54)
    modifies out
    ensures LimbsBelow(out, TWO54)
    ensures Pow2(252) >= 3 && Cong(FVal(out), Exp(old(FVal(z)), Pow2(252) - 3))
  {
    PowChain(out, z, 5);
  }
}

/**
  BLAKE2b compression two ways: the scalar reference on an array of sixteen words,
  and the row-parallel form on eight two-word registers.  Both are generic in the
  word operations, so that everything proved here holds for 64-bit words and for
  any other words with the two algebraic laws that the rearrangement needs.
 */
module Blake2bRounds {

  /** Addition, exclusive or and the four rotations on words. */
  datatype Ops<!W> = Ops(add: (W, W) -> W, xor: (W, W) -> W, r32: W -> W, r24: W -> W, r16: W -> W, r63: W -> W)

  /** The laws that let a sum and an exclusive or be taken in another order. */
  ghost predicate Lawful<W(!new)>(o: Ops<W>)
  {
    && (forall a, b, m :: o.add(o.add(a, m), b) == o.add(o.add(a, b), m))
    && (forall h, a, c :: o.xor(h, o.xor(c, a)) == o.xor(o.xor(h, a), c))
  }

  /** One column or diagonal: the four words that G mixes. */
  datatype Quad<W> = Quad(a: W, b: W, c: W, d: W)

  /** G of section 3.1 of RFC 7693. */
  function G<W>(o: Ops<W>, q: Quad<W>, x: W, y: W): Quad<W>
  {
    var a1 := o.add(o.add(q.a, q.b), x);
    var d1 := o.r32(o.xor(q.d, a1));
    var c1 := o.add(q.c, d1);
    var b1 := o.r24(o.xor(q.b, c1));
    var a2 := o.add(o.add(a1, b1), y);
    var d2 := o.r16(o.xor(d1, a2));
    var c2 := o.add(c1, d2);
    var b2 := o.r63(o.xor(b1, c2));
    Quad(a2, b2, c2, d2)
  }

  /** A row of the working matrix; the matrix has four. */
  datatype Row<W> = Row(w0: W, w1: W, w2: W, w3: W)

  datatype Matrix<W> = Matrix(a: Row<W>, b: Row<W>, c: Row<W>, d: Row<W>)

  function FromQuads<W>(q0: Quad<W>, q1: Quad<W>, q2: Quad<W>, q3: Quad<W>): Matrix<W>
  {
    Matrix(Row(q0.a, q1.a, q2.a, q3.a), Row(q0.b, q1.b, q2.b, q3.b), Row(q0.c, q1.c, q2.c, q3.c),
           Row(q0.d, q1.d, q2.d, q3.d))
  }

  const SIGMA: seq<seq<nat>> := [
    [0, 1, 2, 3, 4, 5, 6, 7, 8, 9, 10, 11, 12, 13, 14, 15],
    [14, 10, 4, 8, 9, 15, 13, 6, 1, 12, 0, 2, 11, 7, 5, 3],
    [11, 8, 12, 0, 5, 2, 15, 13, 10, 14, 3, 6, 7, 1, 9, 4],
    [7, 9, 3, 1, 13, 12, 11, 14, 2, 6, 5, 10, 4, 0, 15, 8],
    [9, 0, 5, 7, 2, 4, 10, 15, 14, 1, 11, 12, 6, 8, 3, 13],
    [2, 12, 6, 10, 0, 11, 8, 3, 4, 13, 7, 5, 15, 14, 1, 9],
    [12, 5, 1, 15, 14, 13, 4, 10, 0, 7, 6, 3, 9, 2, 8, 11],
    [13, 11, 7, 14, 12, 1, 3, 9, 5, 0, 15, 4, 8, 6, 2, 10],
    [6, 15, 14, 9, 11, 3, 0, 8, 12, 2, 13, 7, 1, 4, 10, 5],
    [10, 2, 8, 4, 7, 6, 1, 5, 15, 11, 9, 14, 3, 12, 13, 0],
    [0, 1, 2, 3, 4, 5, 6, 7, 8, 9, 10, 11, 12, 13, 14, 15],
    [14, 10, 4, 8, 9, 15, 13, 6, 1, 12, 0, 2, 11, 7, 5, 3]
  ]

  /** Per round and half step, the message words that LOAD_MSG puts into the low and
      high half of b0 and of b1. */
  const LOADS: seq<seq<seq<nat>>> := [
    [[0, 2, 4, 6], [1, 3, 5, 7], [8, 10, 12, 14], [9, 11, 13, 15]],
    [[14, 4, 9, 13], [10, 8, 15, 6], [1, 0, 11, 5], [12, 2, 7, 3]],
    [[11, 12, 5, 15], [8, 0, 2, 13], [10, 3, 7, 9], [14, 6, 1, 4]],
    [[7, 3, 13, 11], [9, 1, 12, 14], [2, 5, 4, 15], [6, 10, 0, 8]],
    [[9, 5, 2, 10], [0, 7, 4, 15], [14, 11, 6, 3], [1, 12, 8, 13]],
    [[2, 6, 0, 8], [12, 10, 11, 3], [4, 7, 15, 1], [13, 5, 14, 9]],
    [[12, 1, 14, 4], [5, 15, 13, 10], [0, 6, 9, 8], [7, 3, 2, 11]],
    [[13, 7, 12, 3], [11, 14, 1, 9], [5, 15, 8, 2], [0, 4, 6, 10]],
    [[6, 14, 11, 0], [15, 9, 3, 8], [12, 13, 1, 10], [2, 7, 4, 5]],
    [[10, 8, 7, 1], [2, 4, 6, 5], [15, 9, 3, 13], [11, 14, 12, 0]],
    [[0, 2, 4, 6], [1, 3, 5, 7], [8, 10, 12, 14], [9, 11, 13, 15]],
    [[14, 4, 9, 13], [10, 8, 15, 6], [1, 0, 11, 5], [12, 2, 7, 3]]
  ]

  /** Every row of the schedule lists sixteen word indices. */
  ghost predicate Schedule(s: seq<nat>)
  {
    |s| == 16 && forall i :: 0 <= i < 16 ==> s[i] < 16
  }

  lemma SigmaRows(r: nat)
    requires r < 12
    ensures |SIGMA| == 12 && Schedule(SIGMA[r])
  {
  }

  /** The loads of a round pick the words the schedule names, lane by lane. */
  lemma LoadsFollowSigma(r: nat)
    requires r < 12
    ensures |LOADS| == 12 && |LOADS[r]| == 4 && |SIGMA| == 12 && |SIGMA[r]| == 16
    ensures LOADS[r][0] == [SIGMA[r][0], SIGMA[r][2], SIGMA[r][4], SIGMA[r][6]]
    ensures LOADS[r][1] == [SIGMA[r][1], SIGMA[r][3], SIGMA[r][5], SIGMA[r][7]]
    ensures LOADS[r][2] == [SIGMA[r][8], SIGMA[r][10], SIGMA[r][12], SIGMA[r][14]]
    ensures LOADS[r][3] == [SIGMA[r][9], SIGMA[r][11], SIGMA[r][13], SIGMA[r][15]]
  {
  }

  // ---------- one round, written once for all ----------

  /** G on the four columns of a matrix, with one pair of message words for each. */
  function Mix<W>(o: Ops<W>, v: Matrix<W>, x: Row<W>, y: Row<W>): Matrix<W>
  {
    FromQuads(
      G(o, Quad(v.a.w0, v.b.w0, v.c.w0, v.d.w0), x.w0, y.w0),
      G(o, Quad(v.a.w1, v.b.w1, v.c.w1, v.d.w1), x.w1, y.w1),
      G(o, Quad(v.a.w2, v.b.w2, v.c.w2, v.d.w2), x.w2, y.w2),
      G(o, Quad(v.a.w3, v.b.w3, v.c.w3, v.d.w3), x.w3, y.w3))
  }

  /** Rows shifted so that diagonals become columns, and back. */
  function Shift<W>(v: Matrix<W>): Matrix<W>
  {
    Matrix(v.a, Row(v.b.w1, v.b.w2, v.b.w3, v.b.w0), Row(v.c.w2, v.c.w3, v.c.w0, v.c.w1),
           Row(v.d.w3, v.d.w0, v.d.w1, v.d.w2))
  }

  function Unshift<W>(v: Matrix<W>): Matrix<W>
  {
    Matrix(v.a, Row(v.b.w3, v.b.w0, v.b.w1, v.b.w2), Row(v.c.w2, v.c.w3, v.c.w0, v.c.w1),
           Row(v.d.w1, v.d.w2, v.d.w3, v.d.w0))
  }

  /** Four words of the message, by position in the schedule. */
  function Pick<W>(m: seq<W>, s: seq<nat>, i: nat): Row<W>
    requires |m| == 16 && Schedule(s) && i + 6 < 16
  {
    Row(m[s[i]], m[s[i + 2]], m[s[i + 4]], m[s[i + 6]])
  }

  function ColumnStep<W>(o: Ops<W>, v: Matrix<W>, m: seq<W>, s: seq<nat>): Matrix<W>
    requires |m| == 16 && Schedule(s)
  {
    Mix(o, v, Pick(m, s, 0), Pick(m, s, 1))
  }

  function DiagonalStep<W>(o: Ops<W>, v: Matrix<W>, m: seq<W>, s: seq<nat>): Matrix<W>
    requires |m| == 16 && Schedule(s)
  {
    Unshift(Mix(o, Shift(v), Pick(m, s, 8), Pick(m, s, 9)))
  }

  function Round<W>(o: Ops<W>, v: Matrix<W>, m: seq<W>, s: seq<nat>): Matrix<W>
    requires |m| == 16 && Schedule(s)
  {
    DiagonalStep(o, ColumnStep(o, v, m, s), m, s)
  }

  /** The first n rounds. */
  function Rounds<W>(o: Ops<W>, v: Matrix<W>, m: seq<W>, n: nat): Matrix<W>
    requires |m| == 16 && n <= 12
  {
    if n == 0 then v else
      SigmaRows(n - 1);
      Round(o, Rounds(o, v, m, n - 1), m, SIGMA[n - 1])
  }

  /** The matrix a compression starts from: chaining value, IV, counter and flags. */
  function Start<W>(o: Ops<W>, h: seq<W>, iv: seq<W>, t: seq<W>, f: seq<W>): Matrix<W>
    requires |h| == 8 && |iv| == 8 && |t| == 2 && |f| == 2
  {
    Matrix(Row(h[0], h[1], h[2], h[3]), Row(h[4], h[5], h[6], h[7]), Row(iv[0], iv[1], iv[2], iv[3]),
           Row(o.xor(iv[4], t[0]), o.xor(iv[5], t[1]), o.xor(iv[6], f[0]), o.xor(iv[7], f[1])))
  }

  function Fold<W>(o: Ops<W>, h: seq<W>, v: Matrix<W>): seq<W>
    requires |h| == 8
  {
    [o.xor(o.xor(h[0], v.a.w0), v.c.w0), o.xor(o.xor(h[1], v.a.w1), v.c.w1),
     o.xor(o.xor(h[2], v.a.w2), v.c.w2), o.xor(o.xor(h[3], v.a.w3), v.c.w3),
     o.xor(o.xor(h[4], v.b.w0), v.d.w0), o.xor(o.xor(h[5], v.b.w1), v.d.w1),
     o.xor(o.xor(h[6], v.b.w2), v.d.w2), o.xor(o.xor(h[7], v.b.w3), v.d.w3)]
  }

  /** The compression function F of section 3.2 of RFC 7693, on words. */
  function Compress<W>(o: Ops<W>, h: seq<W>, iv: seq<W>, m: seq<W>, t: seq<W>, f: seq<W>): seq<W>
    requires |h| == 8 && |iv| == 8 && |m| == 16 && |t| == 2 && |f| == 2
  {
    Fold(o, h, Rounds(o, Start(o, h, iv, t, f), m, 12))
  }

  /** Two sets of operations that compute the same words. */
  ghost predicate Agree<W(!new)>(o: Ops<W>, p: Ops<W>)
  {
    && (forall a, b :: o.add(a, b) == p.add(a, b))
    && (forall a, b :: o.xor(a, b) == p.xor(a, b))
    && (forall w :: o.r32(w) == p.r32(w))
    && (forall w :: o.r24(w) == p.r24(w))
    && (forall w :: o.r16(w) == p.r16(w))
    && (forall w :: o.r63(w) == p.r63(w))
  }

  lemma AgreeG<W(!new)>(o: Ops<W>, p: Ops<W>, q: Quad<W>, x: W, y: W)
    requires Agree(o, p)
    ensures G(o, q, x, y) == G(p, q, x, y)
  {
  }

  lemma AgreeMix<W(!new)>(o: Ops<W>, p: Ops<W>, v: Matrix<W>, x: Row<W>, y: Row<W>)
    requires Agree(o, p)
    ensures Mix(o, v, x, y) == Mix(p, v, x, y)
  {
    AgreeG(o, p, Quad(v.a.w0, v.b.w0, v.c.w0, v.d.w0), x.w0, y.w0);
    AgreeG(o, p, Quad(v.a.w1, v.b.w1, v.c.w1, v.d.w1), x.w1, y.w1);
    AgreeG(o, p, Quad(v.a.w2, v.b.w2, v.c.w2, v.d.w2), x.w2, y.w2);
    AgreeG(o, p, Quad(v.a.w3, v.b.w3, v.c.w3, v.d.w3), x.w3, y.w3);
  }

  lemma {:induction false} AgreeRounds<W(!new)>(o: Ops<W>, p: Ops<W>, v: Matrix<W>, m: seq<W>, n: nat)
    requires Agree(o, p) && |m| == 16 && n <= 12
    ensures Rounds(o, v, m, n) == Rounds(p, v, m, n)
  {
    if n == 0 {
    } else {
      AgreeRounds(o, p, v, m, n - 1);
      SigmaRows(n - 1);
      var s := SIGMA[n - 1];
      var u := Rounds(o, v, m, n - 1);
      AgreeMix(o, p, u, Pick(m, s, 0), Pick(m, s, 1));
      AgreeMix(o, p, Shift(ColumnStep(o, u, m, s)), Pick(m, s, 8), Pick(m, s, 9));
    }
  }

  lemma AgreeCompress<W(!new)>(o: Ops<W>, p: Ops<W>, h: seq<W>, iv: seq<W>, m: seq<W>, t: seq<W>, f: seq<W>)
    requires Agree(o, p) && |h| == 8 && |iv| == 8 && |m| == 16 && |t| == 2 && |f| == 2
    ensures Compress(o, h, iv, m, t, f) == Compress(p, h, iv, m, t, f)
  {
    var v := Start(o, h, iv, t, f);
    assert v == Start(p, h, iv, t, f);
    AgreeRounds(o, p, v, m, 12);
  }

  // ---------- the scalar reference, on an array ----------

  function MatrixOf<W>(v: seq<W>): Matrix<W>
    requires |v| == 16
  {
    Matrix(Row(v[0], v[1], v[2], v[3]), Row(v[4], v[5], v[6], v[7]), Row(v[8], v[9], v[10], v[11]),
           Row(v[12], v[13], v[14], v[15]))
  }

  /** One half of G with its two rotations. */
  function HalfG<W>(o: Ops<W>, q: Quad<W>, x: W, r1: W -> W, r2: W -> W): Quad<W>
  {
    var a := o.add(o.add(q.a, q.b), x);
    var d := r1(o.xor(q.d, a));
    var c := o.add(q.c, d);
    Quad(a, r2(o.xor(q.b, c)), c, d)
  }

  method RefHalf<W>(o: Ops<W>, v: array<W>, a: nat, b: nat, c: nat, d: nat, x: W, r1: W -> W, r2: W -> W)
    requires v.Length == 16 && a < 4 <= b < 8 <= c < 12 <= d < 16
    modifies v
    ensures var q := HalfG(o, Quad(old(v[a]), old(v[b]), old(v[c]), old(v[d])), x, r1, r2);
      v[..] == old(v[..])[a := q.a][b := q.b][c := q.c][d := q.d]
  {
    v[a] := o.add(o.add(v[a], v[b]), x);
    v[d] := r1(o.xor(v[d], v[a]));
    v[c] := o.add(v[c], v[d]);
    v[b] := r2(o.xor(v[b], v[c]));
  }

  /** The macro G of the reference, in place on four entries of v. */
  method RefG<W>(o: Ops<W>, v: array<W>, a: nat, b: nat, c: nat, d: nat, x: W, y: W)
    requires v.Length == 16 && a < 4 <= b < 8 <= c < 12 <= d < 16
    modifies v
    ensures var q := G(o, Quad(old(v[a]), old(v[b]), old(v[c]), old(v[d])), x, y);
      v[..] == old(v[..])[a := q.a][b := q.b][c := q.c][d := q.d]
  {
    RefHalf(o, v, a, b, c, d, x, o.r32, o.r24);
    RefHalf(o, v, a, b, c, d, y, o.r16, o.r63);
  }

  method RefColumns<W>(o: Ops<W>, v: array<W>, m: seq<W>, s: seq<nat>)
    requires v.Length == 16 && |m| == 16 && Schedule(s)
    modifies v
    ensures MatrixOf(v[..]) == ColumnStep(o, old(MatrixOf(v[..])), m, s)
  {
    RefG(o, v, 0, 4, 8, 12, m[s[0]], m[s[1]]);
    RefG(o, v, 1, 5, 9, 13, m[s[2]], m[s[3]]);
    RefG(o, v, 2, 6, 10, 14, m[s[4]], m[s[5]]);
    RefG(o, v, 3, 7, 11, 15, m[s[6]], m[s[7]]);
  }

  method RefDiagonals<W>(o: Ops<W>, v: array<W>, m: seq<W>, s: seq<nat>)
    requires v.Length == 16 && |m| == 16 && Schedule(s)
    modifies v
    ensures MatrixOf(v[..]) == DiagonalStep(o, old(MatrixOf(v[..])), m, s)
  {
    RefG(o, v, 0, 5, 10, 15, m[s[8]], m[s[9]]);
    RefG(o, v, 1, 6, 11, 12, m[s[10]], m[s[11]]);
    RefG(o, v, 2, 7, 8, 13, m[s[12]], m[s[13]]);
    RefG(o, v, 3, 4, 9, 14, m[s[14]], m[s[15]]);
  }

  method RefRound<W>(o: Ops<W>, v: array<W>, m: seq<W>, r: nat, ghost start: Matrix<W>)
    requires v.Length == 16 && |m| == 16 && r < 12 && MatrixOf(v[..]) == Rounds(o, start, m, r)
    modifies v
    ensures MatrixOf(v[..]) == Rounds(o, start, m, r + 1)
  {
    SigmaRows(r);
    RefColumns(o, v, m, SIGMA[r]);
    RefDiagonals(o, v, m, SIGMA[r]);
  }

  method RefRounds<W>(o: Ops<W>, v: array<W>, m: seq<W>, ghost start: Matrix<W>)
    requires v.Length == 16 && |m| == 16 && MatrixOf(v[..]) == start
    modifies v
    ensures MatrixOf(v[..]) == Rounds(o, start, m, 12)
  {
    for r := 0 to 12
      invariant MatrixOf(v[..]) == Rounds(o, start, m, r)
    {
      RefRound(o, v, m, r, start);
    }
  }

  /** The working vector before the first round. */
  method RefStart<W>(o: Ops<W>, h: seq<W>, iv: seq<W>, t: seq<W>, f: seq<W>) returns (v: array<W>)
    requires |h| == 8 && |iv| == 8 && |t| == 2 && |f| == 2
    ensures fresh(v) && v.Length == 16 && MatrixOf(v[..]) == Start(o, h, iv, t, f)
  {
    v := new W[16](i requires 0 <= i < 16 && |h| == 8 && |iv| == 8 => if i < 8 then h[i] else iv[i - 8]);
    v[12] := o.xor(iv[4], t[0]);
    v[13] := o.xor(iv[5], t[1]);
    v[14] := o.xor(iv[6], f[0]);
    v[15] := o.xor(iv[7], f[1]);
  }

  /** The loop that xors the working vector into the chaining value. */
  method RefFold<W>(o: Ops<W>, h: seq<W>, v: array<W>) returns (h': seq<W>)
    requires |h| == 8 && v.Length == 16
    ensures h' == Fold(o, h, MatrixOf(v[..]))
  {
    h' := [];
    for i := 0 to 8
      modifies {}
      invariant |h'| == i && forall k :: 0 <= k < i ==> h'[k] == o.xor(o.xor(h[k], v[k]), v[k + 8])
    {
      h' := h' + [o.xor(o.xor(h[i], v[i]), v[i + 8])];
    }
    FoldByIndex(o, h, v[..], h');
  }

  /** blake2b_compress of blake2b-ref.c. */
  method RefCompress<W>(o: Ops<W>, h: seq<W>, iv: seq<W>, m: seq<W>, t: seq<W>, f: seq<W>) returns (h': seq<W>)
    requires |h| == 8 && |iv| == 8 && |m| == 16 && |t| == 2 && |f| == 2
    ensures h' == Compress(o, h, iv, m, t, f)
  {
    var v := RefStart(o, h, iv, t, f);
    ghost var start := MatrixOf(v[..]);
    RefRounds(o, v, m, start);
    h' := RefFold(o, h, v);
  }

  lemma FoldByIndex<W>(o: Ops<W>, h: seq<W>, v: seq<W>, h': seq<W>)
    requires |h| == 8 && |v| == 16 && |h'| == 8 && forall k :: 0 <= k < 8 ==>
                                                     h'[k] == o.xor(o.xor(h[k], v[k]), v[k + 8])
    ensures h' == Fold(o, h, MatrixOf(v))
  {
  }
}

/** The row-parallel compression: two-word registers, as the SSE code arranges them. */
module Blake2bRows {
  import opened Blake2bRounds

  /** A 128-bit register: low word, high word. */
  datatype Reg<W> = Reg(lo: W, hi: W)

  /** The eight registers that hold the matrix, two per row. */
  datatype File<W> = File(row1l: Reg<W>, row1h: Reg<W>, row2l: Reg<W>, row2h: Reg<W>,
                          row3l: Reg<W>, row3h: Reg<W>, row4l: Reg<W>, row4h: Reg<W>)

  function Join<W>(l: Reg<W>, h: Reg<W>): Row<W> { Row(l.lo, l.hi, h.lo, h.hi) }

  function Held<W>(r: File<W>): Matrix<W>
  {
    Matrix(Join(r.row1l, r.row1h), Join(r.row2l, r.row2h), Join(r.row3l, r.row3h), Join(r.row4l, r.row4h))
  }

  // ---------- register operations ----------

  function Lanes<W>(f: (W, W) -> W, x: Reg<W>, y: Reg<W>): Reg<W> { Reg(f(x.lo, y.lo), f(x.hi, y.hi)) }
  function Each<W>(f: W -> W, x: Reg<W>): Reg<W> { Reg(f(x.lo), f(x.hi)) }
  function UnpackLo<W>(x: Reg<W>, y: Reg<W>): Reg<W> { Reg(x.lo, y.lo) }
  function UnpackHi<W>(x: Reg<W>, y: Reg<W>): Reg<W> { Reg(x.hi, y.hi) }

  /** _mm_alignr_epi8(x, y, 8): the high word of y under the low word of x. */
  function Align8<W>(x: Reg<W>, y: Reg<W>): Reg<W> { Reg(y.hi, x.lo) }

  // ---------- the macros ----------

  /** The first half of G, in the order the row code adds: (a + x) + b. */
  function Half1<W>(o: Ops<W>, q: Quad<W>, x: W): Quad<W>
  {
    var a := o.add(o.add(q.a, x), q.b);
    var d := o.r32(o.xor(q.d, a));
    var c := o.add(q.c, d);
    Quad(a, o.r24(o.xor(q.b, c)), c, d)
  }

  function Half2<W>(o: Ops<W>, q: Quad<W>, y: W): Quad<W>
  {
    var a := o.add(o.add(q.a, y), q.b);
    var d := o.r16(o.xor(q.d, a));
    var c := o.add(q.c, d);
    Quad(a, o.r63(o.xor(q.b, c)), c, d)
  }

  lemma HalvesAreG<W(!new)>(o: Ops<W>, q: Quad<W>, x: W, y: W)
    requires Lawful(o)
    ensures Half2(o, Half1(o, q, x), y) == G(o, q, x, y)
  {
    assert o.add(o.add(q.a, x), q.b) == o.add(o.add(q.a, q.b), x);
    var h := Half1(o, q, x);
    assert o.add(o.add(h.a, y), h.b) == o.add(o.add(h.a, h.b), y);
  }

  function Column<W>(v: Matrix<W>, i: nat): Quad<W>
    requires i < 4
  {
    if i == 0 then Quad(v.a.w0, v.b.w0, v.c.w0, v.d.w0)
    else if i == 1 then Quad(v.a.w1, v.b.w1, v.c.w1, v.d.w1)
    else if i == 2 then Quad(v.a.w2, v.b.w2, v.c.w2, v.d.w2)
    else Quad(v.a.w3, v.b.w3, v.c.w3, v.d.w3)
  }

  function First<W>(o: Ops<W>, v: Matrix<W>, x: Row<W>): Matrix<W>
  {
    FromQuads(Half1(o, Column(v, 0), x.w0), Half1(o, Column(v, 1), x.w1), Half1(o, Column(v, 2), x.w2),
              Half1(o, Column(v, 3), x.w3))
  }

  function Second<W>(o: Ops<W>, v: Matrix<W>, y: Row<W>): Matrix<W>
  {
    FromQuads(Half2(o, Column(v, 0), y.w0), Half2(o, Column(v, 1), y.w1), Half2(o, Column(v, 2), y.w2),
              Half2(o, Column(v, 3), y.w3))
  }

  lemma HalvesAreMix<W(!new)>(o: Ops<W>, v: Matrix<W>, x: Row<W>, y: Row<W>)
    requires Lawful(o)
    ensures Second(o, First(o, v, x), y) == Mix(o, v, x, y)
  {
    HalvesAreG(o, Column(v, 0), x.w0, y.w0);
    HalvesAreG(o, Column(v, 1), x.w1, y.w1);
    HalvesAreG(o, Column(v, 2), x.w2, y.w2);
    HalvesAreG(o, Column(v, 3), x.w3, y.w3);
  }

  /** The macro G1. */
  method G1<W>(o: Ops<W>, r: File<W>, b0: Reg<W>, b1: Reg<W>) returns (r': File<W>)
    ensures Held(r') == First(o, Held(r), Join(b0, b1))
  {
    var row1l, row1h, row2l, row2h := r.row1l, r.row1h, r.row2l, r.row2h;
    var row3l, row3h, row4l, row4h := r.row3l, r.row3h, r.row4l, r.row4h;
    row1l := Lanes(o.add, Lanes(o.add, row1l, b0), row2l);
    row1h := Lanes(o.add, Lanes(o.add, row1h, b1), row2h);
    row4l := Lanes(o.xor, row4l, row1l);
    row4h := Lanes(o.xor, row4h, row1h);
    row4l := Each(o.r32, row4l);
    row4h := Each(o.r32, row4h);
    row3l := Lanes(o.add, row3l, row4l);
    row3h := Lanes(o.add, row3h, row4h);
    row2l := Lanes(o.xor, row2l, row3l);
    row2h := Lanes(o.xor, row2h, row3h);
    row2l := Each(o.r24, row2l);
    row2h := Each(o.r24, row2h);
    r' := File(row1l, row1h, row2l, row2h, row3l, row3h, row4l, row4h);
  }

  /** The macro G2. */
  method G2<W>(o: Ops<W>, r: File<W>, b0: Reg<W>, b1: Reg<W>) returns (r': File<W>)
    ensures Held(r') == Second(o, Held(r), Join(b0, b1))
  {
    var row1l, row1h, row2l, row2h := r.row1l, r.row1h, r.row2l, r.row2h;
    var row3l, row3h, row4l, row4h := r.row3l, r.row3h, r.row4l, r.row4h;
    row1l := Lanes(o.add, Lanes(o.add, row1l, b0), row2l);
    row1h := Lanes(o.add, Lanes(o.add, row1h, b1), row2h);
    row4l := Lanes(o.xor, row4l, row1l);
    row4h := Lanes(o.xor, row4h, row1h);
    row4l := Each(o.r16, row4l);
    row4h := Each(o.r16, row4h);
    row3l := Lanes(o.add, row3l, row4l);
    row3h := Lanes(o.add, row3h, row4h);
    row2l := Lanes(o.xor, row2l, row3l);
    row2h := Lanes(o.xor, row2h, row3h);
    row2l := Each(o.r63, row2l);
    row2h := Each(o.r63, row2h);
    r' := File(row1l, row1h, row2l, row2h, row3l, row3h, row4l, row4h);
  }

  /** DIAGONALIZE with unpack instructions only. */
  method Diagonalize<W>(r: File<W>) returns (r': File<W>)
    ensures Held(r') == Shift(Held(r))
  {
    var row2l, row2h, row3l, row3h, row4l, row4h := r.row2l, r.row2h, r.row3l, r.row3h, r.row4l, r.row4h;
    var t0, t1 := row4l, row2l;
    row4l := row3l;
    row3l := row3h;
    row3h := row4l;
    row4l := UnpackHi(row4h, UnpackLo(t0, t0));
    row4h := UnpackHi(t0, UnpackLo(row4h, row4h));
    row2l := UnpackHi(row2l, UnpackLo(row2h, row2h));
    row2h := UnpackHi(row2h, UnpackLo(t1, t1));
    r' := File(r.row1l, r.row1h, row2l, row2h, row3l, row3h, row4l, row4h);
  }

  method Undiagonalize<W>(r: File<W>) returns (r': File<W>)
    ensures Held(r') == Unshift(Held(r))
  {
    var row2l, row2h, row3l, row3h, row4l, row4h := r.row2l, r.row2h, r.row3l, r.row3h, r.row4l, r.row4h;
    var t0 := row3l;
    row3l := row3h;
    row3h := t0;
    t0 := row2l;
    var t1 := row4l;
    row2l := UnpackHi(row2h, UnpackLo(row2l, row2l));
    row2h := UnpackHi(t0, UnpackLo(row2h, row2h));
    row4l := UnpackHi(row4l, UnpackLo(row4h, row4h));
    row4h := UnpackHi(row4h, UnpackLo(t1, t1));
    r' := File(r.row1l, r.row1h, row2l, row2h, row3l, row3h, row4l, row4h);
  }

  /** DIAGONALIZE with the byte-align instruction of SSSE3. */
  method DiagonalizeAligned<W>(r: File<W>) returns (r': File<W>)
    ensures Held(r') == Shift(Held(r))
  {
    var t0, t1 := Align8(r.row2h, r.row2l), Align8(r.row2l, r.row2h);
    var row2l, row2h := t0, t1;
    var row3l, row3h := r.row3h, r.row3l;
    t0, t1 := Align8(r.row4h, r.row4l), Align8(r.row4l, r.row4h);
    r' := File(r.row1l, r.row1h, row2l, row2h, row3l, row3h, t1, t0);
  }

  method UndiagonalizeAligned<W>(r: File<W>) returns (r': File<W>)
    ensures Held(r') == Unshift(Held(r))
  {
    var t0, t1 := Align8(r.row2l, r.row2h), Align8(r.row2h, r.row2l);
    var row2l, row2h := t0, t1;
    var row3l, row3h := r.row3h, r.row3l;
    t0, t1 := Align8(r.row4l, r.row4h), Align8(r.row4h, r.row4l);
    r' := File(r.row1l, r.row1h, row2l, row2h, row3l, row3h, t1, t0);
  }

  /** LOAD_MSG_r_k: the four words of half step k as two registers. */
  method LoadMsg<W>(m: seq<W>, r: nat, k: nat) returns (b0: Reg<W>, b1: Reg<W>)
    requires |m| == 16 && r < 12 && k < 4
    ensures Schedule(SIGMA[r])
    ensures Join(b0, b1) == Pick(m, SIGMA[r], if k == 0 then 0 else if k == 1 then 1 else if k == 2 then 8 else 9)
  {
    LoadsFollowSigma(r);
    SigmaRows(r);
    var i := LOADS[r][k];
    b0, b1 := Reg(m[i[0]], m[i[1]]), Reg(m[i[2]], m[i[3]]);
  }

  /** The two half steps of G on all lanes, columns or shifted diagonals. */
  method MixRows<W(!new)>(o: Ops<W>, r0: File<W>, m: seq<W>, r: nat, k: nat) returns (r': File<W>)
    requires Lawful(o) && |m| == 16 && r < 12 && (k == 0 || k == 2)
    ensures Schedule(SIGMA[r])
    ensures Held(r')
      == Mix(o, Held(r0), Pick(m, SIGMA[r], if k == 0 then 0 else 8), Pick(m, SIGMA[r], if k == 0 then 1 else 9))
  {
    var b0, b1 := LoadMsg(m, r, k);
    ghost var x := Join(b0, b1);
    r' := G1(o, r0, b0, b1);
    b0, b1 := LoadMsg(m, r, k + 1);
    r' := G2(o, r', b0, b1);
    HalvesAreMix(o, Held(r0), x, Join(b0, b1));
  }

  /** ROUND(r); `aligned` chooses between the two ways to shift rows. */
  method RowRound<W(!new)>(o: Ops<W>, r0: File<W>, m: seq<W>, r: nat, aligned: bool) returns (r': File<W>)
    requires Lawful(o) && |m| == 16 && r < 12
    ensures Schedule(SIGMA[r]) && Held(r') == Round(o, Held(r0), m, SIGMA[r])
  {
    r' := MixRows(o, r0, m, r, 0);
    if aligned { r' := DiagonalizeAligned(r'); } else { r' := Diagonalize(r'); }
    r' := MixRows(o, r', m, r, 2);
    if aligned { r' := UndiagonalizeAligned(r'); } else { r' := Undiagonalize(r'); }
  }

  /** The xors that fold the matrix into the chaining value may be taken in either order. */
  lemma FoldOrder<W(!new)>(o: Ops<W>, h: seq<W>, r: File<W>)
    requires Lawful(o) && |h| == 8
    ensures var x1, x2 := Lanes(o.xor, r.row3l, r.row1l), Lanes(o.xor, r.row3h, r.row1h);
      var x3, x4 := Lanes(o.xor, r.row4l, r.row2l), Lanes(o.xor, r.row4h, r.row2h);
      [o.xor(h[0], x1.lo), o.xor(h[1], x1.hi), o.xor(h[2], x2.lo), o.xor(h[3], x2.hi),
       o.xor(h[4], x3.lo), o.xor(h[5], x3.hi), o.xor(h[6], x4.lo), o.xor(h[7], x4.hi)] == Fold(o, h, Held(r))
  {
  }

  /** The registers before the first round. */
  method RowStart<W>(o: Ops<W>, h: seq<W>, iv: seq<W>, t: seq<W>, f: seq<W>) returns (r: File<W>)
    requires |h| == 8 && |iv| == 8 && |t| == 2 && |f| == 2
    ensures Held(r) == Start(o, h, iv, t, f)
  {
    var row4l := Lanes(o.xor, Reg(iv[4], iv[5]), Reg(t[0], t[1]));
    var row4h := Lanes(o.xor, Reg(iv[6], iv[7]), Reg(f[0], f[1]));
    r := File(Reg(h[0], h[1]), Reg(h[2], h[3]), Reg(h[4], h[5]), Reg(h[6], h[7]),
              Reg(iv[0], iv[1]), Reg(iv[2], iv[3]), row4l, row4h);
  }

  /** Another ROUND, after r of them. */
  method RowNext<W(!new)>(o: Ops<W>, r0: File<W>, m: seq<W>, r: nat, aligned: bool, ghost start: Matrix<W>)
    returns (r': File<W>)
    requires Lawful(o) && |m| == 16 && r < 12 && Held(r0) == Rounds(o, start, m, r)
    ensures Held(r') == Rounds(o, start, m, r + 1)
  {
    r' := RowRound(o, r0, m, r, aligned);
  }

  method RowRounds<W(!new)>(o: Ops<W>, r0: File<W>, m: seq<W>, aligned: bool) returns (r: File<W>)
    requires Lawful(o) && |m| == 16
    ensures Held(r) == Rounds(o, Held(r0), m, 12)
  {
    r := r0;
    ghost var start := Held(r0);
    for k := 0 to 12
      invariant Held(r) == Rounds(o, start, m, k)
    {
      r := RowNext(o, r, m, k, aligned, start);
    }
  }

  /** blake2b_compress of blake2b.c. */
  method RowCompress<W(!new)>(o: Ops<W>, h: seq<W>, iv: seq<W>, m: seq<W>, t: seq<W>, f: seq<W>, aligned: bool)
    returns (h': seq<W>)
    requires Lawful(o) && |h| == 8 && |iv| == 8 && |m| == 16 && |t| == 2 && |f| == 2
    ensures h' == Compress(o, h, iv, m, t, f)
  {
    var r := RowStart(o, h, iv, t, f);
    r := RowRounds(o, r, m, aligned);
    FoldOrder(o, h, r);
    var row1l, row1h := Lanes(o.xor, r.row3l, r.row1l), Lanes(o.xor, r.row3h, r.row1h);
    var row2l, row2h := Lanes(o.xor, r.row4l, r.row2l), Lanes(o.xor, r.row4h, r.row2h);
    h' := [o.xor(h[0], row1l.lo), o.xor(h[1], row1l.hi), o.xor(h[2], row1h.lo), o.xor(h[3], row1h.hi),
           o.xor(h[4], row2l.lo), o.xor(h[5], row2l.hi), o.xor(h[6], row2h.lo), o.xor(h[7], row2h.hi)];
  }

  /** Operations that compute the same words as p may stand in for p. */
  method RowCompressAs<W(!new)>(o: Ops<W>, p: Ops<W>, h: seq<W>, iv: seq<W>, m: seq<W>, t: seq<W>, f: seq<W>,
                         aligned: bool)
    returns (h': seq<W>)
    requires Lawful(o) && Agree(o, p) && |h| == 8 && |iv| == 8 && |m| == 16 && |t| == 2 && |f| == 2
    ensures h' == Compress(p, h, iv, m, t, f)
  {
    AgreeCompress(o, p, h, iv, m, t, f);
    h' := RowCompress(o, h, iv, m, t, f, aligned);
  }
}

// rouge_conv_winograd3x3_f32: tiles F(2x2, 3x3) with padding one and odd-size
// tails, over exact arithmetic, against the plain convolution.
module Winograd {
  import opened Bits
  import opened Sums
  import opened Convolution

  type Mat = (nat, nat) -> real

  // ---- the three transforms, along one axis ---------------------------------------

  function G1(a: real, b: real, c: real, i: nat): real {
    if i == 0 then a
    else if i == 1 then 0.5 * (a + b + c)
    else if i == 2 then 0.5 * (a - b + c)
    else c
  }

  function B1(a: real, b: real, c: real, d: real, i: nat): real {
    if i == 0 then a - c
    else if i == 1 then b + c
    else if i == 2 then -b + c
    else b - d
  }

  function A1(a: real, b: real, c: real, d: real, o: nat): real {
    if o == 0 then a + b + c else b - c - d
  }

  function Pick(a: real, b: real, c: real, d: real, i: nat): real {
    if i == 0 then a else if i == 1 then b else if i == 2 then c else d
  }

  // F(2,3): four products give two outputs of a three-tap filter.
  lemma OneAxis(g0: real, g1: real, g2: real, d0: real, d1: real, d2: real, d3: real, o: nat)
    requires o < 2
    ensures A1(G1(g0, g1, g2, 0) * B1(d0, d1, d2, d3, 0), G1(g0, g1, g2, 1) * B1(d0, d1, d2, d3, 1),
               G1(g0, g1, g2, 2) * B1(d0, d1, d2, d3, 2), G1(g0, g1, g2, 3) * B1(d0, d1, d2, d3, 3), o)
            == Pick(d0, d1, d2, d3, o) * g0 + Pick(d0, d1, d2, d3, o + 1) * g1 + Pick(d0, d1, d2, d3, o + 2) * g2
  { }

  // ---- both axes ---------------------------------------------------------------------

  // filter_xform, input_xform, output_xform: first down the columns, then along the rows.
  function Gw(g: Mat, i: nat, j: nat): real { G1(g(0, j), g(1, j), g(2, j), i) }
  function FilterX(g: Mat, i: nat, j: nat): real { G1(Gw(g, i, 0), Gw(g, i, 1), Gw(g, i, 2), j) }
  function Bt(d: Mat, i: nat, j: nat): real { B1(d(0, j), d(1, j), d(2, j), d(3, j), i) }
  function InputX(d: Mat, i: nat, j: nat): real { B1(Bt(d, i, 0), Bt(d, i, 1), Bt(d, i, 2), Bt(d, i, 3), j) }
  function At(m: Mat, i: nat, j: nat): real { A1(m(0, j), m(1, j), m(2, j), m(3, j), i) }
  function OutputX(m: Mat, i: nat, j: nat): real { A1(At(m, i, 0), At(m, i, 1), At(m, i, 2), At(m, i, 3), j) }

  // The transformed filter and tile, multiplied point by point.
  function Cross(g: Mat, d: Mat): Mat { (i: nat, j: nat) => FilterX(g, i, j) * InputX(d, i, j) }

  // The nine-term sum at output (i, j) of a tile.
  function Point(g: Mat, d: Mat, i: nat, j: nat, kr: nat, kc: nat): real { d(i + kr, j + kc) * g(kr, kc) }

  function PointColumn(g: Mat, d: Mat, i: nat, j: nat, kc: nat): real {
    Point(g, d, i, j, 0, kc) + Point(g, d, i, j, 1, kc) + Point(g, d, i, j, 2, kc)
  }

  function Direct(g: Mat, d: Mat, i: nat, j: nat): real {
    PointColumn(g, d, i, j, 0) + PointColumn(g, d, i, j, 1) + PointColumn(g, d, i, j, 2)
  }

  function RowOut(m: Mat, r: nat, j: nat): real { A1(m(r, 0), m(r, 1), m(r, 2), m(r, 3), j) }

  // The output transform may as well go along the rows first.
  lemma OutputSwap(m: Mat, i: nat, j: nat)
    ensures OutputX(m, i, j) == A1(RowOut(m, 0, j), RowOut(m, 1, j), RowOut(m, 2, j), RowOut(m, 3, j), i)
  { }

  function Tap(g: Mat, d: Mat, r: nat, c: nat, j: nat): real { Bt(d, r, j) * Gw(g, r, c) }

  lemma CrossAt(g: Mat, d: Mat, r: nat, c: nat)
    ensures Cross(g, d)(r, c) ==
            G1(Gw(g, r, 0), Gw(g, r, 1), Gw(g, r, 2), c) * B1(Bt(d, r, 0), Bt(d, r, 1), Bt(d, r, 2), Bt(d, r, 3), c)
  {
    hide G1; hide B1; hide Gw; hide Bt;
  }

  lemma TapAt(g: Mat, d: Mat, r: nat, j: nat, c: nat)
    requires j < 2 && c < 3
    ensures Tap(g, d, r, c, j + c) == Pick(Bt(d, r, 0), Bt(d, r, 1), Bt(d, r, 2), Bt(d, r, 3), j + c) * Gw(g, r, c)
  {
    hide Gw; hide Bt;
  }

  // One row of the product, transformed: a three-tap filter along the row.
  lemma RowFilter(g: Mat, d: Mat, r: nat, j: nat)
    requires j < 2
    ensures RowOut(Cross(g, d), r, j) == Tap(g, d, r, 0, j) + Tap(g, d, r, 1, j + 1) + Tap(g, d, r, 2, j + 2)
  {
    OneAxis(Gw(g, r, 0), Gw(g, r, 1), Gw(g, r, 2), Bt(d, r, 0), Bt(d, r, 1), Bt(d, r, 2), Bt(d, r, 3), j);
    CrossAt(g, d, r, 0);
    CrossAt(g, d, r, 1);
    CrossAt(g, d, r, 2);
    CrossAt(g, d, r, 3);
    TapAt(g, d, r, j, 0);
    TapAt(g, d, r, j, 1);
    TapAt(g, d, r, j, 2);
    hide G1; hide B1; hide A1; hide Gw; hide Bt; hide Tap; hide Cross; hide Pick;
  }

  lemma ColumnAt(g: Mat, d: Mat, r: nat, c: nat, j: nat)
    ensures Tap(g, d, r, c, j) == G1(g(0, c), g(1, c), g(2, c), r) * B1(d(0, j), d(1, j), d(2, j), d(3, j), r)
  {
    Swap(Bt(d, r, j), Gw(g, r, c));
    hide G1; hide B1;
  }

  lemma PointAt(g: Mat, d: Mat, i: nat, j: nat, kr: nat, kc: nat)
    requires i < 2 && kr < 3
    ensures Point(g, d, i, j, kr, kc) == Pick(d(0, j + kc), d(1, j + kc), d(2, j + kc), d(3, j + kc), i + kr) * g(kr, kc)
  { }

  lemma Swap(a: real, b: real)
    ensures a * b == b * a
  { }

  // One column of taps, transformed down the rows.
  lemma ColumnFilter(g: Mat, d: Mat, i: nat, j: nat, c: nat)
    requires i < 2
    ensures A1(Tap(g, d, 0, c, j + c), Tap(g, d, 1, c, j + c), Tap(g, d, 2, c, j + c), Tap(g, d, 3, c, j + c), i) == PointColumn(g, d, i, j, c)
  {
    OneAxis(g(0, c), g(1, c), g(2, c), d(0, j + c), d(1, j + c), d(2, j + c), d(3, j + c), i);
    ColumnAt(g, d, 0, c, j + c);
    ColumnAt(g, d, 1, c, j + c);
    ColumnAt(g, d, 2, c, j + c);
    ColumnAt(g, d, 3, c, j + c);
    PointAt(g, d, i, j, 0, c);
    PointAt(g, d, i, j, 1, c);
    PointAt(g, d, i, j, 2, c);
    hide G1; hide B1; hide A1; hide Tap; hide Pick; hide Point;
  }

  // The fast form of a tile is the direct sum.
  lemma TileExact(g: Mat, d: Mat, i: nat, j: nat)
    requires i < 2 && j < 2
    ensures OutputX(Cross(g, d), i, j) == Direct(g, d, i, j)
  {
    hide Tap; hide Cross; hide RowOut; hide OutputX; hide PointColumn;
    OutputSwap(Cross(g, d), i, j);
    RowFilter(g, d, 0, j);
    RowFilter(g, d, 1, j);
    RowFilter(g, d, 2, j);
    RowFilter(g, d, 3, j);
    ColumnFilter(g, d, i, j, 0);
    ColumnFilter(g, d, i, j, 1);
    ColumnFilter(g, d, i, j, 2);
  }

  // ---- accumulation over channels -------------------------------------------------------

  type Stack = nat -> Mat

  function Summed(n: nat, u: Stack): Mat { (i: nat, j: nat) => Sum(n, Layer(u, i, j)) }
  function Layer(u: Stack, i: nat, j: nat): nat -> real { (c: nat) => u(c)(i, j) }
  function Outs(u: Stack, i: nat, j: nat): nat -> real { (c: nat) => OutputX(u(c), i, j) }

  lemma OutputSame(m: Mat, q: Mat, i: nat, j: nat)
    requires forall a: nat, b: nat :: a < 4 && b < 4 ==> m(a, b) == q(a, b)
    ensures OutputX(m, i, j) == OutputX(q, i, j)
  {
    assert m(0, 0) == q(0, 0) && m(0, 1) == q(0, 1) && m(0, 2) == q(0, 2) && m(0, 3) == q(0, 3);
    assert m(1, 0) == q(1, 0) && m(1, 1) == q(1, 1) && m(1, 2) == q(1, 2) && m(1, 3) == q(1, 3);
    assert m(2, 0) == q(2, 0) && m(2, 1) == q(2, 1) && m(2, 2) == q(2, 2) && m(2, 3) == q(2, 3);
    assert m(3, 0) == q(3, 0) && m(3, 1) == q(3, 1) && m(3, 2) == q(3, 2) && m(3, 3) == q(3, 3);
  }

  function Plus(a: Mat, b: Mat): Mat { (i: nat, j: nat) => a(i, j) + b(i, j) }

  lemma OutputPlus(a: Mat, b: Mat, i: nat, j: nat)
    ensures OutputX(Plus(a, b), i, j) == OutputX(a, i, j) + OutputX(b, i, j)
  { }

  // Transforming the channel sum once is summing the transformed channels.
  lemma {:induction false} OutputOfSum(n: nat, u: Stack, i: nat, j: nat)
    ensures OutputX(Summed(n, u), i, j) == Sum(n, Outs(u, i, j))
  {
    if n > 0 {
      OutputOfSum(n - 1, u, i, j);
      OutputPlus(Summed(n - 1, u), u(n - 1), i, j);
      OutputSame(Summed(n, u), Plus(Summed(n - 1, u), u(n - 1)), i, j);
      hide OutputX;
    }
  }

  // ---- the tile and the filter taken from memory -------------------------------------------

  function Fixed(N: nat, Cin: nat, H: nat, W: nat, Cout: nat): Shape { Shape(N, Cin, H, W, Cout, 3, 3, 1, 1) }

  predicate IsFixed(s: Shape) { s.KH == 3 && s.KW == 3 && s.stride == 1 && s.pad == 1 && Positive(s) }

  lemma FixedSize(s: Shape)
    requires IsFixed(s)
    ensures OH(s) == s.H && OW(s) == s.W && Valid(s)
  { }

  // Where output (oh, ow) lies in its plane.
  function PixelAt(s: Shape, oh: nat, ow: nat): (p: nat)
    requires Valid(s) && oh < OH(s) && ow < OW(s)
    ensures p < Pixels(s)
  {
    PixelIndex(oh, ow, OW(s));
    RowEnd(oh, OH(s), OW(s));
    oh * OW(s) + ow
  }

  function Filter(w: Weights, co: nat, ci: nat): Mat { (kr: nat, kc: nat) => w(co, ci * 9 + kr * 3 + kc) }

  function InTile(s: Shape, x: Image, n: nat, th: nat, tw: nat, ci: nat): Mat {
    (i: nat, j: nat) => Padded(s, x, n, ci, th * 2 + i - 1, tw * 2 + j - 1)
  }

  // What the taps of one channel contribute.
  function Term(s: Shape, x: Image, w: Weights, n: nat, co: nat, oh: nat, ow: nat): (nat, nat) -> real {
    (c: nat, t: nat) => w(co, c * 9 + t) * Seen(s, x, n, c, t / 3, t % 3, oh, ow)
  }

  lemma NineTaps(s: Shape, x: Image, w: Weights, n: nat, co: nat, th: nat, tw: nat, c: nat, i: nat, j: nat)
    requires s.stride == 1 && s.pad == 1
    ensures Inner(9, Term(s, x, w, n, co, th * 2 + i, tw * 2 + j))(c) == Direct(Filter(w, co, c), InTile(s, x, n, th, tw, c), i, j)
  {
    hide Sum; hide Inner; hide Term; hide Filter; hide InTile; hide Point; hide Seen; hide Padded;
    SumNine(Term(s, x, w, n, co, th * 2 + i, tw * 2 + j), c);
    OneTap(s, x, w, n, co, th, tw, c, i, j, 0, 0);
    OneTap(s, x, w, n, co, th, tw, c, i, j, 0, 1);
    OneTap(s, x, w, n, co, th, tw, c, i, j, 0, 2);
    OneTap(s, x, w, n, co, th, tw, c, i, j, 1, 0);
    OneTap(s, x, w, n, co, th, tw, c, i, j, 1, 1);
    OneTap(s, x, w, n, co, th, tw, c, i, j, 1, 2);
    OneTap(s, x, w, n, co, th, tw, c, i, j, 2, 0);
    OneTap(s, x, w, n, co, th, tw, c, i, j, 2, 1);
    OneTap(s, x, w, n, co, th, tw, c, i, j, 2, 2);
  }

  lemma SumNine(f: (nat, nat) -> real, c: nat)
    ensures Inner(9, f)(c) == f(c, 0) + f(c, 1) + f(c, 2) + f(c, 3) + f(c, 4) + f(c, 5) + f(c, 6) + f(c, 7) + f(c, 8)
  { }

  lemma OneTap(s: Shape, x: Image, w: Weights, n: nat, co: nat, th: nat, tw: nat, c: nat, i: nat, j: nat, kr: nat, kc: nat)
    requires s.stride == 1 && s.pad == 1 && kr < 3 && kc < 3
    ensures Term(s, x, w, n, co, th * 2 + i, tw * 2 + j)(c, kr * 3 + kc) ==
            Point(Filter(w, co, c), InTile(s, x, n, th, tw, c), i, j, kr, kc)
  {
    assert (kr * 3 + kc) / 3 == kr && (kr * 3 + kc) % 3 == kc;
    assert c * 9 + (kr * 3 + kc) == c * 9 + kr * 3 + kc;
    Swap(Filter(w, co, c)(kr, kc), InTile(s, x, n, th, tw, c)(i + kr, j + kc));
  }

  lemma ChannelNine(s: Shape, x: Image, w: Weights, n: nat, co: nat, oh: nat, ow: nat)
    requires IsFixed(s) && Valid(s) && oh < OH(s) && ow < OW(s)
    ensures Conv(s, x, w, n, co, PixelAt(s, oh, ow)) == Sum(s.Cin, Inner(9, Term(s, x, w, n, co, oh, ow)))
  {
    hide PixelAt; hide Pixels; hide Conv; hide OH; hide OW; hide OutSize; hide Sum; hide Term; hide ChannelTerm; hide Taps;
    var p := PixelAt(s, oh, ow);
    var f, g := ChannelTerm(s, x, w, n, co, p), Term(s, x, w, n, co, oh, ow);
    ByChannel(s, x, w, n, co, p);
    forall c: nat ensures Inner(9, f)(c) == Inner(9, g)(c) {
      forall t: nat ensures Row(f, c)(t) == Row(g, c)(t) { OneOfNine(s, x, w, n, co, oh, ow, c, t); }
      SumSame(9, Row(f, c), Row(g, c));
    }
    SumSame(s.Cin, Inner(9, f), Inner(9, g));
  }

  lemma OneOfNine(s: Shape, x: Image, w: Weights, n: nat, co: nat, oh: nat, ow: nat, c: nat, t: nat)
    requires IsFixed(s) && Valid(s) && oh < OH(s) && ow < OW(s)
    ensures ChannelTerm(s, x, w, n, co, PixelAt(s, oh, ow))(c, t) == Term(s, x, w, n, co, oh, ow)(c, t)
  {
    hide PixelAt; hide OH; hide OW; hide OutSize; hide Seen;
    PixelParts(s, oh, ow);
    NineTap(s, c, t);
    hide Div; hide TapNumber;
  }

  lemma NineTap(s: Shape, c: nat, t: nat)
    requires s.KH == 3 && s.KW == 3
    ensures TapNumber(s, c, t) == c * 9 + t && Div(t, s.KW) == t / 3
  { }

  lemma PixelParts(s: Shape, oh: nat, ow: nat)
    requires Valid(s) && oh < OH(s) && ow < OW(s)
    ensures Div(PixelAt(s, oh, ow), OW(s)) == oh && PixelAt(s, oh, ow) % OW(s) == ow
  {
    PixelIndex(oh, ow, OW(s));
  }

  lemma NineEach(s: Shape)
    requires s.KH == 3 && s.KW == 3
    ensures Taps(s) == s.Cin * 9
  { }

  // The products a tile accumulates, channel by channel.
  function Crossed(s: Shape, x: Image, w: Weights, n: nat, th: nat, tw: nat, co: nat): Stack {
    (c: nat) => Cross(Filter(w, co, c), InTile(s, x, n, th, tw, c))
  }

  // What a tile delivers is the convolution at its four pixels.
  lemma TileIsConv(s: Shape, x: Image, w: Weights, n: nat, co: nat, th: nat, tw: nat, i: nat, j: nat)
    requires IsFixed(s) && Valid(s) && i < 2 && j < 2 && th * 2 + i < OH(s) && tw * 2 + j < OW(s)
    ensures OutputX(Summed(s.Cin, Crossed(s, x, w, n, th, tw, co)), i, j) == Conv(s, x, w, n, co, PixelAt(s, th * 2 + i, tw * 2 + j))
  {
    assert s.stride == 1 && s.pad == 1;
    hide *;
    ChannelNine(s, x, w, n, co, th * 2 + i, tw * 2 + j);
    ChannelSums(s, x, w, n, co, th, tw, i, j);
  }

  lemma ChannelSums(s: Shape, x: Image, w: Weights, n: nat, co: nat, th: nat, tw: nat, i: nat, j: nat)
    requires s.stride == 1 && s.pad == 1 && i < 2 && j < 2
    ensures OutputX(Summed(s.Cin, Crossed(s, x, w, n, th, tw, co)), i, j) == Sum(s.Cin, Inner(9, Term(s, x, w, n, co, th * 2 + i, tw * 2 + j)))
  {
    var u := Crossed(s, x, w, n, th, tw, co);
    OutputOfSum(s.Cin, u, i, j);
    var f := Inner(9, Term(s, x, w, n, co, th * 2 + i, tw * 2 + j));
    hide OutputX; hide Filter; hide InTile; hide Cross; hide Direct; hide Term; hide Sum; hide Inner; hide Summed;
    forall c: nat | c < s.Cin ensures Outs(u, i, j)(c) == f(c) {
      TileExact(Filter(w, co, c), InTile(s, x, n, th, tw, c), i, j);
      NineTaps(s, x, w, n, co, th, tw, c, i, j);
    }
    SumSame(s.Cin, Outs(u, i, j), f);
  }

  // ---- the loops ---------------------------------------------------------------------------

  predicate Square(u: array2<real>) { u.Length0 == 4 && u.Length1 == 4 }

  method FilterColumns(g: Mat, gw: array2<real>)
    requires gw.Length0 == 4 && gw.Length1 == 3
    modifies gw
    ensures forall i: nat, j: nat :: i < 4 && j < 3 ==> gw[i, j] == Gw(g, i, j)
  {
    for j := 0 to 3
      invariant forall i: nat, c: nat :: i < 4 && c < j ==> gw[i, c] == Gw(g, i, c)
    {
      gw[0, j] := g(0, j);
      gw[1, j] := 0.5 * (g(0, j) + g(1, j) + g(2, j));
      gw[2, j] := 0.5 * (g(0, j) - g(1, j) + g(2, j));
      gw[3, j] := g(2, j);
    }
  }

  method FilterXform(g: Mat, u: array2<real>)
    requires Square(u)
    modifies u
    ensures forall i: nat, j: nat :: i < 4 && j < 4 ==> u[i, j] == FilterX(g, i, j)
  {
    var gw := new real[4, 3]((_, _) => 0.0);
    FilterColumns(g, gw);
    hide Gw;
    for i := 0 to 4
      invariant forall r: nat, j: nat :: r < 4 && j < 3 ==> gw[r, j] == Gw(g, r, j)
      invariant forall r: nat, j: nat :: r < i && j < 4 ==> u[r, j] == FilterX(g, r, j)
    {
      u[i, 0] := gw[i, 0];
      u[i, 1] := 0.5 * (gw[i, 0] + gw[i, 1] + gw[i, 2]);
      u[i, 2] := 0.5 * (gw[i, 0] - gw[i, 1] + gw[i, 2]);
      u[i, 3] := gw[i, 2];
    }
  }

  method InputColumns(d: Mat, t: array2<real>)
    requires Square(t)
    modifies t
    ensures forall i: nat, j: nat :: i < 4 && j < 4 ==> t[i, j] == Bt(d, i, j)
  {
    for j := 0 to 4
      invariant forall i: nat, c: nat :: i < 4 && c < j ==> t[i, c] == Bt(d, i, c)
    {
      t[0, j] := d(0, j) - d(2, j);
      t[1, j] := d(1, j) + d(2, j);
      t[2, j] := -d(1, j) + d(2, j);
      t[3, j] := d(1, j) - d(3, j);
    }
  }

  method InputXform(d: Mat, v: array2<real>)
    requires Square(v)
    modifies v
    ensures forall i: nat, j: nat :: i < 4 && j < 4 ==> v[i, j] == InputX(d, i, j)
  {
    var t := new real[4, 4]((_, _) => 0.0);
    InputColumns(d, t);
    hide Bt;
    for i := 0 to 4
      invariant forall r: nat, j: nat :: r < 4 && j < 4 ==> t[r, j] == Bt(d, r, j)
      invariant forall r: nat, j: nat :: r < i && j < 4 ==> v[r, j] == InputX(d, r, j)
    {
      v[i, 0] := t[i, 0] - t[i, 2];
      v[i, 1] := t[i, 1] + t[i, 2];
      v[i, 2] := -t[i, 1] + t[i, 2];
      v[i, 3] := t[i, 1] - t[i, 3];
    }
  }

  method OutputColumns(m: array2<real>, ghost f: Mat, t: array2<real>)
    requires Square(m) && t.Length0 == 2 && t.Length1 == 4 && t != m
    requires forall i: nat, j: nat :: i < 4 && j < 4 ==> m[i, j] == f(i, j)
    modifies t
    ensures forall i: nat, j: nat :: i < 2 && j < 4 ==> t[i, j] == At(f, i, j)
  {
    for j := 0 to 4
      invariant forall i: nat, c: nat :: i < 2 && c < j ==> t[i, c] == At(f, i, c)
    {
      t[0, j] := m[0, j] + m[1, j] + m[2, j];
      t[1, j] := m[1, j] - m[2, j] - m[3, j];
    }
  }

  method OutputXform(m: array2<real>, ghost f: Mat, y: array2<real>)
    requires Square(m) && y.Length0 == 2 && y.Length1 == 2 && y != m
    requires forall i: nat, j: nat :: i < 4 && j < 4 ==> m[i, j] == f(i, j)
    modifies y
    ensures forall i: nat, j: nat :: i < 2 && j < 2 ==> y[i, j] == OutputX(f, i, j)
  {
    var t := new real[2, 4]((_, _) => 0.0);
    OutputColumns(m, f, t);
    hide At;
    for i := 0 to 2
      invariant forall r: nat, j: nat :: r < 2 && j < 4 ==> t[r, j] == At(f, r, j)
      invariant forall r: nat, j: nat :: r < i && j < 2 ==> y[r, j] == OutputX(f, r, j)
    {
      y[i, 0] := t[i, 0] + t[i, 1] + t[i, 2];
      y[i, 1] := t[i, 1] - t[i, 2] - t[i, 3];
    }
  }

  // ---- what the buffers hold ----------------------------------------------------------------

  // Transformed filters of the channel pairs before (co, ci).
  ghost predicate FiltersReady(w: Weights, u: array4<real>, co: nat, ci: nat)
    requires u.Length2 == 4 && u.Length3 == 4
    reads u
  {
    forall c: nat, e: nat, i: nat, j: nat ::
      c < u.Length0 && e < u.Length1 && i < 4 && j < 4 && (c < co || (c == co && e < ci)) ==> u[c, e, i, j] == FilterX(Filter(w, c, e), i, j)
  }

  method TransformFilters(s: Shape, w: Weights, u: array4<real>)
    requires u.Length0 == s.Cout && u.Length1 == s.Cin && u.Length2 == 4 && u.Length3 == 4
    modifies u
    ensures FiltersReady(w, u, s.Cout, 0)
  {
    hide FilterX; hide Filter;
    for co := 0 to s.Cout
      invariant FiltersReady(w, u, co, 0)
    {
      for ci := 0 to s.Cin
        invariant FiltersReady(w, u, co, ci)
      {
        var m4 := new real[4, 4]((_, _) => 0.0);
        FilterXform(Filter(w, co, ci), m4);
        forall i: nat, j: nat | i < 4 && j < 4 { u[co, ci, i, j] := m4[i, j]; }
      }
    }
  }

  // Transformed input tiles of the channels before ci.
  ghost predicate TilesReady(s: Shape, x: Image, n: nat, th: nat, tw: nat, v: array3<real>, ci: nat)
    requires v.Length1 == 4 && v.Length2 == 4
    reads v
  {
    forall c: nat, i: nat, j: nat :: c < v.Length0 && i < 4 && j < 4 && c < ci ==> v[c, i, j] == InputX(InTile(s, x, n, th, tw, c), i, j)
  }

  method TransformTiles(s: Shape, x: Image, n: nat, th: nat, tw: nat, v: array3<real>)
    requires v.Length0 == s.Cin && v.Length1 == 4 && v.Length2 == 4
    modifies v
    ensures TilesReady(s, x, n, th, tw, v, s.Cin)
  {
    hide InputX; hide InTile;
    for ci := 0 to s.Cin
      invariant TilesReady(s, x, n, th, tw, v, ci)
    {
      var vv := new real[4, 4]((_, _) => 0.0);
      InputXform(InTile(s, x, n, th, tw, ci), vv);
      forall i: nat, j: nat | i < 4 && j < 4 { v[ci, i, j] := vv[i, j]; }
    }
  }

  ghost predicate Gathered(s: Shape, x: Image, w: Weights, n: nat, th: nat, tw: nat, co: nat, m: array2<real>, ci: nat)
    requires Square(m)
    reads m
  {
    forall i: nat, j: nat :: i < 4 && j < 4 ==> m[i, j] == Summed(ci, Crossed(s, x, w, n, th, tw, co))(i, j)
  }

  lemma SummedNext(s: Shape, x: Image, w: Weights, n: nat, th: nat, tw: nat, co: nat, ci: nat, i: nat, j: nat)
    ensures Summed(0, Crossed(s, x, w, n, th, tw, co))(i, j) == 0.0
    ensures Summed(ci + 1, Crossed(s, x, w, n, th, tw, co))(i, j) ==
            Summed(ci, Crossed(s, x, w, n, th, tw, co))(i, j) + FilterX(Filter(w, co, ci), i, j) * InputX(InTile(s, x, n, th, tw, ci), i, j)
  {
    hide FilterX; hide InputX; hide Filter; hide InTile;
  }

  // The sixteen running sums over the channels.
  method Accumulate(s: Shape, x: Image, w: Weights, n: nat, th: nat, tw: nat, co: nat, u: array4<real>, v: array3<real>, m: array2<real>)
    requires co < u.Length0 && u.Length1 == s.Cin && u.Length2 == 4 && u.Length3 == 4 && FiltersReady(w, u, u.Length0, 0)
    requires v.Length0 == s.Cin && v.Length1 == 4 && v.Length2 == 4 && TilesReady(s, x, n, th, tw, v, s.Cin)
    requires Square(m)
    modifies m
    ensures Gathered(s, x, w, n, th, tw, co, m, s.Cin)
  {
    hide FilterX; hide InputX; hide Filter; hide InTile; hide Summed; hide Crossed;
    forall i: nat, j: nat | i < 4 && j < 4 { m[i, j] := 0.0; }
    forall i: nat, j: nat | i < 4 && j < 4 ensures m[i, j] == Summed(0, Crossed(s, x, w, n, th, tw, co))(i, j) {
      SummedNext(s, x, w, n, th, tw, co, 0, i, j);
    }
    for ci := 0 to s.Cin
      invariant Gathered(s, x, w, n, th, tw, co, m, ci)
    {
      forall i: nat, j: nat | i < 4 && j < 4 { m[i, j] := m[i, j] + u[co, ci, i, j] * v[ci, i, j]; }
      forall i: nat, j: nat | i < 4 && j < 4 ensures m[i, j] == Summed(ci + 1, Crossed(s, x, w, n, th, tw, co))(i, j) {
        SummedNext(s, x, w, n, th, tw, co, ci, i, j);
      }
    }
  }

  // ---- writing the output: only right values are ever written --------------------------------

  twostate predicate Keeps(s: Shape, x: Image, w: Weights, bias: seq<real>, y: array3<real>)
    requires Valid(s) && Fits(s, y)
    reads y
  {
    forall m: nat, c: nat, p: nat :: m < s.N && c < s.Cout && p < Pixels(s) && old(Right(s, x, w, bias, y, m, c, p)) ==> Right(s, x, w, bias, y, m, c, p)
  }

  ghost predicate PixelRight(s: Shape, x: Image, w: Weights, bias: seq<real>, y: array3<real>, n: nat, co: nat, oh: nat, ow: nat)
    requires Valid(s) && Fits(s, y) && n < s.N && co < s.Cout && oh < OH(s) && ow < OW(s)
    reads y
  {
    Right(s, x, w, bias, y, n, co, PixelAt(s, oh, ow))
  }

  method Put(s: Shape, x: Image, w: Weights, bias: seq<real>, y: array3<real>, n: nat, co: nat, oh: nat, ow: nat, v: real)
    requires Valid(s) && Fits(s, y) && n < s.N && co < s.Cout && oh < OH(s) && ow < OW(s)
    requires v == Conv(s, x, w, n, co, PixelAt(s, oh, ow)) + Bias(bias, co)
    modifies y
    ensures PixelRight(s, x, w, bias, y, n, co, oh, ow) && Keeps(s, x, w, bias, y)
  {
    hide Conv; hide PixelAt; hide Pixels; hide Bias; hide OH; hide OW;
    y[n, co, PixelAt(s, oh, ow)] := v;
  }

  ghost predicate TileRight(s: Shape, x: Image, w: Weights, bias: seq<real>, y: array3<real>, n: nat, co: nat, th: nat, tw: nat)
    requires Valid(s) && Fits(s, y) && n < s.N && co < s.Cout && th * 2 + 1 < OH(s) && tw * 2 + 1 < OW(s)
    reads y
  {
    && PixelRight(s, x, w, bias, y, n, co, th * 2, tw * 2)
    && PixelRight(s, x, w, bias, y, n, co, th * 2, tw * 2 + 1)
    && PixelRight(s, x, w, bias, y, n, co, th * 2 + 1, tw * 2)
    && PixelRight(s, x, w, bias, y, n, co, th * 2 + 1, tw * 2 + 1)
  }

  // One tile of one output channel.
  method OneTile(s: Shape, x: Image, w: Weights, bias: seq<real>, y: array3<real>, n: nat, co: nat, th: nat, tw: nat, u: array4<real>, v: array3<real>)
    requires IsFixed(s) && Valid(s) && Fits(s, y) && n < s.N && co < s.Cout && th * 2 + 1 < OH(s) && tw * 2 + 1 < OW(s)
    requires u.Length0 == s.Cout && u.Length1 == s.Cin && u.Length2 == 4 && u.Length3 == 4 && FiltersReady(w, u, s.Cout, 0)
    requires v.Length0 == s.Cin && v.Length1 == 4 && v.Length2 == 4 && TilesReady(s, x, n, th, tw, v, s.Cin)
    modifies y
    ensures TileRight(s, x, w, bias, y, n, co, th, tw) && Keeps(s, x, w, bias, y)
  {
    hide OutputX; hide Summed; hide Crossed; hide Right; hide Conv; hide PixelAt; hide OH; hide OW; hide FiltersReady; hide TilesReady;
    var m := new real[4, 4]((_, _) => 0.0);
    Accumulate(s, x, w, n, th, tw, co, u, v, m);
    var yt := new real[2, 2]((_, _) => 0.0);
    ghost var f := Summed(s.Cin, Crossed(s, x, w, n, th, tw, co));
    OutputXform(m, f, yt);
    var b := Bias(bias, co);
    TileIsConv(s, x, w, n, co, th, tw, 0, 0);
    TileIsConv(s, x, w, n, co, th, tw, 0, 1);
    TileIsConv(s, x, w, n, co, th, tw, 1, 0);
    TileIsConv(s, x, w, n, co, th, tw, 1, 1);
    Put(s, x, w, bias, y, n, co, th * 2, tw * 2, yt[0, 0] + b);
    Put(s, x, w, bias, y, n, co, th * 2, tw * 2 + 1, yt[0, 1] + b);
    Put(s, x, w, bias, y, n, co, th * 2 + 1, tw * 2, yt[1, 0] + b);
    Put(s, x, w, bias, y, n, co, th * 2 + 1, tw * 2 + 1, yt[1, 1] + b);
  }

  ghost predicate ChannelsRight(s: Shape, x: Image, w: Weights, bias: seq<real>, y: array3<real>, n: nat, th: nat, tw: nat, co: nat)
    requires Valid(s) && Fits(s, y) && n < s.N && th * 2 + 1 < OH(s) && tw * 2 + 1 < OW(s)
    reads y
  {
    forall c: nat :: c < co && c < s.Cout ==> TileRight(s, x, w, bias, y, n, c, th, tw)
  }

  method ChannelNext(s: Shape, x: Image, w: Weights, bias: seq<real>, y: array3<real>, n: nat, co: nat, th: nat, tw: nat, u: array4<real>, v: array3<real>)
    requires IsFixed(s) && Valid(s) && Fits(s, y) && n < s.N && co < s.Cout && th * 2 + 1 < OH(s) && tw * 2 + 1 < OW(s)
    requires u.Length0 == s.Cout && u.Length1 == s.Cin && u.Length2 == 4 && u.Length3 == 4 && FiltersReady(w, u, s.Cout, 0)
    requires v.Length0 == s.Cin && v.Length1 == 4 && v.Length2 == 4 && TilesReady(s, x, n, th, tw, v, s.Cin)
    requires ChannelsRight(s, x, w, bias, y, n, th, tw, co)
    modifies y
    ensures ChannelsRight(s, x, w, bias, y, n, th, tw, co + 1) && Keeps(s, x, w, bias, y)
  {
    hide PixelAt; hide OH; hide OW; hide FiltersReady; hide TilesReady; hide Conv; hide Pixels; hide Bias; hide Right; hide IsFixed;
    OneTile(s, x, w, bias, y, n, co, th, tw, u, v);
    forall c: nat | c < co ensures TileRight(s, x, w, bias, y, n, c, th, tw) {
      assert old(TileRight(s, x, w, bias, y, n, c, th, tw));
      assert old(PixelRight(s, x, w, bias, y, n, c, th * 2, tw * 2));
      assert old(PixelRight(s, x, w, bias, y, n, c, th * 2, tw * 2 + 1));
      assert old(PixelRight(s, x, w, bias, y, n, c, th * 2 + 1, tw * 2));
      assert old(PixelRight(s, x, w, bias, y, n, c, th * 2 + 1, tw * 2 + 1));
    }
  }

  // One tile position: every channel.
  method TileChannels(s: Shape, x: Image, w: Weights, bias: seq<real>, y: array3<real>, n: nat, th: nat, tw: nat, u: array4<real>, v: array3<real>)
    requires IsFixed(s) && Valid(s) && Fits(s, y) && n < s.N && th * 2 + 1 < OH(s) && tw * 2 + 1 < OW(s) && y != v
    requires u.Length0 == s.Cout && u.Length1 == s.Cin && u.Length2 == 4 && u.Length3 == 4 && FiltersReady(w, u, s.Cout, 0)
    requires v.Length0 == s.Cin && v.Length1 == 4 && v.Length2 == 4
    modifies y, v
    ensures ChannelsRight(s, x, w, bias, y, n, th, tw, s.Cout) && Keeps(s, x, w, bias, y)
  {
    hide OH; hide OW; hide FiltersReady; hide TilesReady; hide Pixels; hide Right; hide TileRight; hide IsFixed;
    TransformTiles(s, x, n, th, tw, v);
    for co := 0 to s.Cout
      invariant TilesReady(s, x, n, th, tw, v, s.Cin)
      invariant ChannelsRight(s, x, w, bias, y, n, th, tw, co) && Keeps(s, x, w, bias, y)
    {
      ChannelNext(s, x, w, bias, y, n, co, th, tw, u, v);
    }
  }

  ghost predicate TilesDone(s: Shape, x: Image, w: Weights, bias: seq<real>, y: array3<real>, n: nat, th: nat, tw: nat)
    requires Valid(s) && Fits(s, y) && n < s.N
    reads y
  {
    forall co: nat, oh: nat, ow: nat ::
      co < s.Cout && oh < OH(s) / 2 * 2 && ow < OW(s) / 2 * 2 && (oh < th * 2 || (oh < th * 2 + 2 && ow < tw * 2)) ==>
        PixelRight(s, x, w, bias, y, n, co, oh, ow)
  }

  method TileNext(s: Shape, x: Image, w: Weights, bias: seq<real>, y: array3<real>, n: nat, th: nat, tw: nat, u: array4<real>, v: array3<real>)
    requires IsFixed(s) && Valid(s) && Fits(s, y) && n < s.N && th < OH(s) / 2 && tw < OW(s) / 2 && y != v
    requires u.Length0 == s.Cout && u.Length1 == s.Cin && u.Length2 == 4 && u.Length3 == 4 && FiltersReady(w, u, s.Cout, 0)
    requires v.Length0 == s.Cin && v.Length1 == 4 && v.Length2 == 4 && TilesDone(s, x, w, bias, y, n, th, tw)
    modifies y, v
    ensures TilesDone(s, x, w, bias, y, n, th, tw + 1) && Keeps(s, x, w, bias, y)
  {
    hide PixelAt; hide OH; hide OW; hide FiltersReady; hide TilesReady; hide Conv; hide Pixels; hide Bias; hide IsFixed;
    TileChannels(s, x, w, bias, y, n, th, tw, u, v);
    forall co: nat, oh: nat, ow: nat | co < s.Cout && oh < OH(s) / 2 * 2 && ow < OW(s) / 2 * 2 && (oh < th * 2 || (oh < th * 2 + 2 && ow < tw * 2 + 2))
      ensures PixelRight(s, x, w, bias, y, n, co, oh, ow)
    {
      if oh < th * 2 || ow < tw * 2 {
        assert old(PixelRight(s, x, w, bias, y, n, co, oh, ow));
      } else {
        assert TileRight(s, x, w, bias, y, n, co, th, tw);
      }
    }
  }

  method Tiles(s: Shape, x: Image, w: Weights, bias: seq<real>, y: array3<real>, n: nat, u: array4<real>, v: array3<real>)
    requires IsFixed(s) && Valid(s) && Fits(s, y) && n < s.N && y != v
    requires u.Length0 == s.Cout && u.Length1 == s.Cin && u.Length2 == 4 && u.Length3 == 4 && FiltersReady(w, u, s.Cout, 0)
    requires v.Length0 == s.Cin && v.Length1 == 4 && v.Length2 == 4
    modifies y, v
    ensures TilesDone(s, x, w, bias, y, n, OH(s) / 2, 0) && Keeps(s, x, w, bias, y)
  {
    hide OH; hide OW; hide FiltersReady; hide PixelRight; hide Right; hide IsFixed; hide Pixels;
    for th := 0 to OH(s) / 2
      invariant TilesDone(s, x, w, bias, y, n, th, 0) && Keeps(s, x, w, bias, y)
    {
      for tw := 0 to OW(s) / 2
        invariant TilesDone(s, x, w, bias, y, n, th, tw) && Keeps(s, x, w, bias, y)
      {
        TileNext(s, x, w, bias, y, n, th, tw, u, v);
      }
    }
  }

  // A pixel no full tile covers: the sum taken directly.
  method TailSum(s: Shape, x: Image, w: Weights, bias: seq<real>, n: nat, co: nat, oh: nat, ow: nat, ghost p: nat) returns (sum: real)
    requires IsFixed(s) && Valid(s) && Div(p, OW(s)) == oh && p % OW(s) == ow
    ensures sum == Part(s, x, w, n, co, p, s.Cin * 9) + Bias(bias, co)
  {
    hide OH; hide OW; hide Part; hide Div;
    sum := Bias(bias, co);
    NoTaps(s, x, w, n, co, p);
    var k: nat := 0;
    for ci := 0 to s.Cin
      invariant k == ci * 9 && sum == Bias(bias, co) + Part(s, x, w, n, co, p, k)
    {
      for kr := 0 to 3
        invariant k == ci * 9 + kr * 3 && sum == Bias(bias, co) + Part(s, x, w, n, co, p, k)
      {
        for kc := 0 to 3
          invariant k == ci * 9 + kr * 3 + kc && sum == Bias(bias, co) + Part(s, x, w, n, co, p, k)
        {
          var ih: int, iw: int := oh - 1 + kr, ow - 1 + kc;
          TailTap(s, x, w, n, co, p, oh, ow, ci, kr, kc);
          if !(ih < 0 || ih >= s.H || iw < 0 || iw >= s.W) {
            sum := sum + x(n, ci, ih, iw) * w(co, k);
          }
          k := k + 1;
        }
      }
    }
  }

  method Tail(s: Shape, x: Image, w: Weights, bias: seq<real>, y: array3<real>, n: nat, co: nat, oh: nat, ow: nat)
    requires IsFixed(s) && Valid(s) && Fits(s, y) && n < s.N && co < s.Cout && oh < OH(s) && ow < OW(s)
    modifies y
    ensures PixelRight(s, x, w, bias, y, n, co, oh, ow) && Keeps(s, x, w, bias, y)
  {
    PixelIndex(oh, ow, OW(s));
    NineEach(s);
    var sum := TailSum(s, x, w, bias, n, co, oh, ow, PixelAt(s, oh, ow));
    hide PixelAt; hide OH; hide OW; hide Taps; hide Pixels;
    Put(s, x, w, bias, y, n, co, oh, ow, sum);
  }

  lemma NoTaps(s: Shape, x: Image, w: Weights, n: nat, co: nat, p: nat)
    requires Valid(s)
    ensures Part(s, x, w, n, co, p, 0) == 0.0
  { }

  lemma TailTap(s: Shape, x: Image, w: Weights, n: nat, co: nat, p: nat, oh: nat, ow: nat, ci: nat, kr: nat, kc: nat)
    requires IsFixed(s) && Valid(s) && kr < 3 && kc < 3 && Div(p, OW(s)) == oh && p % OW(s) == ow
    ensures Part(s, x, w, n, co, p, ci * 9 + kr * 3 + kc + 1) == Part(s, x, w, n, co, p, ci * 9 + kr * 3 + kc) +
            (var ih, iw := oh - 1 + kr, ow - 1 + kc; if ih < 0 || ih >= s.H || iw < 0 || iw >= s.W then 0.0 else x(n, ci, ih, iw) * w(co, ci * 9 + kr * 3 + kc))
  {
    hide OW; hide OH; hide OutSize; hide TapOf; hide Patch; hide Div;
    var k: nat := ci * 9 + kr * 3 + kc;
    TapIndex(s, ci, kr, kc);
    assert (ci * s.KH + kr) * s.KW + kc == k;
    PatchIs(s, x, n, k, ci, kr, kc, p, oh, ow);
    assert Part(s, x, w, n, co, p, k + 1) == Part(s, x, w, n, co, p, k) + w(co, k) * Patch(s, x, n, k, p);
  }

  // Pixels before (co, oh, ow) in the order of the tail loops, besides the tiles.
  ghost predicate TailsDone(s: Shape, x: Image, w: Weights, bias: seq<real>, y: array3<real>, n: nat, co: nat, oh: nat, ow: nat)
    requires Valid(s) && Fits(s, y) && n < s.N
    reads y
  {
    forall c: nat, h: nat, v: nat ::
      c < s.Cout && h < OH(s) && v < OW(s) && (c < co || (c == co && (h < oh || (h == oh && v < ow)))) ==>
        PixelRight(s, x, w, bias, y, n, c, h, v)
  }

  method TailNext(s: Shape, x: Image, w: Weights, bias: seq<real>, y: array3<real>, n: nat, co: nat, oh: nat, ow: nat)
    requires IsFixed(s) && Valid(s) && Fits(s, y) && n < s.N && co < s.Cout && oh < OH(s) && ow < OW(s)
    requires TilesDone(s, x, w, bias, y, n, OH(s) / 2, 0) && TailsDone(s, x, w, bias, y, n, co, oh, ow)
    modifies y
    ensures TilesDone(s, x, w, bias, y, n, OH(s) / 2, 0) && TailsDone(s, x, w, bias, y, n, co, oh, ow + 1)
    ensures Keeps(s, x, w, bias, y)
  {
    hide OH; hide OW; hide PixelAt; hide Conv; hide Bias; hide Pixels; hide IsFixed;
    var TH, TW := OH(s) / 2, OW(s) / 2;
    if oh < TH * 2 && ow < TW * 2 {
      assert PixelRight(s, x, w, bias, y, n, co, oh, ow);
      return;
    }
    Tail(s, x, w, bias, y, n, co, oh, ow);
    forall c: nat, h: nat, v: nat | c < s.Cout && h < OH(s) && v < OW(s) && old(PixelRight(s, x, w, bias, y, n, c, h, v))
      ensures PixelRight(s, x, w, bias, y, n, c, h, v)
    { }
  }

  method Tails(s: Shape, x: Image, w: Weights, bias: seq<real>, y: array3<real>, n: nat)
    requires IsFixed(s) && Valid(s) && Fits(s, y) && n < s.N && TilesDone(s, x, w, bias, y, n, OH(s) / 2, 0)
    modifies y
    ensures TailsDone(s, x, w, bias, y, n, s.Cout, 0, 0) && Keeps(s, x, w, bias, y)
  {
    hide OH; hide OW; hide PixelRight; hide Right; hide IsFixed; hide Pixels; hide TilesDone;
    for co := 0 to s.Cout
      invariant TilesDone(s, x, w, bias, y, n, OH(s) / 2, 0) && TailsDone(s, x, w, bias, y, n, co, 0, 0) && Keeps(s, x, w, bias, y)
    {
      for oh := 0 to OH(s)
        invariant TilesDone(s, x, w, bias, y, n, OH(s) / 2, 0) && TailsDone(s, x, w, bias, y, n, co, oh, 0) && Keeps(s, x, w, bias, y)
      {
        for ow := 0 to OW(s)
          invariant TilesDone(s, x, w, bias, y, n, OH(s) / 2, 0) && TailsDone(s, x, w, bias, y, n, co, oh, ow) && Keeps(s, x, w, bias, y)
        {
          TailNext(s, x, w, bias, y, n, co, oh, ow);
        }
      }
    }
  }

  // Every position of the plane is some pixel.
  lemma AllPixels(s: Shape, x: Image, w: Weights, bias: seq<real>, y: array3<real>, n: nat, co: nat)
    requires Valid(s) && Fits(s, y) && n < s.N && co < s.Cout && TailsDone(s, x, w, bias, y, n, s.Cout, 0, 0)
    ensures RowRight(s, x, w, bias, y, n, co)
  {
    forall p: nat | p < Pixels(s) ensures Right(s, x, w, bias, y, n, co, p) {
      PixelSplit(s, p);
      assert PixelRight(s, x, w, bias, y, n, co, Div(p, OW(s)), p % OW(s));
    }
  }

  lemma PixelSplit(s: Shape, p: nat)
    requires Valid(s) && p < Pixels(s)
    ensures Div(p, OW(s)) < OH(s) && p % OW(s) < OW(s) && PixelAt(s, Div(p, OW(s)), p % OW(s)) == p
  {
    DivBelow(p, OH(s), OW(s));
  }

  lemma DivBelow(p: nat, h: nat, w: nat)
    requires w > 0 && p < h * w
    ensures 0 <= p / w < h && p / w * w + p % w == p
  {
    if p / w >= h { ScaleBound(h, p / w, w); }
  }

  method OneImage(s: Shape, x: Image, w: Weights, bias: seq<real>, y: array3<real>, n: nat, u: array4<real>, v: array3<real>)
    requires IsFixed(s) && Valid(s) && Fits(s, y) && n < s.N && y != v && RightBefore(s, x, w, bias, y, n, 0)
    requires u.Length0 == s.Cout && u.Length1 == s.Cin && u.Length2 == 4 && u.Length3 == 4 && FiltersReady(w, u, s.Cout, 0)
    requires v.Length0 == s.Cin && v.Length1 == 4 && v.Length2 == 4
    modifies y, v
    ensures RightBefore(s, x, w, bias, y, n + 1, 0)
  {
    hide OH; hide OW; hide PixelRight; hide Right; hide IsFixed; hide Pixels; hide TilesDone; hide TailsDone; hide FiltersReady;
    Tiles(s, x, w, bias, y, n, u, v);
    Tails(s, x, w, bias, y, n);
    forall m: nat, c: nat | m < s.N && c < s.Cout && m < n + 1 ensures RowRight(s, x, w, bias, y, m, c) {
      if m == n {
        AllPixels(s, x, w, bias, y, n, c);
      } else {
        assert old(RowRight(s, x, w, bias, y, m, c));
        forall p: nat | p < Pixels(s) ensures Right(s, x, w, bias, y, m, c, p) {
          assert old(Right(s, x, w, bias, y, m, c, p));
        }
      }
    }
  }

  // rouge_conv_winograd3x3_f32: the same convolution as Conv2d and ConvImplicit.
  method ConvWinograd(N: nat, Cin: nat, H: nat, W: nat, Cout: nat, x: Image, w: Weights, bias: seq<real>, y: array3<real>)
    requires Positive(Fixed(N, Cin, H, W, Cout)) ==> Valid(Fixed(N, Cin, H, W, Cout)) && Fits(Fixed(N, Cin, H, W, Cout), y)
    modifies y
    ensures Positive(Fixed(N, Cin, H, W, Cout)) ==> RightBefore(Fixed(N, Cin, H, W, Cout), x, w, bias, y, N, 0)
    ensures !Positive(Fixed(N, Cin, H, W, Cout)) ==> forall n: nat, co: nat, p: nat :: n < y.Length0 && co < y.Length1 && p < y.Length2 ==> y[n, co, p] == old(y[n, co, p])
  {
    var s := Fixed(N, Cin, H, W, Cout);
    if !Positive(s) { return; }
    FixedSize(s);
    hide Right; hide Pixels; hide OH; hide OW;
    var u := new real[Cout, Cin, 4, 4]((_, _, _, _) => 0.0);
    TransformFilters(s, w, u);
    var v := new real[Cin, 4, 4]((_, _, _) => 0.0);
    for n := 0 to N
      invariant RightBefore(s, x, w, bias, y, n, 0) && FiltersReady(w, u, Cout, 0)
    {
      OneImage(s, x, w, bias, y, n, u, v);
    }
  }

  // ---- choosing among the three forms ------------------------------------------------------------

  // Two outputs that are both right are equal.
  lemma FormsAgree(s: Shape, x: Image, w: Weights, bias: seq<real>, y: array3<real>, z: array3<real>, n: nat, co: nat, p: nat)
    requires Valid(s) && Fits(s, y) && Fits(s, z) && n < s.N && co < s.Cout && p < Pixels(s)
    requires RightBefore(s, x, w, bias, y, s.N, 0) && RightBefore(s, x, w, bias, z, s.N, 0)
    ensures y[n, co, p] == z[n, co, p]
  {
    hide Pixels; hide Conv;
    assert RowRight(s, x, w, bias, y, n, co) && RowRight(s, x, w, bias, z, n, co);
    assert Right(s, x, w, bias, y, n, co, p) && Right(s, x, w, bias, z, n, co, p);
  }

  method Copy(s: Shape, x: Image, w: Weights, bias: seq<real>, alt: array3<real>, y: array3<real>)
    requires Valid(s) && Fits(s, y) && Fits(s, alt) && y != alt && RightBefore(s, x, w, bias, alt, s.N, 0)
    modifies y
    ensures RightBefore(s, x, w, bias, y, s.N, 0)
  {
    hide Pixels; hide Conv; hide OH; hide OW;
    forall n: nat, co: nat, p: nat | n < y.Length0 && co < y.Length1 && p < y.Length2 { y[n, co, p] := alt[n, co, p]; }
    forall m: nat, c: nat | m < s.N && c < s.Cout ensures RowRight(s, x, w, bias, y, m, c) {
      assert RowRight(s, x, w, bias, alt, m, c);
      forall p: nat | p < Pixels(s) ensures Right(s, x, w, bias, y, m, c, p) {
        assert Right(s, x, w, bias, alt, m, c, p);
      }
    }
  }

  // The three forward forms on the same call: im2col with the matrix product, the
  // tiled pass for every tile size, and Winograd where it applies.
  method ThreeForms(s: Shape, x: Image, w: Weights, bias: seq<real>, tc: nat, ts: nat) returns (a: array3<real>, b: array3<real>, c: array3<real>)
    requires Valid(s) && tc > 0 && ts > 0
    ensures Fits(s, a) && Fits(s, b) && Fits(s, c)
    ensures forall n: nat, co: nat, p: nat :: n < s.N && co < s.Cout && p < Pixels(s) ==>
      a[n, co, p] == b[n, co, p] && (IsFixed(s) ==> a[n, co, p] == c[n, co, p])
  {
    a := new real[s.N, s.Cout, Pixels(s)]((_, _, _) => 0.0);
    b := new real[s.N, s.Cout, Pixels(s)]((_, _, _) => 0.0);
    c := new real[s.N, s.Cout, Pixels(s)]((_, _, _) => 0.0);
    hide Pixels; hide OH; hide OW; hide Right; hide RightBefore;
    Conv2d(s, x, w, bias, a);
    ConvImplicit(s, x, w, bias, b, tc, ts);
    if IsFixed(s) {
      assert s == Fixed(s.N, s.Cin, s.H, s.W, s.Cout);
      ConvWinograd(s.N, s.Cin, s.H, s.W, s.Cout, x, w, bias, c);
    }
    forall n: nat, co: nat, p: nat | n < s.N && co < s.Cout && p < Pixels(s)
      ensures a[n, co, p] == b[n, co, p] && (IsFixed(s) ==> a[n, co, p] == c[n, co, p])
    {
      FormsAgree(s, x, w, bias, a, b, n, co, p);
      if IsFixed(s) { FormsAgree(s, x, w, bias, a, c, n, co, p); }
    }
  }

  // Form m (0 im2col, 1 Winograd, 2 tiled) can do this call.
  predicate Applies(s: Shape, m: int) { m == 0 || m == 2 || (m == 1 && IsFixed(s)) }

  // rouge_conv_tuned, given what each form's timing came to: the output is the
  // convolution, and the form reported is the fastest of those that apply, the
  // first of them on a tie.
  method ConvTuned(s: Shape, x: Image, w: Weights, bias: seq<real>, y: array3<real>, time: int -> real) returns (choice: int)
    requires Valid(s) ==> Fits(s, y)
    modifies y
    ensures choice == -1 <==> !Valid(s)
    ensures Valid(s) ==> Applies(s, choice) && forall m: int :: Applies(s, m) ==> time(choice) <= time(m) && (m < choice ==> time(choice) < time(m))
    ensures Valid(s) ==> RightBefore(s, x, w, bias, y, s.N, 0)
    ensures !Valid(s) ==> forall n: nat, co: nat, p: nat :: n < y.Length0 && co < y.Length1 && p < y.Length2 ==> y[n, co, p] == old(y[n, co, p])
  {
    choice := -1;
    if !Positive(s) { return; }
    if OH(s) <= 0 || OW(s) <= 0 { return; }
    var alt := new real[s.N, s.Cout, Pixels(s)]((_, _, _) => 0.0);
    var canWino := s.KH == 3 && s.KW == 3 && s.stride == 1 && s.pad == 1;
    hide Pixels; hide OH; hide OW; hide Right; hide RightBefore;
    Conv2d(s, x, w, bias, y);
    var best := time(0);
    choice := 0;
    if canWino {
      assert s == Fixed(s.N, s.Cin, s.H, s.W, s.Cout);
      ConvWinograd(s.N, s.Cin, s.H, s.W, s.Cout, x, w, bias, alt);
      if time(1) < best {
        Copy(s, x, w, bias, alt, y);
        choice := 1;
        best := time(1);
      }
    }
    ConvImplicit(s, x, w, bias, alt, 8, 128);
    if time(2) < best {
      Copy(s, x, w, bias, alt, y);
      choice := 2;
    }
  }
}

// rouge_conv_bwd_data and rouge_conv_bwd_filter are the adjoints of the
// convolution (conv_backward.cpp), over exact arithmetic, for every shape,
// stride and padding.
module Adjoint {
  import opened Bits
  import opened Sums
  import opened Convolution

  type Grad = (nat, nat, nat) -> real               // image, output channel, pixel

  // ---- sums of sums -----------------------------------------------------------------

  type Cube = (nat, nat, nat) -> real

  function Along(f: Cube, i: nat, j: nat): nat -> real { (k: nat) => f(i, j, k) }
  function Depth(c: nat, f: Cube): (nat, nat) -> real { (i: nat, j: nat) => Sum(c, Along(f, i, j)) }
  function Sum2(a: nat, b: nat, f: (nat, nat) -> real): real { Sum(a, Inner(b, f)) }
  function Sum3(a: nat, b: nat, c: nat, f: Cube): real { Sum2(a, b, Depth(c, f)) }
  function Turned(f: Cube): Cube { (k: nat, j: nat, i: nat) => f(i, j, k) }

  lemma Sum2Same(a: nat, b: nat, f: (nat, nat) -> real, g: (nat, nat) -> real)
    requires forall i: nat, j: nat :: i < a && j < b ==> f(i, j) == g(i, j)
    ensures Sum2(a, b, f) == Sum2(a, b, g)
  {
    forall i: nat | i < a ensures Inner(b, f)(i) == Inner(b, g)(i) { SumSame(b, Row(f, i), Row(g, i)); }
    SumSame(a, Inner(b, f), Inner(b, g));
  }

  // The plane at a fixed middle index.
  function Plane(f: Cube, j: nat): (nat, nat) -> real { (i: nat, k: nat) => f(i, j, k) }

  // Three nested sums, innermost first.
  lemma Reverse(a: nat, b: nat, c: nat, f: Cube)
    ensures Sum3(a, b, c, f) == Sum3(c, b, a, Turned(f))
  {
    SumSwap(a, b, Depth(c, f));
    SumSwap(b, c, Flip(Depth(a, Turned(f))));
    forall j: nat ensures Inner(a, Flip(Depth(c, f)))(j) == Inner(c, Flip(Depth(a, Turned(f))))(j) {
      MiddleSwap(a, c, f, j);
    }
    SumSame(b, Inner(a, Flip(Depth(c, f))), Inner(c, Flip(Depth(a, Turned(f)))));
    Sum2Same(c, b, Flip(Flip(Depth(a, Turned(f)))), Depth(a, Turned(f)));
  }

  lemma MiddleSwap(a: nat, c: nat, f: Cube, j: nat)
    ensures Inner(a, Flip(Depth(c, f)))(j) == Inner(c, Flip(Depth(a, Turned(f))))(j)
  {
    SumSwap(a, c, Plane(f, j));
    forall i: nat ensures Row(Flip(Depth(c, f)), j)(i) == Inner(c, Plane(f, j))(i) {
      SumSame(c, Along(f, i, j), Row(Plane(f, j), i));
    }
    SumSame(a, Row(Flip(Depth(c, f)), j), Inner(c, Plane(f, j)));
    forall k: nat ensures Row(Flip(Depth(a, Turned(f))), j)(k) == Inner(a, Flip(Plane(f, j)))(k) {
      SumSame(a, Along(Turned(f), k, j), Row(Flip(Plane(f, j)), k));
    }
    SumSame(c, Row(Flip(Depth(a, Turned(f))), j), Inner(a, Flip(Plane(f, j))));
  }

  // ---- inner products --------------------------------------------------------------------

  function Scaled(a: nat -> real, f: nat -> real): nat -> real { (i: nat) => a(i) * f(i) }
  function Dot(n: nat, a: nat -> real, f: nat -> real): real { Sum(n, Scaled(a, f)) }
  function Spread(a: nat -> real, v: (nat, nat) -> real): (nat, nat) -> real { (i: nat, j: nat) => a(i) * v(i, j) }
  function Dots(n: nat, a: nat -> real, v: (nat, nat) -> real): nat -> real { (j: nat) => Dot(n, a, Row(Flip(v), j)) }

  lemma ScaleSum(n: nat, c: real, f: nat -> real, g: nat -> real)
    requires forall i: nat :: i < n ==> g(i) == c * f(i)
    ensures Sum(n, g) == c * Sum(n, f)
  {
    SumTimes(n, c, f);
    SumSame(n, g, (i: nat) => c * f(i));
  }

  // A product with a sum is a sum of products.
  lemma DotOfSum(n: nat, m: nat, a: nat -> real, v: (nat, nat) -> real)
    ensures Dot(n, a, Inner(m, v)) == Sum(m, Dots(n, a, v))
  {
    forall i: nat ensures Scaled(a, Inner(m, v))(i) == Inner(m, Spread(a, v))(i) {
      ScaleSum(m, a(i), Row(v, i), Row(Spread(a, v), i));
    }
    SumSame(n, Scaled(a, Inner(m, v)), Inner(m, Spread(a, v)));
    SumSwap(n, m, Spread(a, v));
    forall j: nat ensures Inner(n, Flip(Spread(a, v)))(j) == Dots(n, a, v)(j) {
      SumSame(n, Row(Flip(Spread(a, v)), j), Scaled(a, Row(Flip(v), j)));
    }
    SumSame(m, Inner(n, Flip(Spread(a, v))), Dots(n, a, v));
  }

  // ---- gathering and scattering through one relation -----------------------------------------

  type Relation = (nat, nat, nat) -> bool

  function Masked(hit: Relation, p: nat, t: nat, c: nat -> real): nat -> real { (q: nat) => if hit(p, t, q) then c(q) else 0.0 }
  function Gather(nq: nat, hit: Relation, b: nat -> real, c: nat -> real): (nat, nat) -> real {
    (p: nat, t: nat) => b(t) * Sum(nq, Masked(hit, p, t, c))
  }

  function Thrown(hit: Relation, q: nat, t: nat, a: nat -> real, b: nat -> real): nat -> real {
    (p: nat) => if hit(p, t, q) then a(p) * b(t) else 0.0
  }
  function Scatter(np: nat, hit: Relation, a: nat -> real, b: nat -> real): (nat, nat) -> real {
    (q: nat, t: nat) => Sum(np, Thrown(hit, q, t, a, b))
  }

  function All(hit: Relation, a: nat -> real, b: nat -> real, c: nat -> real): Cube {
    (p: nat, t: nat, q: nat) => if hit(p, t, q) then a(p) * b(t) * c(q) else 0.0
  }

  lemma GatherAll(np: nat, nt: nat, nq: nat, hit: Relation, a: nat -> real, b: nat -> real, c: nat -> real)
    ensures Dot(np, a, Inner(nt, Gather(nq, hit, b, c))) == Sum3(np, nt, nq, All(hit, a, b, c))
  {
    var f := All(hit, a, b, c);
    forall p: nat ensures Scaled(a, Inner(nt, Gather(nq, hit, b, c)))(p) == Inner(nt, Depth(nq, f))(p) {
      forall t: nat ensures Row(Depth(nq, f), p)(t) == a(p) * Row(Gather(nq, hit, b, c), p)(t) {
        ScaleSum(nq, a(p) * b(t), Masked(hit, p, t, c), Along(f, p, t));
      }
      ScaleSum(nt, a(p), Row(Gather(nq, hit, b, c), p), Row(Depth(nq, f), p));
    }
    SumSame(np, Scaled(a, Inner(nt, Gather(nq, hit, b, c))), Inner(nt, Depth(nq, f)));
  }

  lemma ScatterAll(np: nat, nt: nat, nq: nat, hit: Relation, a: nat -> real, b: nat -> real, c: nat -> real)
    ensures Dot(nq, c, Inner(nt, Scatter(np, hit, a, b))) == Sum3(nq, nt, np, Turned(All(hit, a, b, c)))
  {
    var f := Turned(All(hit, a, b, c));
    forall q: nat ensures Scaled(c, Inner(nt, Scatter(np, hit, a, b)))(q) == Inner(nt, Depth(np, f))(q) {
      forall t: nat ensures Row(Depth(np, f), q)(t) == c(q) * Row(Scatter(np, hit, a, b), q)(t) {
        ScaleSum(np, c(q), Thrown(hit, q, t, a, b), Along(f, q, t));
      }
      ScaleSum(nt, c(q), Row(Scatter(np, hit, a, b), q), Row(Depth(np, f), q));
    }
    SumSame(nq, Scaled(c, Inner(nt, Scatter(np, hit, a, b))), Inner(nt, Depth(np, f)));
  }

  // Gathering through a relation is adjoint to scattering through it.
  lemma Adjoint(np: nat, nt: nat, nq: nat, hit: Relation, a: nat -> real, b: nat -> real, c: nat -> real)
    ensures Dot(np, a, Inner(nt, Gather(nq, hit, b, c))) == Dot(nq, c, Inner(nt, Scatter(np, hit, a, b)))
  {
    GatherAll(np, nt, nq, hit, a, b, c);
    ScatterAll(np, nt, nq, hit, a, b, c);
    Reverse(np, nt, nq, All(hit, a, b, c));
  }

  // ---- which input a tap sees, and which outputs an input reaches ------------------------------

  predicate Reaches(s: Shape, oh: int, ow: int, kr: int, kc: int, ih: int, iw: int) {
    ih + s.pad == oh * s.stride + kr && iw + s.pad == ow * s.stride + kc
  }

  // Output pixel p, tap offset t and input pixel q of one channel.
  function Hit(s: Shape): Relation
    requires Valid(s)
  {
    (p: nat, t: nat, q: nat) => Reaches(s, Div(p, OW(s)), p % OW(s), Div(t, s.KW), t % s.KW, Div(q, s.W), q % s.W)
  }

  function Points(s: Shape): nat { NatTimes(s.H, s.W); s.H * s.W }

  function ImageRow(s: Shape, x: Image, n: nat, ci: nat): nat -> real
    requires s.W > 0
  {
    (q: nat) => x(n, ci, Div(q, s.W), q % s.W)
  }

  function Split(i: int, j: int, w: nat): nat
    requires 0 <= i && 0 <= j < w
  {
    NatTimes(i, w);
    i * w + j
  }

  lemma SplitIs(i: int, j: int, h: nat, w: nat, q: nat)
    requires 0 <= i < h && 0 <= j < w
    ensures Split(i, j, w) < h * w && ((Div(q, w) == i && q % w == j) <==> q == Split(i, j, w))
  {
    RowEnd(i, h, w);
    DivUnique(Split(i, j, w), w, i, j);
  }

  lemma Below(q: nat, h: nat, w: nat)
    requires w > 0 && q < h * w
    ensures 0 <= Div(q, w) < h && 0 <= q % w < w
  {
    if q / w >= h { ScaleBound(h, q / w, w); }
  }

  // The padded image as a sum over all its points.
  lemma SeenIsSum(s: Shape, x: Image, n: nat, ci: nat, t: nat, p: nat)
    requires Valid(s)
    ensures Seen(s, x, n, ci, Div(t, s.KW), t % s.KW, Div(p, OW(s)), p % OW(s)) == Sum(Points(s), Masked(Hit(s), p, t, ImageRow(s, x, n, ci)))
  {
    var ih: int := Div(p, OW(s)) * s.stride - s.pad + Div(t, s.KW);
    var iw: int := (p % OW(s)) * s.stride - s.pad + t % s.KW;
    var f := Masked(Hit(s), p, t, ImageRow(s, x, n, ci));
    hide OH; hide OW; hide OutSize; hide Div; hide Valid;
    if 0 <= ih < s.H && 0 <= iw < s.W {
      var k := Split(ih, iw, s.W);
      SplitIs(ih, iw, s.H, s.W, k);
      forall q: nat ensures f(q) == if q == k then x(n, ci, ih, iw) else 0.0 { SplitIs(ih, iw, s.H, s.W, q); }
      SumOne(Points(s), k, f);
    } else {
      forall q: nat | q < Points(s) ensures f(q) == 0.0 { Below(q, s.H, s.W); }
      SumNothing(Points(s), f);
    }
  }

  // What one tap of one output channel adds to the gradient of an input point:
  // the divisions and range tests of rouge_conv_bwd_data.
  function Share(s: Shape, dy: Grad, w: Weights, n: nat, co: nat, k: nat, kr: nat, kc: nat, ih: nat, iw: nat): real
    requires Valid(s)
  {
    var numH, numW := ih + s.pad - kr, iw + s.pad - kc;
    var oh, ow := Truncated(numH, s.stride), Truncated(numW, s.stride);
    if !Divides(numH, s.stride) || !(0 <= oh < OH(s)) || !Divides(numW, s.stride) || !(0 <= ow < OW(s)) then 0.0
    else dy(n, co, Split(oh, ow, OW(s))) * w(co, k)
  }

  // The remainder of a division toward zero is zero.
  predicate Divides(a: int, b: nat)
    requires b > 0
  {
    a - Truncated(a, b) * b == 0
  }

  lemma OnlyQuotient(a: int, b: nat, o: int)
    requires b > 0
    ensures a == o * b <==> Divides(a, b) && o == Truncated(a, b)
  {
    if a == o * b {
      if a >= 0 {
        ScaleSign(o, b);
        DivUnique(a, b, o, 0);
      } else {
        ScaleSign(-o, b);
        assert -a == (-o) * b;
        DivUnique(-a, b, -o, 0);
      }
    }
  }

  lemma ScaleSign(o: int, b: nat)
    requires b > 0 && o * b >= 0
    ensures o >= 0
  { }

  function DyRow(dy: Grad, n: nat, co: nat): nat -> real { (p: nat) => dy(n, co, p) }
  function WRow(s: Shape, w: Weights, co: nat, ci: nat): nat -> real { (t: nat) => w(co, TapNumber(s, ci, t)) }

  function ShareAt(s: Shape, dy: Grad, w: Weights, n: nat, co: nat, ci: nat, t: nat, q: nat): real
    requires Valid(s)
  {
    Share(s, dy, w, n, co, TapNumber(s, ci, t), Div(t, s.KW), t % s.KW, Div(q, s.W), q % s.W)
  }

  function Num(i: nat, pad: nat, k: nat): int { i + pad - k }

  // The output pixel an input point and a tap lead back to.
  predicate LeadsTo(s: Shape, t: nat, q: nat, oh: int, ow: int)
    requires s.KW > 0 && s.W > 0 && s.stride > 0
  {
    var numH, numW := Num(Div(q, s.W), s.pad, Div(t, s.KW)), Num(q % s.W, s.pad, t % s.KW);
    Divides(numH, s.stride) && Divides(numW, s.stride) && oh == Truncated(numH, s.stride) && ow == Truncated(numW, s.stride)
  }

  lemma HitIs(s: Shape, p: nat, t: nat, q: nat)
    requires Valid(s)
    ensures Hit(s)(p, t, q) <==> LeadsTo(s, t, q, Div(p, OW(s)), p % OW(s))
  {
    hide OH; hide OW; hide OutSize; hide Divides; hide Truncated;
    OnlyQuotient(Num(Div(q, s.W), s.pad, Div(t, s.KW)), s.stride, Div(p, OW(s)));
    OnlyQuotient(Num(q % s.W, s.pad, t % s.KW), s.stride, p % OW(s));
    hide Div;
  }

  // Dividing back finds the one output pixel, if there is one.
  predicate HasPixel(s: Shape, t: nat, q: nat)
    requires Valid(s)
  {
    var numH, numW := Num(Div(q, s.W), s.pad, Div(t, s.KW)), Num(q % s.W, s.pad, t % s.KW);
    Divides(numH, s.stride) && Divides(numW, s.stride) && 0 <= Truncated(numH, s.stride) < OH(s) && 0 <= Truncated(numW, s.stride) < OW(s)
  }

  function PixelOf(s: Shape, t: nat, q: nat): nat
    requires Valid(s) && HasPixel(s, t, q)
  {
    Split(Truncated(Num(Div(q, s.W), s.pad, Div(t, s.KW)), s.stride), Truncated(Num(q % s.W, s.pad, t % s.KW), s.stride), OW(s))
  }

  lemma HitOnce(s: Shape, p: nat, t: nat, q: nat)
    requires Valid(s) && p < Pixels(s)
    ensures Hit(s)(p, t, q) <==> HasPixel(s, t, q) && p == PixelOf(s, t, q)
    ensures HasPixel(s, t, q) ==> PixelOf(s, t, q) < Pixels(s)
  {
    PixelsAre(s);
    HitIs(s, p, t, q);
    hide OH; hide OW; hide OutSize; hide Divides; hide Truncated; hide Hit; hide Div; hide Split;
    Below(p, OH(s), OW(s));
    if HasPixel(s, t, q) {
      var numH, numW := Num(Div(q, s.W), s.pad, Div(t, s.KW)), Num(q % s.W, s.pad, t % s.KW);
      SplitIs(Truncated(numH, s.stride), Truncated(numW, s.stride), OH(s), OW(s), p);
    }
  }

  lemma ShareIs(s: Shape, dy: Grad, w: Weights, n: nat, co: nat, ci: nat, t: nat, q: nat)
    requires Valid(s)
    ensures ShareAt(s, dy, w, n, co, ci, t, q) == if HasPixel(s, t, q) then dy(n, co, PixelOf(s, t, q)) * w(co, TapNumber(s, ci, t)) else 0.0
  {
    hide OH; hide OW; hide OutSize; hide Divides; hide Truncated; hide Div; hide TapNumber; hide Split;
  }

  lemma ShareIsSum(s: Shape, dy: Grad, w: Weights, n: nat, co: nat, ci: nat, t: nat, q: nat)
    requires Valid(s)
    ensures ShareAt(s, dy, w, n, co, ci, t, q) == Sum(Pixels(s), Thrown(Hit(s), q, t, DyRow(dy, n, co), WRow(s, w, co, ci)))
  {
    hide OH; hide OW; hide HasPixel; hide PixelOf; hide ShareAt; hide Hit; hide TapNumber; hide Pixels;
    var f := Thrown(Hit(s), q, t, DyRow(dy, n, co), WRow(s, w, co, ci));
    ShareIs(s, dy, w, n, co, ci, t, q);
    forall p: nat | p < Pixels(s) ensures f(p) == if HasPixel(s, t, q) && p == PixelOf(s, t, q) then dy(n, co, p) * w(co, TapNumber(s, ci, t)) else 0.0 {
      HitOnce(s, p, t, q);
    }
    PixelsPositive(s);
    HitOnce(s, 0, t, q);
    if HasPixel(s, t, q) {
      SumOne(Pixels(s), PixelOf(s, t, q), f);
    } else {
      SumNothing(Pixels(s), f);
    }
  }

  lemma PixelsPositive(s: Shape)
    requires Valid(s)
    ensures Pixels(s) > 0
  {
    PixelsAre(s);
    RowEnd(0, OH(s), OW(s));
  }

  // ---- the gradients ---------------------------------------------------------------------------

  function ShareRow(s: Shape, dy: Grad, w: Weights, n: nat, co: nat, ci: nat, ih: nat, iw: nat): nat -> real
    requires Valid(s)
  {
    (t: nat) => Share(s, dy, w, n, co, TapNumber(s, ci, t), Div(t, s.KW), t % s.KW, ih, iw)
  }

  // What rouge_conv_bwd_data computes for one input point.
  function DataTerm(s: Shape, dy: Grad, w: Weights, n: nat, ci: nat, ih: nat, iw: nat): nat -> real
    requires Valid(s)
  {
    (co: nat) => Sum(Offsets(s), ShareRow(s, dy, w, n, co, ci, ih, iw))
  }

  function DataGrad(s: Shape, dy: Grad, w: Weights, n: nat, ci: nat, ih: nat, iw: nat): real
    requires Valid(s)
  {
    Sum(s.Cout, DataTerm(s, dy, w, n, ci, ih, iw))
  }

  // What rouge_conv_bwd_filter computes for one weight.
  function PatchRow(s: Shape, x: Image, n: nat, k: nat): nat -> real
    requires Valid(s)
  {
    (p: nat) => Patch(s, x, n, k, p)
  }

  function FilterTerm(s: Shape, x: Image, dy: Grad, co: nat, k: nat): nat -> real
    requires Valid(s)
  {
    (n: nat) => Dot(Pixels(s), DyRow(dy, n, co), PatchRow(s, x, n, k))
  }

  function FilterGrad(s: Shape, x: Image, dy: Grad, co: nat, k: nat): real
    requires Valid(s)
  {
    Sum(s.N, FilterTerm(s, x, dy, co, k))
  }

  // ---- the three inner products ------------------------------------------------------------------

  function ConvRowOf(s: Shape, x: Image, w: Weights, n: nat, co: nat): nat -> real
    requires Valid(s)
  {
    (p: nat) => Conv(s, x, w, n, co, p)
  }

  function OutPairs(s: Shape, dy: Grad, x: Image, w: Weights): (nat, nat) -> real
    requires Valid(s)
  {
    (n: nat, co: nat) => Dot(Pixels(s), DyRow(dy, n, co), ConvRowOf(s, x, w, n, co))
  }

  // The inner product of dy with the convolution of x by w, over all output elements.
  function WithOutput(s: Shape, dy: Grad, x: Image, w: Weights): real
    requires Valid(s)
  {
    Sum2(s.N, s.Cout, OutPairs(s, dy, x, w))
  }

  function DataRow(s: Shape, dy: Grad, w: Weights, n: nat, ci: nat): nat -> real
    requires Valid(s)
  {
    (q: nat) => DataGrad(s, dy, w, n, ci, Div(q, s.W), q % s.W)
  }

  function InPairs(s: Shape, dy: Grad, x: Image, w: Weights): (nat, nat) -> real
    requires Valid(s)
  {
    (n: nat, ci: nat) => Dot(Points(s), ImageRow(s, x, n, ci), DataRow(s, dy, w, n, ci))
  }

  // The inner product of x with the data gradient, over all input elements.
  function WithInput(s: Shape, dy: Grad, x: Image, w: Weights): real
    requires Valid(s)
  {
    Sum2(s.N, s.Cin, InPairs(s, dy, x, w))
  }

  function WeightRow(w: Weights, co: nat): nat -> real { (k: nat) => w(co, k) }
  function FilterRow(s: Shape, x: Image, dy: Grad, co: nat): nat -> real
    requires Valid(s)
  {
    (k: nat) => FilterGrad(s, x, dy, co, k)
  }

  function WeightTerm(s: Shape, dy: Grad, x: Image, w: Weights): nat -> real
    requires Valid(s)
  {
    (co: nat) => Dot(Taps(s), WeightRow(w, co), FilterRow(s, x, dy, co))
  }

  // The inner product of w with the filter gradient, over all weights.
  function WithWeights(s: Shape, dy: Grad, x: Image, w: Weights): real
    requires Valid(s)
  {
    Sum(s.Cout, WeightTerm(s, dy, x, w))
  }

  // ---- data ----------------------------------------------------------------------------------------

  // One image, one pair of channels: what they contribute to either inner product.
  function Gathered(s: Shape, x: Image, w: Weights, n: nat, co: nat, ci: nat): nat -> real
    requires Valid(s)
  {
    Inner(Offsets(s), Gather(Points(s), Hit(s), WRow(s, w, co, ci), ImageRow(s, x, n, ci)))
  }

  function ByPixel(s: Shape, x: Image, w: Weights, n: nat, co: nat): (nat, nat) -> real
    requires Valid(s)
  {
    (p: nat, ci: nat) => Gathered(s, x, w, n, co, ci)(p)
  }

  function Pair(s: Shape, dy: Grad, x: Image, w: Weights, n: nat): (nat, nat) -> real
    requires Valid(s)
  {
    (co: nat, ci: nat) => Dot(Pixels(s), DyRow(dy, n, co), Gathered(s, x, w, n, co, ci))
  }

  lemma ConvByPixel(s: Shape, x: Image, w: Weights, n: nat, co: nat, p: nat)
    requires Valid(s)
    ensures Conv(s, x, w, n, co, p) == Inner(s.Cin, ByPixel(s, x, w, n, co))(p)
  {
    hide Conv; hide Pixels; hide Seen; hide Hit; hide OH; hide OW; hide Offsets; hide Points; hide TapNumber; hide Div; hide Masked;
    ByChannel(s, x, w, n, co, p);
    forall ci: nat ensures Inner(Offsets(s), ChannelTerm(s, x, w, n, co, p))(ci) == ByPixel(s, x, w, n, co)(p, ci) {
      var g := Gather(Points(s), Hit(s), WRow(s, w, co, ci), ImageRow(s, x, n, ci));
      forall t: nat ensures Row(ChannelTerm(s, x, w, n, co, p), ci)(t) == Row(g, p)(t) {
        SeenIsSum(s, x, n, ci, t, p);
      }
      SumSame(Offsets(s), Row(ChannelTerm(s, x, w, n, co, p), ci), Row(g, p));
      assert Gathered(s, x, w, n, co, ci)(p) == Inner(Offsets(s), g)(p);
    }
    SumSame(s.Cin, Inner(Offsets(s), ChannelTerm(s, x, w, n, co, p)), Row(ByPixel(s, x, w, n, co), p));
  }

  lemma OutByPair(s: Shape, dy: Grad, x: Image, w: Weights, n: nat, co: nat)
    requires Valid(s)
    ensures OutPairs(s, dy, x, w)(n, co) == Sum(s.Cin, Row(Pair(s, dy, x, w, n), co))
  {
    hide Conv; hide Pixels; hide Gathered; hide Valid;
    var a, v := DyRow(dy, n, co), ByPixel(s, x, w, n, co);
    forall p: nat ensures Scaled(a, ConvRowOf(s, x, w, n, co))(p) == Scaled(a, Inner(s.Cin, v))(p) { ConvByPixel(s, x, w, n, co, p); }
    SumSame(Pixels(s), Scaled(a, ConvRowOf(s, x, w, n, co)), Scaled(a, Inner(s.Cin, v)));
    DotOfSum(Pixels(s), s.Cin, a, v);
    forall ci: nat ensures Dots(Pixels(s), a, v)(ci) == Row(Pair(s, dy, x, w, n), co)(ci) {
      SumSame(Pixels(s), Scaled(a, Row(Flip(v), ci)), Scaled(a, Gathered(s, x, w, n, co, ci)));
    }
    SumSame(s.Cin, Dots(Pixels(s), a, v), Row(Pair(s, dy, x, w, n), co));
  }

  // The shares of one output channel, by input point.
  function Shares(s: Shape, dy: Grad, w: Weights, n: nat, ci: nat): (nat, nat) -> real
    requires Valid(s)
  {
    (q: nat, co: nat) => DataTerm(s, dy, w, n, ci, Div(q, s.W), q % s.W)(co)
  }

  lemma SharesScatter(s: Shape, dy: Grad, w: Weights, n: nat, co: nat, ci: nat, q: nat)
    requires Valid(s)
    ensures Shares(s, dy, w, n, ci)(q, co) == Inner(Offsets(s), Scatter(Pixels(s), Hit(s), DyRow(dy, n, co), WRow(s, w, co, ci)))(q)
  {
    hide Pixels; hide Hit; hide OH; hide OW; hide Share; hide Thrown; hide TapNumber; hide Div;
    var g := Scatter(Pixels(s), Hit(s), DyRow(dy, n, co), WRow(s, w, co, ci));
    forall t: nat ensures ShareRow(s, dy, w, n, co, ci, Div(q, s.W), q % s.W)(t) == Row(g, q)(t) {
      ShareIsSum(s, dy, w, n, co, ci, t, q);
    }
    SumSame(Offsets(s), ShareRow(s, dy, w, n, co, ci, Div(q, s.W), q % s.W), Row(g, q));
    assert DataTerm(s, dy, w, n, ci, Div(q, s.W), q % s.W)(co) == Sum(Offsets(s), ShareRow(s, dy, w, n, co, ci, Div(q, s.W), q % s.W));
  }

  lemma InByPair(s: Shape, dy: Grad, x: Image, w: Weights, n: nat, ci: nat)
    requires Valid(s)
    ensures InPairs(s, dy, x, w)(n, ci) == Sum(s.Cout, Row(Flip(Pair(s, dy, x, w, n)), ci))
  {
    hide Pixels; hide OH; hide OW; hide DataTerm; hide Hit; hide Points; hide Offsets; hide ImageRow; hide DyRow; hide WRow; hide Gather; hide Scatter;
    var c, v := ImageRow(s, x, n, ci), Shares(s, dy, w, n, ci);
    forall q: nat ensures Scaled(c, DataRow(s, dy, w, n, ci))(q) == Scaled(c, Inner(s.Cout, v))(q) {
      SumSame(s.Cout, DataTerm(s, dy, w, n, ci, Div(q, s.W), q % s.W), Row(v, q));
    }
    SumSame(Points(s), Scaled(c, DataRow(s, dy, w, n, ci)), Scaled(c, Inner(s.Cout, v)));
    DotOfSum(Points(s), s.Cout, c, v);
    forall co: nat ensures Dots(Points(s), c, v)(co) == Row(Flip(Pair(s, dy, x, w, n)), ci)(co) {
      var g := Inner(Offsets(s), Scatter(Pixels(s), Hit(s), DyRow(dy, n, co), WRow(s, w, co, ci)));
      forall q: nat ensures Scaled(c, Row(Flip(v), co))(q) == Scaled(c, g)(q) { SharesScatter(s, dy, w, n, co, ci, q); }
      SumSame(Points(s), Scaled(c, Row(Flip(v), co)), Scaled(c, g));
      Adjoint(Pixels(s), Offsets(s), Points(s), Hit(s), DyRow(dy, n, co), WRow(s, w, co, ci), c);
    }
    SumSame(s.Cout, Dots(Points(s), c, v), Row(Flip(Pair(s, dy, x, w, n)), ci));
  }

  // <dy, conv(x, w)> == <bwd_data(dy, w), x>.
  lemma DataAdjoint(s: Shape, dy: Grad, x: Image, w: Weights)
    requires Valid(s)
    ensures WithOutput(s, dy, x, w) == WithInput(s, dy, x, w)
  {
    hide OutPairs; hide InPairs; hide Pair; hide Valid;
    forall n: nat ensures Inner(s.Cout, OutPairs(s, dy, x, w))(n) == Inner(s.Cin, InPairs(s, dy, x, w))(n) {
      var f := Pair(s, dy, x, w, n);
      forall co: nat ensures Row(OutPairs(s, dy, x, w), n)(co) == Inner(s.Cin, f)(co) { OutByPair(s, dy, x, w, n, co); }
      SumSame(s.Cout, Row(OutPairs(s, dy, x, w), n), Inner(s.Cin, f));
      SumSwap(s.Cout, s.Cin, f);
      forall ci: nat ensures Row(InPairs(s, dy, x, w), n)(ci) == Inner(s.Cout, Flip(f))(ci) { InByPair(s, dy, x, w, n, ci); }
      SumSame(s.Cin, Row(InPairs(s, dy, x, w), n), Inner(s.Cout, Flip(f)));
    }
    SumSame(s.N, Inner(s.Cout, OutPairs(s, dy, x, w)), Inner(s.Cin, InPairs(s, dy, x, w)));
  }

  // ---- filter ----------------------------------------------------------------------------------------

  function Products(s: Shape, x: Image, w: Weights, n: nat, co: nat): (nat, nat) -> real
    requires Valid(s)
  {
    (p: nat, k: nat) => w(co, k) * Patch(s, x, n, k, p)
  }

  function ByWeight(s: Shape, dy: Grad, x: Image, w: Weights, co: nat): (nat, nat) -> real
    requires Valid(s)
  {
    (n: nat, k: nat) => w(co, k) * FilterTerm(s, x, dy, co, k)(n)
  }

  lemma OutByWeight(s: Shape, dy: Grad, x: Image, w: Weights, n: nat, co: nat)
    requires Valid(s)
    ensures OutPairs(s, dy, x, w)(n, co) == Inner(Taps(s), ByWeight(s, dy, x, w, co))(n)
  {
    hide Pixels; hide Valid; hide Patch; hide Taps; hide OW; hide OH;
    var a, v := DyRow(dy, n, co), Products(s, x, w, n, co);
    forall p: nat ensures Scaled(a, ConvRowOf(s, x, w, n, co))(p) == Scaled(a, Inner(Taps(s), v))(p) {
      SumSame(Taps(s), (k: nat) => w(co, k) * Patch(s, x, n, k, p), Row(v, p));
    }
    SumSame(Pixels(s), Scaled(a, ConvRowOf(s, x, w, n, co)), Scaled(a, Inner(Taps(s), v)));
    DotOfSum(Pixels(s), Taps(s), a, v);
    forall k: nat ensures Dots(Pixels(s), a, v)(k) == Row(ByWeight(s, dy, x, w, co), n)(k) {
      forall p: nat ensures Scaled(a, Row(Flip(v), k))(p) == w(co, k) * Scaled(a, PatchRow(s, x, n, k))(p) {
        Regroup(a(p), w(co, k), Patch(s, x, n, k, p));
      }
      ScaleSum(Pixels(s), w(co, k), Scaled(a, PatchRow(s, x, n, k)), Scaled(a, Row(Flip(v), k)));
      assert FilterTerm(s, x, dy, co, k)(n) == Dot(Pixels(s), a, PatchRow(s, x, n, k));
      assert Dots(Pixels(s), a, v)(k) == Dot(Pixels(s), a, Row(Flip(v), k));
    }
    SumSame(Taps(s), Dots(Pixels(s), a, v), Row(ByWeight(s, dy, x, w, co), n));
  }

  lemma Regroup(a: real, b: real, c: real)
    ensures a * (b * c) == b * (a * c)
  { }

  // <dy, conv(x, w)> == <bwd_filter(x, dy), w>.
  lemma FilterAdjoint(s: Shape, dy: Grad, x: Image, w: Weights)
    requires Valid(s)
    ensures WithOutput(s, dy, x, w) == WithWeights(s, dy, x, w)
  {
    hide OutPairs; hide Valid; hide FilterTerm; hide Taps;
    SumSwap(s.N, s.Cout, OutPairs(s, dy, x, w));
    forall co: nat ensures Inner(s.N, Flip(OutPairs(s, dy, x, w)))(co) == WeightTerm(s, dy, x, w)(co) {
      var f := ByWeight(s, dy, x, w, co);
      forall n: nat ensures Row(Flip(OutPairs(s, dy, x, w)), co)(n) == Inner(Taps(s), f)(n) { OutByWeight(s, dy, x, w, n, co); }
      SumSame(s.N, Row(Flip(OutPairs(s, dy, x, w)), co), Inner(Taps(s), f));
      SumSwap(s.N, Taps(s), f);
      forall k: nat ensures Inner(s.N, Flip(f))(k) == Scaled(WeightRow(w, co), FilterRow(s, x, dy, co))(k) {
        ScaleSum(s.N, w(co, k), FilterTerm(s, x, dy, co, k), Row(Flip(f), k));
      }
      SumSame(Taps(s), Inner(s.N, Flip(f)), Scaled(WeightRow(w, co), FilterRow(s, x, dy, co)));
    }
    SumSame(s.Cout, Inner(s.N, Flip(OutPairs(s, dy, x, w))), WeightTerm(s, dy, x, w));
  }

  // ---- the loops --------------------------------------------------------------------------------------

  lemma {:induction false} NothingMore(m: nat, n: nat, f: nat -> real)
    requires m <= n && forall i: nat :: m <= i < n ==> f(i) == 0.0
    ensures Sum(n, f) == Sum(m, f)
  {
    if m < n { NothingMore(m, n - 1, f); }
  }

  lemma ShareIndex(s: Shape, dy: Grad, w: Weights, n: nat, co: nat, ci: nat, kr: nat, kc: nat, ih: nat, iw: nat, base: nat)
    requires Valid(s) && kc < s.KW && base == kr * s.KW
    ensures ShareRow(s, dy, w, n, co, ci, ih, iw)(base + kc) == Share(s, dy, w, n, co, TapNumber(s, ci, base + kc), kr, kc, ih, iw)
  {
    PixelIndex(kr, kc, s.KW);
    hide Share; hide TapNumber;
  }

  lemma RowSilent(s: Shape, dy: Grad, w: Weights, n: nat, co: nat, ci: nat, kr: nat, kc: nat, ih: nat, iw: nat, base: nat)
    requires Valid(s) && kc < s.KW && base == kr * s.KW
    requires var numH := ih + s.pad - kr; !Divides(numH, s.stride) || Truncated(numH, s.stride) < 0 || Truncated(numH, s.stride) >= OH(s)
    ensures ShareRow(s, dy, w, n, co, ci, ih, iw)(base + kc) == 0.0
  {
    ShareIndex(s, dy, w, n, co, ci, kr, kc, ih, iw, base);
    hide OH; hide OW; hide OutSize; hide Divides; hide Truncated; hide TapNumber; hide ShareRow;
  }

  lemma RowSpeaks(s: Shape, dy: Grad, w: Weights, n: nat, co: nat, ci: nat, kr: nat, kc: nat, ih: nat, iw: nat, base: nat, oh: nat, ow: int)
    requires Valid(s) && kc < s.KW && base == kr * s.KW && oh < OH(s)
    requires Divides(ih + s.pad - kr, s.stride) && oh == Truncated(ih + s.pad - kr, s.stride) && ow == Truncated(iw + s.pad - kc, s.stride)
    ensures ShareRow(s, dy, w, n, co, ci, ih, iw)(base + kc) ==
            if Divides(iw + s.pad - kc, s.stride) && 0 <= ow < OW(s) then dy(n, co, Split(oh, ow, OW(s))) * w(co, TapNumber(s, ci, base + kc)) else 0.0
  {
    ShareIndex(s, dy, w, n, co, ci, kr, kc, ih, iw, base);
    hide OH; hide OW; hide OutSize; hide Divides; hide Truncated; hide TapNumber; hide ShareRow; hide Split;
  }

  // One row of taps; skipped whole when no output row lines up.
  method TapRow(s: Shape, dy: Grad, w: Weights, n: nat, co: nat, ci: nat, kr: nat, ih: nat, iw: nat, start: real, base: nat) returns (sum: real)
    requires Valid(s) && kr < s.KH && base == kr * s.KW
    ensures sum - start == Sum(base + s.KW, ShareRow(s, dy, w, n, co, ci, ih, iw)) - Sum(base, ShareRow(s, dy, w, n, co, ci, ih, iw))
  {
    hide OH; hide OW; hide OutSize; hide Divides; hide Truncated; hide TapNumber; hide ShareRow; hide Split;
    sum := start;
    var f := ShareRow(s, dy, w, n, co, ci, ih, iw);
    var numH := ih + s.pad - kr;
    var oh := Truncated(numH, s.stride);
    if !Divides(numH, s.stride) || oh < 0 || oh >= OH(s) {
      forall i: nat | base <= i < base + s.KW ensures f(i) == 0.0 { RowSilent(s, dy, w, n, co, ci, kr, i - base, ih, iw, base); }
      NothingMore(base, base + s.KW, f);
      return;
    }
    for kc := 0 to s.KW
      invariant sum - start == Sum(base + kc, f) - Sum(base, f)
    {
      var numW := iw + s.pad - kc;
      var ow := Truncated(numW, s.stride);
      RowSpeaks(s, dy, w, n, co, ci, kr, kc, ih, iw, base, oh, ow);
      if Divides(numW, s.stride) && 0 <= ow < OW(s) {
        sum := sum + dy(n, co, Split(oh, ow, OW(s))) * w(co, TapNumber(s, ci, base + kc));
      }
    }
  }

  // One element of dx.
  method DataPoint(s: Shape, dy: Grad, w: Weights, n: nat, ci: nat, ih: nat, iw: nat) returns (sum: real)
    requires Valid(s)
    ensures sum == DataGrad(s, dy, w, n, ci, ih, iw)
  {
    hide OH; hide OW; hide Share; hide ShareRow;
    sum := 0.0;
    for co := 0 to s.Cout
      invariant sum == Sum(co, DataTerm(s, dy, w, n, ci, ih, iw))
    {
      ghost var start := sum;
      for kr := 0 to s.KH
        invariant kr * s.KW >= 0 && sum == start + Sum(kr * s.KW, ShareRow(s, dy, w, n, co, ci, ih, iw))
      {
        RowEnd(kr, kr + 1, s.KW);
        sum := TapRow(s, dy, w, n, co, ci, kr, ih, iw, sum, kr * s.KW);
      }
      assert s.KH * s.KW == Offsets(s);
    }
  }

  ghost predicate DataDone(s: Shape, dy: Grad, w: Weights, dx: array4<real>, n: nat, ci: nat, ih: nat, iw: nat)
    requires Valid(s)
    reads dx
  {
    forall m: nat, c: nat, h: nat, v: nat ::
      (m < dx.Length0 && c < dx.Length1 && h < dx.Length2 && v < dx.Length3 &&
       (m < n || (m == n && (c < ci || (c == ci && (h < ih || (h == ih && v < iw))))))) ==> dx[m, c, h, v] == DataGrad(s, dy, w, m, c, h, v)
  }

  // rouge_conv_bwd_data; nothing is written for impossible sizes.
  method BwdData(s: Shape, dy: Grad, w: Weights, dx: array4<real>)
    requires dx.Length0 == s.N && dx.Length1 == s.Cin && dx.Length2 == s.H && dx.Length3 == s.W
    modifies dx
    ensures Valid(s) ==> forall n: nat, ci: nat, ih: nat, iw: nat :: n < s.N && ci < s.Cin && ih < s.H && iw < s.W ==> dx[n, ci, ih, iw] == DataGrad(s, dy, w, n, ci, ih, iw)
    ensures !Valid(s) ==> forall n: nat, ci: nat, ih: nat, iw: nat :: n < s.N && ci < s.Cin && ih < s.H && iw < s.W ==> dx[n, ci, ih, iw] == old(dx[n, ci, ih, iw])
  {
    if !Positive(s) { return; }
    if OH(s) <= 0 || OW(s) <= 0 { return; }
    hide DataGrad; hide OH; hide OW;
    for n := 0 to s.N
      invariant DataDone(s, dy, w, dx, n, 0, 0, 0)
    {
      for ci := 0 to s.Cin
        invariant DataDone(s, dy, w, dx, n, ci, 0, 0)
      {
        for ih := 0 to s.H
          invariant DataDone(s, dy, w, dx, n, ci, ih, 0)
        {
          for iw := 0 to s.W
            invariant DataDone(s, dy, w, dx, n, ci, ih, iw)
          {
            var sum := DataPoint(s, dy, w, n, ci, ih, iw);
            dx[n, ci, ih, iw] := sum;
          }
        }
      }
    }
  }

  lemma PatchAt(s: Shape, x: Image, n: nat, k: nat, ci: nat, kr: nat, kc: nat, p: nat, oh: nat, ow: nat)
    requires Valid(s) && TapOf(s, k) == (ci, kr, kc) && ow < OW(s) && p == oh * OW(s) + ow
    ensures Patch(s, x, n, k, p) == Padded(s, x, n, ci, oh * s.stride - s.pad + kr, ow * s.stride - s.pad + kc)
  {
    hide OH; hide OW; hide OutSize; hide TapOf; hide Padded; hide Patch;
    PixelIndex(oh, ow, OW(s));
    PatchIs(s, x, n, k, ci, kr, kc, p, oh, ow);
  }

  lemma PatchStep(s: Shape, x: Image, dy: Grad, n: nat, co: nat, k: nat, ci: nat, p: nat, ih: int, iw: int)
    requires Valid(s) && Patch(s, x, n, k, p) == Padded(s, x, n, ci, ih, iw)
    ensures Scaled(DyRow(dy, n, co), PatchRow(s, x, n, k))(p) ==
            if ih < 0 || ih >= s.H || iw < 0 || iw >= s.W then 0.0 else dy(n, co, p) * x(n, ci, ih, iw)
  {
    hide OH; hide OW; hide OutSize; hide Patch;
  }

  // One row of output pixels.
  method FilterPixels(s: Shape, x: Image, dy: Grad, co: nat, k: nat, ci: nat, kr: nat, kc: nat, n: nat, oh: nat, p0: nat, start: real) returns (sum: real)
    requires Valid(s) && TapOf(s, k) == (ci, kr, kc) && p0 == LineStart(s, oh)
    ensures var f := Scaled(DyRow(dy, n, co), PatchRow(s, x, n, k)); sum - start == Sum(p0 + OW(s), f) - Sum(p0, f)
  {
    hide OH; hide OW; hide OutSize; hide Patch; hide TapOf; hide Div; hide Scaled; hide PatchRow; hide DyRow; hide Padded;
    sum := start;
    ghost var f := Scaled(DyRow(dy, n, co), PatchRow(s, x, n, k));
    for ow := 0 to OW(s)
      invariant sum - start == Sum(p0 + ow, f) - Sum(p0, f)
    {
      var ih, iw := oh * s.stride - s.pad + kr, ow * s.stride - s.pad + kc;
      PatchAt(s, x, n, k, ci, kr, kc, p0 + ow, oh, ow);
      PatchStep(s, x, dy, n, co, k, ci, p0 + ow, ih, iw);
      if !(ih < 0 || ih >= s.H || iw < 0 || iw >= s.W) {
        sum := sum + dy(n, co, p0 + ow) * x(n, ci, ih, iw);
      }
    }
  }

  function LineStart(s: Shape, oh: nat): nat
    requires Valid(s)
  {
    NatTimes(oh, OW(s));
    oh * OW(s)
  }

  lemma LineNext(s: Shape, oh: nat)
    requires Valid(s)
    ensures LineStart(s, 0) == 0 && LineStart(s, oh + 1) == LineStart(s, oh) + OW(s) && LineStart(s, OH(s)) == Pixels(s)
  {
    RowEnd(oh, oh + 1, OW(s));
    PixelsAre(s);
  }

  // One image's part of one element of dW.
  method FilterImage(s: Shape, x: Image, dy: Grad, co: nat, k: nat, ci: nat, kr: nat, kc: nat, n: nat, start: real) returns (sum: real)
    requires Valid(s) && TapOf(s, k) == (ci, kr, kc)
    ensures sum == start + FilterTerm(s, x, dy, co, k)(n)
  {
    hide OH; hide OW; hide OutSize; hide Pixels; hide TapOf; hide Scaled; hide PatchRow; hide DyRow; hide Patch; hide Div; hide LineStart;
    sum := start;
    ghost var f := Scaled(DyRow(dy, n, co), PatchRow(s, x, n, k));
    LineNext(s, 0);
    var p: nat := 0;
    for oh := 0 to OH(s)
      invariant p == LineStart(s, oh) && sum == start + Sum(p, f)
    {
      LineNext(s, oh);
      sum := FilterPixels(s, x, dy, co, k, ci, kr, kc, n, oh, p, sum);
      p := p + OW(s);
    }
    assert FilterTerm(s, x, dy, co, k)(n) == Sum(Pixels(s), f);
  }

  // One element of dW.
  method FilterPoint(s: Shape, x: Image, dy: Grad, co: nat, k: nat, ci: nat, kr: nat, kc: nat) returns (sum: real)
    requires Valid(s) && TapOf(s, k) == (ci, kr, kc)
    ensures sum == FilterGrad(s, x, dy, co, k)
  {
    hide OH; hide OW; hide FilterTerm; hide TapOf;
    sum := 0.0;
    for n := 0 to s.N
      invariant sum == Sum(n, FilterTerm(s, x, dy, co, k))
    {
      sum := FilterImage(s, x, dy, co, k, ci, kr, kc, n, sum);
    }
  }

  ghost predicate FilterDone(s: Shape, x: Image, dy: Grad, dw: array2<real>, co: nat, k: nat)
    requires Valid(s)
    reads dw
  {
    forall c: nat, j: nat :: c < dw.Length0 && j < dw.Length1 && (c < co || (c == co && j < k)) ==> dw[c, j] == FilterGrad(s, x, dy, c, j)
  }

  method FilterTaps(s: Shape, x: Image, dy: Grad, dw: array2<real>, co: nat, ci: nat, kr: nat, k0: nat)
    requires Valid(s) && co < dw.Length0 == s.Cout && kr < s.KH && k0 == (ci * s.KH + kr) * s.KW && k0 + s.KW <= dw.Length1
    requires FilterDone(s, x, dy, dw, co, k0)
    modifies dw
    ensures FilterDone(s, x, dy, dw, co, k0 + s.KW)
  {
    hide FilterGrad; hide OH; hide OW; hide TapOf;
    for kc := 0 to s.KW
      invariant FilterDone(s, x, dy, dw, co, k0 + kc)
    {
      TapIndex(s, ci, kr, kc);
      var sum := FilterPoint(s, x, dy, co, k0 + kc, ci, kr, kc);
      dw[co, k0 + kc] := sum;
    }
  }

  // rouge_conv_bwd_filter.
  method BwdFilter(s: Shape, x: Image, dy: Grad, dw: array2<real>)
    requires dw.Length0 == s.Cout && dw.Length1 == Taps(s)
    modifies dw
    ensures Valid(s) ==> forall co: nat, k: nat :: co < s.Cout && k < Taps(s) ==> dw[co, k] == FilterGrad(s, x, dy, co, k)
    ensures !Valid(s) ==> forall co: nat, k: nat :: co < s.Cout && k < Taps(s) ==> dw[co, k] == old(dw[co, k])
  {
    if !Positive(s) { return; }
    if OH(s) <= 0 || OW(s) <= 0 { return; }
    TapsAre(s);
    hide FilterGrad; hide OH; hide OW; hide Taps;
    for co := 0 to s.Cout
      invariant FilterDone(s, x, dy, dw, co, 0)
    {
      var k: nat := 0;
      for ci := 0 to s.Cin
        invariant k == (ci * s.KH) * s.KW && k <= Taps(s) && FilterDone(s, x, dy, dw, co, k)
      {
        RowEnd(ci, s.Cin, s.KH);
        for kr := 0 to s.KH
          invariant k == (ci * s.KH + kr) * s.KW && k <= Taps(s) && FilterDone(s, x, dy, dw, co, k)
        {
          RowEnd(ci * s.KH + kr, s.Cin * s.KH, s.KW);
          FilterTaps(s, x, dy, dw, co, ci, kr, k);
          k := k + s.KW;
        }
      }
    }
  }
}

// Forward convolution, three ways, over exact arithmetic: im2col and a matrix
// product, the tiled pass without the column buffer, and (Winograd.dfy) the
// fast 3x3 form. Filter taps are numbered as the weights lie in memory,
// k = (ci KH + kr) KW + kc, and output pixels p = oh OW + ow.
module Convolution {
  import opened Bits
  import opened Sums

  datatype Shape = Shape(N: nat, Cin: nat, H: nat, W: nat, Cout: nat, KH: nat, KW: nat, stride: nat, pad: nat)

  type Image = (nat, nat, int, int) -> real         // image, channel, row, column
  type Weights = (nat, nat) -> real                 // output channel, tap

  predicate Positive(s: Shape) {
    s.N > 0 && s.Cin > 0 && s.H > 0 && s.W > 0 && s.Cout > 0 && s.KH > 0 && s.KW > 0 && s.stride > 0
  }

  // Division rounds toward zero.
  function Truncated(a: int, b: nat): int
    requires b > 0
  {
    if a >= 0 then a / b else -((-a) / b)
  }

  function OutSize(size: nat, kernel: nat, stride: nat, pad: nat): int
    requires stride > 0
  {
    Truncated(size + 2 * pad - kernel, stride) + 1
  }

  function OH(s: Shape): int
    requires s.stride > 0
  {
    OutSize(s.H, s.KH, s.stride, s.pad)
  }

  function OW(s: Shape): int
    requires s.stride > 0
  {
    OutSize(s.W, s.KW, s.stride, s.pad)
  }

  predicate Valid(s: Shape) { Positive(s) && OH(s) > 0 && OW(s) > 0 }

  function Pixels(s: Shape): nat
    requires Valid(s)
  {
    NatTimes(OH(s), OW(s));
    OH(s) * OW(s)
  }

  function Taps(s: Shape): nat {
    NatTimes(s.Cin * s.KH, s.KW);
    (s.Cin * s.KH) * s.KW
  }

  // The image with its border of zeros.
  function Padded(s: Shape, x: Image, n: nat, c: nat, ih: int, iw: int): real {
    if 0 <= ih < s.H && 0 <= iw < s.W then x(n, c, ih, iw) else 0.0
  }

  // What tap (c, kr, kc) sees at output position (oh, ow).
  function Seen(s: Shape, x: Image, n: nat, c: nat, kr: nat, kc: nat, oh: nat, ow: nat): real {
    Padded(s, x, n, c, oh * s.stride - s.pad + kr, ow * s.stride - s.pad + kc)
  }

  // One entry of the im2col matrix.
  function Patch(s: Shape, x: Image, n: nat, k: nat, p: nat): real
    requires Valid(s)
  {
    var (c, kr, kc) := TapOf(s, k);
    Seen(s, x, n, c, kr, kc, Div(p, OW(s)), p % OW(s))
  }

  function TapOf(s: Shape, k: nat): (nat, nat, nat)
    requires s.KH > 0 && s.KW > 0
  {
    (Div(Div(k, s.KW), s.KH), Div(k, s.KW) % s.KH, k % s.KW)
  }

  // The convolution at one output element.
  function Conv(s: Shape, x: Image, w: Weights, n: nat, co: nat, p: nat): real
    requires Valid(s)
  {
    Sum(Taps(s), (k: nat) => w(co, k) * Patch(s, x, n, k, p))
  }

  function Bias(bias: seq<real>, co: nat): real { if co < |bias| then bias[co] else 0.0 }

  // ---- the output size ----------------------------------------------------------------

  // An output position exists exactly if the kernel, placed there, stays inside
  // the padded input. (The first position survives a kernel that is too large by
  // less than a stride, because the division rounds toward zero.)
  lemma OutSizeExactly(size: nat, kernel: nat, stride: nat, pad: nat, o: nat)
    requires stride > 0
    ensures kernel <= size + 2 * pad ==> (o < OutSize(size, kernel, stride, pad) <==> o * stride + kernel <= size + 2 * pad)
    ensures kernel > size + 2 * pad ==> (OutSize(size, kernel, stride, pad) > 0 <==> kernel - size - 2 * pad < stride)
    ensures kernel > size + 2 * pad && OutSize(size, kernel, stride, pad) > 0 ==> OutSize(size, kernel, stride, pad) == 1
  {
    var room := size + 2 * pad - kernel;
    if room >= 0 {
      QuotientAtLeast(room, stride, o);
    } else {
      QuotientAtLeast(-room, stride, 1);
      QuotientAtLeast(-room, stride, 0);
    }
  }

  // The sizes a convolution is carried out for; for all others nothing is written.
  lemma ValidMeans(s: Shape)
    ensures Valid(s) <==>
      1 <= s.N && 1 <= s.Cin && 1 <= s.H && 1 <= s.W && 1 <= s.Cout && 1 <= s.KH && 1 <= s.KW && 1 <= s.stride
      && s.KH < s.H + 2 * s.pad + s.stride && s.KW < s.W + 2 * s.pad + s.stride
  {
    if s.stride > 0 {
      OutSizeExactly(s.H, s.KH, s.stride, s.pad, 0);
      OutSizeExactly(s.W, s.KW, s.stride, s.pad, 0);
      hide OutSize;
    }
  }

  // One more bias serves the next channel; without a bias every channel gets zero.
  lemma BiasMeans(bias: seq<real>, more: real, co: nat)
    ensures Bias(bias + [more], |bias|) == more && (co < |bias| ==> Bias(bias + [more], co) == Bias(bias, co))
    ensures Bias([], co) == 0.0
  { }

  lemma QuotientAtLeast(x: nat, d: nat, q: nat)
    requires d > 0
    ensures q <= x / d <==> q * d <= x
  {
    var r := x / d;
    assert x == r * d + x % d;
    if r >= q { ScaleBound(q, r, d); } else { ScaleBound(r + 1, q, d); }
  }

  // ---- running indices --------------------------------------------------------------

  lemma TapIndex(s: Shape, ci: nat, kr: nat, kc: nat)
    requires s.KH > 0 && s.KW > 0 && kr < s.KH && kc < s.KW
    ensures (ci * s.KH + kr) * s.KW + kc >= 0 && TapOf(s, (ci * s.KH + kr) * s.KW + kc) == (ci, kr, kc)
  {
    NatTimes(ci, s.KH);
    NatTimes(ci * s.KH + kr, s.KW);
    DivUnique((ci * s.KH + kr) * s.KW + kc, s.KW, ci * s.KH + kr, kc);
    DivUnique(ci * s.KH + kr, s.KH, ci, kr);
  }

  lemma PixelIndex(oh: nat, ow: nat, width: nat)
    requires ow < width
    ensures oh * width + ow >= 0 && Div(oh * width + ow, width) == oh && (oh * width + ow) % width == ow
  {
    NatTimes(oh, width);
    DivUnique(oh * width + ow, width, oh, ow);
  }

  // ---- the convolution, channel by channel -----------------------------------------------------

  function Offsets(s: Shape): nat { NatTimes(s.KH, s.KW); s.KH * s.KW }

  function TapNumber(s: Shape, ci: nat, t: nat): nat { NatTimes(ci, Offsets(s)); ci * Offsets(s) + t }

  function ChannelTerm(s: Shape, x: Image, w: Weights, n: nat, co: nat, p: nat): (nat, nat) -> real
    requires Valid(s)
  {
    (c: nat, t: nat) => w(co, TapNumber(s, c, t)) * Seen(s, x, n, c, Div(t, s.KW), t % s.KW, Div(p, OW(s)), p % OW(s))
  }

  lemma TapSplits(s: Shape, k: nat)
    requires s.KH > 0 && s.KW > 0
    ensures Offsets(s) > 0
    ensures var c, t := Div(k, Offsets(s)), k % Offsets(s); TapOf(s, k) == (c, Div(t, s.KW), t % s.KW) && k == TapNumber(s, c, t)
  {
    var (ci, kr, kc) := TapOf(s, k);
    RowEnd(0, s.KH, s.KW);
    RowEnd(kr, s.KH, s.KW);
    assert k == (ci * s.KH + kr) * s.KW + kc;
    assert k == ci * (s.KH * s.KW) + (kr * s.KW + kc);
    DivUnique(k, s.KH * s.KW, ci, kr * s.KW + kc);
    DivUnique(kr * s.KW + kc, s.KW, kr, kc);
  }

  lemma DivIs(a: nat, b: nat)
    requires b > 0
    ensures Div(a, b) == a / b
  { }

  lemma PositiveTaps(s: Shape)
    requires Positive(s)
    ensures s.KH > 0 && s.KW > 0 && s.W > 0 && s.stride > 0
  { }

  lemma TapTerm(s: Shape, x: Image, w: Weights, n: nat, co: nat, p: nat, k: nat)
    requires Valid(s)
    ensures Offsets(s) > 0 && w(co, k) * Patch(s, x, n, k, p) == Flat(Offsets(s), ChannelTerm(s, x, w, n, co, p))(k)
  {
    hide OH; hide OW; hide OutSize; hide Seen; hide TapOf; hide Div; hide TapNumber; hide Offsets; hide Positive;
    assert s.KH > 0 && s.KW > 0 by { PositiveTaps(s); }
    TapSplits(s, k);
    DivIs(k, Offsets(s));
  }

  lemma ByChannel(s: Shape, x: Image, w: Weights, n: nat, co: nat, p: nat)
    requires Valid(s)
    ensures Conv(s, x, w, n, co, p) == Sum(s.Cin, Inner(Offsets(s), ChannelTerm(s, x, w, n, co, p)))
  {
    hide OH; hide OW; hide OutSize; hide Patch; hide ChannelTerm; hide Sum; hide Flat;
    var f := ChannelTerm(s, x, w, n, co, p);
    assert Taps(s) == s.Cin * Offsets(s);
    hide Offsets; hide Taps;
    forall k: nat ensures Offsets(s) > 0 && w(co, k) * Patch(s, x, n, k, p) == Flat(Offsets(s), f)(k) { TapTerm(s, x, w, n, co, p, k); }
    TapTerm(s, x, w, n, co, p, 0);
    SumSame(Taps(s), (k: nat) => w(co, k) * Patch(s, x, n, k, p), Flat(Offsets(s), f));
    SumFlat(s.Cin, Offsets(s), f);
  }

  // ---- im2col ---------------------------------------------------------------------------

  predicate RowFilled(s: Shape, x: Image, n: nat, col: array2<real>, k: nat, upTo: nat)
    requires Valid(s) && col.Length0 == Taps(s) && col.Length1 == Pixels(s) && k < col.Length0 && upTo <= col.Length1
    reads col
  {
    forall p: nat :: p < upTo ==> col[k, p] == Patch(s, x, n, k, p)
  }

  method FillRow(s: Shape, x: Image, n: nat, col: array2<real>, ci: nat, kr: nat, kc: nat, row: nat)
    requires Valid(s) && col.Length0 == Taps(s) && col.Length1 == Pixels(s) && row < col.Length0
    requires kr < s.KH && kc < s.KW && row == (ci * s.KH + kr) * s.KW + kc
    modifies col
    ensures RowFilled(s, x, n, col, row, Pixels(s))
    ensures forall k: nat, p: nat :: k < col.Length0 && p < col.Length1 && k != row ==> col[k, p] == old(col[k, p])
  {
    hide Taps; hide Pixels; hide OH; hide OW; hide Patch;
    TapIndex(s, ci, kr, kc);
    var p: nat := 0;
    for oh := 0 to OH(s)
      invariant p == oh * OW(s) && p <= Pixels(s) && RowFilled(s, x, n, col, row, p)
      invariant forall k: nat, q: nat :: k < col.Length0 && q < col.Length1 && k != row ==> col[k, q] == old(col[k, q])
    {
      RowEnd(oh, OH(s), OW(s));
      PixelsAre(s);
      for ow := 0 to OW(s)
        invariant p == oh * OW(s) + ow && p <= Pixels(s) && RowFilled(s, x, n, col, row, p)
        invariant forall k: nat, q: nat :: k < col.Length0 && q < col.Length1 && k != row ==> col[k, q] == old(col[k, q])
      {
        PixelIndex(oh, ow, OW(s));
        PatchIs(s, x, n, row, ci, kr, kc, p, oh, ow);
        col[row, p] := Padded(s, x, n, ci, oh * s.stride - s.pad + kr, ow * s.stride - s.pad + kc);
        p := p + 1;
      }
    }
    PixelsAre(s);
  }

  lemma PixelsAre(s: Shape)
    requires Valid(s)
    ensures Pixels(s) == OH(s) * OW(s)
  { }

  lemma TapsAre(s: Shape)
    ensures Taps(s) == (s.Cin * s.KH) * s.KW
  { }

  lemma RowEnd(i: nat, n: nat, width: nat)
    requires i < n
    ensures i * width + width <= n * width && (i + 1) * width == i * width + width
  {
    ScaleBound(i + 1, n, width);
  }

  lemma PatchIs(s: Shape, x: Image, n: nat, k: nat, ci: nat, kr: nat, kc: nat, p: nat, oh: nat, ow: nat)
    requires Valid(s) && TapOf(s, k) == (ci, kr, kc) && Div(p, OW(s)) == oh && p % OW(s) == ow
    ensures Patch(s, x, n, k, p) == Padded(s, x, n, ci, oh * s.stride - s.pad + kr, ow * s.stride - s.pad + kc)
  { }

  predicate RowsFilled(s: Shape, x: Image, n: nat, col: array2<real>, upTo: nat)
    requires Valid(s) && col.Length0 == Taps(s) && col.Length1 == Pixels(s) && upTo <= col.Length0
    reads col
  {
    forall k: nat :: k < upTo ==> RowFilled(s, x, n, col, k, Pixels(s))
  }

  method FillNext(s: Shape, x: Image, n: nat, col: array2<real>, ci: nat, kr: nat, kc: nat, row: nat)
    requires Valid(s) && col.Length0 == Taps(s) && col.Length1 == Pixels(s) && row < col.Length0
    requires kr < s.KH && kc < s.KW && row == (ci * s.KH + kr) * s.KW + kc && RowsFilled(s, x, n, col, row)
    modifies col
    ensures RowsFilled(s, x, n, col, row + 1)
  {
    hide Taps; hide Pixels; hide Patch;
    FillRow(s, x, n, col, ci, kr, kc, row);
    forall k: nat | k < row ensures RowFilled(s, x, n, col, k, Pixels(s)) {
      forall p: nat | p < Pixels(s) ensures col[k, p] == Patch(s, x, n, k, p) {
        assert old(RowFilled(s, x, n, col, k, Pixels(s)));
      }
    }
  }

  method Im2col(s: Shape, x: Image, n: nat, col: array2<real>)
    requires Valid(s) && col.Length0 == Taps(s) && col.Length1 == Pixels(s)
    modifies col
    ensures RowsFilled(s, x, n, col, Taps(s))
  {
    hide Pixels; hide RowFilled;
    TapsAre(s);
    hide Taps;
    var row: nat := 0;
    for ci := 0 to s.Cin
      invariant row == (ci * s.KH) * s.KW && row <= Taps(s) && RowsFilled(s, x, n, col, row)
    {
      RowEnd(ci, s.Cin, s.KH);
      for kr := 0 to s.KH
        invariant row == (ci * s.KH + kr) * s.KW && row <= Taps(s) && RowsFilled(s, x, n, col, row)
      {
        RowEnd(ci * s.KH + kr, s.Cin * s.KH, s.KW);
        for kc := 0 to s.KW
          invariant row == (ci * s.KH + kr) * s.KW + kc && row <= Taps(s) && RowsFilled(s, x, n, col, row)
        {
          FillNext(s, x, n, col, ci, kr, kc, row);
          row := row + 1;
        }
      }
    }
  }

  // ---- im2col and matrix product -------------------------------------------------------

  // The sum over the first k taps.
  function Part(s: Shape, x: Image, w: Weights, n: nat, co: nat, p: nat, k: nat): real
    requires Valid(s)
  {
    Sum(k, (i: nat) => w(co, i) * Patch(s, x, n, i, p))
  }

  // The output element is the convolution plus bias.
  predicate Right(s: Shape, x: Image, w: Weights, bias: seq<real>, y: array3<real>, n: nat, co: nat, p: nat)
    requires Valid(s) && n < y.Length0 && co < y.Length1 && p < y.Length2
    reads y
  {
    y[n, co, p] == Conv(s, x, w, n, co, p) + Bias(bias, co)
  }

  predicate Fits(s: Shape, y: array3<real>)
    requires Valid(s)
  {
    y.Length0 == s.N && y.Length1 == s.Cout && y.Length2 == Pixels(s)
  }

  // One output element of weights times columns (the contract of the matrix kernel).
  method Product(s: Shape, x: Image, w: Weights, n: nat, col: array2<real>, co: nat, p: nat) returns (v: real)
    requires Valid(s) && col.Length0 == Taps(s) && col.Length1 == Pixels(s) && p < Pixels(s) && RowsFilled(s, x, n, col, Taps(s))
    ensures v == Conv(s, x, w, n, co, p)
  {
    hide Taps; hide Pixels; hide Patch;
    v := 0.0;
    for k := 0 to Taps(s)
      invariant v == Part(s, x, w, n, co, p, k)
    {
      assert RowFilled(s, x, n, col, k, Pixels(s));
      v := v + w(co, k) * col[k, p];
    }
  }

  ghost predicate RowRight(s: Shape, x: Image, w: Weights, bias: seq<real>, y: array3<real>, n: nat, co: nat)
    requires Valid(s) && Fits(s, y) && n < s.N && co < s.Cout
    reads y
  {
    forall p: nat :: p < Pixels(s) ==> Right(s, x, w, bias, y, n, co, p)
  }

  // Every element of images below n, and of image n's channels below co.
  ghost predicate RightBefore(s: Shape, x: Image, w: Weights, bias: seq<real>, y: array3<real>, n: nat, co: nat)
    requires Valid(s) && Fits(s, y)
    reads y
  {
    forall m: nat, c: nat :: m < s.N && c < s.Cout && (m < n || (m == n && c < co)) ==> RowRight(s, x, w, bias, y, m, c)
  }

  method ConvRow(s: Shape, x: Image, w: Weights, bias: seq<real>, y: array3<real>, n: nat, co: nat, col: array2<real>)
    requires Valid(s) && Fits(s, y) && n < s.N && co < s.Cout
    requires col.Length0 == Taps(s) && col.Length1 == Pixels(s) && RowsFilled(s, x, n, col, Taps(s))
    modifies y
    ensures RowRight(s, x, w, bias, y, n, co)
    ensures forall m: nat, c: nat, p: nat :: m < y.Length0 && c < y.Length1 && p < y.Length2 && (m != n || c != co) ==> y[m, c, p] == old(y[m, c, p])
  {
    hide Pixels; hide Taps; hide Conv; hide RowsFilled; hide OH; hide OW; hide Valid;
    for p := 0 to Pixels(s)
      invariant forall q: nat :: q < p ==> y[n, co, q] == Conv(s, x, w, n, co, q) + Bias(bias, co)
      invariant forall m: nat, c: nat, q: nat :: m < y.Length0 && c < y.Length1 && q < y.Length2 && (m != n || c != co) ==> y[m, c, q] == old(y[m, c, q])
    {
      var v := Product(s, x, w, n, col, co, p);
      y[n, co, p] := v;
      y[n, co, p] := y[n, co, p] + Bias(bias, co);
    }
  }

  method ConvNext(s: Shape, x: Image, w: Weights, bias: seq<real>, y: array3<real>, n: nat, co: nat, col: array2<real>)
    requires Valid(s) && Fits(s, y) && n < s.N && co < s.Cout && RightBefore(s, x, w, bias, y, n, co)
    requires col.Length0 == Taps(s) && col.Length1 == Pixels(s) && RowsFilled(s, x, n, col, Taps(s))
    modifies y
    ensures RightBefore(s, x, w, bias, y, n, co + 1)
  {
    hide Pixels; hide Taps; hide Conv; hide RowsFilled; hide OH; hide OW; hide Valid;
    ConvRow(s, x, w, bias, y, n, co, col);
    forall m: nat, c: nat | m < s.N && c < s.Cout && (m < n || (m == n && c < co)) ensures RowRight(s, x, w, bias, y, m, c) {
      forall p: nat | p < Pixels(s) ensures Right(s, x, w, bias, y, m, c, p) {
        assert old(RowRight(s, x, w, bias, y, m, c));
        assert old(Right(s, x, w, bias, y, m, c, p));
      }
    }
  }

  // rouge_conv2d_f32; nothing is written for impossible sizes.
  method Conv2d(s: Shape, x: Image, w: Weights, bias: seq<real>, y: array3<real>)
    requires Valid(s) ==> Fits(s, y)
    modifies y
    ensures Valid(s) ==> RightBefore(s, x, w, bias, y, s.N, 0)
    ensures !Valid(s) ==> forall n: nat, co: nat, p: nat :: n < y.Length0 && co < y.Length1 && p < y.Length2 ==> y[n, co, p] == old(y[n, co, p])
  {
    if !Positive(s) { return; }
    if OH(s) <= 0 || OW(s) <= 0 { return; }
    hide Pixels; hide Taps; hide RowsFilled; hide OH; hide OW; hide RowRight;
    var col := new real[Taps(s), Pixels(s)]((_, _) => 0.0);
    for n := 0 to s.N
      invariant RightBefore(s, x, w, bias, y, n, 0)
    {
      Im2col(s, x, n, col);
      for co := 0 to s.Cout
        invariant RowsFilled(s, x, n, col, Taps(s)) && RightBefore(s, x, w, bias, y, n, co)
      {
        ConvNext(s, x, w, bias, y, n, co, col);
      }
    }
  }

  // ---- the tiled pass ---------------------------------------------------------------------

  // The accumulators hold the first k taps of their elements.
  predicate TileAt(s: Shape, x: Image, w: Weights, n: nat, co0: nat, s0: nat, ctc: nat, cts: nat, acc: array2<real>, k: nat)
    requires Valid(s) && ctc <= acc.Length0 && cts <= acc.Length1
    reads acc
  {
    forall t: nat, i: nat :: t < ctc && i < cts ==> acc[t, i] == Part(s, x, w, n, co0 + t, s0 + i, k)
  }

  lemma PartNext(s: Shape, x: Image, w: Weights, n: nat, co: nat, p: nat, k: nat)
    requires Valid(s)
    ensures Part(s, x, w, n, co, p, k + 1) == Part(s, x, w, n, co, p, k) + w(co, k) * Patch(s, x, n, k, p)
  {
    hide Patch;
  }

  // Add tap k = (ci, kr, kc) to every accumulator of the tile.
  method AddTap(s: Shape, x: Image, w: Weights, n: nat, co0: nat, s0: nat, ctc: nat, cts: nat, acc: array2<real>, wbuf: array<real>,
                ci: nat, kr: nat, kc: nat, k: nat)
    requires Valid(s) && ctc <= acc.Length0 && cts <= acc.Length1 && ctc <= wbuf.Length && TapOf(s, k) == (ci, kr, kc)
    requires TileAt(s, x, w, n, co0, s0, ctc, cts, acc, k)
    modifies acc, wbuf
    ensures TileAt(s, x, w, n, co0, s0, ctc, cts, acc, k + 1)
  {
    hide Patch; hide OW; hide OH; hide Part; hide Valid;
    for t := 0 to ctc
      invariant forall j: nat :: j < t ==> wbuf[j] == w(co0 + j, k)
      invariant TileAt(s, x, w, n, co0, s0, ctc, cts, acc, k)
    {
      wbuf[t] := w(co0 + t, k);
    }
    for i := 0 to cts
      invariant forall j: nat :: j < ctc ==> wbuf[j] == w(co0 + j, k)
      invariant forall t: nat, j: nat :: t < ctc && j < cts ==>
        acc[t, j] == if j < i then Part(s, x, w, n, co0 + t, s0 + j, k + 1) else Part(s, x, w, n, co0 + t, s0 + j, k)
    {
      Column(s, x, w, n, co0, s0, ctc, cts, acc, wbuf, ci, kr, kc, k, i);
    }
  }

  // One pixel of the tile: skipped when the tap falls on the border.
  method Column(s: Shape, x: Image, w: Weights, n: nat, co0: nat, s0: nat, ctc: nat, cts: nat, acc: array2<real>, wbuf: array<real>,
                ci: nat, kr: nat, kc: nat, k: nat, i: nat)
    requires Valid(s) && ctc <= acc.Length0 && cts <= acc.Length1 && ctc <= wbuf.Length && TapOf(s, k) == (ci, kr, kc) && i < cts
    requires forall t: nat :: t < ctc ==> wbuf[t] == w(co0 + t, k) && acc[t, i] == Part(s, x, w, n, co0 + t, s0 + i, k)
    modifies acc
    ensures forall t: nat :: t < ctc ==> acc[t, i] == Part(s, x, w, n, co0 + t, s0 + i, k + 1)
    ensures forall t: nat, j: nat :: t < ctc && j < cts && j != i ==> acc[t, j] == old(acc[t, j])
  {
    hide Patch; hide OW; hide OH; hide OutSize; hide Part; hide TapOf; hide Div;
    assert OW(s) > 0;
    var oh, ow := Div(s0 + i, OW(s)), (s0 + i) % OW(s);
    var ih, iw := oh * s.stride - s.pad + kr, ow * s.stride - s.pad + kc;
    PatchIs(s, x, n, k, ci, kr, kc, s0 + i, oh, ow);
    if ih < 0 || ih >= s.H || iw < 0 || iw >= s.W {
      forall t: nat | t < ctc ensures acc[t, i] == Part(s, x, w, n, co0 + t, s0 + i, k + 1) {
        PartNext(s, x, w, n, co0 + t, s0 + i, k);
      }
      return;
    }
    AddScaled(acc, wbuf, i, ctc, cts, x(n, ci, ih, iw));
    forall t: nat | t < ctc ensures acc[t, i] == Part(s, x, w, n, co0 + t, s0 + i, k + 1) {
      PartNext(s, x, w, n, co0 + t, s0 + i, k);
    }
  }

  method AddScaled(acc: array2<real>, wbuf: array<real>, i: nat, ctc: nat, cts: nat, v: real)
    requires ctc <= acc.Length0 && i < cts <= acc.Length1 && ctc <= wbuf.Length
    modifies acc
    ensures forall t: nat :: t < ctc ==> acc[t, i] == old(acc[t, i]) + wbuf[t] * v
    ensures forall t: nat, j: nat :: t < ctc && j < cts && j != i ==> acc[t, j] == old(acc[t, j])
  {
    for t := 0 to ctc
      invariant forall u: nat :: u < ctc ==> acc[u, i] == if u < t then old(acc[u, i]) + wbuf[u] * v else old(acc[u, i])
      invariant forall u: nat, j: nat :: u < ctc && j < cts && j != i ==> acc[u, j] == old(acc[u, j])
    {
      acc[t, i] := acc[t, i] + wbuf[t] * v;
    }
  }

  method FillTile(s: Shape, x: Image, w: Weights, n: nat, co0: nat, s0: nat, ctc: nat, cts: nat, acc: array2<real>, wbuf: array<real>)
    requires Valid(s) && ctc <= acc.Length0 && cts <= acc.Length1 && ctc <= wbuf.Length
    modifies acc, wbuf
    ensures TileAt(s, x, w, n, co0, s0, ctc, cts, acc, Taps(s))
  {
    forall t: nat, i: nat | t < ctc && i < cts { acc[t, i] := 0.0; }
    assert TileAt(s, x, w, n, co0, s0, ctc, cts, acc, 0);
    TapsAre(s);
    hide TileAt; hide Taps; hide Valid; hide OH; hide OW;
    var k: nat := 0;
    for ci := 0 to s.Cin
      invariant k == (ci * s.KH) * s.KW && TileAt(s, x, w, n, co0, s0, ctc, cts, acc, k)
    {
      for kr := 0 to s.KH
        invariant k == (ci * s.KH + kr) * s.KW && TileAt(s, x, w, n, co0, s0, ctc, cts, acc, k)
      {
        for kc := 0 to s.KW
          invariant k == (ci * s.KH + kr) * s.KW + kc && TileAt(s, x, w, n, co0, s0, ctc, cts, acc, k)
        {
          assert s.KH > 0 && s.KW > 0;
          TapIndex(s, ci, kr, kc);
          AddTap(s, x, w, n, co0, s0, ctc, cts, acc, wbuf, ci, kr, kc, k);
          k := k + 1;
        }
        RowEnd(ci * s.KH + kr, ci * s.KH + kr + 1, s.KW);
      }
      RowEnd(ci, ci + 1, s.KH);
    }
  }

  // Write a finished tile, with bias.
  method StoreTile(s: Shape, x: Image, w: Weights, bias: seq<real>, y: array3<real>, n: nat, co0: nat, s0: nat, ctc: nat, cts: nat, acc: array2<real>)
    requires Valid(s) && Fits(s, y) && n < s.N && co0 + ctc <= s.Cout && s0 + cts <= Pixels(s)
    requires ctc <= acc.Length0 && cts <= acc.Length1 && TileAt(s, x, w, n, co0, s0, ctc, cts, acc, Taps(s))
    modifies y
    ensures forall c: nat, q: nat :: co0 <= c < co0 + ctc && s0 <= q < s0 + cts ==> y[n, c, q] == Conv(s, x, w, n, c, q) + Bias(bias, c)
    ensures forall m: nat, c: nat, q: nat :: m < s.N && c < s.Cout && q < Pixels(s) && !(m == n && co0 <= c < co0 + ctc && s0 <= q < s0 + cts) ==>
      y[m, c, q] == old(y[m, c, q])
  {
    forall c: nat, q: nat | co0 <= c < co0 + ctc && s0 <= q < s0 + cts ensures acc[c - co0, q - s0] == Conv(s, x, w, n, c, q) {
      var t: nat, i: nat := c - co0, q - s0;
      assert acc[t, i] == Part(s, x, w, n, co0 + t, s0 + i, Taps(s));
    }
    hide Taps; hide Conv; hide Valid; hide TileAt; hide Pixels;
    forall c: nat, q: nat | co0 <= c < co0 + ctc && s0 <= q < s0 + cts { y[n, c, q] := acc[c - co0, q - s0] + Bias(bias, c); }
  }

  // Elements of image n in channels below co, and, of the channel block from co,
  // the pixels below p.
  ghost predicate TilesBefore(s: Shape, x: Image, w: Weights, bias: seq<real>, y: array3<real>, n: nat, co: nat, next: nat, p: nat)
    requires Valid(s) && Fits(s, y)
    reads y
  {
    forall m: nat, c: nat, q: nat ::
      m < s.N && c < s.Cout && q < Pixels(s) && (m < n || (m == n && (c < co || (c < next && q < p)))) ==> Right(s, x, w, bias, y, m, c, q)
  }

  method TileNext(s: Shape, x: Image, w: Weights, bias: seq<real>, y: array3<real>, n: nat, co0: nat, s0: nat, ctc: nat, cts: nat,
                  acc: array2<real>, wbuf: array<real>)
    requires Valid(s) && Fits(s, y) && n < s.N && co0 + ctc <= s.Cout && s0 + cts <= Pixels(s)
    requires ctc <= acc.Length0 && cts <= acc.Length1 && ctc <= wbuf.Length
    requires TilesBefore(s, x, w, bias, y, n, co0, co0 + ctc, s0)
    modifies y, acc, wbuf
    ensures TilesBefore(s, x, w, bias, y, n, co0, co0 + ctc, s0 + cts)
  {
    hide Pixels; hide Taps; hide Conv; hide Valid; hide TileAt; hide OH; hide OW;
    FillTile(s, x, w, n, co0, s0, ctc, cts, acc, wbuf);
    StoreTile(s, x, w, bias, y, n, co0, s0, ctc, cts, acc);
    forall m: nat, c: nat, q: nat | m < s.N && c < s.Cout && q < Pixels(s) &&
      (m < n || (m == n && (c < co0 || (c < co0 + ctc && q < s0 + cts))))
      ensures Right(s, x, w, bias, y, m, c, q)
    {
      if !(m == n && co0 <= c && s0 <= q) {
        assert old(Right(s, x, w, bias, y, m, c, q));
      }
    }
  }

  // rouge_conv_implicit_f32, for every tile size.
  method ConvImplicit(s: Shape, x: Image, w: Weights, bias: seq<real>, y: array3<real>, tc: nat, ts: nat)
    requires Valid(s) ==> Fits(s, y)
    requires tc > 0 && ts > 0
    modifies y
    ensures Valid(s) ==> RightBefore(s, x, w, bias, y, s.N, 0)
    ensures !Valid(s) ==> forall n: nat, co: nat, p: nat :: n < y.Length0 && co < y.Length1 && p < y.Length2 ==> y[n, co, p] == old(y[n, co, p])
  {
    if !Positive(s) { return; }
    if OH(s) <= 0 || OW(s) <= 0 { return; }
    hide Pixels; hide OH; hide OW; hide Right;
    var acc := new real[tc, ts]((_, _) => 0.0);
    var wbuf := new real[tc](_ => 0.0);
    for n := 0 to s.N
      invariant TilesBefore(s, x, w, bias, y, n, 0, 0, 0)
    {
      var co0: nat := 0;
      while co0 < s.Cout
        invariant co0 <= s.Cout && TilesBefore(s, x, w, bias, y, n, co0, co0, 0)
        decreases s.Cout - co0
      {
        var ctc := Min(tc, s.Cout - co0);
        var s0: nat := 0;
        while s0 < Pixels(s)
          invariant s0 <= Pixels(s) && TilesBefore(s, x, w, bias, y, n, co0, co0 + ctc, s0)
          decreases Pixels(s) - s0
        {
          var cts := Min(ts, Pixels(s) - s0);
          TileNext(s, x, w, bias, y, n, co0, s0, ctc, cts, acc, wbuf);
          s0 := s0 + cts;
        }
        co0 := co0 + ctc;
      }
    }
  }
}

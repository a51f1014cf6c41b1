// rouge_attention_gqa: blockwise online softmax with grouped heads, causal mask,
// sliding window and offset (attention_gqa.cpp), over exact arithmetic. The
// exponential is any positive function that turns sums into products.
module Attention {
  import opened Bits
  import opened Sums

  datatype Running = Nothing | Max(value: real)        // Nothing is minus infinity

  type Tensor = (nat, nat, nat) -> real                // head, position, component

  // Such functions exist.
  lemma ExpExists()
    ensures IsExp((x: real) => 1.0)
  { }

  type Root = x: real | x > 0.0 witness 1.0

  datatype Call = Call(S: nat, Skv: nat, Dh: nat, Hq: nat, Hkv: nat, q: Tensor, k: Tensor, v: Tensor,
                       scale: real, root: Root, causal: bool, window: int, kvOff: int, exp: real -> real)

  ghost predicate IsExp(e: real -> real) {
    && (forall a: real :: e(a) > 0.0)
    && (forall a: real, b: real :: e(a) * e(b) == e(a + b))
  }

  // softmax_scale: the caller's scale, or one over the root of the head size.
  function SoftmaxScale(c: Call): real { if c.scale > 0.0 then c.scale else 1.0 / c.root }

  predicate Sized(c: Call) {
    c.S > 0 && c.Skv > 0 && c.Dh > 0 && c.Hq > 0 && c.Hkv > 0 && c.Hq % c.Hkv == 0
  }

  // ---- what is to be computed -----------------------------------------------------------

  predicate Visible(c: Call, s: nat, t: nat) {
    && t < c.Skv
    && (c.causal ==> t <= s + c.kvOff)
    && (c.window > 0 ==> s + c.kvOff - c.window < t)
  }

  function Group(c: Call): nat
    requires Sized(c)
    ensures Group(c) > 0
  {
    GroupPositive(c.Hq, c.Hkv);
    c.Hq / c.Hkv
  }

  lemma GroupPositive(a: nat, b: nat)
    requires a > 0 && b > 0 && a % b == 0
    ensures a / b > 0
  { }

  // The key/value head a query head shares.
  function Shared(c: Call, hq: nat): nat
    requires Sized(c)
  {
    Div(hq, Group(c))
  }

  function Products(c: Call, hq: nat, hk: nat, s: nat, t: nat): nat -> real { (d: nat) => c.q(hq, s, d) * c.k(hk, t, d) }
  function Dot(c: Call, hq: nat, hk: nat, s: nat, t: nat): real { Sum(c.Dh, Products(c, hq, hk, s, t)) }
  function Score(c: Call, hq: nat, hk: nat, s: nat): nat -> real { (t: nat) => Dot(c, hq, hk, s, t) * SoftmaxScale(c) }

  // A given scale multiplies the dot product of the two rows; the default divides
  // it by the root of the head size.
  lemma ScoreScaled(c: Call, hq: nat, hk: nat, s: nat, t: nat)
    requires c.root * c.root == c.Dh as real
    ensures var dot, score := Dot(c, hq, hk, s, t), Score(c, hq, hk, s)(t);
      if c.scale > 0.0 then score == dot * c.scale else score * c.root == dot && (score * score) * c.Dh as real == dot * dot
  {
    var dot, score, r: real := Dot(c, hq, hk, s, t), Score(c, hq, hk, s)(t), c.root;
    if c.scale <= 0.0 {
      assert score * r == dot * ((1.0 / r) * r) == dot;
      assert (score * score) * (r * r) == (score * r) * (score * r);
    }
  }
  function Column(c: Call, hk: nat, d: nat): nat -> real { (t: nat) => c.v(hk, t, d) }
  function Ones(): nat -> real { (t: nat) => 1.0 }

  // Softmax weights of the visible positions against the values x.
  function Chosen(c: Call, hq: nat, hk: nat, s: nat, x: nat -> real): nat -> real {
    (t: nat) => if Visible(c, s, t) then c.exp(Score(c, hq, hk, s)(t)) * x(t) else 0.0
  }

  ghost predicate NoneVisible(c: Call, s: nat) { forall t: nat :: !Visible(c, s, t) }

  // The full softmax average over exactly the visible positions; zero if there are none.
  ghost predicate IsAttention(c: Call, hq: nat, s: nat, d: nat, o: real)
    requires Sized(c)
  {
    var hk := Shared(c, hq);
    var weight := Sum(c.Skv, Chosen(c, hq, hk, s, Ones()));
    if NoneVisible(c, s) then o == 0.0
    else weight > 0.0 && o == Sum(c.Skv, Chosen(c, hq, hk, s, Column(c, hk, d))) / weight
  }

  // ---- sums over a stretch of positions -------------------------------------------------

  function Range(lo: nat, hi: nat, f: nat -> real): real {
    if hi <= lo then 0.0 else Range(lo, hi - 1, f) + f(hi - 1)
  }

  lemma {:induction false} RangeScale(lo: nat, hi: nat, a: real, f: nat -> real, g: nat -> real)
    requires forall t: nat :: lo <= t < hi ==> g(t) == a * f(t)
    ensures Range(lo, hi, g) == a * Range(lo, hi, f)
  {
    if lo < hi { RangeScale(lo, hi - 1, a, f, g); }
  }

  lemma {:induction false} RangeSplit(lo: nat, mid: nat, hi: nat, f: nat -> real)
    requires lo <= mid <= hi
    ensures Range(lo, hi, f) == Range(lo, mid, f) + Range(mid, hi, f)
  {
    if mid < hi { RangeSplit(lo, mid, hi - 1, f); }
  }

  lemma {:induction false} RangePositive(lo: nat, hi: nat, f: nat -> real)
    requires forall t: nat :: lo <= t < hi ==> f(t) > 0.0
    ensures Range(lo, hi, f) >= 0.0 && (lo < hi ==> Range(lo, hi, f) > 0.0)
  {
    if lo < hi { RangePositive(lo, hi - 1, f); }
  }

  // A masked sum is the sum over the stretch that is not masked.
  lemma {:induction false} MaskedSum(n: nat, lo: nat, hi: nat, f: nat -> real, g: nat -> real)
    requires forall t: nat :: t < n ==> f(t) == if lo <= t < hi then g(t) else 0.0
    ensures Sum(n, f) == Range(lo, if n < hi then n else hi, g)
  {
    if n > 0 { MaskedSum(n - 1, lo, hi, f, g); }
  }

  // ---- weights relative to a maximum --------------------------------------------------------

  function Weighted(e: real -> real, f: nat -> real, m: real, x: nat -> real): nat -> real { (t: nat) => e(f(t) - m) * x(t) }

  lemma Shift(e: real -> real, a: real, m: real, n: real)
    requires IsExp(e)
    ensures e(a - n) == e(m - n) * e(a - m)
  {
    assert (m - n) + (a - m) == a - n;
  }

  // Moving to another maximum multiplies every weight by the same factor.
  lemma Rescale(e: real -> real, f: nat -> real, m: real, n: real, x: nat -> real, lo: nat, hi: nat)
    requires IsExp(e)
    ensures Range(lo, hi, Weighted(e, f, n, x)) == e(m - n) * Range(lo, hi, Weighted(e, f, m, x))
  {
    hide IsExp;
    forall t: nat ensures Weighted(e, f, n, x)(t) == e(m - n) * Weighted(e, f, m, x)(t) {
      Shift(e, f(t), m, n);
      Group3(e(m - n), e(f(t) - m), x(t));
    }
    RangeScale(lo, hi, e(m - n), Weighted(e, f, m, x), Weighted(e, f, n, x));
  }

  lemma Group3(a: real, b: real, c: real)
    ensures (a * b) * c == a * (b * c)
  { }

  predicate IsMax(f: nat -> real, lo: nat, hi: nat, m: real) {
    && (forall t: nat :: lo <= t < hi ==> f(t) <= m)
    && (exists t: nat :: lo <= t < hi && f(t) == m)
  }

  // ---- the running maximum, sum and output over the positions [lo, h) -----------------------

  ghost predicate Level(e: real -> real, f: nat -> real, lo: nat, h: nat, mx: Running, l: real) {
    if h <= lo then mx == Nothing && l == 0.0
    else mx.Max? && IsMax(f, lo, h, mx.value) && l == Range(lo, h, Weighted(e, f, mx.value, Ones()))
  }

  ghost predicate Average(e: real -> real, f: nat -> real, x: nat -> real, lo: nat, h: nat, mx: Running, l: real, o: real) {
    if h <= lo then o == 0.0
    else mx.Max? && l * o == Range(lo, h, Weighted(e, f, mx.value, x))
  }

  lemma LevelPositive(e: real -> real, f: nat -> real, lo: nat, h: nat, mx: Running, l: real)
    requires IsExp(e) && Level(e, f, lo, h, mx, l)
    ensures l >= 0.0 && (lo < h ==> l > 0.0)
  {
    if lo < h {
      forall t: nat ensures Weighted(e, f, mx.value, Ones())(t) > 0.0 { ExpPositive(e, f(t) - mx.value); }
      hide IsExp;
      RangePositive(lo, h, Weighted(e, f, mx.value, Ones()));
    }
  }

  lemma ExpPositive(e: real -> real, a: real)
    requires IsExp(e)
    ensures e(a) > 0.0
  { }

  // The factor the old state keeps.
  function Alpha(e: real -> real, mx: Running, m: real): real { if mx == Nothing then 0.0 else e(mx.value - m) }
  function MaxOf(mx: Running, b: real): real { if mx.Max? && mx.value > b then mx.value else b }

  function NewSum(e: real -> real, f: nat -> real, mx: Running, l: real, m: real, mid: nat, hi: nat): real {
    l * Alpha(e, mx, m) + Range(mid, hi, Weighted(e, f, m, Ones()))
  }

  // One block merged into the running sum.
  lemma MergeLevel(e: real -> real, f: nat -> real, lo: nat, mid: nat, hi: nat, mx: Running, l: real, b: real)
    requires IsExp(e) && lo <= mid < hi && Level(e, f, lo, mid, mx, l) && IsMax(f, mid, hi, b)
    ensures var m := MaxOf(mx, b);
            Level(e, f, lo, hi, Max(m), NewSum(e, f, mx, l, m, mid, hi))
  {
    hide IsExp; hide IsMax;
    var m := MaxOf(mx, b);
    RangeSplit(lo, mid, hi, Weighted(e, f, m, Ones()));
    if lo < mid { Rescale(e, f, mx.value, m, Ones(), lo, mid); }
    MaxMerges(f, lo, mid, hi, mx, l, b, e);
  }

  lemma MaxMerges(f: nat -> real, lo: nat, mid: nat, hi: nat, mx: Running, l: real, b: real, e: real -> real)
    requires lo <= mid < hi && Level(e, f, lo, mid, mx, l) && IsMax(f, mid, hi, b)
    ensures IsMax(f, lo, hi, MaxOf(mx, b))
  {
    var t: nat :| mid <= t < hi && f(t) == b;
    if lo < mid {
      var u: nat :| lo <= u < mid && f(u) == mx.value;
      assert f(t) == b && f(u) == mx.value;
    }
  }

  // ... and into the running output.
  lemma MergeAverage(e: real -> real, f: nat -> real, x: nat -> real, lo: nat, mid: nat, hi: nat, mx: Running, l: real, o: real, m: real, l2: real, o2: real)
    requires IsExp(e) && lo <= mid < hi && Average(e, f, x, lo, mid, mx, l, o) && (lo == mid ==> mx == Nothing)
    requires l2 > 0.0 && o2 == o * (l * Alpha(e, mx, m) / l2) + Range(mid, hi, Weighted(e, f, m, x)) / l2
    ensures Average(e, f, x, lo, hi, Max(m), l2, o2)
  {
    hide IsExp; hide Weighted;
    RangeSplit(lo, mid, hi, Weighted(e, f, m, x));
    Spread(o, l * Alpha(e, mx, m), l2, Range(mid, hi, Weighted(e, f, m, x)), o2);
    if lo < mid {
      Rescale(e, f, mx.value, m, x, lo, mid);
      Turn(o, l, e(mx.value - m));
    }
  }

  lemma Spread(o: real, la: real, l2: real, r: real, o2: real)
    requires l2 > 0.0 && o2 == o * (la / l2) + r / l2
    ensures l2 * o2 == o * la + r
  {
    assert l2 * (la / l2) == la;
    assert l2 * (r / l2) == r;
    assert l2 * (o * (la / l2)) == o * (l2 * (la / l2));
  }

  lemma Turn(o: real, l: real, a: real)
    ensures o * (l * a) == a * (l * o)
  { }

  // ---- the visible stretch, as the code bounds it ---------------------------------------------

  function Lo(c: Call, s: nat): nat {
    var lo := s + c.kvOff - c.window + 1;
    if c.window > 0 && lo > 0 then lo else 0
  }

  function Hi(c: Call, s: nat): int {
    if c.causal then (if s + c.kvOff + 1 > c.Skv then c.Skv else s + c.kvOff + 1) else c.Skv
  }

  // The end of the part of the stretch below position b.
  function Upto(c: Call, s: nat, b: nat): nat {
    if Hi(c, s) < b then (if Hi(c, s) < 0 then 0 else Hi(c, s)) else b
  }

  lemma VisibleStretch(c: Call, s: nat, t: nat)
    ensures Visible(c, s, t) <==> Lo(c, s) <= t < Hi(c, s)
    ensures Visible(c, s, t) <==> Lo(c, s) <= t < Upto(c, s, c.Skv)
  { }

  lemma ChosenIs(c: Call, hq: nat, hk: nat, s: nat, x: nat -> real)
    ensures Sum(c.Skv, Chosen(c, hq, hk, s, x)) == Range(Lo(c, s), Upto(c, s, c.Skv), Weighted(c.exp, Score(c, hq, hk, s), 0.0, x))
  {
    var f := Score(c, hq, hk, s);
    hide Score; hide Lo; hide Upto; hide Visible;
    forall t: nat ensures Chosen(c, hq, hk, s, x)(t) == if Lo(c, s) <= t < Upto(c, s, c.Skv) then Weighted(c.exp, f, 0.0, x)(t) else 0.0 {
      VisibleStretch(c, s, t);
    }
    MaskedSum(c.Skv, Lo(c, s), Upto(c, s, c.Skv), Chosen(c, hq, hk, s, x), Weighted(c.exp, f, 0.0, x));
    UptoBelow(c, s);
  }

  lemma UptoBelow(c: Call, s: nat)
    ensures Upto(c, s, c.Skv) <= c.Skv
  { }

  // The running output does not depend on the maximum it is kept relative to.
  lemma Quotients(e: real -> real, f: nat -> real, x: nat -> real, lo: nat, h: nat, mx: Running, l: real, o: real)
    requires IsExp(e) && lo < h && Level(e, f, lo, h, mx, l) && Average(e, f, x, lo, h, mx, l, o)
    ensures Range(lo, h, Weighted(e, f, 0.0, Ones())) > 0.0
    ensures o == Range(lo, h, Weighted(e, f, 0.0, x)) / Range(lo, h, Weighted(e, f, 0.0, Ones()))
  {
    hide IsExp; hide IsMax; hide Weighted; hide Range;
    LevelPositive(e, f, lo, h, mx, l);
    Rescale(e, f, mx.value, 0.0, Ones(), lo, h);
    Rescale(e, f, mx.value, 0.0, x, lo, h);
    ExpPositive(e, mx.value - 0.0);
    Ratio(e(mx.value - 0.0), l, o);
  }

  // After the last block the running output is the full average.
  lemma Finished(c: Call, hq: nat, s: nat, d: nat, mx: Running, l: real, o: real)
    requires Sized(c) && IsExp(c.exp)
    requires Level(c.exp, Score(c, hq, Shared(c, hq), s), Lo(c, s), Upto(c, s, c.Skv), mx, l)
    requires Average(c.exp, Score(c, hq, Shared(c, hq), s), Column(c, Shared(c, hq), d), Lo(c, s), Upto(c, s, c.Skv), mx, l, o)
    ensures IsAttention(c, hq, s, d, o)
  {
    hide Score; hide Column; hide Shared; hide IsExp; hide Lo; hide Upto; hide Visible; hide Chosen; hide Weighted; hide Range; hide Sum; hide IsMax;
    var hk := Shared(c, hq);
    var f, x, lo, h := Score(c, hq, hk, s), Column(c, hk, d), Lo(c, s), Upto(c, s, c.Skv);
    VisibleStretch(c, s, lo);
    if h <= lo {
      forall t: nat ensures !Visible(c, s, t) { VisibleStretch(c, s, t); }
    } else {
      Quotients(c.exp, f, x, lo, h, mx, l, o);
      ChosenIs(c, hq, hk, s, Ones());
      ChosenIs(c, hq, hk, s, x);
    }
  }

  lemma Ratio(a: real, l: real, o: real)
    requires a > 0.0 && l > 0.0
    ensures a * l > 0.0 && a * (l * o) / (a * l) == o
  {
    assert a * (l * o) == (a * l) * o;
  }

  // ---- the loops ----------------------------------------------------------------------------------

  // Copy a block of keys or values.
  method LoadBlock(c: Call, x: Tensor, hk: nat, t0: nat, bn: nat, buf: array2<real>)
    requires bn <= buf.Length0 && buf.Length1 == c.Dh
    modifies buf
    ensures Loaded(c, x, hk, t0, bn, buf)
  {
    for t := 0 to bn
      invariant Loaded(c, x, hk, t0, t, buf)
    {
      for d := 0 to c.Dh
        invariant Loaded(c, x, hk, t0, t, buf)
        invariant forall j: nat :: j < d ==> buf[t, j] == x(hk, t0 + t, j)
      {
        buf[t, d] := x(hk, t0 + t, d);
      }
    }
  }

  ghost predicate Loaded(c: Call, x: Tensor, hk: nat, t0: nat, bn: nat, buf: array2<real>)
    requires bn <= buf.Length0 && buf.Length1 == c.Dh
    reads buf
  {
    forall t: nat, d: nat :: t < bn && d < c.Dh ==> buf[t, d] == x(hk, t0 + t, d)
  }

  method OneScore(c: Call, hq: nat, hk: nat, s: nat, t: nat, t0: nat, bn: nat, kbuf: array2<real>) returns (v: real)
    requires t0 <= t < t0 + bn && bn <= kbuf.Length0 && kbuf.Length1 == c.Dh && Loaded(c, c.k, hk, t0, bn, kbuf)
    ensures v == Score(c, hq, hk, s)(t)
  {
    var dot := 0.0;
    for d := 0 to c.Dh
      invariant dot == Sum(d, Products(c, hq, hk, s, t))
    {
      dot := dot + c.q(hq, s, d) * kbuf[t - t0, d];
    }
    v := dot * SoftmaxScale(c);
  }

  // Scores of the visible part of a block, and their maximum.
  method Scores(c: Call, hq: nat, hk: nat, s: nat, t0: nat, bn: nat, bLo: nat, bHi: nat, kbuf: array2<real>, scores: array<real>) returns (best: Running)
    requires t0 <= bLo && bHi <= t0 + bn && bn <= scores.Length && bn <= kbuf.Length0 && kbuf.Length1 == c.Dh && Loaded(c, c.k, hk, t0, bn, kbuf)
    modifies scores
    ensures Scored(c, hq, hk, s, t0, bLo, bHi, scores)
    ensures if bHi <= bLo then best == Nothing else best.Max? && IsMax(Score(c, hq, hk, s), bLo, bHi, best.value)
  {
    hide Score; hide Loaded;
    best := Nothing;
    var t := bLo;
    while t < bHi
      invariant bLo <= t && (t <= bHi || t == bLo)
      invariant forall i: nat :: bLo <= i < t ==> scores[i - t0] == Score(c, hq, hk, s)(i)
      invariant if t == bLo then best == Nothing else best.Max? && IsMax(Score(c, hq, hk, s), bLo, t, best.value)
      decreases bHi - t
    {
      var v := OneScore(c, hq, hk, s, t, t0, bn, kbuf);
      scores[t - t0] := v;
      if best == Nothing || v > best.value { best := Max(v); }
      t := t + 1;
    }
  }

  ghost predicate Scored(c: Call, hq: nat, hk: nat, s: nat, t0: nat, bLo: nat, bHi: nat, scores: array<real>)
    requires t0 <= bLo && (bLo < bHi ==> bHi - t0 <= scores.Length)
    reads scores
  {
    forall t: nat :: bLo <= t < bHi ==> scores[t - t0] == Score(c, hq, hk, s)(t)
  }

  method BlockSum(c: Call, hq: nat, hk: nat, s: nat, t0: nat, bLo: nat, bHi: nat, scores: array<real>, m: real) returns (sum: real)
    requires t0 <= bLo < bHi && bHi - t0 <= scores.Length && Scored(c, hq, hk, s, t0, bLo, bHi, scores)
    ensures sum == Range(bLo, bHi, Weighted(c.exp, Score(c, hq, hk, s), m, Ones()))
  {
    hide Score;
    sum := 0.0;
    for t := bLo to bHi
      invariant sum == Range(bLo, t, Weighted(c.exp, Score(c, hq, hk, s), m, Ones()))
    {
      sum := sum + c.exp(scores[t - t0] - m);
    }
  }

  // The factors for the old and the new part of the output.
  ghost predicate Scales(e: real -> real, mx: Running, l: real, m: real, l2: real, oScale: real, bScale: real) {
    l2 > 0.0 && oScale == l * Alpha(e, mx, m) / l2 && bScale == 1.0 / l2
  }

  function Blend(o: real, oScale: real, r: real, bScale: real): real { o * oScale + r * bScale }

  method ScaleRow(c: Call, hq: nat, s: nat, oScale: real, acc: array3<real>)
    requires hq < acc.Length0 && s < acc.Length1 && acc.Length2 == c.Dh
    modifies acc
    ensures forall d: nat :: d < c.Dh ==> acc[hq, s, d] == old(acc[hq, s, d]) * oScale
    ensures forall q: nat, r: nat, d: nat :: q < acc.Length0 && r < acc.Length1 && d < c.Dh && (q != hq || r != s) ==> acc[q, r, d] == old(acc[q, r, d])
  {
    for d := 0 to c.Dh
      invariant forall j: nat :: j < c.Dh ==> acc[hq, s, j] == if j < d then old(acc[hq, s, j]) * oScale else old(acc[hq, s, j])
      invariant forall q: nat, r: nat, j: nat :: q < acc.Length0 && r < acc.Length1 && j < c.Dh && (q != hq || r != s) ==> acc[q, r, j] == old(acc[q, r, j])
    {
      acc[hq, s, d] := acc[hq, s, d] * oScale;
    }
  }

  // Scale the output row, then add the block's weighted values.
  method AddBlock(c: Call, hq: nat, hk: nat, s: nat, t0: nat, bn: nat, bLo: nat, bHi: nat, scores: array<real>, vbuf: array2<real>, m: real,
                  oScale: real, bScale: real, acc: array3<real>)
    requires t0 <= bLo < bHi <= t0 + bn && bn <= scores.Length && Scored(c, hq, hk, s, t0, bLo, bHi, scores)
    requires bn <= vbuf.Length0 && vbuf.Length1 == c.Dh && Loaded(c, c.v, hk, t0, bn, vbuf)
    requires hq < acc.Length0 && s < acc.Length1 && acc.Length2 == c.Dh
    modifies acc
    ensures forall d: nat :: d < c.Dh ==>
      acc[hq, s, d] == Blend(old(acc[hq, s, d]), oScale, Range(bLo, bHi, Weighted(c.exp, Score(c, hq, hk, s), m, Column(c, hk, d))), bScale)
    ensures forall q: nat, r: nat, d: nat :: q < acc.Length0 && r < acc.Length1 && d < c.Dh && (q != hq || r != s) ==> acc[q, r, d] == old(acc[q, r, d])
  {
    hide Score; hide Weighted;
    ScaleRow(c, hq, s, oScale, acc);
    for t := bLo to bHi
      invariant forall j: nat :: j < c.Dh ==>
        acc[hq, s, j] == old(acc[hq, s, j]) * oScale + Range(bLo, t, Weighted(c.exp, Score(c, hq, hk, s), m, Column(c, hk, j))) * bScale
      invariant forall q: nat, r: nat, j: nat :: q < acc.Length0 && r < acc.Length1 && j < c.Dh && (q != hq || r != s) ==> acc[q, r, j] == old(acc[q, r, j])
    {
      var w := c.exp(scores[t - t0] - m) * bScale;
      AddValue(c, hq, hk, s, t, t0, bn, vbuf, w, acc);
      forall j: nat | j < c.Dh
        ensures Range(bLo, t + 1, Weighted(c.exp, Score(c, hq, hk, s), m, Column(c, hk, j))) * bScale ==
                Range(bLo, t, Weighted(c.exp, Score(c, hq, hk, s), m, Column(c, hk, j))) * bScale + w * c.v(hk, t, j)
      {
        NextWeight(c, hq, hk, s, m, j, bLo, t, bScale);
      }
    }
  }

  lemma NextWeight(c: Call, hq: nat, hk: nat, s: nat, m: real, d: nat, lo: nat, t: nat, scale: real)
    requires lo <= t
    ensures var g := Weighted(c.exp, Score(c, hq, hk, s), m, Column(c, hk, d));
            Range(lo, t + 1, g) * scale == Range(lo, t, g) * scale + (c.exp(Score(c, hq, hk, s)(t) - m) * scale) * c.v(hk, t, d)
  {
    var g := Weighted(c.exp, Score(c, hq, hk, s), m, Column(c, hk, d));
    Expand(Range(lo, t, g), c.exp(Score(c, hq, hk, s)(t) - m), c.v(hk, t, d), scale);
  }

  lemma Expand(r: real, e: real, v: real, scale: real)
    ensures (r + e * v) * scale == r * scale + (e * scale) * v
  { }

  method AddValue(c: Call, hq: nat, hk: nat, s: nat, t: nat, t0: nat, bn: nat, vbuf: array2<real>, w: real, acc: array3<real>)
    requires t0 <= t < t0 + bn && bn <= vbuf.Length0 && vbuf.Length1 == c.Dh && Loaded(c, c.v, hk, t0, bn, vbuf)
    requires hq < acc.Length0 && s < acc.Length1 && acc.Length2 == c.Dh
    modifies acc
    ensures forall d: nat :: d < c.Dh ==> acc[hq, s, d] == old(acc[hq, s, d]) + w * c.v(hk, t, d)
    ensures forall q: nat, r: nat, d: nat :: q < acc.Length0 && r < acc.Length1 && d < c.Dh && (q != hq || r != s) ==> acc[q, r, d] == old(acc[q, r, d])
  {
    for d := 0 to c.Dh
      invariant forall j: nat :: j < c.Dh ==> acc[hq, s, j] == if j < d then old(acc[hq, s, j]) + w * c.v(hk, t, j) else old(acc[hq, s, j])
      invariant forall q: nat, r: nat, j: nat :: q < acc.Length0 && r < acc.Length1 && j < c.Dh && (q != hq || r != s) ==> acc[q, r, j] == old(acc[q, r, j])
    {
      acc[hq, s, d] := acc[hq, s, d] + w * vbuf[t - t0, d];
    }
  }

  // ---- one row, one block ----------------------------------------------------------------------------

  ghost predicate RowAverages(c: Call, hq: nat, hk: nat, s: nat, lo: nat, h: nat, mx: Running, sum: real, acc: array3<real>)
    requires hq < acc.Length0 && s < acc.Length1 && acc.Length2 == c.Dh
    reads acc
  {
    forall d: nat :: d < c.Dh ==> Average(c.exp, Score(c, hq, hk, s), Column(c, hk, d), lo, h, mx, sum, acc[hq, s, d])
  }

  // The new maximum and sum, and the factors for the old and the new output.
  method Rates(c: Call, hq: nat, hk: nat, s: nat, t0: nat, bLo: nat, bHi: nat, best: real, mx: Running, sum: real, scores: array<real>, ghost lo: nat)
    returns (mNew: real, lNew: real, oScale: real, bScale: real)
    requires IsExp(c.exp) && t0 <= bLo < bHi && bHi - t0 <= scores.Length && Scored(c, hq, hk, s, t0, bLo, bHi, scores) && lo <= bLo
    requires Level(c.exp, Score(c, hq, hk, s), lo, bLo, mx, sum) && IsMax(Score(c, hq, hk, s), bLo, bHi, best)
    ensures Level(c.exp, Score(c, hq, hk, s), lo, bHi, Max(mNew), lNew) && lNew > 0.0
    ensures Scales(c.exp, mx, sum, mNew, lNew, oScale, bScale)
  {
    hide Score; hide IsExp; hide IsMax; hide Weighted; hide Level; hide Range;
    ghost var f := Score(c, hq, hk, s);
    mNew := if mx.Max? && mx.value > best then mx.value else best;
    var alpha := if mx == Nothing then 0.0 else c.exp(mx.value - mNew);
    var blockSum := BlockSum(c, hq, hk, s, t0, bLo, bHi, scores, mNew);
    lNew := sum * alpha + blockSum;
    assert mNew == MaxOf(mx, best) && lNew == NewSum(c.exp, f, mx, sum, mNew, bLo, bHi);
    MergeLevel(c.exp, f, lo, bLo, bHi, mx, sum, best);
    LevelPositive(c.exp, f, lo, bHi, Max(mNew), lNew);
    oScale := if lNew == 0.0 then 0.0 else sum * alpha / lNew;
    bScale := if lNew == 0.0 then 0.0 else 1.0 / lNew;
  }

  // Fold a scored block into the running maximum, sum and output of a row.
  method FoldBlock(c: Call, hq: nat, hk: nat, s: nat, t0: nat, bn: nat, bLo: nat, bHi: nat, best: real, mx: Running, sum: real,
                   scores: array<real>, vbuf: array2<real>, acc: array3<real>, ghost lo: nat)
    returns (mNew: real, lNew: real)
    requires IsExp(c.exp) && t0 <= bLo < bHi <= t0 + bn && bn <= scores.Length && Scored(c, hq, hk, s, t0, bLo, bHi, scores)
    requires bn <= vbuf.Length0 && vbuf.Length1 == c.Dh && Loaded(c, c.v, hk, t0, bn, vbuf)
    requires hq < acc.Length0 && s < acc.Length1 && acc.Length2 == c.Dh && lo <= bLo
    requires Level(c.exp, Score(c, hq, hk, s), lo, bLo, mx, sum) && IsMax(Score(c, hq, hk, s), bLo, bHi, best)
    requires RowAverages(c, hq, hk, s, lo, bLo, mx, sum, acc)
    modifies acc
    ensures Level(c.exp, Score(c, hq, hk, s), lo, bHi, Max(mNew), lNew)
    ensures RowAverages(c, hq, hk, s, lo, bHi, Max(mNew), lNew, acc)
    ensures forall q: nat, r: nat, d: nat :: q < acc.Length0 && r < acc.Length1 && d < c.Dh && (q != hq || r != s) ==> acc[q, r, d] == old(acc[q, r, d])
  {
    assert lo == bLo ==> mx == Nothing;
    hide Score; hide IsExp; hide IsMax; hide Weighted; hide Column; hide Level; hide Average; hide Range; hide Alpha; hide Scales; hide Blend;
    var oScale, bScale;
    mNew, lNew, oScale, bScale := Rates(c, hq, hk, s, t0, bLo, bHi, best, mx, sum, scores, lo);
    AddBlock(c, hq, hk, s, t0, bn, bLo, bHi, scores, vbuf, mNew, oScale, bScale, acc);
    forall d: nat | d < c.Dh ensures Average(c.exp, Score(c, hq, hk, s), Column(c, hk, d), lo, bHi, Max(mNew), lNew, acc[hq, s, d]) {
      assert old(Average(c.exp, Score(c, hq, hk, s), Column(c, hk, d), lo, bLo, mx, sum, acc[hq, s, d]));
      FoldAverage(c.exp, Score(c, hq, hk, s), Column(c, hk, d), lo, bLo, bHi, mx, sum, old(acc[hq, s, d]), mNew, lNew, oScale, bScale, acc[hq, s, d]);
    }
  }

  lemma FoldAverage(e: real -> real, f: nat -> real, x: nat -> real, lo: nat, mid: nat, hi: nat, mx: Running, l: real, o: real, m: real, l2: real,
                    oScale: real, bScale: real, o2: real)
    requires IsExp(e) && lo <= mid < hi && Average(e, f, x, lo, mid, mx, l, o) && (lo == mid ==> mx == Nothing)
    requires Scales(e, mx, l, m, l2, oScale, bScale) && o2 == Blend(o, oScale, Range(mid, hi, Weighted(e, f, m, x)), bScale)
    ensures Average(e, f, x, lo, hi, Max(m), l2, o2)
  {
    hide IsExp; hide Weighted; hide Average; hide Range; hide Alpha;
    Over(Range(mid, hi, Weighted(e, f, m, x)), l2);
    MergeAverage(e, f, x, lo, mid, hi, mx, l, o, m, l2, o2);
  }

  lemma Over(a: real, b: real)
    requires b > 0.0
    ensures a * (1.0 / b) == a / b
  { }

  // ---- what a block means for the stretch of a row --------------------------------------------------------

  // A block with no visible position changes nothing.
  lemma EmptyBlock(c: Call, s: nat, t0: nat, t1: nat)
    requires t0 < t1 <= c.Skv && (Hi(c, s) <= Lo(c, s) || Hi(c, s) <= t0 || t1 <= Lo(c, s))
    ensures Upto(c, s, t0) == Upto(c, s, t1) || (Upto(c, s, t0) <= Lo(c, s) && Upto(c, s, t1) <= Lo(c, s))
  { }

  // The visible part of a block follows on the positions before it.
  lemma BlockBounds(c: Call, s: nat, t0: nat, t1: nat, bLo: nat, bHi: nat)
    requires t0 < t1 <= c.Skv && bLo == (if Lo(c, s) > t0 then Lo(c, s) else t0) && bHi == (if Hi(c, s) < t1 then Hi(c, s) else t1) && bLo < bHi
    ensures Upto(c, s, t1) == bHi && Lo(c, s) <= bLo && (Upto(c, s, t0) == bLo || (Upto(c, s, t0) <= Lo(c, s) && bLo <= Lo(c, s)))
  { }

  // Two ends that bound the same stretch.
  lemma SameStretch(e: real -> real, f: nat -> real, lo: nat, h: nat, g: nat, mx: Running, sum: real)
    requires h == g || (h <= lo && g <= lo)
    ensures Level(e, f, lo, h, mx, sum) == Level(e, f, lo, g, mx, sum)
    ensures forall x: nat -> real, o: real :: Average(e, f, x, lo, h, mx, sum, o) == Average(e, f, x, lo, g, mx, sum, o)
  { }

  class Buffers {
    const block: nat
    const m: array2<Running>
    const l: array2<real>
    const acc: array3<real>
    const kbuf: array2<real>
    const vbuf: array2<real>
    const scores: array<real>

    constructor (c: Call, block: nat)
      requires block > 0
      ensures fresh(m) && fresh(l) && fresh(acc) && fresh(kbuf) && fresh(vbuf) && fresh(scores) && Shaped(c)
      ensures forall q: nat, r: nat :: q < c.Hq && r < c.S ==> m[q, r] == Nothing && l[q, r] == 0.0
      ensures forall q: nat, r: nat, d: nat :: q < c.Hq && r < c.S && d < c.Dh ==> acc[q, r, d] == 0.0
    {
      this.block := block;
      m := new Running[c.Hq, c.S]((_, _) => Nothing);
      l := new real[c.Hq, c.S]((_, _) => 0.0);
      acc := new real[c.Hq, c.S, c.Dh]((_, _, _) => 0.0);
      kbuf := new real[block, c.Dh]((_, _) => 0.0);
      vbuf := new real[block, c.Dh]((_, _) => 0.0);
      scores := new real[block](_ => 0.0);
    }

    ghost predicate Shaped(c: Call) {
      && block > 0 && m.Length0 == c.Hq && m.Length1 == c.S && l.Length0 == c.Hq && l.Length1 == c.S
      && acc.Length0 == c.Hq && acc.Length1 == c.S && acc.Length2 == c.Dh
      && kbuf.Length0 == block && kbuf.Length1 == c.Dh && vbuf.Length0 == block && vbuf.Length1 == c.Dh && scores.Length == block
      && kbuf != vbuf && l != kbuf && l != vbuf
    }

    // Query position s of head hq has taken in the positions below b.
    ghost predicate RowAt(c: Call, hq: nat, s: nat, b: nat)
      requires Sized(c) && Shaped(c) && hq < c.Hq && s < c.S
      reads m, l, acc
    {
      && Level(c.exp, Score(c, hq, Shared(c, hq), s), Lo(c, s), Upto(c, s, b), m[hq, s], l[hq, s])
      && RowAverages(c, hq, Shared(c, hq), s, Lo(c, s), Upto(c, s, b), m[hq, s], l[hq, s], acc)
    }

    lemma RowSame(c: Call, hq: nat, s: nat, b: nat, b2: nat)
      requires Sized(c) && Shaped(c) && hq < c.Hq && s < c.S && RowAt(c, hq, s, b)
      requires Upto(c, s, b) == Upto(c, s, b2) || (Upto(c, s, b) <= Lo(c, s) && Upto(c, s, b2) <= Lo(c, s))
      ensures RowAt(c, hq, s, b2)
    {
      hide Score; hide Shared; hide Column; hide Level; hide Average; hide Lo; hide Upto;
      SameStretch(c.exp, Score(c, hq, Shared(c, hq), s), Lo(c, s), Upto(c, s, b), Upto(c, s, b2), m[hq, s], l[hq, s]);
    }

    method StepRow(c: Call, hq: nat, s: nat, t0: nat, t1: nat)
      requires Sized(c) && IsExp(c.exp) && Shaped(c) && hq < c.Hq && s < c.S && t0 < t1 <= c.Skv && t1 - t0 <= block
      requires RowAt(c, hq, s, t0)
      requires Loaded(c, c.k, Shared(c, hq), t0, t1 - t0, kbuf) && Loaded(c, c.v, Shared(c, hq), t0, t1 - t0, vbuf)
      modifies scores, m, l, acc
      ensures RowAt(c, hq, s, t1)
      ensures forall q: nat, r: nat :: q < c.Hq && r < c.S && (q != hq || r != s) ==> m[q, r] == old(m[q, r]) && l[q, r] == old(l[q, r])
      ensures forall q: nat, r: nat, d: nat :: q < c.Hq && r < c.S && d < c.Dh && (q != hq || r != s) ==> acc[q, r, d] == old(acc[q, r, d])
    {
      hide Score; hide Shared; hide IsExp; hide IsMax; hide Column; hide Level; hide Average; hide Upto;
      var tLo: int, tHi: int := 0, c.Skv;
      if c.causal {
        tHi := s + c.kvOff + 1;
        if tHi > c.Skv { tHi := c.Skv; }
      }
      if c.window > 0 {
        var lo := s + c.kvOff - c.window + 1;
        if lo > tLo { tLo := lo; }
      }
      if tLo < 0 { tLo := 0; }
      assert tLo == Lo(c, s) && tHi == Hi(c, s);
      hide Lo; hide Hi;
      if tHi <= tLo {
        EmptyBlock(c, s, t0, t1);
        RowSame(c, hq, s, t0, t1);
        return;
      }
      var hk := Shared(c, hq);
      var bLo: nat := if tLo > t0 then tLo else t0;
      var bHi: nat := if tHi < t1 then tHi else t1;
      var best := Scores(c, hq, hk, s, t0, t1 - t0, bLo, bHi, kbuf, scores);
      if best == Nothing {
        EmptyBlock(c, s, t0, t1);
        RowSame(c, hq, s, t0, t1);
        return;
      }
      BlockBounds(c, s, t0, t1, bLo, bHi);
      SameStretch(c.exp, Score(c, hq, hk, s), Lo(c, s), Upto(c, s, t0), bLo, m[hq, s], l[hq, s]);
      var mNew, lNew := FoldBlock(c, hq, hk, s, t0, t1 - t0, bLo, bHi, best.value, m[hq, s], l[hq, s], scores, vbuf, acc, Lo(c, s));
      m[hq, s] := Max(mNew);
      l[hq, s] := lNew;
    }

    // ---- all rows -----------------------------------------------------------------------------------

    // Heads below hq0 are finished; of the group from hq0, rows before (hq, s) stand at t1
    // and the others at t0; later heads have not begun.
    static function Reached(c: Call, hq0: nat, hq: nat, s: nat, t0: nat, t1: nat, q: nat, r: nat): nat
      requires Sized(c)
    {
      if q < hq0 then c.Skv
      else if q < hq || (q == hq && r < s) then t1
      else if q < hq0 + Group(c) then t0
      else 0
    }

    ghost predicate AllAt(c: Call, hq0: nat, hq: nat, s: nat, t0: nat, t1: nat)
      requires Sized(c) && Shaped(c)
      reads m, l, acc
    {
      forall q: nat, r: nat :: q < c.Hq && r < c.S ==> RowAt(c, q, r, Reached(c, hq0, hq, s, t0, t1, q, r))
    }

    method NextRow(c: Call, hk: nat, hq0: nat, hq: nat, s: nat, t0: nat, t1: nat)
      requires Sized(c) && IsExp(c.exp) && Shaped(c) && hq0 <= hq < hq0 + Group(c) && hq < c.Hq && s < c.S && t0 < t1 <= c.Skv && t1 - t0 <= block
      requires hq0 == hk * Group(c) && AllAt(c, hq0, hq, s, t0, t1)
      requires Loaded(c, c.k, hk, t0, t1 - t0, kbuf) && Loaded(c, c.v, hk, t0, t1 - t0, vbuf)
      modifies scores, m, l, acc
      ensures AllAt(c, hq0, hq, s + 1, t0, t1)
    {
      SharedIs(c, hk, hq);
      hide Score; hide Shared; hide IsExp; hide Column; hide Level; hide Average; hide Upto; hide Lo; hide Loaded; hide Group;
      assert RowAt(c, hq, s, Reached(c, hq0, hq, s, t0, t1, hq, s));
      StepRow(c, hq, s, t0, t1);
      var next := s + 1;
      forall q: nat, r: nat | q < c.Hq && r < c.S ensures RowAt(c, q, r, Reached(c, hq0, hq, next, t0, t1, q, r)) {
        if q != hq || r != s {
          assert old(RowAt(c, q, r, Reached(c, hq0, hq, s, t0, t1, q, r)));
          assert Reached(c, hq0, hq, s, t0, t1, q, r) == Reached(c, hq0, hq, next, t0, t1, q, r);
        }
      }
    }

    // All heads of a group take in one block.
    method GroupBlock(c: Call, hk: nat, hq0: nat, t0: nat, t1: nat)
      requires Sized(c) && IsExp(c.exp) && Shaped(c) && hq0 + Group(c) <= c.Hq && t0 < t1 <= c.Skv && t1 - t0 <= block
      requires hq0 == hk * Group(c) && AllAt(c, hq0, hq0, 0, t0, t1)
      modifies scores, kbuf, vbuf, m, l, acc
      ensures AllAt(c, hq0, hq0 + Group(c), 0, t0, t1)
    {
      hide IsExp; hide RowAt; hide Group;
      LoadBlock(c, c.k, hk, t0, t1 - t0, kbuf);
      LoadBlock(c, c.v, hk, t0, t1 - t0, vbuf);
      for hq := hq0 to hq0 + Group(c)
        invariant AllAt(c, hq0, hq, 0, t0, t1)
        invariant Loaded(c, c.k, hk, t0, t1 - t0, kbuf) && Loaded(c, c.v, hk, t0, t1 - t0, vbuf)
      {
        for s := 0 to c.S
          invariant AllAt(c, hq0, hq, s, t0, t1)
          invariant Loaded(c, c.k, hk, t0, t1 - t0, kbuf) && Loaded(c, c.v, hk, t0, t1 - t0, vbuf)
        {
          NextRow(c, hk, hq0, hq, s, t0, t1);
        }
        RowsDone(c, hq0, hq, t0, t1);
      }
    }

    lemma RowsDone(c: Call, hq0: nat, hq: nat, t0: nat, t1: nat)
      requires Sized(c) && Shaped(c) && AllAt(c, hq0, hq, c.S, t0, t1)
      ensures AllAt(c, hq0, hq + 1, 0, t0, t1)
    {
      hide RowAt; hide Group;
      var next := hq + 1;
      forall q: nat, r: nat | q < c.Hq && r < c.S ensures RowAt(c, q, r, Reached(c, hq0, next, 0, t0, t1, q, r)) {
        assert RowAt(c, q, r, Reached(c, hq0, hq, c.S, t0, t1, q, r));
      }
    }

    lemma BlockDone(c: Call, hq0: nat, t0: nat, t1: nat, t2: nat)
      requires Sized(c) && Shaped(c) && AllAt(c, hq0, hq0 + Group(c), 0, t0, t1)
      ensures AllAt(c, hq0, hq0, 0, t1, t2)
    {
      hide RowAt; hide Group;
      forall q: nat, r: nat | q < c.Hq && r < c.S ensures RowAt(c, q, r, Reached(c, hq0, hq0, 0, t1, t2, q, r)) {
        assert RowAt(c, q, r, Reached(c, hq0, hq0 + Group(c), 0, t0, t1, q, r));
      }
    }

    lemma GroupDone(c: Call, hq0: nat, t2: nat)
      requires Sized(c) && Shaped(c) && AllAt(c, hq0, hq0, 0, c.Skv, t2)
      ensures AllAt(c, hq0 + Group(c), hq0 + Group(c), 0, 0, 0)
    {
      hide RowAt; hide Group;
      var next := hq0 + Group(c);
      forall q: nat, r: nat | q < c.Hq && r < c.S ensures RowAt(c, q, r, Reached(c, next, next, 0, 0, 0, q, r)) {
        assert RowAt(c, q, r, Reached(c, hq0, hq0, 0, c.Skv, t2, q, r));
      }
    }

    // The block from position t0 on.
    method NextBlock(c: Call, hk: nat, hq0: nat, t0: nat)
      requires Sized(c) && IsExp(c.exp) && Shaped(c) && hk < c.Hkv && hq0 == hk * Group(c) && t0 < c.Skv && AllAt(c, hq0, hq0, 0, t0, t0)
      modifies scores, kbuf, vbuf, m, l, acc
      ensures AllAt(c, hq0, hq0, 0, Min(t0 + block, c.Skv), Min(t0 + block, c.Skv))
    {
      GroupFits(c, hk);
      hide IsExp; hide RowAt; hide Group;
      var t1 := if t0 + block < c.Skv then t0 + block else c.Skv;
      Restart(c, hq0, t0, t1);
      GroupBlock(c, hk, hq0, t0, t1);
      BlockDone(c, hq0, t0, t1, t1);
    }

    // One key/value head and its group of query heads.
    method GroupHead(c: Call, hk: nat, hq0: nat)
      requires Sized(c) && IsExp(c.exp) && Shaped(c) && hk < c.Hkv && hq0 == hk * Group(c) && AllAt(c, hq0, hq0, 0, 0, 0)
      modifies scores, kbuf, vbuf, m, l, acc
      ensures AllAt(c, hq0 + Group(c), hq0 + Group(c), 0, 0, 0)
    {
      GroupFits(c, hk);
      hide IsExp; hide RowAt; hide Group;
      ZeroGroup(c, hq0);
      var t0: nat := 0;
      while t0 < c.Skv
        invariant AllAt(c, hq0, hq0, 0, Min(t0, c.Skv), Min(t0, c.Skv))
        decreases c.Skv - t0
      {
        NextBlock(c, hk, hq0, t0);
        t0 := t0 + block;
      }
      GroupDone(c, hq0, c.Skv);
    }

    lemma Restart(c: Call, hq0: nat, t0: nat, t1: nat)
      requires Sized(c) && Shaped(c) && AllAt(c, hq0, hq0, 0, t0, t0)
      ensures AllAt(c, hq0, hq0, 0, t0, t1)
    {
      hide RowAt; hide Group;
      forall q: nat, r: nat | q < c.Hq && r < c.S ensures RowAt(c, q, r, Reached(c, hq0, hq0, 0, t0, t1, q, r)) {
        assert RowAt(c, q, r, Reached(c, hq0, hq0, 0, t0, t0, q, r));
      }
    }

    // The group's outputs are cleared; they are still zero.
    method ZeroGroup(c: Call, hq0: nat)
      requires Sized(c) && Shaped(c) && hq0 + Group(c) <= c.Hq && AllAt(c, hq0, hq0, 0, 0, 0)
      modifies acc
      ensures AllAt(c, hq0, hq0, 0, 0, 0)
    {
      hide Group;
      forall q: nat, r: nat, d: nat | hq0 <= q < hq0 + Group(c) && r < c.S && d < c.Dh ensures acc[q, r, d] == 0.0 {
        assert RowAt(c, q, r, Reached(c, hq0, hq0, 0, 0, 0, q, r));
        ZeroAtStart(c, q, r, d);
      }
      hide RowAt;
      forall q: nat, r: nat, d: nat | hq0 <= q < hq0 + Group(c) && r < c.S && d < c.Dh { acc[q, r, d] := 0.0; }
      forall q: nat, r: nat | q < c.Hq && r < c.S ensures RowAt(c, q, r, Reached(c, hq0, hq0, 0, 0, 0, q, r)) {
        assert old(RowAt(c, q, r, Reached(c, hq0, hq0, 0, 0, 0, q, r)));
      }
    }

    lemma ZeroAtStart(c: Call, q: nat, r: nat, d: nat)
      requires Sized(c) && Shaped(c) && q < c.Hq && r < c.S && d < c.Dh && RowAt(c, q, r, 0)
      ensures acc[q, r, d] == 0.0
    {
      assert Upto(c, r, 0) <= Lo(c, r);
      assert Average(c.exp, Score(c, q, Shared(c, q), r), Column(c, Shared(c, q), d), Lo(c, r), Upto(c, r, 0), m[q, r], l[q, r], acc[q, r, d]);
      hide Score; hide Shared; hide Column; hide Lo; hide Upto;
    }
  }

  lemma SharedIs(c: Call, hk: nat, hq: nat)
    requires Sized(c) && hk * Group(c) <= hq < hk * Group(c) + Group(c)
    ensures Shared(c, hq) == hk
  {
    DivUnique(hq, Group(c), hk, hq - hk * Group(c));
  }

  lemma GroupFits(c: Call, hk: nat)
    requires Sized(c) && hk < c.Hkv
    ensures 0 <= hk * Group(c) && hk * Group(c) + Group(c) == (hk + 1) * Group(c) <= c.Hq
    ensures c.Hkv * Group(c) == c.Hq
  {
    assert c.Hkv * Group(c) == c.Hq;
    ScaleBound(0, hk, Group(c));
    ScaleBound(hk + 1, c.Hkv, Group(c));
  }

  // rouge_attention_gqa, for blocks of any size (the source's are of 64 positions);
  // nothing is written when the heads do not divide into groups.
  method Gqa(c: Call, block: nat, o: array3<real>)
    requires IsExp(c.exp) && block > 0
    requires c.root * c.root == c.Dh as real || c.Dh == 0
    requires o.Length0 == c.Hq && o.Length1 == c.S && o.Length2 == c.Dh
    modifies o
    ensures Sized(c) ==> forall hq: nat, s: nat, d: nat :: hq < c.Hq && s < c.S && d < c.Dh ==> IsAttention(c, hq, s, d, o[hq, s, d])
    ensures !Sized(c) ==> forall hq: nat, s: nat, d: nat :: hq < c.Hq && s < c.S && d < c.Dh ==> o[hq, s, d] == old(o[hq, s, d])
  {
    hide IsExp; hide IsAttention;
    if c.S == 0 || c.Skv == 0 || c.Dh == 0 || c.Hq == 0 || c.Hkv == 0 { return; }
    if c.Hq % c.Hkv != 0 { return; }
    var b := new Buffers(c, block);
    Begin(c, b);
    hide Group;
    for hk := 0 to c.Hkv
      invariant hk * Group(c) >= 0 && b.AllAt(c, hk * Group(c), hk * Group(c), 0, 0, 0)
    {
      GroupFits(c, hk);
      b.GroupHead(c, hk, hk * Group(c));
    }
    forall hq: nat, s: nat, d: nat | hq < c.Hq && s < c.S && d < c.Dh { o[hq, s, d] := b.acc[hq, s, d]; }
    forall hq: nat, s: nat, d: nat | hq < c.Hq && s < c.S && d < c.Dh ensures IsAttention(c, hq, s, d, o[hq, s, d]) {
      GroupFits(c, 0);
      assert b.RowAt(c, hq, s, Buffers.Reached(c, c.Hkv * Group(c), c.Hkv * Group(c), 0, 0, 0, hq, s));
      RowFinished(c, b, hq, s, d);
    }
  }

  lemma RowFinished(c: Call, b: Buffers, hq: nat, s: nat, d: nat)
    requires Sized(c) && IsExp(c.exp) && b.Shaped(c) && hq < c.Hq && s < c.S && d < c.Dh && b.RowAt(c, hq, s, c.Skv)
    ensures IsAttention(c, hq, s, d, b.acc[hq, s, d])
  {
    hide Score; hide Shared; hide Column; hide Lo; hide Upto; hide Level; hide Average; hide IsExp; hide IsAttention;
    Finished(c, hq, s, d, b.m[hq, s], b.l[hq, s], b.acc[hq, s, d]);
  }

  lemma Begin(c: Call, b: Buffers)
    requires Sized(c) && b.Shaped(c)
    requires forall q: nat, r: nat :: q < c.Hq && r < c.S ==> b.m[q, r] == Nothing && b.l[q, r] == 0.0
    requires forall q: nat, r: nat, d: nat :: q < c.Hq && r < c.S && d < c.Dh ==> b.acc[q, r, d] == 0.0
    ensures 0 * Group(c) == 0 && b.AllAt(c, 0 * Group(c), 0 * Group(c), 0, 0, 0)
  {
    hide Score; hide Shared; hide Column; hide Lo; hide Group;
    forall q: nat, r: nat | q < c.Hq && r < c.S ensures b.RowAt(c, q, r, 0) {
      assert Upto(c, r, 0) == 0;
    }
  }
}

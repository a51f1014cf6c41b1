// rouge_fft_f32 over exact arithmetic. `unit(len)` stands for the pair (cos, sin)
// of the angle 2 pi / len, and `root(len)` for that of the stage angle, which has
// the sign of the direction; both satisfy Roots.
module Fft {
  import opened Bits
  import opened Complex

  predicate HalfAngle(root: nat -> Complex, len: nat) { Mul(root(2 * len), root(2 * len)) == root(len) }

  ghost predicate Roots(root: nat -> Complex) {
    root(1) == ONE && root(2) == MINUS_ONE && forall len: nat :: len >= 1 ==> HalfAngle(root, len)
  }

  lemma {:induction false} HalfTurn(root: nat -> Complex, s: nat)
    requires Roots(root)
    ensures Pow(root(2 * Pow2(s)), Pow2(s)) == MINUS_ONE
  {
    hide Mul;
    if s == 0 {
      assert Pow(root(2), 1) == Mul(Pow(root(2), 0), root(2));
      MulUnits(root(2));
    } else {
      HalfTurn(root, s - 1);
      assert HalfAngle(root, Pow2(s));
      PowSquare(root(2 * Pow2(s)), Pow2(s - 1));
    }
  }

  // ---- bit reversal -----------------------------------------------------------

  // i's low L bits in reverse order.
  function Rev(L: nat, i: nat): nat {
    if L == 0 then 0 else (i % 2) * Pow2(L - 1) + Rev(L - 1, i / 2)
  }

  lemma {:induction false} RevBound(L: nat, i: nat)
    ensures Rev(L, i) < Pow2(L)
  {
    if L > 0 { RevBound(L - 1, i / 2); }
  }

  // Reading the bits from the other end.
  lemma {:induction false} RevOtherEnd(L: nat, i: nat)
    requires L > 0 && i < Pow2(L)
    ensures Rev(L, i) == 2 * Rev(L - 1, i % Pow2(L - 1)) + i / Pow2(L - 1)
  {
    var h := Pow2(L - 1);
    if L == 1 {
      assert h == 1 && Rev(0, i / 2) == 0;
    } else {
      var q := Pow2(L - 2);
      RevOtherEnd(L - 1, i / 2);
      DivPow2(i, L - 2);
      HalfMod(i, q);
      RevFirst(L, i);
      RevFirst(L - 1, i % h);
      assert h == 2 * q;
      hide Rev; hide Pow2;
      TwiceMore(i % 2, q, h);
    }
  }

  lemma RevFirst(L: nat, i: nat)
    requires L > 0
    ensures Rev(L, i) == (i % 2) * Pow2(L - 1) + Rev(L - 1, i / 2)
  { }

  lemma TwiceMore(b: nat, q: nat, h: nat)
    requires h == 2 * q
    ensures b * h == 2 * (b * q)
  { }

  lemma HalfMod(i: nat, q: nat)
    requires q > 0
    ensures (i % (2 * q)) / 2 == (i / 2) % q && (i % (2 * q)) % 2 == i % 2
  {
    var a, b := (i / 2) / q, (i / 2) % q;
    assert i / 2 == a * q + b;
    assert i == a * (2 * q) + (2 * b + i % 2);
    DivUnique(i, 2 * q, a, 2 * b + i % 2);
  }

  lemma {:induction false} RevTwice(L: nat, i: nat)
    requires i < Pow2(L)
    ensures Rev(L, Rev(L, i)) == i
  {
    if L > 0 {
      var h := Pow2(L - 1);
      var r, top := Rev(L - 1, i / 2), i % 2;
      RevBound(L - 1, i / 2);
      RevTwice(L - 1, i / 2);
      RevBound(L, i);
      RevOtherEnd(L, Rev(L, i));
      DivUnique(Rev(L, i), h, top, r);
    }
  }

  // Adding one at the top end: clear the leading ones, set the next bit.
  lemma {:induction false} RevNext(L: nat, i: nat)
    requires i + 1 < Pow2(L)
    ensures L > 0
    ensures i % 2 == 0 ==> Rev(L, i + 1) == Rev(L, i) + Pow2(L - 1) && Rev(L, i) < Pow2(L - 1)
    ensures i % 2 == 1 ==> Rev(L, i + 1) == Rev(L - 1, i / 2 + 1) && Rev(L, i) == Pow2(L - 1) + Rev(L - 1, i / 2) && i / 2 + 1 < Pow2(L - 1)
  {
    assert L > 0;
    RevBound(L - 1, i / 2);
    if i % 2 == 1 { assert (i + 1) / 2 == i / 2 + 1; } else { assert (i + 1) / 2 == i / 2; }
  }

  // The top bit of the reversal is the low bit of the number.
  lemma TopBit(m: nat, rest: nat)
    requires rest + 1 < Pow2(m)
    ensures m > 0 && (Rev(m, rest) / Pow2(m - 1)) % 2 == rest % 2
  {
    RevNext(m, rest);
    RevBound(m - 1, rest / 2);
    DivUnique(Rev(m, rest), Pow2(m - 1), rest % 2, Rev(m - 1, rest / 2));
  }

  // The inner loop of the bit-reversal pass.
  method NextReversed(n: nat, ghost L: nat, j0: nat, ghost i: nat) returns (j: nat)
    requires n == Pow2(L) && i + 1 < n && j0 == Rev(L, i)
    ensures j == Rev(L, i + 1)
  {
    hide Rev; hide Pow2;
    j := j0;
    TopBit(L, i);
    HalfPow(L);
    var bit := n / 2;
    ghost var m: nat, rest: nat := L, i;
    while (j / bit) % 2 == 1
      invariant 0 < m <= L && bit == Pow2(m - 1) && rest + 1 < Pow2(m)
      invariant j == Rev(m, rest) && Rev(L, i + 1) == Rev(m, rest + 1)
      decreases m
    {
      TopBit(m, rest);
      RevNext(m, rest);
      TopBit(m - 1, rest / 2);
      HalfPow(m - 1);
      j := j - bit;
      bit := bit / 2;
      m, rest := m - 1, rest / 2;
    }
    TopBit(m, rest);
    RevNext(m, rest);
    j := j + bit;
  }

  lemma HalfPow(m: nat)
    requires m > 0
    ensures Pow2(m) / 2 == Pow2(m - 1)
  { }

  // Everything up to index i is in reversed place, the rest untouched.
  predicate Swapped(input: seq<Complex>, L: nat, i: nat, p: nat, v: Complex)
    requires |input| == Pow2(L) && p < Pow2(L)
  {
    RevBound(L, p);
    v == if p <= i || Rev(L, p) <= i then input[Rev(L, p)] else input[p]
  }

  lemma SwapOne(input: seq<Complex>, L: nat, i: nat, before: seq<Complex>, p: nat)
    requires |input| == |before| == Pow2(L) && 0 < i < Pow2(L) && p < Pow2(L)
    requires forall q: nat :: q < Pow2(L) ==> Swapped(input, L, i - 1, q, before[q])
    ensures var j := Rev(L, i);
      && j < Pow2(L)
      && Swapped(input, L, i, p, if i < j && p == i then before[j] else if i < j && p == j then before[i] else before[p])
  {
    RevBound(L, i);
    RevBound(L, p);
    RevTwice(L, i);
    RevTwice(L, p);
    assert Swapped(input, L, i - 1, p, before[p]);
    assert Swapped(input, L, i - 1, i, before[i]);
    assert Swapped(input, L, i - 1, Rev(L, i), before[Rev(L, i)]);
  }

  method BitReverse(out: array<Complex>, ghost L: nat)
    requires out.Length == Pow2(L)
    modifies out
    ensures forall p: nat :: p < out.Length ==> Rev(L, p) < out.Length && out[p] == old(out[..])[Rev(L, p)]
  {
    ghost var input := out[..];
    var n, j := out.Length, 0;
    RevOfZero(L);
    forall p: nat | p < n ensures Swapped(input, L, 0, p, out[p]) {
      RevBound(L, p);
      if Rev(L, p) == 0 { RevTwice(L, p); }
    }
    for i := 1 to n
      invariant j == Rev(L, i - 1)
      invariant forall p: nat :: p < n ==> Swapped(input, L, i - 1, p, out[p])
    {
      ghost var before := out[..];
      j := NextReversed(n, L, j, i - 1);
      RevBound(L, i);
      if i < j { out[i], out[j] := out[j], out[i]; }
      forall p: nat | p < n ensures Swapped(input, L, i, p, out[p]) { SwapOne(input, L, i, before, p); }
    }
    forall p: nat | p < n ensures Rev(L, p) < n && out[p] == input[Rev(L, p)] { RevBound(L, p); }
  }

  lemma {:induction false} RevOfZero(L: nat)
    ensures Rev(L, 0) == 0
  {
    if L > 0 { RevOfZero(L - 1); }
  }

  // ---- butterflies ----------------------------------------------------------------

  // One block of a stage: positions lo .. lo + 2h - 1.
  predicate Crossed(before: seq<Complex>, after: seq<Complex>, lo: nat, h: nat, w: Complex, q: nat)
    requires |before| == |after| && lo + 2 * h <= |after| && q < h
  {
    var u, v := before[lo + q], Mul(before[lo + q + h], Pow(w, q));
    after[lo + q] == Add(u, v) && after[lo + q + h] == Sub(u, v)
  }

  method Butterflies(out: array<Complex>, lo: nat, h: nat, wlen: Complex)
    requires lo + 2 * h <= out.Length
    modifies out
    ensures forall q: nat :: q < h ==> Crossed(old(out[..]), out[..], lo, h, wlen, q)
    ensures forall p: nat :: p < out.Length && !(lo <= p < lo + 2 * h) ==> out[p] == old(out[p])
  {
    hide Mul; hide Add; hide Sub;
    ghost var before := out[..];
    var w := ONE;
    for j := 0 to h
      invariant w == Pow(wlen, j)
      invariant forall q: nat :: q < j ==> Crossed(before, out[..], lo, h, wlen, q)
      invariant forall p: nat :: p < out.Length && !(lo <= p < lo + j) && !(lo + h <= p < lo + h + j) ==> out[p] == before[p]
    {
      ghost var mid := out[..];
      var u, v := out[lo + j], Mul(out[lo + j + h], w);
      out[lo + j] := Add(u, v);
      out[lo + j + h] := Sub(u, v);
      w := Mul(w, wlen);
      forall q: nat | q <= j ensures Crossed(before, out[..], lo, h, wlen, q) {
        if q < j { assert Crossed(before, mid, lo, h, wlen, q); }
      }
    }
  }

  // The terms that block b of the stage with blocks of 2^s gathers: a stride of
  // 2^(L-s) through the input, from the reversal of b.
  function Terms(input: seq<Complex>, L: nat, s: nat, b: nat): nat -> Complex
    requires |input| == Pow2(L) && s <= L && b < Pow2(L - s)
  {
    (t: nat) => if t < Pow2(s) then TermIn(L, s, b, t); input[Rev(L - s, b) + t * Pow2(L - s)] else ZERO
  }

  lemma TermIn(L: nat, s: nat, b: nat, t: nat)
    requires s <= L && t < Pow2(s)
    ensures Rev(L - s, b) + t * Pow2(L - s) < Pow2(L)
  {
    hide Pow2; hide Rev;
    var d, h := Pow2(L - s), Pow2(s);
    RevBound(L - s, b);
    Pow2Add(s, L - s);
    ScaleBound(t, h - 1, d);
    assert (h - 1) * d == h * d - d;
  }

  function BlockStart(b: nat, len: nat): nat { b * len }

  lemma BlockStartNext(b: nat, len: nat)
    ensures BlockStart(b + 1, len) == BlockStart(b, len) + len
    ensures BlockStart(b, 2 * len) == BlockStart(2 * b, len)
  { }

  // Where element q of block b of the stage with blocks of 2^s stands.
  function Pos(L: nat, s: nat, b: nat, q: nat): (p: nat)
    requires s <= L && b < Pow2(L - s) && q < Pow2(s)
    ensures p < Pow2(L)
  {
    PlaceIn(L, s, b, q);
    BlockStart(b, Pow2(s)) + q
  }

  lemma PlaceIn(L: nat, s: nat, b: nat, q: nat)
    requires s <= L && b < Pow2(L - s) && q < Pow2(s)
    ensures b * Pow2(s) + q < Pow2(L)
  {
    hide Pow2;
    Pow2Add(L - s, s);
    NextBlock(b, Pow2(L - s), Pow2(s));
  }

  lemma NextBlock(b: nat, blocks: nat, len: nat)
    requires b < blocks
    ensures b * len + len <= blocks * len && (b + 1) * len == b * len + len
  {
    ScaleBound(b + 1, blocks, len);
  }

  // Different blocks do not overlap.
  lemma PosApart(L: nat, s: nat, b: nat, q: nat, c: nat)
    requires s <= L && b < Pow2(L - s) && q < Pow2(s)
    ensures b < c ==> Pos(L, s, b, q) < BlockStart(c, Pow2(s))
    ensures c <= b ==> BlockStart(c, Pow2(s)) <= Pos(L, s, b, q)
  {
    hide Pow2;
    if b < c { NextBlock(b, c, Pow2(s)); } else { ScaleBound(c, b, Pow2(s)); }
  }

  // Two blocks of a stage stand where one block of the next will.
  lemma PosHalves(L: nat, s: nat, b: nat, q: nat)
    requires s < L && b < Pow2(L - s - 1) && q < Pow2(s)
    ensures 2 * b + 1 < Pow2(L - s) && q + Pow2(s) < Pow2(s + 1)
    ensures Pos(L, s, 2 * b, q) == Pos(L, s + 1, b, q) == BlockStart(b, 2 * Pow2(s)) + q
    ensures Pos(L, s, 2 * b + 1, q) == Pos(L, s + 1, b, q + Pow2(s)) == BlockStart(b, 2 * Pow2(s)) + q + Pow2(s)
  {
    HalvesSizes(L, s, b);
    hide Pow2;
    BlockStarts(b, Pow2(s));
  }

  lemma BlockStarts(b: nat, h: nat)
    ensures b * (2 * h) == (2 * b) * h && b * (2 * h) + h == (2 * b + 1) * h
  { }

  // After the stage of length 2^s, block b holds the transform of its terms.
  predicate BlockIs(input: seq<Complex>, root: nat -> Complex, L: nat, s: nat, b: nat, out: seq<Complex>, q: nat)
    requires |input| == |out| == Pow2(L) && s <= L && b < Pow2(L - s) && q < Pow2(s)
  {
    out[Pos(L, s, b, q)] == Dft(Terms(input, L, s, b), root(Pow2(s)), Pow2(s), q)
  }

  ghost predicate StageDone(input: seq<Complex>, root: nat -> Complex, L: nat, s: nat, out: seq<Complex>) {
    |input| == |out| == Pow2(L) && s <= L &&
    forall b: nat, q: nat :: b < Pow2(L - s) && q < Pow2(s) ==> BlockIs(input, root, L, s, b, out, q)
  }

  // The two half blocks gather the even and the odd terms.
  lemma TermsHalves(input: seq<Complex>, L: nat, s: nat, b: nat, t: nat)
    requires |input| == Pow2(L) && s < L && b < Pow2(L - s - 1) && t < Pow2(s)
    ensures 2 * b + 1 < Pow2(L - s)
    ensures Terms(input, L, s, 2 * b)(t) == Evens(Terms(input, L, s + 1, b))(t)
    ensures Terms(input, L, s, 2 * b + 1)(t) == Odds(Terms(input, L, s + 1, b))(t)
  {
    HalvesSizes(L, s, b);
    hide Pow2; hide Rev; hide Terms;
    TermAt(input, L, s, 2 * b, t);
    TermAt(input, L, s, 2 * b + 1, t);
    TermAt(input, L, s + 1, b, 2 * t);
    TermAt(input, L, s + 1, b, 2 * t + 1);
    Strides(Rev(L - s - 1, b), Pow2(L - s - 1), t);
  }

  lemma TermAt(input: seq<Complex>, L: nat, s: nat, b: nat, t: nat)
    requires |input| == Pow2(L) && s <= L && b < Pow2(L - s) && t < Pow2(s)
    ensures Rev(L - s, b) + t * Pow2(L - s) < Pow2(L)
    ensures Terms(input, L, s, b)(t) == input[Rev(L - s, b) + t * Pow2(L - s)]
  {
    hide Pow2; hide Rev;
    TermIn(L, s, b, t);
  }

  lemma Strides(r: nat, d: nat, t: nat)
    ensures r + t * (2 * d) == r + (2 * t) * d && d + r + t * (2 * d) == r + (2 * t + 1) * d
  { }

  lemma HalvesSizes(L: nat, s: nat, b: nat)
    requires s < L && b < Pow2(L - s - 1)
    ensures Pow2(L - s) == 2 * Pow2(L - s - 1) && Pow2(s + 1) == 2 * Pow2(s) && 2 * b + 1 < Pow2(L - s)
    ensures Rev(L - s, 2 * b) == Rev(L - s - 1, b) && Rev(L - s, 2 * b + 1) == Pow2(L - s - 1) + Rev(L - s - 1, b)
  { }

  // One butterfly turns two half transforms into the whole one.
  lemma Combine(x: nat -> Complex, e: nat -> Complex, o: nat -> Complex, root: nat -> Complex, s: nat, q: nat)
    requires Roots(root) && q < Pow2(s)
    requires forall t: nat :: t < Pow2(s) ==> e(t) == Evens(x)(t) && o(t) == Odds(x)(t)
    ensures var h := Pow2(s);
      var w := root(2 * h);
      var u, v := Dft(e, root(h), h, q), Mul(Dft(o, root(h), h, q), Pow(w, q));
      Dft(x, w, 2 * h, q) == Add(u, v) && Dft(x, w, 2 * h, q + h) == Sub(u, v)
  {
    hide Mul; hide Pow; hide Dft;
    var h := Pow2(s);
    var w := root(2 * h);
    assert HalfAngle(root, h);
    DftSame(e, Evens(x), root(h), h, q);
    DftSame(o, Odds(x), root(h), h, q);
    var u, d := Dft(e, root(h), h, q), Dft(o, root(h), h, q);
    DftSplit(x, w, h, q);
    MulComm(d, Pow(w, q));
    DftSplit(x, w, h, q + h);
    FullTurn(root, s);
    DftPeriodic(Evens(x), root(h), h, q, h);
    DftPeriodic(Odds(x), root(h), h, q, h);
    PowAdd(w, q, h);
    HalfTurn(root, s);
    Negated(u, Pow(w, q), d);
  }

  lemma FullTurn(root: nat -> Complex, s: nat)
    requires Roots(root)
    ensures Pow(root(Pow2(s)), Pow2(s)) == ONE
  {
    hide Mul;
    if s == 0 {
      assert Pow(root(1), 1) == Mul(Pow(root(1), 0), root(1));
      MulUnits(ONE);
    } else {
      HalfTurn(root, s - 1);
      PowAdd(root(Pow2(s)), Pow2(s - 1), Pow2(s - 1));
      MulUnits(MINUS_ONE);
    }
  }

  lemma Negated(u: Complex, p: Complex, d: Complex)
    ensures Add(u, Mul(Mul(p, MINUS_ONE), d)) == Sub(u, Mul(d, p))
  {
    hide Mul;
    MulAssoc(p, MINUS_ONE, d);
    MulUnits(d);
    MulComm(p, Mul(MINUS_ONE, d));
    MulAssoc(MINUS_ONE, d, p);
    MulUnits(Mul(d, p));
  }

  // ---- one stage -------------------------------------------------------------------

  // Blocks below `done` of the longer stage (r = s + 1) are finished, the others
  // still hold the halves of the shorter one.
  ghost predicate StagePartly(input: seq<Complex>, root: nat -> Complex, L: nat, s: nat, r: nat, done: nat, out: seq<Complex>) {
    |input| == |out| == Pow2(L) && r == s + 1 <= L && done <= Pow2(L - r) &&
    (forall b: nat, q: nat :: b < done && q < Pow2(r) ==> BlockIs(input, root, L, r, b, out, q)) &&
    (forall b: nat, q: nat :: 2 * done <= b < Pow2(L - s) && q < Pow2(s) ==> BlockIs(input, root, L, s, b, out, q))
  }

  // A butterfly, by block positions: the halves are blocks 2b and 2b + 1.
  predicate CrossedAt(L: nat, s: nat, b: nat, before: seq<Complex>, after: seq<Complex>, w: Complex, q: nat)
    requires |before| == |after| == Pow2(L) && s < L && b < Pow2(L - s - 1) && q < Pow2(s)
  {
    HalvesSizes(L, s, b);
    var u, v := before[Pos(L, s, 2 * b, q)], Mul(before[Pos(L, s, 2 * b + 1, q)], Pow(w, q));
    after[Pos(L, s + 1, b, q)] == Add(u, v) && after[Pos(L, s + 1, b, q + Pow2(s))] == Sub(u, v)
  }

  lemma CrossedThere(L: nat, s: nat, b: nat, before: seq<Complex>, after: seq<Complex>, w: Complex, q: nat)
    requires |before| == |after| == Pow2(L) && s < L && b < Pow2(L - s - 1) && q < Pow2(s)
    requires BlockStart(b, 2 * Pow2(s)) + 2 * Pow2(s) <= Pow2(L) && Crossed(before, after, BlockStart(b, 2 * Pow2(s)), Pow2(s), w, q)
    ensures CrossedAt(L, s, b, before, after, w, q)
  {
    PosHalves(L, s, b, q);
    hide Pow2; hide Pos; hide Mul; hide Add; hide Sub; hide Pow; hide BlockStart;
  }

  // It finishes two places of block b.
  lemma BlockCrossed(input: seq<Complex>, root: nat -> Complex, L: nat, s: nat, b: nat, before: seq<Complex>, after: seq<Complex>, q: nat)
    requires Roots(root) && |input| == |before| == |after| == Pow2(L) && s < L && b < Pow2(L - s - 1) && q < Pow2(s)
    requires CrossedAt(L, s, b, before, after, root(2 * Pow2(s)), q)
    requires 2 * b + 1 < Pow2(L - s) && BlockIs(input, root, L, s, 2 * b, before, q) && BlockIs(input, root, L, s, 2 * b + 1, before, q)
    ensures q + Pow2(s) < Pow2(s + 1)
    ensures BlockIs(input, root, L, s + 1, b, after, q) && BlockIs(input, root, L, s + 1, b, after, q + Pow2(s))
  {
    HalvesSizes(L, s, b);
    hide Pow2; hide Terms; hide Dft; hide Mul; hide Add; hide Sub; hide Pow; hide Roots; hide Rev; hide Pos;
    var x, e, o := Terms(input, L, s + 1, b), Terms(input, L, s, 2 * b), Terms(input, L, s, 2 * b + 1);
    forall t: nat | t < Pow2(s) ensures e(t) == Evens(x)(t) && o(t) == Odds(x)(t) { TermsHalves(input, L, s, b, t); }
    Combine(x, e, o, root, s, q);
  }

  // Block b is new: both its halves were there.
  lemma NewBlock(input: seq<Complex>, root: nat -> Complex, L: nat, s: nat, b: nat, before: seq<Complex>, after: seq<Complex>, q: nat)
    requires Roots(root) && |input| == |before| == |after| == Pow2(L) && s < L && b < Pow2(L - s - 1) && q < Pow2(s + 1)
    requires forall q: nat :: q < Pow2(s) ==> CrossedAt(L, s, b, before, after, root(2 * Pow2(s)), q)
    requires forall c: nat, q: nat :: 2 * b <= c < Pow2(L - s) && q < Pow2(s) ==> BlockIs(input, root, L, s, c, before, q)
    ensures BlockIs(input, root, L, s + 1, b, after, q)
  {
    HalvesSizes(L, s, b);
    hide Pow2; hide Roots; hide BlockIs; hide CrossedAt;
    var q' := if q < Pow2(s) then q else q - Pow2(s);
    BlockCrossed(input, root, L, s, b, before, after, q');
  }

  lemma StageGrows(input: seq<Complex>, root: nat -> Complex, L: nat, s: nat, r: nat, b: nat, before: seq<Complex>, after: seq<Complex>, lo: nat, h: nat, w: Complex)
    requires Roots(root) && StagePartly(input, root, L, s, r, b, before) && |after| == Pow2(L) && b < Pow2(L - r)
    requires h == Pow2(s) && w == root(2 * h) && lo == BlockStart(b, 2 * h) && lo + 2 * h <= Pow2(L)
    requires forall q: nat :: q < h ==> Crossed(before, after, lo, h, w, q)
    requires forall p: nat :: p < Pow2(L) && !(lo <= p < lo + 2 * h) ==> after[p] == before[p]
    ensures StagePartly(input, root, L, s, r, b + 1, after)
  {
    HalvesSizes(L, s, b);
    hide Pow2; hide Roots; hide BlockIs; hide CrossedAt; hide Crossed; hide BlockStart;
    forall q: nat | q < h ensures CrossedAt(L, s, b, before, after, w, q) { CrossedThere(L, s, b, before, after, w, q); }
    forall q: nat | q < Pow2(r) ensures BlockIs(input, root, L, r, b, after, q) { NewBlock(input, root, L, s, b, before, after, q); }
    forall c: nat, q: nat | c < b && q < Pow2(r) ensures BlockIs(input, root, L, r, c, after, q) {
      Earlier(input, root, L, r, b, c, before, after, q);
    }
    forall c: nat, q: nat | 2 * (b + 1) <= c < Pow2(L - s) && q < Pow2(s) ensures BlockIs(input, root, L, s, c, after, q) {
      Following(input, root, L, s, b, c, before, after, q);
    }
  }

  // Blocks before and behind the one just crossed keep what they had.
  lemma Earlier(input: seq<Complex>, root: nat -> Complex, L: nat, r: nat, b: nat, c: nat, before: seq<Complex>, after: seq<Complex>, q: nat)
    requires |input| == |before| == |after| == Pow2(L) && r <= L && c < b < Pow2(L - r) && q < Pow2(r)
    requires BlockIs(input, root, L, r, c, before, q)
    requires forall p: nat :: p < Pow2(L) && p < BlockStart(b, Pow2(r)) ==> after[p] == before[p]
    ensures BlockIs(input, root, L, r, c, after, q)
  {
    PosApart(L, r, c, q, b);
    hide Pow2; hide Pos; hide BlockStart; hide Dft; hide Terms;
  }

  lemma Following(input: seq<Complex>, root: nat -> Complex, L: nat, s: nat, b: nat, c: nat, before: seq<Complex>, after: seq<Complex>, q: nat)
    requires |input| == |before| == |after| == Pow2(L) && s <= L && 2 * (b + 1) <= c < Pow2(L - s) && q < Pow2(s)
    requires BlockIs(input, root, L, s, c, before, q)
    requires forall p: nat :: p < Pow2(L) && BlockStart(b, 2 * Pow2(s)) + 2 * Pow2(s) <= p ==> after[p] == before[p]
    ensures BlockIs(input, root, L, s, c, after, q)
  {
    PosApart(L, s, c, q, 2 * (b + 1));
    BlockStartNext(b, 2 * Pow2(s));
    BlockStartNext(b + 1, Pow2(s));
    hide Pow2; hide Pos; hide BlockStart; hide Dft; hide Terms;
  }

  lemma BlocksLeft(b: nat, blocks: nat, len: nat)
    requires len > 0
    ensures BlockStart(b, len) < BlockStart(blocks, len) <==> b < blocks
    ensures b < blocks ==> BlockStart(b, len) + len <= BlockStart(blocks, len)
  {
    if b < blocks { NextBlock(b, blocks, len); } else { ScaleBound(blocks, b, len); }
  }

  lemma StageSizes(L: nat, s: nat)
    requires s < L
    ensures Pow2(s + 1) == 2 * Pow2(s) && Pow2(L) == BlockStart(Pow2(L - s - 1), 2 * Pow2(s)) && Pow2(L - s) == 2 * Pow2(L - s - 1)
  {
    Pow2Add(L - s - 1, s + 1);
  }

  // One pass over all blocks of length len.
  method Stage(out: array<Complex>, ghost input: seq<Complex>, root: nat -> Complex, ghost L: nat, ghost s: nat, len: nat)
    requires Roots(root) && s < L && len == Pow2(s + 1) && StageDone(input, root, L, s, out[..])
    modifies out
    ensures StageDone(input, root, L, s + 1, out[..])
  {
    StageSizes(L, s);
    hide Pow2; hide Crossed; hide Roots; hide BlockIs;
    ghost var r, blocks := s + 1, Pow2(L - s - 1);
    var n, h, i := out.Length, len / 2, 0;
    ghost var b: nat := 0;
    BlocksLeft(b, blocks, len);
    assert BlockStart(0, len) == 0;
    hide BlockStart;
    while i < n
      invariant i == BlockStart(b, len) && b <= blocks && StagePartly(input, root, L, s, r, b, out[..])
      decreases n - i
    {
      BlocksLeft(b, blocks, len);
      ghost var before := out[..];
      Butterflies(out, i, h, root(len));
      StageGrows(input, root, L, s, r, b, before, out[..], i, h, root(len));
      BlockStartNext(b, len);
      i := i + len;
      b := b + 1;
    }
    BlocksLeft(b, blocks, len);
  }

  // ---- the whole transform ---------------------------------------------------------

  predicate IsPow2(n: nat) { n > 0 && And(n, n - 1) == 0 }

  lemma {:induction false} AndSelf(m: nat)
    ensures And(m, m) == m
  {
    if m > 0 { AndSelf(m / 2); }
  }

  // The bit trick finds exactly the powers of two.
  lemma {:induction false} IsPow2Exact(n: nat)
    ensures IsPow2(n) <==> exists L: nat :: n == Pow2(L)
  {
    if n > 1 && n % 2 == 0 {
      var m := n / 2;
      IsPow2Exact(m);
      assert IsPow2(n) <==> IsPow2(m) by { assert (n - 1) / 2 == m - 1 && And(n, n - 1) == 2 * And(m, m - 1); }
      if IsPow2(m) {
        var L: nat :| m == Pow2(L);
        assert n == Pow2(L + 1);
      }
      forall L: nat | n == Pow2(L) ensures IsPow2(m) { assert m == Pow2(L - 1); }
    } else if n > 1 {
      AndSelf(n / 2);
      assert (n - 1) / 2 == n / 2 && And(n, n - 1) == 2 * And(n / 2, n / 2);
      assert forall L: nat :: Pow2(L) == n ==> L > 0;
    } else if n == 1 {
      assert n == Pow2(0);
    }
  }

  function At(input: seq<Complex>): nat -> Complex { (t: nat) => if t < |input| then input[t] else ZERO }

  // unit(len) stands for (cos, sin) of the angle 2 pi / len. The forward transform
  // turns the other way.
  ghost predicate Units(unit: nat -> Complex) {
    Roots(unit) && forall len: nat :: len >= 1 ==> Norm(unit(len)) == 1.0
  }

  function Turn(unit: nat -> Complex, inverse: bool): nat -> Complex {
    (len: nat) => if inverse then unit(len) else Conj(unit(len))
  }

  lemma TurnRoots(unit: nat -> Complex, inverse: bool)
    requires Units(unit)
    ensures Roots(Turn(unit, inverse))
  {
    forall len: nat | len >= 1 ensures HalfAngle(Turn(unit, inverse), len) {
      assert HalfAngle(unit, len);
      ConjMul(unit(2 * len), unit(2 * len));
      hide Mul;
    }
  }

  // What both paths promise: the defining sum, divided by n when inverse.
  function Transform(input: seq<Complex>, unit: nat -> Complex, inverse: bool, k: nat): Complex
    requires |input| > 0
  {
    var sum := Dft(At(input), Turn(unit, inverse)(|input|), |input|, k);
    if inverse then Scale(1.0 / |input| as real, sum) else sum
  }

  // The slow path for sizes that are no power of two: the sum as it is defined.
  method DirectDft(input: seq<Complex>, out: array<Complex>, unit: nat -> Complex, inverse: bool)
    requires |input| == out.Length > 0
    modifies out
    ensures forall k: nat :: k < out.Length ==> out[k] == Transform(input, unit, inverse, k)
  {
    var n := out.Length;
    var w := if inverse then unit(n) else Conj(unit(n));
    for k := 0 to n
      invariant forall i: nat :: i < k ==> out[i] == Transform(input, unit, inverse, i)
    {
      var sum := ZERO;
      for j := 0 to n
        invariant sum == Dft(At(input), w, j, k)
      {
        sum := Add(sum, Mul(input[j], Pow(w, j * k)));
      }
      out[k] := if inverse then Scale(1.0 / n as real, sum) else sum;
    }
  }

  lemma StageZero(input: seq<Complex>, root: nat -> Complex, L: nat, out: seq<Complex>)
    requires Roots(root) && |input| == |out| == Pow2(L)
    requires forall p: nat :: p < |out| ==> Rev(L, p) < |out| && out[p] == input[Rev(L, p)]
    ensures StageDone(input, root, L, 0, out)
  {
    hide Mul;
    forall b: nat, q: nat | b < Pow2(L - 0) && q < Pow2(0) ensures BlockIs(input, root, L, 0, b, out, q) {
      TermIn(L, 0, b, 0);
      var x := Terms(input, L, 0, b);
      assert x(0) == input[Rev(L, b)];
      assert Dft(x, ONE, 1, 0) == Add(Dft(x, ONE, 0, 0), Mul(x(0), Pow(ONE, 0 * 0)));
      MulUnits(x(0));
      assert Pos(L, 0, b, q) == b;
    }
  }

  lemma LastStage(input: seq<Complex>, root: nat -> Complex, L: nat, out: seq<Complex>, k: nat)
    requires StageDone(input, root, L, L, out) && k < |out|
    ensures out[k] == Dft(At(input), root(|input|), |input|, k)
  {
    assert Pow2(L - L) == 1 && Rev(0, 0) == 0;
    assert BlockIs(input, root, L, L, 0, out, k);
    forall t: nat | t < Pow2(L) ensures Terms(input, L, L, 0)(t) == At(input)(t) { TermIn(L, L, 0, t); }
    DftSame(Terms(input, L, L, 0), At(input), root(|input|), |input|, k);
  }

  lemma StageLeft(L: nat, s: nat)
    requires Pow2(s + 1) <= Pow2(L)
    ensures s < L
  {
    if s >= L { Pow2Mono(L, s); }
  }

  method FastDft(input: seq<Complex>, out: array<Complex>, root: nat -> Complex, ghost L: nat)
    requires |input| == out.Length == Pow2(L) && Roots(root)
    modifies out
    ensures forall k: nat :: k < out.Length ==> out[k] == Dft(At(input), root(|input|), |input|, k)
  {
    var n := out.Length;
    for i := 0 to n
      invariant out[..i] == input[..i]
    {
      out[i] := input[i];
    }
    assert out[..] == input;
    BitReverse(out, L);
    StageZero(input, root, L, out[..]);
    var len := 2;
    ghost var s: nat := 0;
    while len <= n
      invariant s <= L && len == Pow2(s + 1) && StageDone(input, root, L, s, out[..])
      decreases L - s
    {
      StageLeft(L, s);
      Stage(out, input, root, L, s, len);
      len := 2 * len;
      s := s + 1;
    }
    if s < L { Pow2Mono(s + 1, L); }
    forall k: nat | k < n ensures out[k] == Dft(At(input), root(|input|), |input|, k) { LastStage(input, root, L, out[..], k); }
  }

  // rouge_fft_f32: the transform for every size; a size below one is refused
  // and nothing is written.
  method RougeFft(n: int, input: seq<Complex>, out: array<Complex>, inverse: bool, unit: nat -> Complex) returns (rc: int)
    requires n > 0 ==> |input| == n == out.Length
    requires Units(unit)
    modifies out
    ensures n <= 0 ==> rc == -1 && out[..] == old(out[..])
    ensures n > 0 ==> rc == 0 && forall k: nat :: k < n ==> out[k] == Transform(input, unit, inverse, k)
  {
    if n <= 0 { return -1; }
    if !IsPow2(n) {
      DirectDft(input, out, unit, inverse);
      return 0;
    }
    IsPow2Exact(n);
    ghost var L: nat :| n == Pow2(L);
    TurnRoots(unit, inverse);
    FastDft(input, out, Turn(unit, inverse), L);
    if inverse {
      ghost var sums := out[..];
      for i := 0 to n
        invariant forall k: nat :: k < n ==> out[k] == if k < i then Scale(1.0 / n as real, sums[k]) else sums[k]
      {
        out[i] := Scale(1.0 / n as real, out[i]);
      }
    }
    return 0;
  }

  // ---- the inverse undoes the forward transform ----------------------------------------

  function Shifted(x: nat -> Complex, m: nat): nat -> Complex { (t: nat) => x(m + t) }
  function Twisted(x: nat -> Complex, v: Complex): nat -> Complex { (t: nat) => Mul(x(t), Pow(v, t)) }
  function Together(x: nat -> Complex, y: nat -> Complex): nat -> Complex { (t: nat) => Add(x(t), y(t)) }
  function Minus(x: nat -> Complex): nat -> Complex { (t: nat) => Sub(ZERO, x(t)) }

  lemma {:induction false} DftConcat(x: nat -> Complex, w: Complex, m: nat, n: nat, k: nat)
    ensures Dft(x, w, m + n, k) == Add(Dft(x, w, m, k), Mul(Pow(w, m * k), Dft(Shifted(x, m), w, n, k)))
  {
    hide Mul; hide Pow;
    if n == 0 {
      MulUnits(Pow(w, m * k));
    } else {
      DftConcat(x, w, m, n - 1, k);
      var p, s, a := Pow(w, m * k), Dft(Shifted(x, m), w, n - 1, k), Pow(w, (n - 1) * k);
      var last := x(m + n - 1);
      PowAdd(w, m * k, (n - 1) * k);
      assert m * k + (n - 1) * k == (m + n - 1) * k;
      assert Dft(x, w, m + n, k) == Add(Dft(x, w, m + n - 1, k), Mul(last, Mul(p, a)));
      Swap(last, p, a);
      MulAdd(p, s, Mul(last, a));
    }
  }

  lemma MulAddRight(a: Complex, b: Complex, p: Complex)
    ensures Mul(Add(a, b), p) == Add(Mul(a, p), Mul(b, p))
  {
    hide Mul; hide Add;
    MulComm(Add(a, b), p);
    MulAdd(p, a, b);
    MulComm(p, a);
    MulComm(p, b);
  }

  lemma AddCross(a: Complex, b: Complex, c: Complex, d: Complex)
    ensures Add(Add(a, b), Add(c, d)) == Add(Add(a, c), Add(b, d))
  { }

  // The last term split off, with its power by name.
  lemma DftLast(x: nat -> Complex, w: Complex, n: nat, k: nat, p: Complex)
    requires n > 0 && p == Pow(w, (n - 1) * k)
    ensures Dft(x, w, n, k) == Add(Dft(x, w, n - 1, k), Mul(x(n - 1), p))
  { }

  lemma {:induction false} DftTogether(x: nat -> Complex, y: nat -> Complex, w: Complex, n: nat, k: nat)
    ensures Dft(Together(x, y), w, n, k) == Add(Dft(x, w, n, k), Dft(y, w, n, k))
  {
    if n > 0 {
      DftTogether(x, y, w, n - 1, k);
      NatTimes(n - 1, k);
      var p, a, b := Pow(w, (n - 1) * k), x(n - 1), y(n - 1);
      DftLast(x, w, n, k, p);
      DftLast(y, w, n, k, p);
      DftLast(Together(x, y), w, n, k, p);
      hide Mul; hide Pow; hide Dft; hide Add;
      MulAddRight(a, b, p);
      AddCross(Dft(x, w, n - 1, k), Dft(y, w, n - 1, k), Mul(a, p), Mul(b, p));
    }
  }

  // Frequencies of the even and the odd kind are frequencies of the squared root.
  lemma {:induction false} DftEvenFrequency(x: nat -> Complex, w: Complex, n: nat, u: nat)
    ensures Dft(x, w, n, 2 * u) == Dft(x, Mul(w, w), n, u)
  {
    hide Mul; hide Pow;
    if n > 0 {
      DftEvenFrequency(x, w, n - 1, u);
      PowSquare(w, (n - 1) * u);
      assert (n - 1) * (2 * u) == 2 * ((n - 1) * u);
    }
  }

  lemma {:induction false} DftOddFrequency(x: nat -> Complex, w: Complex, n: nat, u: nat)
    ensures Dft(x, w, n, 2 * u + 1) == Dft(Twisted(x, w), Mul(w, w), n, u)
  {
    hide Mul; hide Pow;
    if n > 0 {
      DftOddFrequency(x, w, n - 1, u);
      var t := n - 1;
      PowSquare(w, t * u);
      PowAdd(w, t, 2 * (t * u));
      assert t * (2 * u + 1) == t + 2 * (t * u);
      MulAssoc(x(t), Pow(w, t), Pow(Mul(w, w), t * u));
    }
  }

  lemma {:induction false} PowInverse(w: Complex, v: Complex, t: nat)
    requires Mul(w, v) == ONE
    ensures Mul(Pow(w, t), Pow(v, t)) == ONE
  {
    hide Mul;
    if t == 0 {
      MulUnits(ONE);
    } else {
      PowInverse(w, v, t - 1);
      var a, b := Pow(w, t - 1), Pow(v, t - 1);
      MulAssoc(a, w, Mul(b, v));
      Swap(w, b, v);
      MulAssoc(a, b, Mul(w, v));
      MulUnits(ONE);
    }
  }

  function Doubled(x: nat -> Complex): nat -> Complex { (t: nat) => Add(x(t), x(t)) }

  // The transform, as a sequence of frequencies.
  function Spectrum(x: nat -> Complex, w: Complex, n: nat): nat -> Complex { (k: nat) => Dft(x, w, n, k) }

  predicate Opposite(w: nat -> Complex, v: nat -> Complex, len: nat) { Mul(w(len), v(len)) == ONE }

  ghost predicate InverseRoots(w: nat -> Complex, v: nat -> Complex) {
    Roots(w) && Roots(v) && forall len: nat :: len >= 1 ==> Opposite(w, v, len)
  }

  lemma PowMinus(r: Complex, h: nat, u: nat)
    requires Pow(r, h) == MINUS_ONE
    ensures Pow(r, h * (2 * u)) == ONE && Pow(r, h * (2 * u + 1)) == MINUS_ONE
  {
    Turns(h, u);
    hide Mul; hide Pow;
    PowAdd(r, h, h);
    MulUnits(MINUS_ONE);
    PowOne(r, h + h, u);
    PowAdd(r, (h + h) * u, h);
  }

  lemma Turns(h: nat, u: nat)
    ensures h * (2 * u) == (h + h) * u && h * (2 * u + 1) == (h + h) * u + h
  { }

  // Folding the second half of a spectrum onto the first.
  lemma FoldValues(u: Complex, d: Complex, p: Complex, b: Complex)
    requires Mul(p, b) == ONE
    ensures var dp := Mul(d, p);
      && Add(Add(u, dp), Sub(u, dp)) == Add(u, u)
      && Mul(Sub(Add(u, dp), Sub(u, dp)), b) == Add(d, d)
  {
    hide Mul;
    var dp := Mul(d, p);
    assert Sub(Add(u, dp), Sub(u, dp)) == Add(dp, dp);
    MulAddRight(dp, dp, b);
    MulAssoc(d, p, b);
    MulUnits(d);
  }

  lemma Fold(x: nat -> Complex, w: nat -> Complex, v: nat -> Complex, s: nat, h: nat, y: nat -> Complex, q: nat)
    requires InverseRoots(w, v) && h == Pow2(s) && q < h && y == Spectrum(x, w(2 * h), 2 * h)
    ensures Add(y(q), y(h + q)) == Doubled(Spectrum(Evens(x), w(h), h))(q)
    ensures Mul(Sub(y(q), y(h + q)), Pow(v(2 * h), q)) == Doubled(Spectrum(Odds(x), w(h), h))(q)
  {
    hide Mul; hide Pow; hide Dft; hide Add; hide Sub;
    Combine(x, Evens(x), Odds(x), w, s, q);
    assert Opposite(w, v, 2 * h);
    PowInverse(w(2 * h), v(2 * h), q);
    FoldValues(Dft(Evens(x), w(h), h, q), Dft(Odds(x), w(h), h, q), Pow(w(2 * h), q), Pow(v(2 * h), q));
  }

  lemma DoubledScale(x: nat -> Complex, w: Complex, n: nat, k: nat, r: real, c: Complex)
    requires Dft(x, w, n, k) == Scale(r, c)
    ensures Dft(Doubled(x), w, n, k) == Scale(2.0 * r, c)
  {
    hide Mul; hide Pow; hide Dft;
    DftTogether(x, x, w, n, k);
    assert forall t: nat :: Doubled(x)(t) == Together(x, x)(t);
    DftSame(Doubled(x), Together(x, x), w, n, k);
    assert (2.0 * r) * c.re == r * c.re + r * c.re && (2.0 * r) * c.im == r * c.im + r * c.im;
  }

  // The inverse sum of an even and of an odd place, from the two half spectra.
  lemma InverseEven(x: nat -> Complex, w: nat -> Complex, v: nat -> Complex, s: nat, h: nat, y: nat -> Complex, u: nat)
    requires InverseRoots(w, v) && h == Pow2(s) && y == Spectrum(x, w(2 * h), 2 * h)
    requires Dft(Spectrum(Evens(x), w(h), h), v(h), h, u) == Scale(h as real, x(2 * u))
    ensures Dft(y, v(2 * h), 2 * h, 2 * u) == Scale(2.0 * h as real, x(2 * u))
  {
    hide Mul; hide Pow; hide Dft; hide Add; hide Scale;
    var r, z, d := v(2 * h), Together(y, Shifted(y, h)), Doubled(Spectrum(Evens(x), w(h), h));
    DftConcat(y, r, h, h, 2 * u);
    HalfTurn(v, s);
    assert HalfAngle(v, h);
    PowMinus(r, h, u);
    MulUnits(Dft(Shifted(y, h), r, h, 2 * u));
    DftTogether(y, Shifted(y, h), r, h, 2 * u);
    DftEvenFrequency(z, r, h, u);
    forall q: nat | q < h ensures z(q) == d(q) { Fold(x, w, v, s, h, y, q); }
    DftSame(z, d, v(h), h, u);
    DoubledScale(Spectrum(Evens(x), w(h), h), v(h), h, u, h as real, x(2 * u));
  }

  lemma MinusAdd(a: Complex, b: Complex)
    ensures Add(a, Sub(ZERO, b)) == Sub(a, b)
  { }

  lemma InverseOdd(x: nat -> Complex, w: nat -> Complex, v: nat -> Complex, s: nat, h: nat, y: nat -> Complex, u: nat)
    requires InverseRoots(w, v) && h == Pow2(s) && y == Spectrum(x, w(2 * h), 2 * h)
    requires Dft(Spectrum(Odds(x), w(h), h), v(h), h, u) == Scale(h as real, x(2 * u + 1))
    ensures Dft(y, v(2 * h), 2 * h, 2 * u + 1) == Scale(2.0 * h as real, x(2 * u + 1))
  {
    hide Mul; hide Pow; hide Dft; hide Scale;
    var t := 2 * u + 1;
    var r, z, d := v(2 * h), Together(y, Minus(Shifted(y, h))), Doubled(Spectrum(Odds(x), w(h), h));
    DftConcat(y, r, h, h, t);
    HalfTurn(v, s);
    assert HalfAngle(v, h);
    PowMinus(r, h, u);
    MulUnits(Dft(Shifted(y, h), r, h, t));
    DftMinus(Shifted(y, h), r, h, t);
    DftTogether(y, Minus(Shifted(y, h)), r, h, t);
    DftOddFrequency(z, r, h, u);
    forall q: nat | q < h ensures Twisted(z, r)(q) == d(q) {
      Fold(x, w, v, s, h, y, q);
      MinusAdd(y(q), y(h + q));
    }
    DftSame(Twisted(z, r), d, v(h), h, u);
    DoubledScale(Spectrum(Odds(x), w(h), h), v(h), h, u, h as real, x(t));
  }

  // Forward, then inverse: the input, n times over (the inverse transform then
  // divides by n).
  lemma {:induction false} InverseUndoes(x: nat -> Complex, w: nat -> Complex, v: nat -> Complex, s: nat, t: nat)
    requires InverseRoots(w, v) && t < Pow2(s)
    ensures Dft(Spectrum(x, w(Pow2(s)), Pow2(s)), v(Pow2(s)), Pow2(s), t) == Scale(Pow2(s) as real, x(t))
    decreases s
  {
    hide Mul; hide Pow; hide Dft; hide Scale;
    if s == 0 {
      OneTerm(x, w(1));
      OneTerm(Spectrum(x, w(1), 1), v(1));
      ScaleOne(x(0));
    } else {
      var h, u := Pow2(s - 1), t / 2;
      var y := Spectrum(x, w(2 * h), 2 * h);
      assert (2 * h) as real == 2.0 * h as real;
      if t % 2 == 0 {
        InverseUndoes(Evens(x), w, v, s - 1, u);
        InverseEven(x, w, v, s - 1, h, y, u);
      } else {
        InverseUndoes(Odds(x), w, v, s - 1, u);
        InverseOdd(x, w, v, s - 1, h, y, u);
      }
    }
  }

  lemma ScaleOne(c: Complex)
    ensures Scale(1.0, c) == c
  { }

  lemma OneTerm(x: nat -> Complex, w: Complex)
    ensures Dft(x, w, 1, 0) == x(0)
  {
    assert Dft(x, w, 1, 0) == Add(Dft(x, w, 0, 0), Mul(x(0), Pow(w, 0 * 0)));
  }

  lemma {:induction false} DftMinus(x: nat -> Complex, w: Complex, n: nat, k: nat)
    ensures Dft(Minus(x), w, n, k) == Sub(ZERO, Dft(x, w, n, k))
  {
    hide Pow;
    if n > 0 { DftMinus(x, w, n - 1, k); }
  }

  // ---- what the two directions mean -----------------------------------------------------

  function Total(x: nat -> Complex, n: nat): Complex { if n == 0 then ZERO else Add(Total(x, n - 1), x(n - 1)) }

  // At frequency zero the forward transform is the plain sum of the inputs.
  lemma ForwardAtZero(input: seq<Complex>, unit: nat -> Complex)
    requires |input| > 0
    ensures Transform(input, unit, false, 0) == Total(At(input), |input|)
  {
    DftAtZero(At(input), Turn(unit, false)(|input|), |input|);
  }

  lemma {:induction false} DftAtZero(x: nat -> Complex, w: Complex, n: nat)
    ensures Dft(x, w, n, 0) == Total(x, n)
  {
    hide Mul;
    if n > 0 {
      DftAtZero(x, w, n - 1);
      assert Pow(w, (n - 1) * 0) == ONE;
      MulUnits(x(n - 1));
    }
  }

  // c at place p, zero elsewhere.
  function Impulse(n: nat, p: nat, c: Complex): seq<Complex> { seq(n, t => if t == p then c else ZERO) }

  lemma {:induction false} DftOfImpulse(n: nat, p: nat, c: Complex, w: Complex, m: nat, k: nat)
    requires m <= n && p < n
    ensures p * k >= 0
    ensures Dft(At(Impulse(n, p, c)), w, m, k) == if p < m then Mul(c, Pow(w, p * k)) else ZERO
  {
    NatTimes(p, k);
    hide Mul; hide Pow;
    if m > 0 {
      DftOfImpulse(n, p, c, w, m - 1, k);
      NatTimes(m - 1, k);
      MulUnits(Pow(w, (m - 1) * k));
      assert At(Impulse(n, p, c))(m - 1) == if m - 1 == p then c else ZERO;
    }
  }

  // The inverse spreads an impulse at zero over all places, n-th part each.
  lemma InverseOfImpulse(n: nat, c: Complex, unit: nat -> Complex, k: nat)
    requires n > 0
    ensures Transform(Impulse(n, 0, c), unit, true, k) == Scale(1.0 / n as real, c)
  {
    DftOfImpulse(n, 0, c, unit(n), n, k);
    assert Pow(unit(n), 0 * k) == ONE;
    MulUnits(c);
    hide Mul; hide Dft; hide Pow; hide Scale;
  }

  // The sense of rotation: at frequency one, the second input is turned back by
  // one n-th of a turn going forward, and turned on by it in the inverse.
  lemma SenseOfRotation(n: nat, unit: nat -> Complex)
    requires n > 1
    ensures Transform(Impulse(n, 1, ONE), unit, false, 1) == Conj(unit(n))
    ensures Transform(Impulse(n, 1, ONE), unit, true, 1) == Scale(1.0 / n as real, unit(n))
  {
    var w, v := Conj(unit(n)), unit(n);
    DftOfImpulse(n, 1, ONE, w, n, 1);
    DftOfImpulse(n, 1, ONE, v, n, 1);
    PowFirst(w);
    PowFirst(v);
    MulUnits(w);
    MulUnits(v);
    hide Mul; hide Dft; hide Pow; hide Scale;
  }

  lemma PowFirst(w: Complex)
    ensures Pow(w, 1 * 1) == w
  {
    assert Pow(w, 1) == Mul(Pow(w, 0), w);
    MulUnits(w);
  }

  // All outputs of one call.
  function Whole(input: seq<Complex>, unit: nat -> Complex, inverse: bool): (out: seq<Complex>)
    requires |input| > 0
    ensures |out| == |input|
  {
    seq(|input|, k requires k >= 0 => Transform(input, unit, inverse, k))
  }

  // Forward and back, in either order, gives the input.
  lemma RoundTrip(input: seq<Complex>, unit: nat -> Complex, inverseFirst: bool, s: nat)
    requires Units(unit) && |input| == Pow2(s)
    ensures Whole(Whole(input, unit, inverseFirst), unit, !inverseFirst) == input
  {
    var w, v := Turn(unit, inverseFirst), Turn(unit, !inverseFirst);
    BothTurns(unit, inverseFirst);
    var n := |input|;
    var mid := Whole(input, unit, inverseFirst);
    forall t: nat | t < n ensures Whole(mid, unit, !inverseFirst)[t] == input[t] {
      hide Mul; hide Dft; hide Pow; hide Scale; hide Whole;
      InverseUndoes(At(input), w, v, s, t);
      var y := Spectrum(At(input), w(n), n);
      if inverseFirst {
        MidScaled(input, unit, mid, y);
        DftScaled(At(mid), y, 1.0 / n as real, v(n), n, t);
      } else {
        MidPlain(input, unit, mid, y);
        DftSame(At(mid), y, v(n), n, t);
      }
      WholeAt(mid, unit, !inverseFirst, t);
      ScaleBack(n, input[t]);
    }
  }

  lemma WholeAt(input: seq<Complex>, unit: nat -> Complex, inverse: bool, t: nat)
    requires t < |input|
    ensures Whole(input, unit, inverse)[t] == Transform(input, unit, inverse, t)
  { }

  lemma MidPlain(input: seq<Complex>, unit: nat -> Complex, mid: seq<Complex>, y: nat -> Complex)
    requires |input| > 0 && mid == Whole(input, unit, false) && y == Spectrum(At(input), Turn(unit, false)(|input|), |input|)
    ensures forall t: nat :: t < |input| ==> At(mid)(t) == y(t)
  { }

  lemma MidScaled(input: seq<Complex>, unit: nat -> Complex, mid: seq<Complex>, y: nat -> Complex)
    requires |input| > 0 && mid == Whole(input, unit, true) && y == Spectrum(At(input), Turn(unit, true)(|input|), |input|)
    ensures forall t: nat :: t < |input| ==> At(mid)(t) == Scale(1.0 / |input| as real, y(t))
  { }

  lemma {:induction false} DftScaled(x: nat -> Complex, y: nat -> Complex, r: real, w: Complex, n: nat, k: nat)
    requires forall t: nat :: t < n ==> x(t) == Scale(r, y(t))
    ensures Dft(x, w, n, k) == Scale(r, Dft(y, w, n, k))
  {
    hide Mul; hide Pow; hide Scale;
    if n > 0 {
      DftScaled(x, y, r, w, n - 1, k);
      NatTimes(n - 1, k);
      ScaleInto(r, Dft(y, w, n - 1, k), y(n - 1), Pow(w, (n - 1) * k));
    } else {
      ScaleZero(r);
    }
  }

  lemma ScaleZero(r: real)
    ensures Scale(r, ZERO) == ZERO
  { }

  lemma ScaleInto(r: real, a: Complex, b: Complex, p: Complex)
    ensures Add(Scale(r, a), Mul(Scale(r, b), p)) == Scale(r, Add(a, Mul(b, p)))
  {
    ScaleIsMul(r, a);
    ScaleIsMul(r, b);
    ScaleIsMul(r, Add(a, Mul(b, p)));
    MulAssoc(C(r, 0.0), b, p);
    MulAdd(C(r, 0.0), a, Mul(b, p));
    hide Mul; hide Scale; hide Add;
  }

  lemma ScaleBack(n: nat, c: Complex)
    requires n > 0
    ensures Scale(1.0 / n as real, Scale(n as real, c)) == c
  {
    assert (1.0 / n as real) * (n as real) == 1.0;
    TimesReal(1.0 / n as real, n as real, c.re);
    TimesReal(1.0 / n as real, n as real, c.im);
  }

  // The two directions turn by opposite angles.
  lemma BothTurns(unit: nat -> Complex, first: bool)
    requires Units(unit)
    ensures InverseRoots(Turn(unit, first), Turn(unit, !first))
  {
    TurnRoots(unit, first);
    TurnRoots(unit, !first);
    var w, v := Turn(unit, first), Turn(unit, !first);
    forall len: nat | len >= 1 ensures Opposite(w, v, len) {
      MulConj(unit(len));
      hide Mul;
    }
  }

  // The operation run both ways.
  method ForwardAndBack(input: seq<Complex>, unit: nat -> Complex, ghost s: nat) returns (back: array<Complex>)
    requires Units(unit) && |input| == Pow2(s)
    ensures fresh(back) && back[..] == input
  {
    var spectrum := new Complex[|input|](_ => ZERO);
    back := new Complex[|input|](_ => ZERO);
    var rc := RougeFft(|input|, input, spectrum, false, unit);
    assert spectrum[..] == Whole(input, unit, false);
    rc := RougeFft(|input|, spectrum[..], back, true, unit);
    assert back[..] == Whole(Whole(input, unit, false), unit, true);
    RoundTrip(input, unit, false, s);
  }
}

// prmt, dp4a and dp2a: lanes packed into a 32-bit word. The interpreter loops
// over the lanes; the compiler unrolls the loop into 64-bit arithmetic.
module Packed {
  import opened Bits
  import opened Words
  import opened Machine
  import opened Ptx
  import opened Ir
  import opened Lowering
  import opened Related
  import opened Shifts

  // ---- prmt ----------------------------------------------------------------------

  lemma SelectorBounds(field: nat)
    ensures And(field, 7) < 8
  { }

  lemma GivesSelector(k: Kernel, s: Lane, m: Mem, sel: Exp, z: Word, i: nat)
    requires Gives(k, s, m, sel, B64, z) && i < 4
    ensures Gives(k, s, m, SelectorExp(sel, i), B64, Selector(z, i))
  {
    hide Gives; hide And; hide Pow2;
    GivesI64(k, s, m, 4 * i);
    GivesShr(k, s, m, sel, z, I64(4 * i), 4 * i);
    GivesAnd(k, s, m, Op64(ILshr, sel, I64(4 * i)), z / Pow2(4 * i), 15);
  }

  lemma GivesSourceByte(k: Kernel, s: Lane, m: Mem, src: Exp, x: Word, fExp: Exp, field: Word)
    requires Gives(k, s, m, src, B64, x) && Gives(k, s, m, fExp, B64, field)
    ensures Gives(k, s, m, SourceByteExp(src, fExp), B64, SourceByte(x, field))
  {
    hide Gives; hide And; hide Pow2;
    var low := Op64(IAnd, fExp, I64(7));
    var amt := Op64(IShl, low, I64(3));
    var n := And(field, 7) * 8;
    SelectorBounds(field);
    GivesAnd(k, s, m, fExp, field, 7);
    GivesI64(k, s, m, 3);
    GivesBin(k, s, m, IShl, B64, low, And(field, 7), I64(3), 3);
    PowThree();
    assert Gives(k, s, m, amt, B64, n);
    GivesShr(k, s, m, src, x, amt, n);
    GivesAnd(k, s, m, Op64(ILshr, src, amt), x / Pow2(n), 255);
  }

  lemma PowThree()
    ensures Pow2(3) == 8
  { }

  lemma GivesPrmtByte(k: Kernel, s: Lane, m: Mem, src: Exp, x: Word, sel: Exp, z: Word, i: nat)
    requires Gives(k, s, m, src, B64, x) && Gives(k, s, m, sel, B64, z) && i < 4
    ensures Gives(k, s, m, LowerPrmtByte(src, sel, i), B64, PrmtByte(x, Selector(z, i)))
  {
    hide Gives; hide And; hide Selector; hide SelectorExp; hide SourceByte; hide SourceByteExp; hide BitSetExp;
    var fExp, field := SelectorExp(sel, i), Selector(z, i);
    GivesSelector(k, s, m, sel, z, i);
    GivesSourceByte(k, s, m, src, x, fExp, field);
    var v8, byte := SourceByteExp(src, fExp), SourceByte(x, field);
    GivesBitSet(k, s, m, fExp, field, 8);
    GivesBitSet(k, s, m, v8, byte, 128);
    GivesI64(k, s, m, 255);
    GivesI64(k, s, m, 0);
    var spread := if And(byte, 128) != 0 then 255 else 0;
    GivesSelect(k, s, m, BitSetExp(v8, 128), And(byte, 128) != 0, B64, I64(255), 255, I64(0), 0);
    GivesSelect(k, s, m, BitSetExp(fExp, 8), And(field, 8) != 0, B64,
                Pick(BitSetExp(v8, 128), I64(255), I64(0)), spread, v8, byte);
  }

  lemma GivesBitSet(k: Kernel, s: Lane, m: Mem, e: Exp, x: Word, bit: Word)
    requires Gives(k, s, m, e, B64, x)
    ensures Gives(k, s, m, BitSetExp(e, bit), B1, Truth(And(x, bit) != 0))
  {
    hide Gives; hide And;
    GivesAnd(k, s, m, e, x, bit);
    GivesI64(k, s, m, 0);
    GivesCmp(k, s, m, INe, B64, Op64(IAnd, e, I64(bit)), And(x, bit), I64(0), 0);
  }

  lemma OrZeroLeft(x: nat)
    ensures Or(0, x) == x
  {
    if x > 0 { OrZeroLeft(x / 2); }
  }

  lemma {:induction false} GivesPrmtBytes(k: Kernel, s: Lane, m: Mem, src: Exp, x: Word, sel: Exp, z: Word, n: nat)
    requires Gives(k, s, m, src, B64, x) && Gives(k, s, m, sel, B64, z) && 1 <= n <= 4
    ensures PrmtBytes(x, z, n) < M64
    ensures Gives(k, s, m, LowerPrmtBytes(src, sel, n), B64, PrmtBytes(x, z, n))
  {
    hide Gives; hide Or; hide Pow2; hide PrmtByte; hide Selector; hide LowerPrmtByte;
    var i := n - 1;
    var byte := PrmtByte(x, Selector(z, i));
    GivesPrmtByte(k, s, m, src, x, sel, z, i);
    if n == 1 {
      PowZero();
      OrZeroLeft(byte);
      assert PrmtBytes(x, z, 0) == 0;
    } else {
      GivesPrmtBytes(k, s, m, src, x, sel, z, n - 1);
      GivesI64(k, s, m, 8 * i);
      ByteInPlace(byte, i);
      GivesBin(k, s, m, IShl, B64, LowerPrmtByte(src, sel, i), byte, I64(8 * i), 8 * i);
      GivesOr(k, s, m, LowerPrmtBytes(src, sel, n - 1), PrmtBytes(x, z, n - 1),
              Op64(IShl, LowerPrmtByte(src, sel, i), I64(8 * i)), byte * Pow2(8 * i));
    }
  }

  lemma PowZero()
    ensures Pow2(0) == 1
  { }

  lemma ByteInPlace(byte: nat, i: nat)
    requires byte < 256 && i < 4
    ensures Fit(B64, byte * Pow2(8 * i)) == byte * Pow2(8 * i)
  {
    hide Pow2; hide Fit;
    PowThirtyTwo();
    Times256(8 * i);
    Pow2Mono(8 * i + 8, 32);
    ScaleBound(byte, 255, Pow2(8 * i));
    FitSame(B64, byte * Pow2(8 * i));
  }

  // The permutation itself; the interpreter refuses the other prmt modes, which
  // the emitted code ignores.
  function Permuted(a: Word, b: Word, c: Word): Word {
    Fit(B32, PrmtBytes(Pair64(Fit(B32, a), Fit(B32, b)), Fit(B32, c), 4))
  }

  lemma PrmtCorrect(k: Kernel, t: Thread, s: Lane, m: Mem, a: Operand, b: Operand, c: Operand)
    requires SameRegisters(k, t, s) && HasWidth(k, a, B32) && HasWidth(k, b, B32) && HasWidth(k, c, B32)
    ensures Gives(k, s, m, LowerPrmt(AsI64(k, a), AsI64(k, b), AsI64(k, c)), B32,
                  Permuted(OperandVal(t, a), OperandVal(t, b), OperandVal(t, c)))
  {
    hide Gives; hide And; hide Or; hide Pow2; hide PrmtBytes; hide AsI64; hide LowerPrmtBytes;
    GivesWide32(k, t, s, m, a);
    GivesWide32(k, t, s, m, b);
    GivesWide32(k, t, s, m, c);
    var x, y, z := Fit(B32, OperandVal(t, a)), Fit(B32, OperandVal(t, b)), Fit(B32, OperandVal(t, c));
    GivesI64(k, s, m, 32);
    PowThirtyTwo();
    GivesBin(k, s, m, IShl, B64, AsI64(k, b), y, I64(32), 32);
    GivesOr(k, s, m, AsI64(k, a), x, Op64(IShl, AsI64(k, b), I64(32)), y * M32);
    var src := Op64(IOr, AsI64(k, a), Op64(IShl, AsI64(k, b), I64(32)));
    GivesPrmtBytes(k, s, m, src, Pair64(x, y), AsI64(k, c), z, 4);
    GivesTrunc(k, s, m, LowerPrmtBytes(src, AsI64(k, c), 4), PrmtBytes(Pair64(x, y), z, 4));
  }

  lemma PowThirtyTwo()
    ensures Pow2(32) == M32
  {
    ModulusIsPow2(B32);
  }

  lemma GivesWide32(k: Kernel, t: Thread, s: Lane, m: Mem, o: Operand)
    requires SameRegisters(k, t, s) && HasWidth(k, o, B32)
    ensures Gives(k, s, m, AsI64(k, o), B64, Fit(B32, OperandVal(t, o)))
  {
    hide Gives; hide Fit; hide AsI64;
    GivesAsI64(k, t, s, m, o);
    if o.Reg? {
      GivesOperand(k, t, s, m, o, B32);
      FitSame(B32, OperandVal(t, o));
    }
  }

  // ---- dot products ----------------------------------------------------------------

  // Shifting a lane to the top and back down copies its sign bit upwards.
  lemma LaneSext(lane: nat, bits: nat)
    requires 0 < bits < 64 && lane < Pow2(bits)
    ensures lane * Pow2(64 - bits) < M64
    ensures Fit(B64, Signed(B64, lane * Pow2(64 - bits)) / Pow2(64 - bits))
            == Fit(B64, if lane >= Pow2(bits) / 2 then lane - Pow2(bits) else lane)
  {
    hide Pow2;
    ModulusIsPow2(B64);
    Pow2Add(bits, 64 - bits);
    EvenPow(bits);
    SextParts(lane, Pow2(bits), Pow2(64 - bits));
  }

  lemma SextParts(lane: nat, q: nat, p: nat)
    requires q * p == M64 && q == 2 * (q / 2) && lane < q && p > 0
    ensures lane * p < M64
    ensures Signed(B64, lane * p) / p == if lane >= q / 2 then lane - q else lane
  {
    var h, x := q / 2, lane * p;
    HalfScaled(h, q, p);
    Below(lane, q, p);
    if lane >= h {
      ScaleBound(h, lane, p);
      SignedParts(x);
      Difference(lane, q, p);
      DivUnique(x - M64, p, lane - q, 0);
    } else {
      Below(lane, h, p);
      SignedParts(x);
      DivUnique(x, p, lane, 0);
    }
  }

  lemma HalfScaled(h: nat, q: nat, p: nat)
    requires q * p == M64 && q == 2 * h
    ensures h * p == M64 / 2
  {
    assert 2 * (h * p) == (2 * h) * p;
  }

  lemma SignedParts(x: Word)
    ensures Signed(B64, x) == if x >= M64 / 2 then x - M64 else x
  { }

  lemma Difference(a: int, b: int, p: nat)
    ensures (a - b) * p == a * p - b * p
  { }

  lemma Below(a: int, b: int, p: nat)
    requires a < b && p > 0
    ensures a * p < b * p
  {
    MulAtLeast(b - a, p);
    assert (b - a) * p == b * p - a * p;
  }

  lemma EvenPow(n: nat)
    requires n > 0
    ensures Pow2(n) == 2 * (Pow2(n) / 2)
  { }

  lemma GivesLane(k: Kernel, s: Lane, m: Mem, v: Exp, x: Word, bits: nat, i: nat, signed: bool)
    requires Gives(k, s, m, v, B64, x) && (bits == 8 || bits == 16) && bits * i < 64
    ensures Gives(k, s, m, ExtractLane(v, bits * i, bits, signed), B64, Fit(B64, LaneVal(x, bits, i, signed)))
  {
    hide Gives; hide And; hide Or; hide Pow2; hide Fit;
    var raw, lane := x / Pow2(bits * i), (x / Pow2(bits * i)) % Pow2(bits);
    GivesI64(k, s, m, bits * i);
    GivesShr(k, s, m, v, x, I64(bits * i), bits * i);
    PowFits(B64, bits);
    GivesAnd(k, s, m, Op64(ILshr, v, I64(bits * i)), raw, Pow2(bits) - 1);
    AndOnes(raw, bits);
    var mask := Op64(IAnd, Op64(ILshr, v, I64(bits * i)), I64(Pow2(bits) - 1));
    assert Gives(k, s, m, mask, B64, lane);
    if signed {
      GivesSext(k, s, m, mask, lane, bits);
    } else {
      GivesI64(k, s, m, 0);
      GivesOr(k, s, m, mask, lane, I64(0), 0);
      OrZero(lane);
      FitSame(B64, lane);
    }
  }

  lemma GivesSext(k: Kernel, s: Lane, m: Mem, e: Exp, lane: Word, bits: nat)
    requires Gives(k, s, m, e, B64, lane) && 0 < bits < 64 && lane < Pow2(bits)
    ensures Gives(k, s, m, Op64(IAshr, Op64(IShl, e, I64(64 - bits)), I64(64 - bits)), B64,
                  Fit(B64, if lane >= Pow2(bits) / 2 then lane - Pow2(bits) else lane))
  {
    hide Gives; hide Pow2; hide Fit; hide Signed;
    GivesI64(k, s, m, 64 - bits);
    LaneSext(lane, bits);
    FitSame(B64, lane * Pow2(64 - bits));
    GivesBin(k, s, m, IShl, B64, e, lane, I64(64 - bits), 64 - bits);
    GivesBin(k, s, m, IAshr, B64, Op64(IShl, e, I64(64 - bits)), lane * Pow2(64 - bits), I64(64 - bits), 64 - bits);
  }

  // One product, and one product added to a running sum, modulo 2^64.
  lemma GivesProduct(k: Kernel, s: Lane, m: Mem, a: Exp, x: int, b: Exp, y: int)
    requires Gives(k, s, m, a, B64, Fit(B64, x)) && Gives(k, s, m, b, B64, Fit(B64, y))
    ensures Gives(k, s, m, Op64(IMul, a, b), B64, Fit(B64, x * y))
  {
    hide Gives; hide Fit;
    GivesBin(k, s, m, IMul, B64, a, Fit(B64, x), b, Fit(B64, y));
    MulFit(B64, x, y);
  }

  lemma GivesSum(k: Kernel, s: Lane, m: Mem, a: Exp, x: int, b: Exp, y: int)
    requires Gives(k, s, m, a, B64, Fit(B64, x)) && Gives(k, s, m, b, B64, Fit(B64, y))
    ensures Gives(k, s, m, Op64(IAdd, a, b), B64, Fit(B64, x + y))
  {
    hide Gives; hide Fit;
    GivesBin(k, s, m, IAdd, B64, a, Fit(B64, x), b, Fit(B64, y));
    AddFit(B64, x, y);
  }

  lemma {:induction false} GivesDot4(k: Kernel, s: Lane, m: Mem, aS: bool, bS: bool, a: Exp, x: Word, b: Exp, y: Word, n: nat)
    requires Gives(k, s, m, a, B64, x) && Gives(k, s, m, b, B64, y) && 1 <= n <= 4
    ensures Gives(k, s, m, LowerDot4(aS, bS, a, b, n), B64, Fit(B64, Dp4aSum(aS, bS, x, y, n)))
  {
    hide Gives; hide Fit; hide LaneVal; hide ExtractLane;
    var i := n - 1;
    GivesLane(k, s, m, a, x, 8, i, aS);
    GivesLane(k, s, m, b, y, 8, i, bS);
    var p := Op64(IMul, ExtractLane(a, 8 * i, 8, aS), ExtractLane(b, 8 * i, 8, bS));
    var v := LaneVal(x, 8, i, aS) * LaneVal(y, 8, i, bS);
    GivesProduct(k, s, m, ExtractLane(a, 8 * i, 8, aS), LaneVal(x, 8, i, aS), ExtractLane(b, 8 * i, 8, bS), LaneVal(y, 8, i, bS));
    if n == 1 {
      assert Dp4aSum(aS, bS, x, y, 0) == 0;
      assert Dp4aSum(aS, bS, x, y, n) == v;
    } else {
      GivesDot4(k, s, m, aS, bS, a, x, b, y, n - 1);
      GivesSum(k, s, m, LowerDot4(aS, bS, a, b, n - 1), Dp4aSum(aS, bS, x, y, n - 1), p, v);
    }
  }

  lemma {:induction false} GivesDot2(k: Kernel, s: Lane, m: Mem, low: bool, aS: bool, bS: bool, a: Exp, x: Word, b: Exp, y: Word, n: nat)
    requires Gives(k, s, m, a, B64, x) && Gives(k, s, m, b, B64, y) && 1 <= n <= 2
    ensures Gives(k, s, m, LowerDot2(low, aS, bS, a, b, n), B64, Fit(B64, Dp2aSum(low, aS, bS, x, y, n)))
  {
    hide Gives; hide Fit; hide LaneVal; hide ExtractLane;
    var i := n - 1;
    var j := (if low then 0 else 2) + i;
    GivesLane(k, s, m, a, x, 16, i, aS);
    GivesLane(k, s, m, b, y, 8, j, bS);
    var ea, eb := ExtractLane(a, 16 * i, 16, aS), ExtractLane(b, 8 * j, 8, bS);
    assert 8 * (i + (if low then 0 else 2)) == 8 * j;
    var v := LaneVal(x, 16, i, aS) * LaneVal(y, 8, j, bS);
    GivesProduct(k, s, m, ea, LaneVal(x, 16, i, aS), eb, LaneVal(y, 8, j, bS));
    if n == 1 {
      assert Dp2aSum(low, aS, bS, x, y, 0) == 0;
      assert Dp2aSum(low, aS, bS, x, y, n) == v;
    } else {
      GivesDot2(k, s, m, low, aS, bS, a, x, b, y, n - 1);
      GivesSum(k, s, m, LowerDot2(low, aS, bS, a, b, n - 1), Dp2aSum(low, aS, bS, x, y, n - 1), Op64(IMul, ea, eb), v);
    }
  }

  // Lanes below bit 32 do not see what is above it.
  lemma LaneOfFit(v: Word, bits: nat, i: nat, signed: bool)
    requires bits * i + bits <= 32
    ensures LaneVal(Fit(B32, v), bits, i, signed) == LaneVal(v, bits, i, signed)
  {
    hide Pow2; hide Bit; hide RShift; hide Fit;
    var k := bits * i;
    var l, r := RShift(Fit(B32, v), k), RShift(v, k);
    forall j: nat ensures Bit(l % Pow2(bits), j) == Bit(r % Pow2(bits), j) {
      BitMod(l, bits, j);
      BitMod(r, bits, j);
      BitShr(Fit(B32, v), k, j);
      BitShr(v, k, j);
      if j < bits { BitOfFit(B32, v, j + k); }
    }
    BitsDecide(l % Pow2(bits), r % Pow2(bits));
  }

  lemma {:induction false} Dot4OfFit(aS: bool, bS: bool, x: Word, y: Word, n: nat)
    requires n <= 4
    ensures Dp4aSum(aS, bS, Fit(B32, x), Fit(B32, y), n) == Dp4aSum(aS, bS, x, y, n)
  {
    hide Fit; hide LaneVal;
    if n > 0 {
      Dot4OfFit(aS, bS, x, y, n - 1);
      LaneOfFit(x, 8, n - 1, aS);
      LaneOfFit(y, 8, n - 1, bS);
    }
  }

  lemma {:induction false} Dot2OfFit(low: bool, aS: bool, bS: bool, x: Word, y: Word, n: nat)
    requires n <= 2
    ensures Dp2aSum(low, aS, bS, Fit(B32, x), Fit(B32, y), n) == Dp2aSum(low, aS, bS, x, y, n)
  {
    hide Fit; hide LaneVal;
    if n > 0 {
      Dot2OfFit(low, aS, bS, x, y, n - 1);
      LaneOfFit(x, 16, n - 1, aS);
      LaneOfFit(y, 8, (if low then 0 else 2) + (n - 1), bS);
    }
  }

  // The accumulator is added in 64 bits and the total cut to 32.
  lemma GivesAccumulated(k: Kernel, s: Lane, m: Mem, c: Exp, z: Word, dot: Exp, sum: int)
    requires Gives(k, s, m, c, B64, Fit(B32, z)) && Gives(k, s, m, dot, B64, Fit(B64, sum))
    ensures Gives(k, s, m, Trunc(B64, Op64(IAdd, c, dot), B32), B32, Fit(B32, z + sum))
  {
    hide Gives; hide Fit;
    FitSame(B64, Fit(B32, z));
    GivesSum(k, s, m, c, Fit(B32, z), dot, sum);
    GivesTrunc(k, s, m, Op64(IAdd, c, dot), Fit(B64, Fit(B32, z) + sum));
    FitOfFit(B32, Fit(B32, z) + sum);
    AddFit(B32, z, sum);
  }

  lemma Dp4aCorrect(k: Kernel, t: Thread, s: Lane, m: Mem, aS: bool, bS: bool, a: Operand, b: Operand, c: Operand)
    requires SameRegisters(k, t, s) && HasWidth(k, a, B32) && HasWidth(k, b, B32) && HasWidth(k, c, B32)
    ensures Gives(k, s, m, Trunc(B64, Op64(IAdd, AsI64(k, c), LowerDot4(aS, bS, AsI64(k, a), AsI64(k, b), 4)), B32), B32,
                  Fit(B32, OperandVal(t, c) + Dp4aSum(aS, bS, OperandVal(t, a), OperandVal(t, b), 4)))
  {
    hide Gives; hide Fit; hide AsI64; hide LowerDot4; hide Dp4aSum;
    GivesWide32(k, t, s, m, a);
    GivesWide32(k, t, s, m, b);
    GivesWide32(k, t, s, m, c);
    var x, y := OperandVal(t, a), OperandVal(t, b);
    GivesDot4(k, s, m, aS, bS, AsI64(k, a), Fit(B32, x), AsI64(k, b), Fit(B32, y), 4);
    Dot4OfFit(aS, bS, x, y, 4);
    GivesAccumulated(k, s, m, AsI64(k, c), OperandVal(t, c), LowerDot4(aS, bS, AsI64(k, a), AsI64(k, b), 4), Dp4aSum(aS, bS, x, y, 4));
  }

  lemma Dp2aCorrect(k: Kernel, t: Thread, s: Lane, m: Mem, low: bool, aS: bool, bS: bool, a: Operand, b: Operand, c: Operand)
    requires SameRegisters(k, t, s) && HasWidth(k, a, B32) && HasWidth(k, b, B32) && HasWidth(k, c, B32)
    ensures Gives(k, s, m, Trunc(B64, Op64(IAdd, AsI64(k, c), LowerDot2(low, aS, bS, AsI64(k, a), AsI64(k, b), 2)), B32), B32,
                  Fit(B32, OperandVal(t, c) + Dp2aSum(low, aS, bS, OperandVal(t, a), OperandVal(t, b), 2)))
  {
    hide Gives; hide Fit; hide AsI64; hide LowerDot2; hide Dp2aSum;
    GivesWide32(k, t, s, m, a);
    GivesWide32(k, t, s, m, b);
    GivesWide32(k, t, s, m, c);
    var x, y := OperandVal(t, a), OperandVal(t, b);
    GivesDot2(k, s, m, low, aS, bS, AsI64(k, a), Fit(B32, x), AsI64(k, b), Fit(B32, y), 2);
    Dot2OfFit(low, aS, bS, x, y, 2);
    GivesAccumulated(k, s, m, AsI64(k, c), OperandVal(t, c), LowerDot2(low, aS, bS, AsI64(k, a), AsI64(k, b), 2), Dp2aSum(low, aS, bS, x, y, 2));
  }
}

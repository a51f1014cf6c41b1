// bfi and bfe: the interpreter moves one bit at a time, the compiler builds
// masks. Both are compared with the definition of the instruction bit by bit.
module BitFields {
  import opened Bits
  import opened Words
  import opened Ptx

  // ---- the definition: bit j of the result ------------------------------------

  // f = b with a's low bits written over positions pos .. pos+len-1, inside the word.
  predicate BfiBit(bits: nat, a: Word, b: Word, pos: nat, len: nat, j: nat) {
    j < bits && (if pos <= j < pos + len then Bit(a, j - pos) else Bit(b, j))
  }

  // The field a[pos .. pos+len-1], zero or sign extended; an empty field is zero.
  predicate BfeBit(bits: nat, signed: bool, a: Word, pos: nat, len: nat, j: nat) {
    j < bits && len > 0 &&
    if j < len && pos + j < bits then Bit(a, pos + j)
    else signed && Bit(a, Min(pos + len, bits) - 1)
  }

  // ---- the interpreter's loops meet the definition --------------------------------

  lemma BitValBit(x: nat, i: nat)
    ensures BitVal(x, i) == (if Bit(x, i) then 1 else 0)
  {
    BitShr(x, i, 0);
  }

  lemma {:induction false} BitOfTruth(v: nat, at: nat, j: nat)
    requires v < 2
    ensures Bit(v * Pow2(at), j) == (v == 1 && j == at)
  {
    BitShl(v, at, j);
    if at < j { BitOfZero(j - at - 1); }
  }

  lemma BitNot64(x: Word, j: nat)
    ensures Bit(Not64(x), j) == (j < 64 && !Bit(x, j))
  {
    ModulusIsPow2(B64);
    BitXor(x, M64 - 1, j);
    BitOnes(64, j);
    if j >= 64 { BitAbove(x, 64, j); }
  }

  lemma BitPutBit(f: Word, at: nat, bit: nat, j: nat)
    requires at < 64 && bit < 2
    ensures Bit(PutBit(f, at, bit), j) == (if j == at then bit == 1 else Bit(f, j))
  {
    PowFits(B64, at);
    BitOr(And(f, Not64(Pow2(at))), bit * Pow2(at), j);
    BitAnd(f, Not64(Pow2(at)), j);
    BitNot64(Pow2(at), j);
    BitOfTruth(1, at, j);
    BitOfTruth(bit, at, j);
    if j >= 64 { ModulusIsPow2(B64); BitAbove(f, 64, j); }
  }

  lemma {:induction false} BfiLoopBit(a: Word, f: Word, pos: nat, len: nat, msb: nat, i: nat, j: nat)
    requires msb < 64 && i <= len
    ensures Bit(BfiLoop(a, f, pos, len, msb, i), j) ==
            (if pos + i <= j < pos + len && j <= msb then Bit(a, j - pos) else Bit(f, j))
    decreases len - i
  {
    if i < len && pos + i <= msb {
      BitValBit(a, i);
      var f' := PutBit(f, pos + i, BitVal(a, i));
      BitPutBit(f, pos + i, BitVal(a, i), j);
      BfiLoopBit(a, f', pos, len, msb, i + 1, j);
    }
  }

  lemma BfiValBit(w: Width, a: Word, b: Word, pos: Word, len: Word, j: nat)
    requires w != B1
    ensures Bit(BfiVal(w, a, b, pos, len), j) == BfiBit(BitsOf(w), a, b, pos % 256, len % 256, j)
  {
    ModulusIsPow2(w);
    var r := BfiLoop(a, b, pos % 256, len % 256, BitsOf(w) - 1, 0);
    BitMod(r, BitsOf(w), j);
    BfiLoopBit(a, b, pos % 256, len % 256, BitsOf(w) - 1, 0, j);
  }

  lemma {:induction false} BfeLoopBit(a: Word, pos: nat, len: nat, msb: nat, sbit: nat, d: nat, i: nat, j: nat)
    requires sbit < 2
    ensures Bit(BfeLoop(a, pos, len, msb, sbit, d, i), j) ==
            (Bit(d, j) || (i <= j <= msb && (if j < len && pos + j <= msb then Bit(a, pos + j) else sbit == 1)))
    decreases msb + 1 - i
  {
    if i <= msb {
      BitValBit(a, pos + i);
      var bit := if i < len && pos + i <= msb then BitVal(a, pos + i) else sbit;
      BitOr(d, bit * Pow2(i), j);
      BitOfTruth(bit, i, j);
      BfeLoopBit(a, pos, len, msb, sbit, Or(d, bit * Pow2(i)), i + 1, j);
    }
  }

  lemma BfeValBit(w: Width, signed: bool, a: Word, pos: Word, len: Word, j: nat)
    requires w != B1
    ensures Bit(BfeVal(w, signed, a, pos, len), j) == BfeBit(BitsOf(w), signed, a, pos % 256, len % 256, j)
  {
    var p, l, msb := pos % 256, len % 256, BitsOf(w) - 1;
    if l == 0 {
      BitOfZero(j);
    } else {
      var top := if p + l - 1 <= msb then p + l - 1 else msb;
      BitValBit(a, top);
      var sbit := if signed then BitVal(a, top) else 0;
      ModulusIsPow2(w);
      BitMod(BfeLoop(a, p, l, msb, sbit, 0, 0), BitsOf(w), j);
      BfeLoopBit(a, p, l, msb, sbit, 0, 0, j);
      BitOfZero(j);
    }
  }

  // ---- the compiler's masks meet the definition ---------------------------------------

  // A mask of min(len, 64) ones, as the clamped shift builds it.
  function Ones(len: nat): Word {
    if len >= 64 then M64 - 1 else PowFits(B64, len); Pow2(len) - 1
  }

  lemma BitOnesWord(len: nat, j: nat)
    ensures Bit(Ones(len), j) == (j < len && j < 64)
  {
    ModulusIsPow2(B64);
    BitOnes(64, j);
    BitOnes(len, j);
  }

  lemma BitAll64(j: nat)
    ensures Bit(M64 - 1, j) == (j < 64)
  {
    hide Bit; hide Pow2;
    ModulusIsPow2(B64);
    BitOnes(64, j);
  }

  lemma AndByte(x: Word)
    ensures And(x, 255) == x % 256
  {
    SmallPowers();
    AndOnes(x, 8);
  }

  lemma LowMaskVal(n: nat)
    requires n < 64
    ensures Fit(B64, Fit(B64, 1 * Pow2(n)) - 1) == Ones(n)
  {
    hide Pow2; hide Fit;
    PowFits(B64, n);
    FitSame(B64, Pow2(n));
    FitSame(B64, Pow2(n) - 1);
  }

  function LenOnes(bits: nat, len: nat): Word { if len >= bits then M64 - 1 else Ones(len) }

  function PlacedMask(bits: nat, pos: nat, len: nat): Word {
    if pos < bits then Fit(B64, LenOnes(bits, len) * Pow2(pos)) else 0
  }

  function BfiMasks(bits: nat, a: Word, b: Word, pos: nat, len: nat): Word {
    var shMask := PlacedMask(bits, pos, len);
    var field := And(Fit(B64, a * Pow2(if pos < bits then pos else 0)), shMask);
    OrFits(B64, And(b, Not64(shMask)), field);
    Or(And(b, Not64(shMask)), field)
  }

  lemma PlacedMaskBit(bits: nat, pos: nat, len: nat, j: nat)
    requires j < bits <= 64
    ensures Bit(PlacedMask(bits, pos, len), j) == (pos <= j < pos + len)
  {
    hide Bit; hide Pow2; hide Fit; hide Ones;
    if pos < bits {
      BitMoved(LenOnes(bits, len), pos, j);
      if pos <= j {
        BitAll64(j - pos);
        BitOnesWord(len, j - pos);
      }
    } else {
      BitOfZero(j);
    }
  }

  // Inside the word, the masks produce exactly the bits of the definition.
  lemma BfiMasksBit(bits: nat, a: Word, b: Word, pos: nat, len: nat, j: nat)
    requires j < bits <= 64
    ensures Bit(BfiMasks(bits, a, b, pos, len), j) == BfiBit(bits, a, b, pos, len, j)
  {
    hide Bit; hide And; hide Or; hide Pow2; hide Not64; hide PlacedMask; hide Fit;
    var shMask := PlacedMask(bits, pos, len);
    var k := if pos < bits then pos else 0;
    var moved := Fit(B64, a * Pow2(k));
    PlacedMaskBit(bits, pos, len, j);
    BitOr(And(b, Not64(shMask)), And(moved, shMask), j);
    BitAnd(b, Not64(shMask), j);
    BitAnd(moved, shMask, j);
    BitNot64(shMask, j);
    BitMoved(a, k, j);
  }

  lemma BitMoved(a: Word, k: nat, j: nat)
    requires j < 64
    ensures Bit(Fit(B64, a * Pow2(k)), j) == (k <= j && Bit(a, j - k))
  {
    hide Bit; hide Pow2;
    ModulusIsPow2(B64);
    BitMod(a * Pow2(k), 64, j);
    BitShl(a, k, j);
  }

  // The two computations agree on every operand, position and length.
  lemma BfiAgree(w: Width, a: Word, b: Word, pos: Word, len: Word)
    requires w != B1
    ensures Fit(w, BfiMasks(BitsOf(w), a, b, pos % 256, len % 256)) == BfiVal(w, a, b, pos, len)
  {
    var x := BfiMasks(BitsOf(w), a, b, pos % 256, len % 256);
    ModulusIsPow2(w);
    forall j: nat ensures Bit(Fit(w, x), j) == Bit(BfiVal(w, a, b, pos, len), j) {
      BitMod(x, BitsOf(w), j);
      BfiValBit(w, a, b, pos, len, j);
      if j < BitsOf(w) { BfiMasksBit(BitsOf(w), a, b, pos % 256, len % 256, j); }
    }
    BitsDecide(Fit(w, x), BfiVal(w, a, b, pos, len));
  }

  // ---- bfe ------------------------------------------------------------------------------

  function Start(bits: nat, pos: nat): nat { Min(pos, bits) }
  function Eff(bits: nat, pos: nat, len: nat): nat { Min(len, bits - Start(bits, pos)) }

  function ShiftedDown(a: Word, k: nat): Word { RShift(a, k) }

  function FieldVal(bits: nat, a: Word, start: nat, eff: nat): Word
    requires bits > 0
  {
    And(ShiftedDown(a, if start == bits then 0 else start), if eff == bits then M64 - 1 else Ones(Min(eff, bits - 1)))
  }

  function TopVal(bits: nat, a: Word, start: nat, eff: nat): (b: nat)
    requires bits > 0
    ensures b < 2
  {
    BitVal(a, if eff == 0 then bits - 1 else start + eff - 1)
  }

  function FillVal(bits: nat, sbit: nat, eff: nat): Word {
    if eff == bits then 0 else Fit(B64, Fit(B64, 0 - sbit) * Pow2(eff))
  }

  function BfeMasks(bits: nat, signed: bool, a: Word, pos: nat, len: nat): Word
    requires bits > 0
  {
    var start, eff := Start(bits, pos), Eff(bits, pos, len);
    var field := FieldVal(bits, a, start, eff);
    var fill := FillVal(bits, TopVal(bits, a, start, eff), eff);
    OrFits(B64, field, fill);
    if len == 0 then 0 else if signed then Or(field, fill) else field
  }

  lemma FieldValBit(bits: nat, a: Word, start: nat, eff: nat, j: nat)
    requires j < bits <= 64 && start <= bits && eff <= bits - start
    ensures Bit(FieldVal(bits, a, start, eff), j) == (j < eff && Bit(a, start + j))
  {
    hide Bit; hide And; hide Ones; hide Pow2; hide RShift;
    var k := if start == bits then 0 else start;
    var mask := if eff == bits then M64 - 1 else Ones(Min(eff, bits - 1));
    BitAnd(ShiftedDown(a, k), mask, j);
    BitShr(a, k, j);
    BitAll64(j);
    BitOnesWord(Min(eff, bits - 1), j);
  }

  lemma FillValBit(bits: nat, sbit: nat, eff: nat, j: nat)
    requires j < bits <= 64 && sbit < 2 && eff <= bits
    ensures Bit(FillVal(bits, sbit, eff), j) == (sbit == 1 && eff <= j)
  {
    hide Bit; hide Pow2;
    BitOfZero(j);
    if eff < bits {
      BitMoved(Fit(B64, 0 - sbit), eff, j);
      if eff <= j {
        BitAll64(j - eff);
        BitOfZero(j - eff);
      }
    }
  }

  lemma BfeMasksBit(bits: nat, signed: bool, a: Word, pos: nat, len: nat, j: nat)
    requires j < bits <= 64
    ensures Bit(BfeMasks(bits, signed, a, pos, len), j) == BfeBit(bits, signed, a, pos, len, j)
  {
    hide FieldVal; hide FillVal; hide BitVal;
    var start, eff := Start(bits, pos), Eff(bits, pos, len);
    var sbit := TopVal(bits, a, start, eff);
    BitOfZero(j);
    BitValBit(a, if eff == 0 then bits - 1 else start + eff - 1);
    FieldValBit(bits, a, start, eff, j);
    FillValBit(bits, sbit, eff, j);
    BitOr(FieldVal(bits, a, start, eff), FillVal(bits, sbit, eff), j);
  }

  lemma BfeAgree(w: Width, signed: bool, a: Word, pos: Word, len: Word)
    requires w != B1
    ensures Fit(w, BfeMasks(BitsOf(w), signed, a, pos % 256, len % 256)) == BfeVal(w, signed, a, pos, len)
  {
    var x := BfeMasks(BitsOf(w), signed, a, pos % 256, len % 256);
    ModulusIsPow2(w);
    forall j: nat ensures Bit(Fit(w, x), j) == Bit(BfeVal(w, signed, a, pos, len), j) {
      BitMod(x, BitsOf(w), j);
      BfeValBit(w, signed, a, pos, len, j);
      if j < BitsOf(w) { BfeMasksBit(BitsOf(w), signed, a, pos % 256, len % 256, j); }
    }
    BitsDecide(Fit(w, x), BfeVal(w, signed, a, pos, len));
  }

  lemma ShrFits(x: Word, k: nat)
    ensures Fit(B64, x / Pow2(k)) == x / Pow2(k)
  {
    hide Pow2;
    DivNonneg(x, Pow2(k));
  }

  lemma AndOne(x: nat)
    ensures And(x, 1) == x % 2
  {
    AndOnes(x, 1);
  }
}

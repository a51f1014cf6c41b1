// The emitted form of bfi and bfe evaluates to the masks of BitFields: every
// shift amount it builds is legal, and each node has the value named there.
module FieldLowering {
  import opened Bits
  import opened Words
  import opened Machine
  import opened Ptx
  import opened Ir
  import opened Lowering
  import opened BitFields
  import opened Related

  lemma GivesUMin(k: Kernel, s: Lane, m: Mem, a: Exp, x: Word, b: Exp, y: Word)
    requires Gives(k, s, m, a, B64, x) && Gives(k, s, m, b, B64, y)
    ensures Gives(k, s, m, UMin(a, b), B64, Min(x, y))
  {
    hide Gives;
    GivesCmp(k, s, m, IUlt, B64, a, x, b, y);
    GivesSelect(k, s, m, Cmp(IUlt, B64, a, b), x < y, B64, a, x, b, y);
  }

  lemma GivesNot(k: Kernel, s: Lane, m: Mem, a: Exp, x: Word)
    requires Gives(k, s, m, a, B64, x)
    ensures Gives(k, s, m, Op64(IXor, a, I64(-1)), B64, Not64(x))
  {
    hide Gives; hide Xor;
    GivesLit(k, s, m, B64, -1);
    GivesBin(k, s, m, IXor, B64, a, x, I64(-1), M64 - 1);
    XorFits(B64, x, M64 - 1);
  }

  lemma GivesAllOnes(k: Kernel, s: Lane, m: Mem)
    ensures Gives(k, s, m, I64(-1), B64, M64 - 1)
  {
    hide Gives;
    GivesLit(k, s, m, B64, -1);
  }

  lemma GivesByte(k: Kernel, s: Lane, m: Mem, a: Exp, x: Word)
    requires Gives(k, s, m, a, B64, x)
    ensures Gives(k, s, m, Op64(IAnd, a, I64(255)), B64, x % 256)
  {
    hide Gives; hide And;
    GivesAnd(k, s, m, a, x, 255);
    AndByte(x);
  }

  lemma GivesSub(k: Kernel, s: Lane, m: Mem, a: Exp, x: Word, b: Exp, y: Word)
    requires Gives(k, s, m, a, B64, x) && Gives(k, s, m, b, B64, y) && y <= x
    ensures Gives(k, s, m, Op64(ISub, a, b), B64, x - y)
  {
    hide Gives;
    GivesBin(k, s, m, ISub, B64, a, x, b, y);
  }

  lemma GivesLowMask(k: Kernel, s: Lane, m: Mem, is64: bool, a: Exp, n: Word)
    requires Gives(k, s, m, a, B64, n)
    ensures Gives(k, s, m, LowMask(is64, a), B64, Ones(Min(n, WordBits(is64) - 1)))
  {
    hide Gives; hide Pow2; hide Ones;
    var top := WordBits(is64) - 1;
    var c := Min(n, top);
    GivesI64(k, s, m, top);
    GivesI64(k, s, m, 1);
    GivesUMin(k, s, m, a, n, I64(top), top);
    PowFits(B64, c);
    LowMaskVal(c);
    GivesBin(k, s, m, IShl, B64, I64(1), 1, UMin(a, I64(top)), c);
    GivesBin(k, s, m, ISub, B64, Op64(IShl, I64(1), UMin(a, I64(top))), Pow2(c), I64(1), 1);
  }

  lemma GivesPosOk(k: Kernel, s: Lane, m: Mem, is64: bool, a: Exp, p: Word)
    requires Gives(k, s, m, a, B64, p)
    ensures Gives(k, s, m, PosOk(is64, a), B1, Truth(p < WordBits(is64)))
  {
    hide Gives;
    GivesI64(k, s, m, WordBits(is64));
    GivesCmp(k, s, m, IUlt, B64, a, p, I64(WordBits(is64)), WordBits(is64));
  }

  lemma GivesPosSafe(k: Kernel, s: Lane, m: Mem, is64: bool, a: Exp, p: Word)
    requires Gives(k, s, m, a, B64, p)
    ensures Gives(k, s, m, PosSafe(is64, a), B64, if p < WordBits(is64) then p else 0)
  {
    hide Gives; hide PosOk;
    GivesI64(k, s, m, 0);
    GivesPosOk(k, s, m, is64, a, p);
    GivesSelect(k, s, m, PosOk(is64, a), p < WordBits(is64), B64, a, p, I64(0), 0);
  }

  lemma GivesLenMask(k: Kernel, s: Lane, m: Mem, is64: bool, a: Exp, l: Word)
    requires Gives(k, s, m, a, B64, l)
    ensures Gives(k, s, m, LenMask(is64, a), B64, LenOnes(WordBits(is64), l))
  {
    hide Gives; hide Ones; hide LowMask;
    var bits := WordBits(is64);
    GivesI64(k, s, m, bits);
    GivesAllOnes(k, s, m);
    GivesLowMask(k, s, m, is64, a, l);
    GivesCmp(k, s, m, IUge, B64, a, l, I64(bits), bits);
    GivesSelect(k, s, m, Cmp(IUge, B64, a, I64(bits)), l >= bits, B64, I64(-1), M64 - 1, LowMask(is64, a), Ones(Min(l, bits - 1)));
  }

  lemma GivesFieldMask(k: Kernel, s: Lane, m: Mem, is64: bool, pos: Exp, p: Word, len: Exp, l: Word)
    requires Gives(k, s, m, pos, B64, p) && Gives(k, s, m, len, B64, l)
    ensures Gives(k, s, m, FieldMask(is64, pos, len), B64, PlacedMask(WordBits(is64), p, l))
  {
    hide Gives; hide Pow2; hide LenOnes; hide LenMask; hide PosSafe; hide PosOk; hide Fit;
    var bits := WordBits(is64);
    var q := if p < bits then p else 0;
    GivesI64(k, s, m, 0);
    GivesLenMask(k, s, m, is64, len, l);
    GivesPosOk(k, s, m, is64, pos, p);
    GivesPosSafe(k, s, m, is64, pos, p);
    var placed := Op64(IShl, LenMask(is64, len), PosSafe(is64, pos));
    GivesBin(k, s, m, IShl, B64, LenMask(is64, len), LenOnes(bits, l), PosSafe(is64, pos), q);
    GivesSelect(k, s, m, PosOk(is64, pos), p < bits, B64, placed, Fit(B64, LenOnes(bits, l) * Pow2(q)), I64(0), 0);
  }

  lemma GivesBfi(k: Kernel, s: Lane, m: Mem, is64: bool, a: Exp, x: Word, b: Exp, y: Word, pos: Exp, p: Word, len: Exp, l: Word)
    requires Gives(k, s, m, a, B64, x) && Gives(k, s, m, b, B64, y) && Gives(k, s, m, pos, B64, p) && Gives(k, s, m, len, B64, l)
    ensures Gives(k, s, m, LowerBfi(is64, a, b, pos, len), B64, BfiMasks(WordBits(is64), x, y, p % 256, l % 256))
  {
    hide Gives; hide And; hide Or; hide Pow2; hide Fit; hide Not64; hide PlacedMask; hide FieldMask; hide PosSafe;
    var bits := WordBits(is64);
    var pos8, len8 := Op64(IAnd, pos, I64(255)), Op64(IAnd, len, I64(255));
    GivesByte(k, s, m, pos, p);
    GivesByte(k, s, m, len, l);
    var q := if p % 256 < bits then p % 256 else 0;
    var maskExp, mask := FieldMask(is64, pos8, len8), PlacedMask(bits, p % 256, l % 256);
    GivesFieldMask(k, s, m, is64, pos8, p % 256, len8, l % 256);
    GivesPosSafe(k, s, m, is64, pos8, p % 256);
    GivesNot(k, s, m, maskExp, mask);
    GivesAndOf(k, s, m, b, y, Op64(IXor, maskExp, I64(-1)), Not64(mask));
    var moved := Op64(IShl, a, PosSafe(is64, pos8));
    GivesBin(k, s, m, IShl, B64, a, x, PosSafe(is64, pos8), q);
    GivesAndOf(k, s, m, moved, Fit(B64, x * Pow2(q)), maskExp, mask);
    GivesOr(k, s, m, Op64(IAnd, b, Op64(IXor, maskExp, I64(-1))), And(y, Not64(mask)),
            Op64(IAnd, moved, maskExp), And(Fit(B64, x * Pow2(q)), mask));
  }

  // ---- bfe ------------------------------------------------------------------------------

  lemma GivesFieldStart(k: Kernel, s: Lane, m: Mem, is64: bool, pos: Exp, p: Word)
    requires Gives(k, s, m, pos, B64, p)
    ensures Gives(k, s, m, FieldStart(is64, pos), B64, Start(WordBits(is64), p))
  {
    hide Gives; hide UMin;
    GivesI64(k, s, m, WordBits(is64));
    GivesUMin(k, s, m, pos, p, I64(WordBits(is64)), WordBits(is64));
  }

  lemma GivesFieldLen(k: Kernel, s: Lane, m: Mem, is64: bool, pos: Exp, p: Word, len: Exp, l: Word)
    requires Gives(k, s, m, pos, B64, p) && Gives(k, s, m, len, B64, l)
    ensures Gives(k, s, m, FieldLen(is64, pos, len), B64, Eff(WordBits(is64), p, l))
  {
    hide Gives; hide UMin; hide FieldStart;
    var bits := WordBits(is64);
    GivesI64(k, s, m, bits);
    GivesFieldStart(k, s, m, is64, pos, p);
    GivesSub(k, s, m, I64(bits), bits, FieldStart(is64, pos), Start(bits, p));
    GivesUMin(k, s, m, len, l, Op64(ISub, I64(bits), FieldStart(is64, pos)), bits - Start(bits, p));
  }

  lemma GivesIsFull(k: Kernel, s: Lane, m: Mem, is64: bool, a: Exp, x: Word)
    requires Gives(k, s, m, a, B64, x)
    ensures Gives(k, s, m, IsFull(is64, a), B1, Truth(x == WordBits(is64)))
  {
    hide Gives;
    GivesI64(k, s, m, WordBits(is64));
    GivesCmp(k, s, m, IEq, B64, a, x, I64(WordBits(is64)), WordBits(is64));
  }

  lemma GivesFieldBits(k: Kernel, s: Lane, m: Mem, is64: bool, a: Exp, x: Word, start: Exp, st: Word, eff: Exp, ef: Word)
    requires Gives(k, s, m, a, B64, x) && Gives(k, s, m, start, B64, st) && Gives(k, s, m, eff, B64, ef)
    requires st <= WordBits(is64)
    ensures Gives(k, s, m, FieldBits(is64, a, start, eff), B64, FieldVal(WordBits(is64), x, st, ef))
  {
    hide Gives; hide Pow2; hide And; hide Ones; hide IsFull; hide LowMask;
    var bits := WordBits(is64);
    var n := if st == bits then 0 else st;
    GivesI64(k, s, m, 0);
    GivesAllOnes(k, s, m);
    GivesIsFull(k, s, m, is64, start, st);
    GivesIsFull(k, s, m, is64, eff, ef);
    GivesLowMask(k, s, m, is64, eff, ef);
    var amt := Pick(IsFull(is64, start), I64(0), start);
    var mask := Pick(IsFull(is64, eff), I64(-1), LowMask(is64, eff));
    GivesSelect(k, s, m, IsFull(is64, start), st == bits, B64, I64(0), 0, start, st);
    GivesSelect(k, s, m, IsFull(is64, eff), ef == bits, B64, I64(-1), M64 - 1, LowMask(is64, eff), Ones(Min(ef, bits - 1)));
    GivesShr(k, s, m, a, x, amt, n);
    GivesAndOf(k, s, m, Op64(ILshr, a, amt), ShiftedDown(x, n), mask, if ef == bits then M64 - 1 else Ones(Min(ef, bits - 1)));
  }

  lemma GivesTop(k: Kernel, s: Lane, m: Mem, is64: bool, start: Exp, st: Word, eff: Exp, ef: Word)
    requires Gives(k, s, m, start, B64, st) && Gives(k, s, m, eff, B64, ef) && st + ef <= WordBits(is64)
    ensures Gives(k, s, m, FieldTop(is64, start, eff), B64, if ef == 0 then WordBits(is64) - 1 else st + ef - 1)
  {
    hide Gives;
    var bits := WordBits(is64);
    GivesI64(k, s, m, 0);
    GivesI64(k, s, m, 1);
    GivesI64(k, s, m, bits - 1);
    GivesCmp(k, s, m, IEq, B64, eff, ef, I64(0), 0);
    GivesBin(k, s, m, IAdd, B64, start, st, eff, ef);
    var last := Op64(ISub, Op64(IAdd, start, eff), I64(1));
    GivesBin(k, s, m, ISub, B64, Op64(IAdd, start, eff), st + ef, I64(1), 1);
    GivesSelect(k, s, m, Cmp(IEq, B64, eff, I64(0)), ef == 0, B64, I64(bits - 1), bits - 1, last, Fit(B64, st + ef - 1));
  }

  lemma GivesSignBit(k: Kernel, s: Lane, m: Mem, is64: bool, a: Exp, x: Word, start: Exp, st: Word, eff: Exp, ef: Word)
    requires Gives(k, s, m, a, B64, x) && Gives(k, s, m, start, B64, st) && Gives(k, s, m, eff, B64, ef)
    requires st + ef <= WordBits(is64)
    ensures Gives(k, s, m, SignBitOf(is64, a, start, eff), B64, TopVal(WordBits(is64), x, st, ef))
  {
    hide Gives; hide Pow2; hide And; hide FieldTop;
    var bits := WordBits(is64);
    var top := if ef == 0 then bits - 1 else st + ef - 1;
    GivesTop(k, s, m, is64, start, st, eff, ef);
    GivesShr(k, s, m, a, x, FieldTop(is64, start, eff), top);
    GivesAnd(k, s, m, Op64(ILshr, a, FieldTop(is64, start, eff)), x / Pow2(top), 1);
    AndOne(x / Pow2(top));
  }

  lemma GivesFillBits(k: Kernel, s: Lane, m: Mem, is64: bool, sbit: Exp, b: Word, eff: Exp, ef: Word)
    requires Gives(k, s, m, sbit, B64, b) && Gives(k, s, m, eff, B64, ef) && ef <= WordBits(is64)
    ensures Gives(k, s, m, FillBits(is64, sbit, eff), B64, FillVal(WordBits(is64), b, ef))
  {
    hide Gives; hide Pow2; hide Fit; hide IsFull;
    var bits, full := WordBits(is64), IsFull(is64, eff);
    var n := if ef == bits then 0 else ef;
    GivesI64(k, s, m, 0);
    GivesIsFull(k, s, m, is64, eff, ef);
    GivesBin(k, s, m, ISub, B64, I64(0), 0, sbit, b);
    GivesSelect(k, s, m, full, ef == bits, B64, I64(0), 0, eff, ef);
    var neg, amt := Op64(ISub, I64(0), sbit), Pick(full, I64(0), eff);
    GivesBin(k, s, m, IShl, B64, neg, Fit(B64, 0 - b), amt, n);
    GivesSelect(k, s, m, full, ef == bits, B64, I64(0), 0, Op64(IShl, neg, amt), Fit(B64, Fit(B64, 0 - b) * Pow2(n)));
  }

  lemma GivesBfe(k: Kernel, s: Lane, m: Mem, is64: bool, signed: bool, a: Exp, x: Word, pos: Exp, p: Word, len: Exp, l: Word)
    requires Gives(k, s, m, a, B64, x) && Gives(k, s, m, pos, B64, p) && Gives(k, s, m, len, B64, l)
    ensures Gives(k, s, m, LowerBfe(is64, signed, a, pos, len), B64, BfeMasks(WordBits(is64), signed, x, p % 256, l % 256))
  {
    hide Gives; hide And; hide Or; hide FieldVal; hide FillVal; hide TopVal;
    hide FieldStart; hide FieldLen; hide FieldBits; hide SignBitOf; hide FillBits;
    var bits := WordBits(is64);
    var pos8, len8 := Op64(IAnd, pos, I64(255)), Op64(IAnd, len, I64(255));
    GivesByte(k, s, m, pos, p);
    GivesByte(k, s, m, len, l);
    GivesI64(k, s, m, 0);
    var start, eff := FieldStart(is64, pos8), FieldLen(is64, pos8, len8);
    var st, ef := Start(bits, p % 256), Eff(bits, p % 256, l % 256);
    GivesFieldStart(k, s, m, is64, pos8, p % 256);
    GivesFieldLen(k, s, m, is64, pos8, p % 256, len8, l % 256);
    var field, sbit := FieldBits(is64, a, start, eff), SignBitOf(is64, a, start, eff);
    GivesFieldBits(k, s, m, is64, a, x, start, st, eff, ef);
    GivesSignBit(k, s, m, is64, a, x, start, st, eff, ef);
    var fill := FillBits(is64, sbit, eff);
    GivesFillBits(k, s, m, is64, sbit, TopVal(bits, x, st, ef), eff, ef);
    GivesOr(k, s, m, field, FieldVal(bits, x, st, ef), fill, FillVal(bits, TopVal(bits, x, st, ef), ef));
    GivesCmp(k, s, m, IEq, B64, len8, l % 256, I64(0), 0);
    var out := if signed then Op64(IOr, field, fill) else field;
    var v := if signed then Or(FieldVal(bits, x, st, ef), FillVal(bits, TopVal(bits, x, st, ef), ef)) else FieldVal(bits, x, st, ef);
    GivesSelect(k, s, m, Cmp(IEq, B64, len8, I64(0)), l % 256 == 0, B64, I64(0), 0, out, v);
  }
}

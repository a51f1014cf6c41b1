// What the ahead-of-time compiler (rouge-compiler/src/ptx_to_llvm.cpp) emits
// for one instruction, as expressions over the thread's register slots.
module Lowering {
  import opened Bits
  import opened Words
  import opened Ptx
  import opened Ir

  // ---- operands ---------------------------------------------------------------

  // operand(): a literal takes the type of the place it is printed in.
  function OperandExp(k: Kernel, o: Operand, w: Width): Exp {
    match o
    case Imm(v, _) => Lit(w, v)
    case Reg(r) => Slot(RegWidth(k, r), r)
  }

  // fit_reg / fit_src: grow with zext, shrink with trunc.
  function FitTo(e: Exp, w: Width): Exp {
    var from := TypeOf(e);
    if from == w then e
    else if BitsOf(w) > BitsOf(from) then Zext(from, e, w)
    else Trunc(from, e, w)
  }

  function FitSource(k: Kernel, o: Operand, w: Width): Exp { FitTo(OperandExp(k, o, w), w) }

  // An operand widened to i64; a literal has no register type and is an i32.
  function AsI64(k: Kernel, o: Operand): Exp {
    match o
    case Imm(v, _) => Zext(B32, Lit(B32, v), B64)
    case Reg(r) => FitTo(Slot(RegWidth(k, r), r), B64)
  }

  // ---- shifts: the amount is clamped, because LLVM's shift is poison at N -------

  function ShiftOpOf(kind: ShiftOp): BinOp {
    match kind case Shl => IShl case ShrU => ILshr case ShrS => IAshr
  }

  function LowerShift(k: Kernel, kind: ShiftOp, w: Width, a: Exp, b: Operand): Exp {
    var bits := BitsOf(w);
    match b
    case Imm(v, hex) =>
      var raw := BaseTen(v, hex);
      if raw >= bits then
        if kind == ShrS then Bin(IAshr, w, a, Lit(w, bits - 1)) else Bin(IAnd, w, a, Lit(w, 0))
      else Bin(ShiftOpOf(kind), w, a, Lit(w, raw))
    case Reg(r) =>
      var b32 := FitTo(Slot(RegWidth(k, r), r), B32);
      var wide := FitTo(b32, w);
      var raw := Bin(ShiftOpOf(kind), w, a, Bin(IAnd, w, wide, Lit(w, bits - 1)));
      var big := Cmp(IUge, B32, b32, Lit(B32, bits));
      var sat := if kind == ShrS then Bin(IAshr, w, a, Lit(w, bits - 1)) else Lit(w, 0);
      Select(big, w, sat, raw)
  }

  // ---- bit fields, in i64 ---------------------------------------------------------

  function I64(v: int): Exp { Lit(B64, v) }
  function UMin(x: Exp, y: Exp): Exp { Select(Cmp(IUlt, B64, x, y), B64, x, y) }
  function Pick(c: Exp, x: Exp, y: Exp): Exp { Select(c, B64, x, y) }
  function Op64(op: BinOp, x: Exp, y: Exp): Exp { Bin(op, B64, x, y) }

  function WordBits(is64: bool): nat { if is64 then 64 else 32 }

  // (1 << min(n, bits-1)) - 1: the shift amount stays legal.
  function LowMask(is64: bool, n: Exp): Exp {
    Op64(ISub, Op64(IShl, I64(1), UMin(n, I64(WordBits(is64) - 1))), I64(1))
  }

  function PosOk(is64: bool, pos8: Exp): Exp { Cmp(IUlt, B64, pos8, I64(WordBits(is64))) }
  function PosSafe(is64: bool, pos8: Exp): Exp { Pick(PosOk(is64, pos8), pos8, I64(0)) }

  // len ones; -1 from the word's width on.
  function LenMask(is64: bool, len8: Exp): Exp {
    Pick(Cmp(IUge, B64, len8, I64(WordBits(is64))), I64(-1), LowMask(is64, len8))
  }

  // The field's mask in place; a position past the word gives an empty mask.
  function FieldMask(is64: bool, pos8: Exp, len8: Exp): Exp {
    Pick(PosOk(is64, pos8), Op64(IShl, LenMask(is64, len8), PosSafe(is64, pos8)), I64(0))
  }

  function LowerBfi(is64: bool, a: Exp, b: Exp, posRaw: Exp, lenRaw: Exp): Exp {
    var pos8, len8 := Op64(IAnd, posRaw, I64(255)), Op64(IAnd, lenRaw, I64(255));
    var shMask := FieldMask(is64, pos8, len8);
    var keep := Op64(IAnd, b, Op64(IXor, shMask, I64(-1)));
    var field := Op64(IAnd, Op64(IShl, a, PosSafe(is64, pos8)), shMask);
    Op64(IOr, keep, field)
  }

  // min(pos, bits) and min(len, bits - start)
  function FieldStart(is64: bool, pos8: Exp): Exp { UMin(pos8, I64(WordBits(is64))) }
  function FieldLen(is64: bool, pos8: Exp, len8: Exp): Exp {
    UMin(len8, Op64(ISub, I64(WordBits(is64)), FieldStart(is64, pos8)))
  }

  function IsFull(is64: bool, e: Exp): Exp { Cmp(IEq, B64, e, I64(WordBits(is64))) }

  function FieldBits(is64: bool, a: Exp, start: Exp, effLen: Exp): Exp {
    Op64(IAnd, Op64(ILshr, a, Pick(IsFull(is64, start), I64(0), start)),
               Pick(IsFull(is64, effLen), I64(-1), LowMask(is64, effLen)))
  }

  // Index of the field's top bit; of an empty field, the word's own top bit.
  function FieldTop(is64: bool, start: Exp, effLen: Exp): Exp {
    Pick(Cmp(IEq, B64, effLen, I64(0)), I64(WordBits(is64) - 1), Op64(ISub, Op64(IAdd, start, effLen), I64(1)))
  }

  function SignBitOf(is64: bool, a: Exp, start: Exp, effLen: Exp): Exp {
    Op64(IAnd, Op64(ILshr, a, FieldTop(is64, start, effLen)), I64(1))
  }

  // Copies of the sign bit above the field.
  function FillBits(is64: bool, sbit: Exp, effLen: Exp): Exp {
    var full := IsFull(is64, effLen);
    Pick(full, I64(0), Op64(IShl, Op64(ISub, I64(0), sbit), Pick(full, I64(0), effLen)))
  }

  function LowerBfe(is64: bool, signed: bool, a: Exp, posRaw: Exp, lenRaw: Exp): Exp {
    var pos8, len8 := Op64(IAnd, posRaw, I64(255)), Op64(IAnd, lenRaw, I64(255));
    var start, effLen := FieldStart(is64, pos8), FieldLen(is64, pos8, len8);
    var field := FieldBits(is64, a, start, effLen);
    var fill := FillBits(is64, SignBitOf(is64, a, start, effLen), effLen);
    var out := if signed then Op64(IOr, field, fill) else field;
    Pick(Cmp(IEq, B64, len8, I64(0)), I64(0), out)
  }

  function Narrow(is64: bool, e: Exp): Exp { if is64 then e else Trunc(B64, e, B32) }

  // ---- byte permute -----------------------------------------------------------------

  function SelectorExp(sel: Exp, i: nat): Exp { Op64(IAnd, Op64(ILshr, sel, I64(4 * i)), I64(15)) }

  function SourceByteExp(src: Exp, field: Exp): Exp {
    Op64(IAnd, Op64(ILshr, src, Op64(IShl, Op64(IAnd, field, I64(7)), I64(3))), I64(255))
  }

  function BitSetExp(e: Exp, bit: Word): Exp { Cmp(INe, B64, Op64(IAnd, e, I64(bit)), I64(0)) }

  function LowerPrmtByte(src: Exp, sel: Exp, i: nat): Exp {
    var field := SelectorExp(sel, i);
    var v8 := SourceByteExp(src, field);
    Pick(BitSetExp(field, 8), Pick(BitSetExp(v8, 128), I64(255), I64(0)), v8)
  }

  function LowerPrmtBytes(src: Exp, sel: Exp, n: nat): Exp
    requires n > 0
  {
    if n == 1 then LowerPrmtByte(src, sel, 0)
    else Op64(IOr, LowerPrmtBytes(src, sel, n - 1), Op64(IShl, LowerPrmtByte(src, sel, n - 1), I64(8 * (n - 1))))
  }

  function LowerPrmt(a: Exp, b: Exp, c: Exp): Exp {
    Trunc(B64, LowerPrmtBytes(Op64(IOr, a, Op64(IShl, b, I64(32))), c, 4), B32)
  }

  // ---- dot products -------------------------------------------------------------------

  function ExtractLane(v: Exp, off: nat, bits: nat, signed: bool): Exp
    requires bits <= 64
  {
    var m := Op64(IAnd, Op64(ILshr, v, I64(off)), I64(Pow2(bits) - 1));
    if signed then Op64(IAshr, Op64(IShl, m, I64(64 - bits)), I64(64 - bits)) else Op64(IOr, m, I64(0))
  }

  function LowerDot4(aS: bool, bS: bool, a: Exp, b: Exp, n: nat): Exp
    requires n > 0
  {
    var p := Op64(IMul, ExtractLane(a, 8 * (n - 1), 8, aS), ExtractLane(b, 8 * (n - 1), 8, bS));
    if n == 1 then p else Op64(IAdd, LowerDot4(aS, bS, a, b, n - 1), p)
  }

  function LowerDot2(low: bool, aS: bool, bS: bool, a: Exp, b: Exp, n: nat): Exp
    requires n > 0
  {
    var p := Op64(IMul, ExtractLane(a, 16 * (n - 1), 16, aS),
                        ExtractLane(b, 8 * ((n - 1) + (if low then 0 else 2)), 8, bS));
    if n == 1 then p else Op64(IAdd, LowerDot2(low, aS, bS, a, b, n - 1), p)
  }

  // ---- one ALU instruction ----------------------------------------------------------------

  function LogicOpOf(op: LogicOp): BinOp {
    match op case LAnd => IAnd case LOr => IOr case LXor => IXor
  }

  // The value stored into the destination; its type is the destination's.
  function LowerAlu(k: Kernel, dst: Name, op: AluOp): Exp {
    var ty := RegWidth(k, dst);
    match op
    case Mov(_, a) => FitSource(k, a, ty)
    case MovSpecial(i) => LaunchField(i)
    case Add(_, a, b) => Bin(IAdd, ty, FitSource(k, a, ty), FitSource(k, b, ty))
    case Sub(_, a, b) => Bin(ISub, ty, FitSource(k, a, ty), FitSource(k, b, ty))
    case MulLo(_, a, b) => Bin(IMul, ty, OperandExp(k, a, ty), OperandExp(k, b, ty))
    case MadLo(_, a, b, c) =>
      Bin(IAdd, ty, Bin(IMul, ty, OperandExp(k, a, ty), OperandExp(k, b, ty)), OperandExp(k, c, ty))
    case Logic(l, _, a, b) => Bin(LogicOpOf(l), ty, OperandExp(k, a, ty), OperandExp(k, b, ty))
    case Not(_, a) => Bin(IXor, ty, OperandExp(k, a, ty), Lit(ty, -1))
    case Shift(kind, _, a, b) => LowerShift(k, kind, ty, OperandExp(k, a, ty), b)
    case MinMax(isMin, signed, _, a, b) =>
      MinMaxCall(isMin, signed, ty, OperandExp(k, a, ty), OperandExp(k, b, ty))
    case Bfi(a, b, pos, len) =>
      Narrow(ty == B64, LowerBfi(ty == B64, AsI64(k, a), AsI64(k, b), AsI64(k, pos), AsI64(k, len)))
    case Bfe(signed, a, pos, len) =>
      Narrow(ty == B64, LowerBfe(ty == B64, signed, AsI64(k, a), AsI64(k, pos), AsI64(k, len)))
    case Prmt(a, b, c) => LowerPrmt(AsI64(k, a), AsI64(k, b), AsI64(k, c))
    case Dp4a(aS, bS, a, b, c) =>
      Trunc(B64, Op64(IAdd, AsI64(k, c), LowerDot4(aS, bS, AsI64(k, a), AsI64(k, b), 4)), B32)
    case Dp2a(low, aS, bS, a, b, c) =>
      Trunc(B64, Op64(IAdd, AsI64(k, c), LowerDot2(low, aS, bS, AsI64(k, a), AsI64(k, b), 2)), B32)
    case Selp(_, a, b, p) => Select(Slot(B1, p), ty, OperandExp(k, a, ty), OperandExp(k, b, ty))
  }

  // ---- predicates ------------------------------------------------------------------------------

  function CmpOpOf(c: Cond, signed: bool): CmpOp {
    match c
    case Lt => if signed then ISlt else IUlt
    case Gt => if signed then ISgt else IUgt
    case Le => if signed then ISle else IUle
    case Ge => if signed then ISge else IUge
    case Eq => IEq
    case _ => INe
  }

  function PredSlot(k: Kernel, p: Name): Exp { Slot(RegWidth(k, p), p) }
  function True1(): Exp { Lit(B1, 1) }
  function ThirdPred(k: Kernel, c: Option<Name>): Exp { if c.None? then True1() else PredSlot(k, c.value) }

  function LowerPred(k: Kernel, op: PredOp): Exp {
    match op
    case Setp(cond, signed, w, a, b) => Cmp(CmpOpOf(cond, signed), w, OperandExp(k, a, w), OperandExp(k, b, w))
    case PAnd(x, y, c) =>
      Bin(IOr, B1, Bin(IAnd, B1, PredSlot(k, x), PredSlot(k, y)), Bin(IXor, B1, ThirdPred(k, c), True1()))
    case POr(x, y, c) =>
      Bin(IOr, B1, Bin(IOr, B1, PredSlot(k, x), PredSlot(k, y)), Bin(IXor, B1, ThirdPred(k, c), True1()))
    case PNot(x, c) => Bin(IXor, B1, PredSlot(k, x), ThirdPred(k, c))
  }

  // ---- guards and memory ---------------------------------------------------------------------

  function GuardExp(k: Kernel, g: Guard): Exp
    requires g.When?
  {
    if g.negated then Bin(IXor, B1, PredSlot(k, g.p), True1()) else PredSlot(k, g.p)
  }

  // store_reg: a false guard keeps the old register value.
  function StoreReg(k: Kernel, g: Guard, dst: Name, e: Exp): Line {
    var ty := RegWidth(k, dst);
    match g
    case Always => Assign(ty, dst, e)
    case When(_, _) => Assign(ty, dst, Select(GuardExp(k, g), ty, e, Slot(ty, dst)))
  }

  function AddressExp(k: Kernel, a: Address): Exp {
    var base := FitTo(Slot(RegWidth(k, a.base), a.base), B64);
    match a
    case Plain(_) => base
    case Offset(_, _, off) => Bin(IAdd, B64, base, I64(off))
  }

  // emit_instruction: the lines before the terminator. The guard reaches only
  // store_reg: memory stores and barriers are emitted unconditionally.
  function LowerInstr(k: Kernel, ins: Instr): seq<Line> {
    match ins
    case Alu(g, dst, op) => [StoreReg(k, g, dst, LowerAlu(k, dst, op))]
    case SetPred(g, dst, op) => [StoreReg(k, g, dst, LowerPred(k, op))]
    case Load(g, w, dst, addr) =>
      [StoreReg(k, g, dst, if w == B64 then LoadMem(w, AddressExp(k, addr))
                           else FitTo(LoadMem(w, AddressExp(k, addr)), RegWidth(k, dst)))]
    case Store(_, w, addr, src) => [StoreMem(w, AddressExp(k, addr), OperandExp(k, src, w))]
    case Bar(_) => [SyncThreads]
    case Bra(_, _) => []
    case Ret(_) => []
    case LabelMark(_, _) => []
  }
}

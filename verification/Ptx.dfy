// PTX kernels as the shared parser hands them over, and the meaning of one
// instruction for one thread: the behavioural reference of the repository
// (rouge-ptx/ptx.cpp, run_thread_step). The loops of the C++ are recursive
// functions here; Interp.dfy carries them out step by step.
module Ptx {
  import opened Bits
  import opened Words
  import opened Machine

  type Name = string

  // An immediate keeps the spelling it had in the text: the compiler reads a
  // hexadecimal token differently from the interpreter in one place (BaseTen).
  datatype Operand = Reg(name: Name) | Imm(value: Word, hex: bool)

  // "[base]", "[base+off]" or "[base-off]".
  datatype Address = Plain(base: Name) | Offset(base: Name, minus: bool, off: Word)

  datatype Guard = Always | When(p: Name, negated: bool)

  datatype LogicOp = LAnd | LOr | LXor
  datatype ShiftOp = Shl | ShrU | ShrS
  datatype Cond = Eq | Ne | Lt | Le | Gt | Ge | OtherCond

  // The value of a literal token read by strtoull in base ten: "0x1f" stops at
  // the 'x' and yields zero.
  function BaseTen(value: Word, hex: bool): Word { if hex then 0 else value }

  datatype AluOp =
    | Mov(w: Width, a: Operand)
    | MovSpecial(which: nat)
    | Add(w: Width, a: Operand, b: Operand)
    | Sub(w: Width, a: Operand, b: Operand)
    | MulLo(w: Width, a: Operand, b: Operand)
    | MadLo(w: Width, a: Operand, b: Operand, c: Operand)
    | Logic(op: LogicOp, w: Width, a: Operand, b: Operand)
    | Not(w: Width, a: Operand)
    | Shift(kind: ShiftOp, w: Width, a: Operand, b: Operand)
    | MinMax(isMin: bool, signed: bool, w: Width, a: Operand, b: Operand)
    | Bfi(a: Operand, b: Operand, pos: Operand, len: Operand)
    | Bfe(signed: bool, a: Operand, pos: Operand, len: Operand)
    | Prmt(a: Operand, b: Operand, c: Operand)
    | Dp4a(aSigned: bool, bSigned: bool, a: Operand, b: Operand, c: Operand)
    | Dp2a(low: bool, aSigned: bool, bSigned: bool, a: Operand, b: Operand, c: Operand)
    | Selp(w: Width, a: Operand, b: Operand, p: Name)

  datatype PredOp =
    | Setp(cond: Cond, signed: bool, w: Width, a: Operand, b: Operand)
    | PAnd(x: Name, y: Name, c: Option<Name>)
    | POr(x: Name, y: Name, c: Option<Name>)
    | PNot(x: Name, c: Option<Name>)

  datatype Option<T> = None | Some(value: T)

  datatype Instr =
    | Alu(guard: Guard, dst: Name, alu: AluOp)
    | SetPred(guard: Guard, dst: Name, pred: PredOp)
    | Load(guard: Guard, w: Width, dst: Name, addr: Address)
    | Store(guard: Guard, w: Width, addr: Address, src: Operand)
    | Bra(guard: Guard, target: Name)
    | Ret(guard: Guard)
    | Bar(guard: Guard)
    | LabelMark(guard: Guard, name: Name)

  datatype Kernel = Kernel(body: seq<Instr>, labels: map<Name, nat>, widths: map<Name, Width>)

  // Declared width of a register; an undeclared one counts as 32-bit.
  function RegWidth(k: Kernel, r: Name): Width {
    if r in k.widths then k.widths[r] else B32
  }

  // What one thread owns: registers, predicates, program counter and the
  // twelve special registers (tid, ctaid, ntid, nctaid).
  datatype Thread = Thread(regs: map<Name, Word>, preds: map<Name, bool>, pc: nat, special: seq<Word>)

  function RegVal(t: Thread, r: Name): Word { if r in t.regs then t.regs[r] else 0 }
  predicate PredVal(t: Thread, p: Name) { p in t.preds && t.preds[p] }

  function OperandVal(t: Thread, o: Operand): Word {
    match o
    case Reg(r) => RegVal(t, r)
    case Imm(v, _) => v
  }

  predicate GuardHolds(t: Thread, g: Guard) {
    match g
    case Always => true
    case When(p, negated) => PredVal(t, p) != negated
  }

  // ---- integer helpers -----------------------------------------------------

  function Combined(op: LogicOp, x: nat, y: nat): nat {
    match op case LAnd => And(x, y) case LOr => Or(x, y) case LXor => Xor(x, y)
  }

  // sar32 / sar64: complement, shift, complement when the sign bit is set.
  function SarVal(w: Width, v: Word, n: nat): Word
  {
    var x := Fit(w, v);
    if x < Modulus(w) / 2 then RShift(x, n)
    else Fit(w, Modulus(w) - 1 - (Modulus(w) - 1 - x) / Pow2(n))
  }

  function ShiftVal(kind: ShiftOp, w: Width, a: Word, b: Word): Word
    requires w != B1
  {
    var raw := Fit(B32, b);
    var x := Fit(w, a);
    if raw >= BitsOf(w) then
      match kind
      case Shl => 0
      case ShrU => 0
      case ShrS => if x >= Modulus(w) / 2 then Modulus(w) - 1 else 0
    else
      match kind
      case Shl => Fit(w, a * Pow2(raw))
      case ShrU => RShift(x, raw)
      case ShrS => SarVal(w, a, raw)
  }

  function MinMaxVal(isMin: bool, signed: bool, w: Width, a: Word, b: Word): Word {
    var x := if signed then Signed(w, a) else Fit(w, a);
    var y := if signed then Signed(w, b) else Fit(w, b);
    Fit(w, if isMin then (if x < y then x else y) else (if x > y then x else y))
  }

  // ---- bit-field insert and extract, one bit at a time ----------------------

  function BitVal(x: nat, i: nat): (b: nat)
    ensures b < 2
  {
    RShift(x, i) % 2
  }

  function PutBit(f: Word, at: nat, bit: nat): Word
    requires at < 64 && bit < 2
  {
    PowFits(B64, at);
    OrFits(B64, And(f, Not64(Pow2(at))), bit * Pow2(at));
    Or(And(f, Not64(Pow2(at))), bit * Pow2(at))
  }

  function BfiLoop(a: Word, f: Word, pos: nat, len: nat, msb: nat, i: nat): Word
    requires msb < 64
    decreases len - i
  {
    if i < len && pos + i <= msb then
      BfiLoop(a, PutBit(f, pos + i, BitVal(a, i)), pos, len, msb, i + 1)
    else f
  }

  function BfiVal(w: Width, a: Word, b: Word, pos: Word, len: Word): Word
    requires w != B1
  {
    Fit(w, BfiLoop(a, b, pos % 256, len % 256, BitsOf(w) - 1, 0))
  }

  function BfeLoop(a: Word, pos: nat, len: nat, msb: nat, sbit: nat, d: nat, i: nat): nat
    requires sbit < 2
    decreases msb + 1 - i
  {
    if i <= msb then
      var bit := if i < len && pos + i <= msb then BitVal(a, pos + i) else sbit;
      BfeLoop(a, pos, len, msb, sbit, Or(d, LShift(bit, i)), i + 1)
    else d
  }

  function BfeVal(w: Width, signed: bool, a: Word, pos: Word, len: Word): Word
    requires w != B1
  {
    var p, l, msb := pos % 256, len % 256, BitsOf(w) - 1;
    if l == 0 then 0
    else
      var top := if p + l - 1 <= msb then p + l - 1 else msb;
      Fit(w, BfeLoop(a, p, l, msb, if signed then BitVal(a, top) else 0, 0, 0))
  }

  // ---- byte permute and dot products ----------------------------------------

  // Selector nibble i of the control word, and the source byte a selector names.
  function Selector(c: Word, i: nat): (field: nat)
    ensures field <= 15
  {
    And(RShift(c, 4 * i), 15)
  }

  function SourceByte(src: Word, field: nat): (byte: nat)
    ensures byte <= 255
  {
    And(RShift(src, And(field, 7) * 8), 255)
  }

  function PrmtByte(src: Word, field: nat): (byte: nat)
    ensures byte <= 255
  {
    var byte := SourceByte(src, field);
    if And(field, 8) != 0 then (if And(byte, 128) != 0 then 255 else 0) else byte
  }

  // Target bytes 0 .. n-1, packed.
  function PrmtBytes(src: Word, c: Word, n: nat): nat {
    if n == 0 then 0
    else Or(PrmtBytes(src, c, n - 1), LShift(PrmtByte(src, Selector(c, n - 1)), 8 * (n - 1)))
  }

  // The eight source bytes {b, a} as one 64-bit value.
  function Pair64(x: nat, y: nat): Word
    requires x < M32 && y < M32
  {
    OrFits(B64, x, y * M32);
    Or(x, y * M32)
  }

  function PrmtVal(a: Word, b: Word, c: Word): Option<Word> {
    var x, y, z := Fit(B32, a), Fit(B32, b), Fit(B32, c);
    if And(z / 65536, 15) != 0 then None
    else Some(Fit(B32, PrmtBytes(Pair64(x, y), z, 4)))
  }

  // Lane number i of `bits` bits, read as signed or unsigned.
  function LaneVal(v: Word, bits: nat, i: nat, signed: bool): int {
    var m := RShift(v, bits * i) % Pow2(bits);
    if signed && m >= Pow2(bits) / 2 then m - Pow2(bits) else m
  }

  function Dp4aSum(aSigned: bool, bSigned: bool, a: Word, b: Word, i: nat): int {
    if i == 0 then 0
    else Dp4aSum(aSigned, bSigned, a, b, i - 1) + LaneVal(a, 8, i - 1, aSigned) * LaneVal(b, 8, i - 1, bSigned)
  }

  function Dp2aSum(low: bool, aSigned: bool, bSigned: bool, a: Word, b: Word, i: nat): int {
    if i == 0 then 0
    else
      Dp2aSum(low, aSigned, bSigned, a, b, i - 1)
      + LaneVal(a, 16, i - 1, aSigned) * LaneVal(b, 8, (if low then 0 else 2) + (i - 1), bSigned)
  }

  // ---- one instruction -------------------------------------------------------

  // The value an ALU instruction writes; None where the interpreter stops with
  // an error. The destination's declared width decides the word of bfi / bfe.
  function AluVal(k: Kernel, t: Thread, dst: Name, op: AluOp): Option<Word> {
    match op
    case Mov(w, a) => Some(Fit(w, OperandVal(t, a)))
    case MovSpecial(i) => if i < |t.special| then Some(Fit(B32, t.special[i])) else None
    case Add(w, a, b) => Some(Fit(w, OperandVal(t, a) + OperandVal(t, b)))
    case Sub(w, a, b) => Some(Fit(w, OperandVal(t, a) - OperandVal(t, b)))
    case MulLo(w, a, b) => Some(Fit(w, Fit(w, OperandVal(t, a)) * Fit(w, OperandVal(t, b))))
    case MadLo(w, a, b, c) =>
      Some(Fit(w, Fit(w, OperandVal(t, a)) * Fit(w, OperandVal(t, b)) + OperandVal(t, c)))
    case Logic(l, w, a, b) =>
      Some(Fit(w, Combined(l, OperandVal(t, a), OperandVal(t, b))))
    case Not(w, a) => Some(Fit(w, Not64(OperandVal(t, a))))
    case Shift(kind, w, a, b) =>
      if w == B1 then None else Some(ShiftVal(kind, w, OperandVal(t, a), OperandVal(t, b)))
    case MinMax(isMin, signed, w, a, b) =>
      Some(MinMaxVal(isMin, signed, w, OperandVal(t, a), OperandVal(t, b)))
    case Bfi(a, b, pos, len) =>
      if RegWidth(k, dst) == B1 then None
      else Some(BfiVal(RegWidth(k, dst), OperandVal(t, a), OperandVal(t, b), OperandVal(t, pos), OperandVal(t, len)))
    case Bfe(signed, a, pos, len) =>
      if RegWidth(k, dst) == B1 then None
      else Some(BfeVal(RegWidth(k, dst), signed, OperandVal(t, a), OperandVal(t, pos), OperandVal(t, len)))
    case Prmt(a, b, c) => PrmtVal(OperandVal(t, a), OperandVal(t, b), OperandVal(t, c))
    case Dp4a(aS, bS, a, b, c) =>
      Some(Fit(B32, OperandVal(t, c) + Dp4aSum(aS, bS, OperandVal(t, a), OperandVal(t, b), 4)))
    case Dp2a(low, aS, bS, a, b, c) =>
      Some(Fit(B32, OperandVal(t, c) + Dp2aSum(low, aS, bS, OperandVal(t, a), OperandVal(t, b), 2)))
    case Selp(w, a, b, p) =>
      Some(Fit(w, if PredVal(t, p) then OperandVal(t, a) else OperandVal(t, b)))
  }

  // setp: the width and the signedness come from the type suffix; a condition
  // outside the six is an error.
  function CompareVal(cond: Cond, signed: bool, w: Width, a: Word, b: Word): Option<bool> {
    var x := if signed then Signed(w, a) else Fit(w, a);
    var y := if signed then Signed(w, b) else Fit(w, b);
    match cond
    case Eq => Some(Fit(w, a) == Fit(w, b))
    case Ne => Some(Fit(w, a) != Fit(w, b))
    case Lt => Some(x < y)
    case Le => Some(x <= y)
    case Gt => Some(x > y)
    case Ge => Some(x >= y)
    case OtherCond => None
  }

  function PredResult(t: Thread, op: PredOp): Option<bool> {
    match op
    case Setp(cond, signed, w, a, b) => CompareVal(cond, signed, w, OperandVal(t, a), OperandVal(t, b))
    case PAnd(x, y, c) =>
      Some((PredVal(t, x) && PredVal(t, y)) || !(c.None? || PredVal(t, c.value)))
    case POr(x, y, c) =>
      Some((PredVal(t, x) || PredVal(t, y)) || !(c.None? || PredVal(t, c.value)))
    case PNot(x, c) => Some(PredVal(t, x) != (c.None? || PredVal(t, c.value)))
  }

  // The parser of memory operands keeps only the digits of the offset: a
  // written '-' is dropped, so "[r-4]" addresses r+4 on both paths.
  function AddressVal(t: Thread, a: Address): Word {
    match a
    case Plain(base) => RegVal(t, base)
    case Offset(base, _, off) => Fit(B64, RegVal(t, base) + off)
  }

  function BytesOf(w: Width): nat { match w case B1 => 1 case B32 => 4 case B64 => 8 }

  // Byte i of an access at address a; addresses wrap at the top.
  function At(a: Word, i: nat): Word { Fit(B64, a + i) }

  function Span(a: Word, n: nat): set<Word> {
    if n == 0 then {} else Span(a, n - 1) + {At(a, n - 1)}
  }

  predicate Mapped(m: Mem, a: Word, n: nat) { Span(a, n) <= m.Keys }

  // A multiple of the access's own size.
  predicate Aligned(a: Word, w: Width) { a % BytesOf(w) == 0 }

  // Little-endian read of n bytes.
  function ReadLE(m: Mem, a: Word, n: nat): (v: nat)
    requires Mapped(m, a, n)
    ensures v < Pow2(8 * n)
  {
    if n == 0 then 0
    else
      ByteStep(n, ReadLE(m, a, n - 1), m[At(a, n - 1)]);
      ReadLE(m, a, n - 1) + m[At(a, n - 1)] * Pow2(8 * (n - 1))
  }

  lemma ByteStep(n: nat, low: nat, byte: Byte)
    requires n > 0 && low < Pow2(8 * (n - 1))
    ensures low + byte * Pow2(8 * (n - 1)) < Pow2(8 * n)
  {
    Times256(8 * (n - 1));
    ScaleBound(byte, 255, Pow2(8 * (n - 1)));
  }

  function WriteLE(a: Word, n: nat, v: nat): (r: map<Word, Byte>)
    ensures r.Keys == Span(a, n)
  {
    if n == 0 then map[]
    else WriteLE(a, n - 1, v)[At(a, n - 1) := (v / Pow2(8 * (n - 1))) % 256]
  }

  function Next(t: Thread): Thread { t.(pc := t.pc + 1) }

  function Perform(k: Kernel, t: Thread, ins: Instr, m: Mem): Effect<Thread> {
    match ins
    case Alu(_, dst, op) =>
      var v := AluVal(k, t, dst, op);
      if v.None? then Quiet(Failed, t)
      else Quiet(Advanced, Next(t).(regs := t.regs[dst := v.value]))
    case SetPred(_, dst, op) =>
      var v := PredResult(t, op);
      if v.None? then Quiet(Failed, t)
      else Quiet(Advanced, Next(t).(preds := t.preds[dst := v.value]))
    case Load(_, w, dst, addr) =>
      var a := AddressVal(t, addr);
      if w == B1 || !Mapped(m, a, BytesOf(w)) then Effect(Failed, t, Span(a, BytesOf(w)), map[])
      else
        LoadFits(m, a, w);
        Effect(Advanced, Next(t).(regs := t.regs[dst := ReadLE(m, a, BytesOf(w))]), Span(a, BytesOf(w)), map[])
    case Store(_, w, addr, src) =>
      var a := AddressVal(t, addr);
      // An immediate source is looked up as a register name, hence zero.
      var v := if src.Reg? then RegVal(t, src.name) else 0;
      if w == B1 || !Mapped(m, a, BytesOf(w)) then Effect(Failed, t, Span(a, BytesOf(w)), map[])
      else Effect(Advanced, Next(t), Span(a, BytesOf(w)), WriteLE(a, BytesOf(w), v))
    case Bra(_, target) =>
      if target in k.labels then Quiet(Advanced, t.(pc := k.labels[target])) else Quiet(Failed, t)
    case Ret(_) => Quiet(Finished, t)
    case Bar(_) => Quiet(Parked, Next(t))
    case LabelMark(_, _) => Quiet(Advanced, Next(t))
  }

  lemma LoadFits(m: Mem, a: Word, w: Width)
    requires w != B1 && Mapped(m, a, BytesOf(w))
    ensures ReadLE(m, a, BytesOf(w)) < Modulus(w)
  {
    ModulusIsPow2(w);
  }

  // One call of run_thread_step.
  function Step(k: Kernel, t: Thread, m: Mem): Effect<Thread> {
    if t.pc >= |k.body| then Quiet(Failed, t)
    else
      var ins := k.body[t.pc];
      if !GuardHolds(t, ins.guard) then Quiet(Advanced, Next(t))
      else Perform(k, t, ins, m)
  }

  // The next step accesses memory, if at all, at an aligned address. The
  // interpreter does not ask for it.
  predicate AccessAligned(k: Kernel, t: Thread) {
    t.pc < |k.body| && GuardHolds(t, k.body[t.pc].guard) ==>
      match k.body[t.pc]
      case Load(_, w, _, addr) => Aligned(AddressVal(t, addr), w)
      case Store(_, w, addr, _) => Aligned(AddressVal(t, addr), w)
      case _ => true
  }
}

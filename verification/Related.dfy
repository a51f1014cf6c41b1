// When the two executions of a kernel are in step: which instructions the
// compiler and the interpreter treat alike, how an interpreter thread and a
// compiled lane correspond, and what an emitted expression delivers.
module Related {
  import opened Bits
  import opened Words
  import opened Machine
  import opened Ptx
  import opened Ir
  import opened Lowering
  import opened BitFields

  // ---- which instructions the two paths promise to agree on ---------------------

  predicate IsInt(k: Kernel, o: Operand) { o.Reg? ==> RegWidth(k, o.name) != B1 }
  predicate HasWidth(k: Kernel, o: Operand, w: Width) { o.Reg? ==> RegWidth(k, o.name) == w }
  predicate IsPred(k: Kernel, p: Name) { RegWidth(k, p) == B1 }

  // Amounts past the width act like the width (for shr.s, like width - 1).
  function Clamp(kind: ShiftOp, w: Width, n: nat): nat {
    var top := if kind == ShrS then BitsOf(w) - 1 else BitsOf(w);
    if n < top then n else top
  }

  // A literal shift amount is folded by the compiler from its decimal reading;
  // the interpreter takes the value modulo 2^32. This is exactly when they
  // agree (ShiftLiteralExact).
  predicate ShiftLiteralOk(kind: ShiftOp, w: Width, v: Word, hex: bool) {
    Clamp(kind, w, BaseTen(v, hex)) == Clamp(kind, w, Fit(B32, v))
  }

  // A literal field operand is an i32 in the emitted text.
  predicate FieldOperand(k: Kernel, o: Operand, w: Width) {
    IsInt(k, o) && (o.Imm? && w == B64 ==> o.value < M32)
  }

  predicate SupportedAlu(k: Kernel, dst: Name, op: AluOp) {
    var ty := RegWidth(k, dst);
    match op
    case Mov(w, a) => w == ty != B1 && IsInt(k, a)
    case MovSpecial(i) => ty == B32 && i < 12
    case Add(w, a, b) => w == ty != B1 && IsInt(k, a) && IsInt(k, b)
    case Sub(w, a, b) => w == ty != B1 && IsInt(k, a) && IsInt(k, b)
    case MulLo(w, a, b) => w == ty != B1 && HasWidth(k, a, w) && HasWidth(k, b, w)
    case MadLo(w, a, b, c) => w == ty != B1 && HasWidth(k, a, w) && HasWidth(k, b, w) && HasWidth(k, c, w)
    case Logic(_, w, a, b) => w == ty != B1 && HasWidth(k, a, w) && HasWidth(k, b, w)
    case Not(w, a) => w == ty != B1 && HasWidth(k, a, w)
    case Shift(kind, w, a, b) =>
      w == ty != B1 && HasWidth(k, a, w) && IsInt(k, b) && (b.Imm? ==> ShiftLiteralOk(kind, w, b.value, b.hex))
    case MinMax(_, _, w, a, b) => w == ty != B1 && HasWidth(k, a, w) && HasWidth(k, b, w)
    case Bfi(a, b, pos, len) =>
      ty != B1 && FieldOperand(k, a, ty) && FieldOperand(k, b, ty) && IsInt(k, pos) && IsInt(k, len)
    case Bfe(_, a, pos, len) => ty != B1 && FieldOperand(k, a, ty) && IsInt(k, pos) && IsInt(k, len)
    case Prmt(a, b, c) => ty == B32 && HasWidth(k, a, B32) && HasWidth(k, b, B32) && HasWidth(k, c, B32)
    case Dp4a(_, _, a, b, c) => ty == B32 && HasWidth(k, a, B32) && HasWidth(k, b, B32) && HasWidth(k, c, B32)
    case Dp2a(_, _, _, a, b, c) => ty == B32 && HasWidth(k, a, B32) && HasWidth(k, b, B32) && HasWidth(k, c, B32)
    case Selp(w, a, b, p) => w == ty != B1 && HasWidth(k, a, w) && HasWidth(k, b, w) && IsPred(k, p)
  }

  predicate SupportedPred(k: Kernel, dst: Name, op: PredOp) {
    IsPred(k, dst) &&
    match op
    case Setp(_, _, w, a, b) => w != B1 && HasWidth(k, a, w) && HasWidth(k, b, w)
    case PAnd(x, y, c) => IsPred(k, x) && IsPred(k, y) && (c.Some? ==> IsPred(k, c.value))
    case POr(x, y, c) => IsPred(k, x) && IsPred(k, y) && (c.Some? ==> IsPred(k, c.value))
    case PNot(x, c) => IsPred(k, x) && (c.Some? ==> IsPred(k, c.value))
  }

  predicate GuardOk(k: Kernel, g: Guard) { g.When? ==> IsPred(k, g.p) }

  // Guards reach register writes and branches only: the compiler emits memory
  // accesses, barriers and returns whatever the guard says.
  predicate Supported(k: Kernel, ins: Instr) {
    GuardOk(k, ins.guard) &&
    match ins
    case Alu(_, dst, op) => SupportedAlu(k, dst, op)
    case SetPred(_, dst, op) => SupportedPred(k, dst, op)
    case Load(g, w, dst, addr) =>
      g.Always? && RegWidth(k, addr.base) != B1 && w != B1 &&
      RegWidth(k, dst) != B1 && (w == B64 ==> RegWidth(k, dst) == B64)
    case Store(g, w, addr, src) =>
      g.Always? && RegWidth(k, addr.base) != B1 && w != B1 && src.Reg? && RegWidth(k, src.name) == w
    case Bra(_, _) => true
    case Ret(g) => g.Always?
    case Bar(g) => g.Always?
    case LabelMark(_, _) => true
  }

  // ---- the relation between an interpreter thread and a compiled lane -------------

  function Expected(k: Kernel, t: Thread, r: Name): Word {
    if RegWidth(k, r) == B1 then Truth(PredVal(t, r)) else RegVal(t, r)
  }

  ghost predicate SameRegisters(k: Kernel, t: Thread, s: Lane) {
    && t.special == s.special && |t.special| == 12
    && forall r: Name :: SlotVal(s, r) == Expected(k, t, r) && Expected(k, t, r) < Modulus(RegWidth(k, r))
  }

  // ---- what an emitted expression delivers ---------------------------------------

  // Type-correct, of type w, and free of memory accesses.
  predicate Closed(k: Kernel, e: Exp, w: Width) { WellTyped(k, e) && TypeOf(e) == w && Pure(e) }

  // e is a well-typed expression of width w that runs without poison and yields v.
  predicate Gives(k: Kernel, s: Lane, m: Mem, e: Exp, w: Width, v: int) {
    Closed(k, e, w) && Defined(e, s, m) && Eval(e, s, m) == v
  }

  lemma GivesFits(k: Kernel, s: Lane, m: Mem, e: Exp, w: Width, v: int)
    requires Gives(k, s, m, e, w, v)
    ensures 0 <= v < Modulus(w) <= M64
  { }

  lemma GivesLit(k: Kernel, s: Lane, m: Mem, w: Width, v: int)
    ensures Gives(k, s, m, Lit(w, v), w, Fit(w, v))
  { }

  lemma GivesBin(k: Kernel, s: Lane, m: Mem, op: BinOp, w: Width, a: Exp, x: Word, b: Exp, y: Word)
    requires Gives(k, s, m, a, w, x) && Gives(k, s, m, b, w, y) && BinDefined(op, w, y)
    ensures Gives(k, s, m, Bin(op, w, a, b), w, BinVal(op, w, x, y))
  {
    hide BinVal;
  }

  lemma GivesCmp(k: Kernel, s: Lane, m: Mem, op: CmpOp, w: Width, a: Exp, x: Word, b: Exp, y: Word)
    requires Gives(k, s, m, a, w, x) && Gives(k, s, m, b, w, y)
    ensures Gives(k, s, m, Cmp(op, w, a, b), B1, Truth(CmpVal(op, w, x, y)))
  {
    hide CmpVal;
  }

  lemma GivesSelect(k: Kernel, s: Lane, m: Mem, c: Exp, t: bool, w: Width, a: Exp, x: Word, b: Exp, y: Word)
    requires Gives(k, s, m, c, B1, Truth(t)) && Gives(k, s, m, a, w, x) && Gives(k, s, m, b, w, y)
    ensures Gives(k, s, m, Select(c, w, a, b), w, if t then x else y)
  {
    hide Fit; hide BinVal; hide BinDefined; hide CmpVal; hide MinMaxCallVal; hide ReadLE; hide Mapped; hide Signed;
    GivesFits(k, s, m, a, w, x);
    GivesFits(k, s, m, b, w, y);
    FitSame(w, x);
    FitSame(w, y);
  }

  lemma GivesMinMax(k: Kernel, s: Lane, m: Mem, isMin: bool, signed: bool, w: Width, a: Exp, x: Word, b: Exp, y: Word)
    requires Gives(k, s, m, a, w, x) && Gives(k, s, m, b, w, y)
    ensures Gives(k, s, m, MinMaxCall(isMin, signed, w, a, b), w, MinMaxCallVal(isMin, signed, w, x, y))
  {
    hide Fit; hide BinVal; hide BinDefined; hide CmpVal; hide ReadLE; hide Mapped; hide Signed;
    GivesFits(k, s, m, a, w, x);
    GivesFits(k, s, m, b, w, y);
    FitSame(w, MinMaxCallVal(isMin, signed, w, x, y));
  }

  lemma GivesTrunc(k: Kernel, s: Lane, m: Mem, a: Exp, x: Word)
    requires Gives(k, s, m, a, B64, x)
    ensures Gives(k, s, m, Trunc(B64, a, B32), B32, Fit(B32, x))
  { }

  lemma GivesFitTo(k: Kernel, s: Lane, m: Mem, a: Exp, from: Width, to: Width, x: Word)
    requires Gives(k, s, m, a, from, x)
    ensures Gives(k, s, m, FitTo(a, to), to, Fit(to, x))
  {
    hide Fit; hide BinVal; hide BinDefined; hide CmpVal; hide MinMaxCallVal; hide ReadLE; hide Mapped; hide Signed;
    GivesFits(k, s, m, a, from, x);
    FitSame(from, x);
  }

  // ---- 64-bit nodes ------------------------------------------------------------

  lemma GivesI64(k: Kernel, s: Lane, m: Mem, v: int)
    requires 0 <= v < M64
    ensures Gives(k, s, m, I64(v), B64, v)
  {
    hide Gives;
    GivesLit(k, s, m, B64, v);
  }

  lemma GivesAndOf(k: Kernel, s: Lane, m: Mem, a: Exp, x: Word, b: Exp, y: Word)
    requires Gives(k, s, m, a, B64, x) && Gives(k, s, m, b, B64, y)
    ensures Gives(k, s, m, Op64(IAnd, a, b), B64, And(x, y))
  {
    hide Gives; hide And;
    GivesBin(k, s, m, IAnd, B64, a, x, b, y);
  }

  lemma GivesAnd(k: Kernel, s: Lane, m: Mem, a: Exp, x: Word, v: Word)
    requires Gives(k, s, m, a, B64, x)
    ensures Gives(k, s, m, Op64(IAnd, a, I64(v)), B64, And(x, v))
  {
    hide Gives; hide And;
    GivesI64(k, s, m, v);
    GivesAndOf(k, s, m, a, x, I64(v), v);
  }

  lemma GivesOr(k: Kernel, s: Lane, m: Mem, a: Exp, x: Word, b: Exp, y: Word)
    requires Gives(k, s, m, a, B64, x) && Gives(k, s, m, b, B64, y)
    ensures Or(x, y) < M64 && Gives(k, s, m, Op64(IOr, a, b), B64, Or(x, y))
  {
    hide Gives; hide Or;
    OrFits(B64, x, y);
    GivesBin(k, s, m, IOr, B64, a, x, b, y);
  }

  lemma GivesShr(k: Kernel, s: Lane, m: Mem, a: Exp, x: Word, b: Exp, n: nat)
    requires Gives(k, s, m, a, B64, x) && Gives(k, s, m, b, B64, n) && n < 64
    ensures x / Pow2(n) < M64 && Gives(k, s, m, Op64(ILshr, a, b), B64, x / Pow2(n))
  {
    hide Gives; hide Pow2;
    ShrFits(x, n);
    GivesBin(k, s, m, ILshr, B64, a, x, b, n);
  }

  // ---- operands -------------------------------------------------------------------

  lemma GivesSlot(k: Kernel, t: Thread, s: Lane, m: Mem, r: Name)
    requires SameRegisters(k, t, s)
    ensures Gives(k, s, m, Slot(RegWidth(k, r), r), RegWidth(k, r), Expected(k, t, r))
  {
    assert SlotVal(s, r) == Expected(k, t, r);
  }

  lemma GivesOperand(k: Kernel, t: Thread, s: Lane, m: Mem, o: Operand, w: Width)
    requires SameRegisters(k, t, s) && w != B1 && HasWidth(k, o, w)
    ensures Gives(k, s, m, OperandExp(k, o, w), w, Fit(w, OperandVal(t, o)))
    ensures o.Reg? ==> OperandVal(t, o) < Modulus(w)
  {
    if o.Reg? {
      GivesSlot(k, t, s, m, o.name);
      GivesFits(k, s, m, Slot(w, o.name), w, Expected(k, t, o.name));
    }
  }

  lemma GivesFitSource(k: Kernel, t: Thread, s: Lane, m: Mem, o: Operand, w: Width)
    requires SameRegisters(k, t, s) && w != B1 && IsInt(k, o)
    ensures Gives(k, s, m, FitSource(k, o, w), w, Fit(w, OperandVal(t, o)))
  {
    if o.Reg? {
      hide Gives; hide FitTo;
      GivesSlot(k, t, s, m, o.name);
      GivesFitTo(k, s, m, Slot(RegWidth(k, o.name), o.name), RegWidth(k, o.name), w, OperandVal(t, o));
    }
  }

  // A literal reaches 64-bit arithmetic as a zero-extended i32.
  function Widened(t: Thread, o: Operand): Word {
    if o.Imm? then Fit(B32, o.value) else OperandVal(t, o)
  }

  lemma GivesAsI64(k: Kernel, t: Thread, s: Lane, m: Mem, o: Operand)
    requires SameRegisters(k, t, s) && IsInt(k, o)
    ensures Gives(k, s, m, AsI64(k, o), B64, Widened(t, o))
  {
    hide Gives; hide Fit;
    var v := Widened(t, o);
    FitSame(B64, v);
    match o
    case Imm(n, _) =>
      GivesLit(k, s, m, B32, n);
      GivesFitTo(k, s, m, Lit(B32, n), B32, B64, v);
    case Reg(r) =>
      GivesSlot(k, t, s, m, r);
      GivesFitTo(k, s, m, Slot(RegWidth(k, r), r), RegWidth(k, r), B64, v);
  }

  lemma GivesPred(k: Kernel, t: Thread, s: Lane, m: Mem, p: Name)
    requires SameRegisters(k, t, s) && IsPred(k, p)
    ensures Gives(k, s, m, PredSlot(k, p), B1, Truth(PredVal(t, p)))
  {
    GivesSlot(k, t, s, m, p);
  }
}

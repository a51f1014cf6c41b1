// The fragment of LLVM IR that the ahead-of-time compiler prints. The value of
// an SSA temporary is the expression that defines it, so a temporary is
// modelled by that expression tree; what is left of the text is its lines:
// stores into register slots, memory stores, labels and terminators.
module Ir {
  import opened Bits
  import opened Words
  import opened Machine
  import opened Ptx

  datatype BinOp = IAdd | ISub | IMul | IAnd | IOr | IXor | IShl | ILshr | IAshr
  datatype CmpOp = IEq | INe | IUlt | IUle | IUgt | IUge | ISlt | ISle | ISgt | ISge

  datatype Exp =
    | Slot(w: Width, reg: Name)                       // load from the register's alloca
    | Lit(w: Width, v: int)
    | Bin(op: BinOp, w: Width, a: Exp, b: Exp)
    | Cmp(pred: CmpOp, w: Width, a: Exp, b: Exp)
    | Select(c: Exp, w: Width, a: Exp, b: Exp)
    | Zext(from: Width, a: Exp, to: Width)
    | Trunc(from: Width, a: Exp, to: Width)
    | MinMaxCall(isMin: bool, signed: bool, w: Width, a: Exp, b: Exp)
    | LaunchField(which: nat)                         // i32 field of the launch descriptor
    | LoadMem(w: Width, addr: Exp)

  datatype BlockName = Entry | Named(of: Name) | Anon(n: nat)

  datatype Line =
    | Label(name: BlockName)
    | Assign(w: Width, reg: Name, e: Exp)             // store into the register's alloca
    | StoreMem(w: Width, addr: Exp, v: Exp)
    | SyncThreads
    | Br(target: BlockName)
    | CondBr(c: Exp, yes: BlockName, no: BlockName)
    | RetVoid

  // ---- static typing (what the LLVM verifier checks) -------------------------

  function TypeOf(e: Exp): Width {
    match e
    case Slot(w, _) => w
    case Lit(w, _) => w
    case Bin(_, w, _, _) => w
    case Cmp(_, _, _, _) => B1
    case Select(_, w, _, _) => w
    case Zext(_, _, to) => to
    case Trunc(_, _, to) => to
    case MinMaxCall(_, _, w, _, _) => w
    case LaunchField(_) => B32
    case LoadMem(w, _) => w
  }

  predicate WellTyped(k: Kernel, e: Exp) {
    match e
    case Slot(w, r) => RegWidth(k, r) == w
    case Lit(_, _) => true
    case Bin(_, w, a, b) => WellTyped(k, a) && WellTyped(k, b) && TypeOf(a) == TypeOf(b) == w
    case Cmp(_, w, a, b) => WellTyped(k, a) && WellTyped(k, b) && TypeOf(a) == TypeOf(b) == w
    case Select(c, w, a, b) =>
      WellTyped(k, c) && WellTyped(k, a) && WellTyped(k, b) && TypeOf(c) == B1 && TypeOf(a) == TypeOf(b) == w
    case Zext(from, a, to) => WellTyped(k, a) && TypeOf(a) == from && BitsOf(from) < BitsOf(to)
    case Trunc(from, a, to) => WellTyped(k, a) && TypeOf(a) == from && BitsOf(to) < BitsOf(from)
    case MinMaxCall(_, _, w, a, b) => WellTyped(k, a) && WellTyped(k, b) && TypeOf(a) == TypeOf(b) == w
    case LaunchField(_) => true
    case LoadMem(w, addr) => w != B1 && WellTyped(k, addr) && TypeOf(addr) == B64
  }

  predicate WellTypedLine(k: Kernel, l: Line) {
    match l
    case Assign(w, r, e) => RegWidth(k, r) == w && WellTyped(k, e) && TypeOf(e) == w
    case StoreMem(w, a, v) =>
      w != B1 && WellTyped(k, a) && TypeOf(a) == B64 && WellTyped(k, v) && TypeOf(v) == w
    case CondBr(c, _, _) => WellTyped(k, c) && TypeOf(c) == B1
    case _ => true
  }

  // ---- evaluation -------------------------------------------------------------

  // One lane: its register slots, its position in the text, its launch fields.
  datatype Lane = Lane(slots: map<Name, Word>, pc: nat, special: seq<Word>)

  // Slots are taken to start at zero, as the interpreter reads an unset register.
  function SlotVal(s: Lane, r: Name): Word { if r in s.slots then s.slots[r] else 0 }

  function Truth(b: bool): Word { if b then 1 else 0 }

  function BinVal(op: BinOp, w: Width, x: Word, y: Word): (r: Word)
    ensures r < Modulus(w)
  {
    match op
    case IAdd => Fit(w, x + y)
    case ISub => Fit(w, x - y)
    case IMul => Fit(w, x * y)
    case IAnd => Fit(w, And(x, y))
    case IOr => Fit(w, Or(x, y))
    case IXor => Fit(w, Xor(x, y))
    case IShl => Fit(w, x * Pow2(y))
    case ILshr => Fit(w, x / Pow2(y))
    case IAshr => Fit(w, Signed(w, x) / Pow2(y))
  }

  // A shift by the width or more is poison.
  predicate BinDefined(op: BinOp, w: Width, y: Word) {
    op == IShl || op == ILshr || op == IAshr ==> y < BitsOf(w)
  }

  predicate CmpVal(op: CmpOp, w: Width, x: Word, y: Word) {
    match op
    case IEq => x == y
    case INe => x != y
    case IUlt => x < y
    case IUle => x <= y
    case IUgt => x > y
    case IUge => x >= y
    case ISlt => Signed(w, x) < Signed(w, y)
    case ISle => Signed(w, x) <= Signed(w, y)
    case ISgt => Signed(w, x) > Signed(w, y)
    case ISge => Signed(w, x) >= Signed(w, y)
  }

  // llvm.smin / smax / umin / umax
  function MinMaxCallVal(isMin: bool, signed: bool, w: Width, x: Word, y: Word): Word {
    var less := if signed then Signed(w, x) < Signed(w, y) else x < y;
    if isMin then (if less then x else y) else (if less then y else x)
  }

  function Eval(e: Exp, s: Lane, m: Mem): (r: Word)
    ensures r < Modulus(TypeOf(e))
  {
    match e
    case Slot(w, reg) => Fit(w, SlotVal(s, reg))
    case Lit(w, v) => Fit(w, v)
    case Bin(op, w, a, b) => BinVal(op, w, Eval(a, s, m), Eval(b, s, m))
    case Cmp(op, w, a, b) => Truth(CmpVal(op, w, Eval(a, s, m), Eval(b, s, m)))
    case Select(c, w, a, b) => Fit(w, if Eval(c, s, m) == 1 then Eval(a, s, m) else Eval(b, s, m))
    case Zext(_, a, to) => Fit(to, Eval(a, s, m))
    case Trunc(_, a, to) => Fit(to, Eval(a, s, m))
    case MinMaxCall(isMin, signed, w, a, b) => Fit(w, MinMaxCallVal(isMin, signed, w, Eval(a, s, m), Eval(b, s, m)))
    case LaunchField(i) => if i < |s.special| then Fit(B32, s.special[i]) else 0
    case LoadMem(w, addr) =>
      var a := Eval(addr, s, m);
      if w != B1 && Mapped(m, a, BytesOf(w)) then LoadFits(m, a, w); ReadLE(m, a, BytesOf(w)) else 0
  }

  // No poison and no fault anywhere in the tree: every line of it executes. A
  // load is printed with its natural alignment, so a misaligned one is undefined.
  predicate Defined(e: Exp, s: Lane, m: Mem) {
    match e
    case Slot(_, _) => true
    case Lit(_, _) => true
    case Bin(op, w, a, b) => Defined(a, s, m) && Defined(b, s, m) && BinDefined(op, w, Eval(b, s, m))
    case Cmp(_, _, a, b) => Defined(a, s, m) && Defined(b, s, m)
    case Select(c, _, a, b) => Defined(c, s, m) && Defined(a, s, m) && Defined(b, s, m)
    case Zext(_, a, _) => Defined(a, s, m)
    case Trunc(_, a, _) => Defined(a, s, m)
    case MinMaxCall(_, _, _, a, b) => Defined(a, s, m) && Defined(b, s, m)
    case LaunchField(i) => i < |s.special|
    case LoadMem(w, addr) =>
      Defined(addr, s, m) && w != B1 && Mapped(m, Eval(addr, s, m), BytesOf(w)) && Aligned(Eval(addr, s, m), w)
  }

  // The bytes an expression reads.
  function Sees(e: Exp, s: Lane, m: Mem): set<Word> {
    match e
    case Slot(_, _) => {}
    case Lit(_, _) => {}
    case Bin(_, _, a, b) => Sees(a, s, m) + Sees(b, s, m)
    case Cmp(_, _, a, b) => Sees(a, s, m) + Sees(b, s, m)
    case Select(c, _, a, b) => Sees(c, s, m) + Sees(a, s, m) + Sees(b, s, m)
    case Zext(_, a, _) => Sees(a, s, m)
    case Trunc(_, a, _) => Sees(a, s, m)
    case MinMaxCall(_, _, _, a, b) => Sees(a, s, m) + Sees(b, s, m)
    case LaunchField(_) => {}
    case LoadMem(w, addr) => Sees(addr, s, m) + Span(Eval(addr, s, m), BytesOf(w))
  }

  // Expressions that never touch memory.
  predicate Pure(e: Exp) {
    match e
    case Slot(_, _) => true
    case Lit(_, _) => true
    case Bin(_, _, a, b) => Pure(a) && Pure(b)
    case Cmp(_, _, a, b) => Pure(a) && Pure(b)
    case Select(c, _, a, b) => Pure(c) && Pure(a) && Pure(b)
    case Zext(_, a, _) => Pure(a)
    case Trunc(_, a, _) => Pure(a)
    case MinMaxCall(_, _, _, a, b) => Pure(a) && Pure(b)
    case LaunchField(_) => true
    case LoadMem(_, _) => false
  }

  lemma PureSees(e: Exp, s: Lane, m: Mem)
    requires Pure(e)
    ensures Sees(e, s, m) == {}
  { }

  // ---- running the text ---------------------------------------------------------

  // Position of the first line that defines a block, or |text|.
  function FindLabel(text: seq<Line>, name: BlockName): nat {
    if text == [] then 0
    else if text[0] == Label(name) then 0
    else 1 + FindLabel(text[1..], name)
  }

  function Past(s: Lane): Lane { s.(pc := s.pc + 1) }

  function Jump(text: seq<Line>, s: Lane, name: BlockName): Effect<Lane> {
    var at := FindLabel(text, name);
    if at < |text| then Quiet(Advanced, s.(pc := at)) else Quiet(Failed, s)
  }

  // Execute the line at the lane's position.
  function LineStep(text: seq<Line>, s: Lane, m: Mem): Effect<Lane> {
    if s.pc >= |text| then Quiet(Failed, s)
    else
      match text[s.pc]
      case Label(_) => Quiet(Advanced, Past(s))
      case Assign(_, reg, e) =>
        if Defined(e, s, m) then
          Effect(Advanced, Past(s).(slots := s.slots[reg := Eval(e, s, m)]), Sees(e, s, m), map[])
        else Effect(Failed, s, Sees(e, s, m), map[])
      case StoreMem(w, addr, v) =>
        var a := Eval(addr, s, m);
        var seen := Sees(addr, s, m) + Sees(v, s, m) + Span(a, BytesOf(w));
        if Defined(addr, s, m) && Defined(v, s, m) && Mapped(m, a, BytesOf(w)) && Aligned(a, w) then
          Effect(Advanced, Past(s), seen, WriteLE(a, BytesOf(w), Eval(v, s, m)))
        else Effect(Failed, s, seen, map[])
      case SyncThreads => Quiet(Parked, Past(s))
      case Br(target) => Jump(text, s, target)
      case CondBr(c, yes, no) =>
        if Defined(c, s, m) then
          var j := Jump(text, s, if Eval(c, s, m) == 1 then yes else no);
          j.(sees := Sees(c, s, m))
        else Effect(Failed, s, Sees(c, s, m), map[])
      case RetVoid => Quiet(Finished, s)
  }
}

// One instruction: what the compiler emits against what the interpreter does.
module LoweringCorrect {
  import opened Bits
  import opened Words
  import opened Machine
  import opened Ptx
  import opened Ir
  import opened Lowering
  import opened BitFields
  import opened FieldLowering
  import opened Related
  import opened Shifts
  import opened Packed

  // The expression always runs without poison, also under a false guard where
  // its value is thrown away; it yields the interpreter's value if there is one.
  predicate Delivers(k: Kernel, s: Lane, m: Mem, e: Exp, w: Width, v: Option<Word>) {
    Closed(k, e, w) && Defined(e, s, m) && (v.Some? ==> Eval(e, s, m) == v.value)
  }

  lemma GivesDelivers(k: Kernel, s: Lane, m: Mem, e: Exp, w: Width, x: Word, v: Option<Word>)
    requires Gives(k, s, m, e, w, x) && (v.Some? ==> x == v.value)
    ensures Delivers(k, s, m, e, w, v)
  { }

  // ---- arithmetic -----------------------------------------------------------------

  lemma SumCorrect(k: Kernel, t: Thread, s: Lane, m: Mem, w: Width, a: Operand, b: Operand)
    requires SameRegisters(k, t, s) && w != B1 && IsInt(k, a) && IsInt(k, b)
    ensures Gives(k, s, m, Bin(IAdd, w, FitSource(k, a, w), FitSource(k, b, w)), w, Fit(w, OperandVal(t, a) + OperandVal(t, b)))
    ensures Gives(k, s, m, Bin(ISub, w, FitSource(k, a, w), FitSource(k, b, w)), w, Fit(w, OperandVal(t, a) - OperandVal(t, b)))
  {
    hide Gives; hide Fit; hide FitSource;
    var x, y := OperandVal(t, a), OperandVal(t, b);
    GivesFitSource(k, t, s, m, a, w);
    GivesFitSource(k, t, s, m, b, w);
    GivesBin(k, s, m, IAdd, w, FitSource(k, a, w), Fit(w, x), FitSource(k, b, w), Fit(w, y));
    GivesBin(k, s, m, ISub, w, FitSource(k, a, w), Fit(w, x), FitSource(k, b, w), Fit(w, y));
    AddFit(w, x, y);
  }

  lemma MulCorrect(k: Kernel, t: Thread, s: Lane, m: Mem, w: Width, a: Operand, b: Operand)
    requires SameRegisters(k, t, s) && w != B1 && HasWidth(k, a, w) && HasWidth(k, b, w)
    ensures Gives(k, s, m, Bin(IMul, w, OperandExp(k, a, w), OperandExp(k, b, w)), w,
                  Fit(w, Fit(w, OperandVal(t, a)) * Fit(w, OperandVal(t, b))))
  {
    hide Gives; hide Fit; hide OperandExp;
    GivesOperand(k, t, s, m, a, w);
    GivesOperand(k, t, s, m, b, w);
    GivesBin(k, s, m, IMul, w, OperandExp(k, a, w), Fit(w, OperandVal(t, a)), OperandExp(k, b, w), Fit(w, OperandVal(t, b)));
  }

  lemma MadCorrect(k: Kernel, t: Thread, s: Lane, m: Mem, w: Width, a: Operand, b: Operand, c: Operand)
    requires SameRegisters(k, t, s) && w != B1 && HasWidth(k, a, w) && HasWidth(k, b, w) && HasWidth(k, c, w)
    ensures Gives(k, s, m, Bin(IAdd, w, Bin(IMul, w, OperandExp(k, a, w), OperandExp(k, b, w)), OperandExp(k, c, w)), w,
                  Fit(w, Fit(w, OperandVal(t, a)) * Fit(w, OperandVal(t, b)) + OperandVal(t, c)))
  {
    hide Gives; hide Fit; hide OperandExp;
    var p, xy := Bin(IMul, w, OperandExp(k, a, w), OperandExp(k, b, w)), Fit(w, OperandVal(t, a)) * Fit(w, OperandVal(t, b));
    MulCorrect(k, t, s, m, w, a, b);
    GivesOperand(k, t, s, m, c, w);
    GivesBin(k, s, m, IAdd, w, p, Fit(w, xy), OperandExp(k, c, w), Fit(w, OperandVal(t, c)));
    AddFit(w, xy, OperandVal(t, c));
  }

  lemma LogicCorrect(k: Kernel, t: Thread, s: Lane, m: Mem, op: LogicOp, w: Width, a: Operand, b: Operand)
    requires SameRegisters(k, t, s) && w != B1 && HasWidth(k, a, w) && HasWidth(k, b, w)
    ensures Gives(k, s, m, Bin(LogicOpOf(op), w, OperandExp(k, a, w), OperandExp(k, b, w)), w,
                  Fit(w, Combined(op, OperandVal(t, a), OperandVal(t, b))))
  {
    hide Gives; hide Fit; hide OperandExp; hide BinVal; hide And; hide Or; hide Xor;
    var x, y := OperandVal(t, a), OperandVal(t, b);
    GivesOperand(k, t, s, m, a, w);
    GivesOperand(k, t, s, m, b, w);
    GivesBin(k, s, m, LogicOpOf(op), w, OperandExp(k, a, w), Fit(w, x), OperandExp(k, b, w), Fit(w, y));
    LogicFit(op, w, x, y);
  }

  lemma NotCorrect(k: Kernel, t: Thread, s: Lane, m: Mem, w: Width, a: Operand)
    requires SameRegisters(k, t, s) && w != B1 && HasWidth(k, a, w)
    ensures Gives(k, s, m, Bin(IXor, w, OperandExp(k, a, w), Lit(w, -1)), w, Fit(w, Not64(OperandVal(t, a))))
  {
    hide Gives; hide Fit; hide OperandExp; hide BinVal; hide Not64;
    var x := OperandVal(t, a);
    GivesOperand(k, t, s, m, a, w);
    GivesLit(k, s, m, w, -1);
    GivesBin(k, s, m, IXor, w, OperandExp(k, a, w), Fit(w, x), Lit(w, -1), Fit(w, -1));
    NotFit(w, x);
  }

  // ---- minimum, maximum, comparison ---------------------------------------------------

  lemma SignedOfFit(w: Width, x: Word)
    ensures Signed(w, Fit(w, x)) == Signed(w, x)
    ensures Fit(w, Signed(w, x)) == Fit(w, x)
  {
    var y := Fit(w, x);
    FitSame(w, y);
    if y >= Modulus(w) / 2 { ModShift(y, -1, Modulus(w)); }
  }

  // The signed reading loses nothing.
  lemma SignedInjective(w: Width, x: Word, y: Word)
    requires x < Modulus(w) && y < Modulus(w) && Signed(w, x) == Signed(w, y)
    ensures x == y
  {
    hide Signed;
    SignedOfFit(w, x);
    SignedOfFit(w, y);
    FitSame(w, x);
    FitSame(w, y);
  }

  lemma MinMaxAgree(isMin: bool, signed: bool, w: Width, a: Word, b: Word)
    ensures MinMaxCallVal(isMin, signed, w, Fit(w, a), Fit(w, b)) == MinMaxVal(isMin, signed, w, a, b)
  {
    hide Signed; hide Fit;
    SignedOfFit(w, a);
    SignedOfFit(w, b);
    FitSame(w, Fit(w, a));
    FitSame(w, Fit(w, b));
    if Signed(w, a) == Signed(w, b) { SignedInjective(w, Fit(w, a), Fit(w, b)); }
  }

  lemma MinMaxCorrect(k: Kernel, t: Thread, s: Lane, m: Mem, isMin: bool, signed: bool, w: Width, a: Operand, b: Operand)
    requires SameRegisters(k, t, s) && w != B1 && HasWidth(k, a, w) && HasWidth(k, b, w)
    ensures Gives(k, s, m, MinMaxCall(isMin, signed, w, OperandExp(k, a, w), OperandExp(k, b, w)), w,
                  MinMaxVal(isMin, signed, w, OperandVal(t, a), OperandVal(t, b)))
  {
    hide Gives; hide Fit; hide OperandExp; hide MinMaxVal; hide MinMaxCallVal;
    var x, y := OperandVal(t, a), OperandVal(t, b);
    GivesOperand(k, t, s, m, a, w);
    GivesOperand(k, t, s, m, b, w);
    GivesMinMax(k, s, m, isMin, signed, w, OperandExp(k, a, w), Fit(w, x), OperandExp(k, b, w), Fit(w, y));
    MinMaxAgree(isMin, signed, w, x, y);
  }

  // The six conditions; any other one is an error in the interpreter.
  lemma CompareAgree(c: Cond, signed: bool, w: Width, a: Word, b: Word)
    ensures CompareVal(c, signed, w, a, b).Some? <==> c != OtherCond
    ensures c != OtherCond ==>
      CompareVal(c, signed, w, a, b).value == CmpVal(CmpOpOf(c, signed), w, Fit(w, a), Fit(w, b))
  {
    hide Signed; hide Fit;
    SignedOfFit(w, a);
    SignedOfFit(w, b);
  }

  // ---- bit fields -------------------------------------------------------------------------

  lemma GivesNarrow(k: Kernel, s: Lane, m: Mem, w: Width, e: Exp, x: Word)
    requires Gives(k, s, m, e, B64, x) && w != B1
    ensures Gives(k, s, m, Narrow(w == B64, e), w, Fit(w, x))
  {
    hide Gives; hide Fit;
    FitSame(B64, x);
    if w == B32 { GivesTrunc(k, s, m, e, x); }
  }

  // Only the low w bits of the operands matter to either form.
  lemma LowBitsOnly(w: Width, x: Word, y: Word, j: nat)
    requires Fit(w, x) == Fit(w, y) && j < BitsOf(w)
    ensures Bit(x, j) == Bit(y, j)
  {
    ModulusIsPow2(w);
    BitMod(x, BitsOf(w), j);
    BitMod(y, BitsOf(w), j);
  }

  lemma BfiOfFit(w: Width, a: Word, a': Word, b: Word, b': Word, pos: Word, pos': Word, len: Word, len': Word)
    requires w != B1 && Fit(w, a) == Fit(w, a') && Fit(w, b) == Fit(w, b')
    requires pos % 256 == pos' % 256 && len % 256 == len' % 256
    ensures BfiVal(w, a, b, pos, len) == BfiVal(w, a', b', pos', len')
  {
    hide Fit; hide Bit; hide BfiVal;
    forall j: nat ensures Bit(BfiVal(w, a, b, pos, len), j) == Bit(BfiVal(w, a', b', pos', len'), j) {
      BfiValBit(w, a, b, pos, len, j);
      BfiValBit(w, a', b', pos', len', j);
      if j < BitsOf(w) {
        LowBitsOnly(w, b, b', j);
        if pos % 256 <= j { LowBitsOnly(w, a, a', j - pos % 256); }
      }
    }
    BitsDecide(BfiVal(w, a, b, pos, len), BfiVal(w, a', b', pos', len'));
  }

  lemma BfeOfFit(w: Width, signed: bool, a: Word, a': Word, pos: Word, pos': Word, len: Word, len': Word)
    requires w != B1 && Fit(w, a) == Fit(w, a')
    requires pos % 256 == pos' % 256 && len % 256 == len' % 256
    ensures BfeVal(w, signed, a, pos, len) == BfeVal(w, signed, a', pos', len')
  {
    hide Fit; hide Bit; hide BfeVal;
    var p, l, bits := pos % 256, len % 256, BitsOf(w);
    forall j: nat ensures Bit(BfeVal(w, signed, a, pos, len), j) == Bit(BfeVal(w, signed, a', pos', len'), j) {
      BfeValBit(w, signed, a, pos, len, j);
      BfeValBit(w, signed, a', pos', len', j);
      if p + j < bits { LowBitsOnly(w, a, a', p + j); }
      if l > 0 { LowBitsOnly(w, a, a', Min(p + l, bits) - 1); }
    }
    BitsDecide(BfeVal(w, signed, a, pos, len), BfeVal(w, signed, a', pos', len'));
  }

  // A field operand survives the detour through i64: its w low bits are intact.
  lemma WidenedLow(k: Kernel, t: Thread, o: Operand, w: Width)
    requires w != B1 && FieldOperand(k, o, w)
    ensures Fit(w, Widened(t, o)) == Fit(w, OperandVal(t, o))
  {
    if o.Imm? && w == B32 { FitSame(B32, Fit(B32, o.value)); }
  }

  lemma WidenedByte(t: Thread, o: Operand)
    ensures Widened(t, o) % 256 == OperandVal(t, o) % 256
  {
    if o.Imm? {
      var v := o.value;
      assert v == (v / M32 * (M32 / 256)) * 256 + v % M32;
      ModShift(v % M32, v / M32 * (M32 / 256), 256);
    }
  }

  lemma BfiCorrect(k: Kernel, t: Thread, s: Lane, m: Mem, w: Width, a: Operand, b: Operand, pos: Operand, len: Operand)
    requires SameRegisters(k, t, s) && w != B1 && FieldOperand(k, a, w) && FieldOperand(k, b, w) && IsInt(k, pos) && IsInt(k, len)
    ensures Gives(k, s, m, Narrow(w == B64, LowerBfi(w == B64, AsI64(k, a), AsI64(k, b), AsI64(k, pos), AsI64(k, len))), w,
                  BfiVal(w, OperandVal(t, a), OperandVal(t, b), OperandVal(t, pos), OperandVal(t, len)))
  {
    hide Gives; hide Fit; hide AsI64; hide LowerBfi; hide BfiMasks; hide BfiVal; hide OperandVal; hide Widened; hide Narrow;
    GivesAsI64(k, t, s, m, a);
    GivesAsI64(k, t, s, m, b);
    GivesAsI64(k, t, s, m, pos);
    GivesAsI64(k, t, s, m, len);
    var x, y, p, l := Widened(t, a), Widened(t, b), Widened(t, pos), Widened(t, len);
    GivesBfi(k, s, m, w == B64, AsI64(k, a), x, AsI64(k, b), y, AsI64(k, pos), p, AsI64(k, len), l);
    GivesNarrow(k, s, m, w, LowerBfi(w == B64, AsI64(k, a), AsI64(k, b), AsI64(k, pos), AsI64(k, len)),
                BfiMasks(WordBits(w == B64), x, y, p % 256, l % 256));
    BfiAgree(w, x, y, p, l);
    WidenedLow(k, t, a, w);
    WidenedLow(k, t, b, w);
    WidenedByte(t, pos);
    WidenedByte(t, len);
    BfiOfFit(w, x, OperandVal(t, a), y, OperandVal(t, b), p, OperandVal(t, pos), l, OperandVal(t, len));
  }

  lemma BfeCorrect(k: Kernel, t: Thread, s: Lane, m: Mem, w: Width, signed: bool, a: Operand, pos: Operand, len: Operand)
    requires SameRegisters(k, t, s) && w != B1 && FieldOperand(k, a, w) && IsInt(k, pos) && IsInt(k, len)
    ensures Gives(k, s, m, Narrow(w == B64, LowerBfe(w == B64, signed, AsI64(k, a), AsI64(k, pos), AsI64(k, len))), w,
                  BfeVal(w, signed, OperandVal(t, a), OperandVal(t, pos), OperandVal(t, len)))
  {
    hide Gives; hide Fit; hide AsI64; hide LowerBfe; hide BfeMasks; hide BfeVal; hide OperandVal; hide Widened; hide Narrow;
    GivesAsI64(k, t, s, m, a);
    GivesAsI64(k, t, s, m, pos);
    GivesAsI64(k, t, s, m, len);
    var x, p, l := Widened(t, a), Widened(t, pos), Widened(t, len);
    GivesBfe(k, s, m, w == B64, signed, AsI64(k, a), x, AsI64(k, pos), p, AsI64(k, len), l);
    GivesNarrow(k, s, m, w, LowerBfe(w == B64, signed, AsI64(k, a), AsI64(k, pos), AsI64(k, len)),
                BfeMasks(WordBits(w == B64), signed, x, p % 256, l % 256));
    BfeAgree(w, signed, x, p, l);
    WidenedLow(k, t, a, w);
    WidenedByte(t, pos);
    WidenedByte(t, len);
    BfeOfFit(w, signed, x, OperandVal(t, a), p, OperandVal(t, pos), l, OperandVal(t, len));
  }

  lemma SelpCorrect(k: Kernel, t: Thread, s: Lane, m: Mem, w: Width, a: Operand, b: Operand, p: Name)
    requires SameRegisters(k, t, s) && w != B1 && HasWidth(k, a, w) && HasWidth(k, b, w) && IsPred(k, p)
    ensures Gives(k, s, m, Select(Slot(B1, p), w, OperandExp(k, a, w), OperandExp(k, b, w)), w,
                  Fit(w, if PredVal(t, p) then OperandVal(t, a) else OperandVal(t, b)))
  {
    hide Gives; hide Fit; hide OperandExp;
    GivesOperand(k, t, s, m, a, w);
    GivesOperand(k, t, s, m, b, w);
    GivesPred(k, t, s, m, p);
    GivesSelect(k, s, m, Slot(B1, p), PredVal(t, p), w, OperandExp(k, a, w), Fit(w, OperandVal(t, a)),
                OperandExp(k, b, w), Fit(w, OperandVal(t, b)));
  }

  lemma SpecialCorrect(k: Kernel, t: Thread, s: Lane, m: Mem, i: nat)
    requires SameRegisters(k, t, s) && i < 12
    ensures Gives(k, s, m, LaunchField(i), B32, Fit(B32, t.special[i]))
  { }

  // Every supported ALU instruction yields the interpreter's value.
  lemma AluCorrect(k: Kernel, t: Thread, s: Lane, m: Mem, dst: Name, op: AluOp)
    requires SameRegisters(k, t, s) && SupportedAlu(k, dst, op)
    ensures Delivers(k, s, m, LowerAlu(k, dst, op), RegWidth(k, dst), AluVal(k, t, dst, op))
  {
    hide Gives; hide Delivers; hide Fit; hide FitSource; hide OperandExp; hide AsI64; hide LowerShift; hide ShiftVal;
    hide LowerBfi; hide LowerBfe; hide BfiVal; hide BfeVal; hide Dp4aSum; hide Dp2aSum; hide LowerDot4; hide LowerDot2;
    hide LowerPrmt; hide PrmtBytes; hide MinMaxVal; hide Not64; hide And; hide Or; hide Xor; hide Narrow; hide ShiftLiteralOk;
    hide FieldOperand; hide HasWidth; hide SameRegisters; hide OperandVal; hide Combined;
    var w, e, v := RegWidth(k, dst), LowerAlu(k, dst, op), AluVal(k, t, dst, op);
    match op
    case Mov(_, a) => GivesFitSource(k, t, s, m, a, w); GivesDelivers(k, s, m, e, w, v.value, v);
    case MovSpecial(i) => SpecialKnown(k, t, s); SpecialCorrect(k, t, s, m, i); GivesDelivers(k, s, m, e, w, v.value, v);
    case Add(_, a, b) => SumCorrect(k, t, s, m, w, a, b); GivesDelivers(k, s, m, e, w, v.value, v);
    case Sub(_, a, b) => SumCorrect(k, t, s, m, w, a, b); GivesDelivers(k, s, m, e, w, v.value, v);
    case MulLo(_, a, b) => MulCorrect(k, t, s, m, w, a, b); GivesDelivers(k, s, m, e, w, v.value, v);
    case MadLo(_, a, b, c) => MadCorrect(k, t, s, m, w, a, b, c); GivesDelivers(k, s, m, e, w, v.value, v);
    case Logic(l, _, a, b) => LogicCorrect(k, t, s, m, l, w, a, b); GivesDelivers(k, s, m, e, w, v.value, v);
    case Not(_, a) => NotCorrect(k, t, s, m, w, a); GivesDelivers(k, s, m, e, w, v.value, v);
    case Shift(kind, _, a, b) => ShiftCorrect(k, t, s, m, kind, w, a, b); GivesDelivers(k, s, m, e, w, v.value, v);
    case MinMax(isMin, signed, _, a, b) => MinMaxCorrect(k, t, s, m, isMin, signed, w, a, b); GivesDelivers(k, s, m, e, w, v.value, v);
    case Bfi(a, b, pos, len) => BfiCorrect(k, t, s, m, w, a, b, pos, len); GivesDelivers(k, s, m, e, w, v.value, v);
    case Bfe(signed, a, pos, len) => BfeCorrect(k, t, s, m, w, signed, a, pos, len); GivesDelivers(k, s, m, e, w, v.value, v);
    case Prmt(a, b, c) =>
      PrmtCorrect(k, t, s, m, a, b, c);
      GivesDelivers(k, s, m, e, w, Permuted(OperandVal(t, a), OperandVal(t, b), OperandVal(t, c)), v);
    case Dp4a(aS, bS, a, b, c) => Dp4aCorrect(k, t, s, m, aS, bS, a, b, c); GivesDelivers(k, s, m, e, w, v.value, v);
    case Dp2a(low, aS, bS, a, b, c) => Dp2aCorrect(k, t, s, m, low, aS, bS, a, b, c); GivesDelivers(k, s, m, e, w, v.value, v);
    case Selp(_, a, b, p) => SelpCorrect(k, t, s, m, w, a, b, p); GivesDelivers(k, s, m, e, w, v.value, v);
  }

  lemma SpecialKnown(k: Kernel, t: Thread, s: Lane)
    requires SameRegisters(k, t, s)
    ensures |t.special| == 12
  { }

  // ---- predicates -----------------------------------------------------------------------

  function TruthOf(v: Option<bool>): Option<Word> { if v.None? then None else Some(Truth(v.value)) }

  lemma TruthLogic(p: bool, q: bool)
    ensures BinVal(IAnd, B1, Truth(p), Truth(q)) == Truth(p && q)
    ensures BinVal(IOr, B1, Truth(p), Truth(q)) == Truth(p || q)
    ensures BinVal(IXor, B1, Truth(p), Truth(q)) == Truth(p != q)
  { }

  lemma GivesLogic(k: Kernel, s: Lane, m: Mem, a: Exp, p: bool, b: Exp, q: bool)
    requires Gives(k, s, m, a, B1, Truth(p)) && Gives(k, s, m, b, B1, Truth(q))
    ensures Gives(k, s, m, Bin(IAnd, B1, a, b), B1, Truth(p && q))
    ensures Gives(k, s, m, Bin(IOr, B1, a, b), B1, Truth(p || q))
    ensures Gives(k, s, m, Bin(IXor, B1, a, b), B1, Truth(p != q))
  {
    hide Gives; hide BinVal;
    TruthLogic(p, q);
    GivesBin(k, s, m, IAnd, B1, a, Truth(p), b, Truth(q));
    GivesBin(k, s, m, IOr, B1, a, Truth(p), b, Truth(q));
    GivesBin(k, s, m, IXor, B1, a, Truth(p), b, Truth(q));
  }

  lemma GivesTrue(k: Kernel, s: Lane, m: Mem)
    ensures Gives(k, s, m, True1(), B1, Truth(true))
  { }

  predicate ThirdVal(t: Thread, c: Option<Name>) { c.None? || PredVal(t, c.value) }

  lemma GivesThird(k: Kernel, t: Thread, s: Lane, m: Mem, c: Option<Name>)
    requires SameRegisters(k, t, s) && (c.Some? ==> IsPred(k, c.value))
    ensures Gives(k, s, m, ThirdPred(k, c), B1, Truth(ThirdVal(t, c)))
    ensures Gives(k, s, m, Bin(IXor, B1, ThirdPred(k, c), True1()), B1, Truth(!ThirdVal(t, c)))
  {
    hide Gives; hide True1; hide PredSlot;
    GivesTrue(k, s, m);
    if c.Some? { GivesPred(k, t, s, m, c.value); }
    GivesLogic(k, s, m, ThirdPred(k, c), ThirdVal(t, c), True1(), true);
  }

  lemma SetpCorrect(k: Kernel, t: Thread, s: Lane, m: Mem, c: Cond, signed: bool, w: Width, a: Operand, b: Operand)
    requires SameRegisters(k, t, s) && w != B1 && HasWidth(k, a, w) && HasWidth(k, b, w)
    ensures Delivers(k, s, m, Cmp(CmpOpOf(c, signed), w, OperandExp(k, a, w), OperandExp(k, b, w)), B1,
                     TruthOf(CompareVal(c, signed, w, OperandVal(t, a), OperandVal(t, b))))
  {
    hide Gives; hide Fit; hide OperandExp; hide CmpVal; hide CompareVal; hide Delivers;
    var x, y := OperandVal(t, a), OperandVal(t, b);
    GivesOperand(k, t, s, m, a, w);
    GivesOperand(k, t, s, m, b, w);
    var op := CmpOpOf(c, signed);
    GivesCmp(k, s, m, op, w, OperandExp(k, a, w), Fit(w, x), OperandExp(k, b, w), Fit(w, y));
    CompareAgree(c, signed, w, x, y);
    GivesDelivers(k, s, m, Cmp(op, w, OperandExp(k, a, w), OperandExp(k, b, w)), B1, Truth(CmpVal(op, w, Fit(w, x), Fit(w, y))),
                  TruthOf(CompareVal(c, signed, w, x, y)));
  }

  lemma PredCorrect(k: Kernel, t: Thread, s: Lane, m: Mem, dst: Name, op: PredOp)
    requires SameRegisters(k, t, s) && SupportedPred(k, dst, op)
    ensures Delivers(k, s, m, LowerPred(k, op), B1, TruthOf(PredResult(t, op)))
  {
    hide Gives; hide Delivers; hide OperandExp; hide CompareVal; hide PredSlot; hide ThirdPred; hide True1; hide SameRegisters;
    var e, v := LowerPred(k, op), TruthOf(PredResult(t, op));
    match op
    case Setp(c, signed, w, a, b) => SetpCorrect(k, t, s, m, c, signed, w, a, b);
    case PAnd(x, y, c) =>
      GivesPair(k, t, s, m, x, y);
      GivesThird(k, t, s, m, c);
      GivesLogic(k, s, m, Bin(IAnd, B1, PredSlot(k, x), PredSlot(k, y)), PredVal(t, x) && PredVal(t, y),
                 Bin(IXor, B1, ThirdPred(k, c), True1()), !ThirdVal(t, c));
      GivesDelivers(k, s, m, e, B1, v.value, v);
    case POr(x, y, c) =>
      GivesPair(k, t, s, m, x, y);
      GivesThird(k, t, s, m, c);
      GivesLogic(k, s, m, Bin(IOr, B1, PredSlot(k, x), PredSlot(k, y)), PredVal(t, x) || PredVal(t, y),
                 Bin(IXor, B1, ThirdPred(k, c), True1()), !ThirdVal(t, c));
      GivesDelivers(k, s, m, e, B1, v.value, v);
    case PNot(x, c) =>
      GivesPred(k, t, s, m, x);
      GivesThird(k, t, s, m, c);
      GivesLogic(k, s, m, PredSlot(k, x), PredVal(t, x), ThirdPred(k, c), ThirdVal(t, c));
      GivesDelivers(k, s, m, e, B1, v.value, v);
  }

  lemma GivesPair(k: Kernel, t: Thread, s: Lane, m: Mem, x: Name, y: Name)
    requires SameRegisters(k, t, s) && IsPred(k, x) && IsPred(k, y)
    ensures Gives(k, s, m, Bin(IAnd, B1, PredSlot(k, x), PredSlot(k, y)), B1, Truth(PredVal(t, x) && PredVal(t, y)))
    ensures Gives(k, s, m, Bin(IOr, B1, PredSlot(k, x), PredSlot(k, y)), B1, Truth(PredVal(t, x) || PredVal(t, y)))
  {
    hide Gives;
    GivesPred(k, t, s, m, x);
    GivesPred(k, t, s, m, y);
    GivesLogic(k, s, m, PredSlot(k, x), PredVal(t, x), PredSlot(k, y), PredVal(t, y));
  }

  lemma GivesGuard(k: Kernel, t: Thread, s: Lane, m: Mem, g: Guard)
    requires SameRegisters(k, t, s) && g.When? && GuardOk(k, g)
    ensures Gives(k, s, m, GuardExp(k, g), B1, Truth(GuardHolds(t, g)))
  {
    hide Gives; hide True1; hide PredSlot;
    GivesPred(k, t, s, m, g.p);
    GivesTrue(k, s, m);
    GivesLogic(k, s, m, PredSlot(k, g.p), PredVal(t, g.p), True1(), true);
  }

  // ---- register writes under a guard -----------------------------------------------------

  function Assigned(t: Thread, s: Lane, v: Word, r: Name): Lane { Past(s).(slots := s.slots[r := v]) }

  lemma StoreRegStep(k: Kernel, t: Thread, text: seq<Line>, s: Lane, m: Mem, g: Guard, dst: Name, e: Exp, v: Option<Word>)
    requires SameRegisters(k, t, s) && GuardOk(k, g)
    requires Delivers(k, s, m, e, RegWidth(k, dst), v) && (GuardHolds(t, g) ==> v.Some?)
    requires s.pc < |text| && text[s.pc] == StoreReg(k, g, dst, e)
    ensures WellTypedLine(k, text[s.pc])
    ensures LineStep(text, s, m) == Effect(Advanced, Assigned(t, s, if GuardHolds(t, g) then v.value else Expected(k, t, dst), dst), {}, map[])
  {
    hide Delivers; hide Gives; hide SameRegisters; hide GuardExp; hide Expected;
    var w := RegWidth(k, dst);
    GivesSlot(k, t, s, m, dst);
    DeliversGives(k, s, m, e, w, v);
    match g
    case Always => AssignStep(k, text, s, m, w, dst, e, v.value);
    case When(_, _) =>
      GivesGuard(k, t, s, m, g);
      GivesSelect(k, s, m, GuardExp(k, g), GuardHolds(t, g), w, e, Eval(e, s, m), Slot(w, dst), Expected(k, t, dst));
      AssignStep(k, text, s, m, w, dst, Select(GuardExp(k, g), w, e, Slot(w, dst)),
                 if GuardHolds(t, g) then v.value else Expected(k, t, dst));
  }

  lemma DeliversGives(k: Kernel, s: Lane, m: Mem, e: Exp, w: Width, v: Option<Word>)
    requires Delivers(k, s, m, e, w, v)
    ensures Gives(k, s, m, e, w, Eval(e, s, m)) && (v.Some? ==> Eval(e, s, m) == v.value)
  { }

  lemma AssignStep(k: Kernel, text: seq<Line>, s: Lane, m: Mem, w: Width, dst: Name, e: Exp, v: Word)
    requires Gives(k, s, m, e, w, v) && w == RegWidth(k, dst)
    requires s.pc < |text| && text[s.pc] == Assign(w, dst, e)
    ensures WellTypedLine(k, text[s.pc])
    ensures LineStep(text, s, m) == Effect(Advanced, Past(s).(slots := s.slots[dst := v]), {}, map[])
  {
    hide Eval; hide Defined; hide WellTyped; hide TypeOf;
    PureSees(e, s, m);
  }

  // Writing the same word on both sides keeps the registers related.
  lemma WriteRegister(k: Kernel, t: Thread, s: Lane, dst: Name, v: Word)
    requires SameRegisters(k, t, s) && RegWidth(k, dst) != B1 && v < Modulus(RegWidth(k, dst))
    ensures SameRegisters(k, Next(t).(regs := t.regs[dst := v]), Assigned(t, s, v, dst))
  {
    var t', s' := Next(t).(regs := t.regs[dst := v]), Assigned(t, s, v, dst);
    forall r: Name ensures SlotVal(s', r) == Expected(k, t', r) && Expected(k, t', r) < Modulus(RegWidth(k, r)) {
      assert SlotVal(s, r) == Expected(k, t, r);
    }
  }

  lemma WritePredicate(k: Kernel, t: Thread, s: Lane, dst: Name, v: bool)
    requires SameRegisters(k, t, s) && RegWidth(k, dst) == B1
    ensures SameRegisters(k, Next(t).(preds := t.preds[dst := v]), Assigned(t, s, Truth(v), dst))
  {
    var t', s' := Next(t).(preds := t.preds[dst := v]), Assigned(t, s, Truth(v), dst);
    forall r: Name ensures SlotVal(s', r) == Expected(k, t', r) && Expected(k, t', r) < Modulus(RegWidth(k, r)) {
      assert SlotVal(s, r) == Expected(k, t, r);
    }
  }

  lemma WriteNothing(k: Kernel, t: Thread, s: Lane, dst: Name)
    requires SameRegisters(k, t, s)
    ensures SameRegisters(k, Next(t), Assigned(t, s, Expected(k, t, dst), dst))
  {
    var s' := Assigned(t, s, Expected(k, t, dst), dst);
    forall r: Name ensures SlotVal(s', r) == Expected(k, Next(t), r) && Expected(k, Next(t), r) < Modulus(RegWidth(k, r)) {
      assert SlotVal(s, r) == Expected(k, t, r);
    }
  }

  // ---- memory --------------------------------------------------------------------------------

  lemma AddressCorrect(k: Kernel, t: Thread, s: Lane, m: Mem, a: Address)
    requires SameRegisters(k, t, s) && RegWidth(k, a.base) != B1
    ensures Gives(k, s, m, AddressExp(k, a), B64, AddressVal(t, a))
  {
    hide Gives; hide Fit; hide FitTo;
    var base := RegVal(t, a.base);
    GivesSlot(k, t, s, m, a.base);
    GivesFitTo(k, s, m, Slot(RegWidth(k, a.base), a.base), RegWidth(k, a.base), B64, base);
    FitSame(B64, base);
    match a
    case Plain(_) =>
    case Offset(_, _, off) =>
      GivesLit(k, s, m, B64, off);
      FitSame(B64, off);
      GivesBin(k, s, m, IAdd, B64, FitTo(Slot(RegWidth(k, a.base), a.base), B64), base, I64(off), off);
  }

  // A load widened to the destination's type.
  function LoadedExp(k: Kernel, w: Width, dst: Name, addr: Exp): Exp {
    if w == B64 then LoadMem(w, addr) else FitTo(LoadMem(w, addr), RegWidth(k, dst))
  }

  // e is well typed of width w, runs, yields v and reads exactly the bytes `seen`.
  predicate Reads(k: Kernel, s: Lane, m: Mem, e: Exp, w: Width, v: int, seen: set<Word>) {
    WellTyped(k, e) && TypeOf(e) == w && Defined(e, s, m) && Eval(e, s, m) == v && Sees(e, s, m) == seen
  }

  lemma ReadsMemory(k: Kernel, s: Lane, m: Mem, w: Width, addr: Exp, a: Word)
    requires Gives(k, s, m, addr, B64, a) && w != B1 && Mapped(m, a, BytesOf(w)) && Aligned(a, w)
    ensures Reads(k, s, m, LoadMem(w, addr), w, ReadLE(m, a, BytesOf(w)), Span(a, BytesOf(w)))
    ensures ReadLE(m, a, BytesOf(w)) < Modulus(w) <= M64
  {
    hide Aligned; hide ReadLE; hide Mapped; hide Span;
    LoadFits(m, a, w);
    PureSees(addr, s, m);
    assert {} + Span(a, BytesOf(w)) == Span(a, BytesOf(w));
  }

  lemma ReadsWider(k: Kernel, s: Lane, m: Mem, e: Exp, from: Width, w: Width, v: int, seen: set<Word>)
    requires Reads(k, s, m, e, from, v, seen) && BitsOf(from) <= BitsOf(w) && 0 <= v < Modulus(from)
    ensures Reads(k, s, m, FitTo(e, w), w, v, seen)
  {
    FitSame(w, v);
  }

  lemma LoadStep(k: Kernel, text: seq<Line>, s: Lane, m: Mem, w: Width, dst: Name, addr: Exp, a: Word)
    requires Gives(k, s, m, addr, B64, a) && w != B1 && Mapped(m, a, BytesOf(w)) && Aligned(a, w)
    requires RegWidth(k, dst) != B1 && (w == B64 ==> RegWidth(k, dst) == B64)
    requires s.pc < |text| && text[s.pc] == Assign(RegWidth(k, dst), dst, LoadedExp(k, w, dst, addr))
    ensures WellTypedLine(k, text[s.pc])
    ensures ReadLE(m, a, BytesOf(w)) < Modulus(w) <= Modulus(RegWidth(k, dst)) <= M64
    ensures LineStep(text, s, m) ==
            Effect(Advanced, Past(s).(slots := s.slots[dst := ReadLE(m, a, BytesOf(w))]), Span(a, BytesOf(w)), map[])
  {
    hide Aligned; hide ReadLE; hide Mapped; hide Span; hide FitTo; hide Eval; hide Defined; hide WellTyped; hide TypeOf; hide Sees;
    var v, seen := ReadLE(m, a, BytesOf(w)), Span(a, BytesOf(w));
    ReadsMemory(k, s, m, w, addr, a);
    if w == B32 { ReadsWider(k, s, m, LoadMem(w, addr), w, RegWidth(k, dst), v, seen); }
  }

  lemma StoreStep(k: Kernel, text: seq<Line>, s: Lane, m: Mem, w: Width, addr: Exp, a: Word, src: Exp, v: Word)
    requires Gives(k, s, m, addr, B64, a) && Gives(k, s, m, src, w, v) && w != B1 && Mapped(m, a, BytesOf(w)) && Aligned(a, w)
    requires s.pc < |text| && text[s.pc] == StoreMem(w, addr, src)
    ensures WellTypedLine(k, text[s.pc])
    ensures LineStep(text, s, m) == Effect(Advanced, Past(s), Span(a, BytesOf(w)), WriteLE(a, BytesOf(w), v))
  {
    hide Aligned; hide Mapped; hide Span; hide WriteLE; hide Eval; hide Defined; hide WellTyped;
    PureSees(addr, s, m);
    PureSees(src, s, m);
    assert {} + {} + Span(a, BytesOf(w)) == Span(a, BytesOf(w));
  }

  // ---- one instruction -----------------------------------------------------------------------

  predicate StraightLine(ins: Instr) { ins.Alu? || ins.SetPred? || ins.Load? || ins.Store? || ins.Bar? }

  // The emitted line does to the lane what the interpreter's step does to the
  // thread: the same kind of progress, related registers, the same bytes read
  // and the same bytes written.
  ghost predicate Matches(k: Kernel, want: Effect<Thread>, got: Effect<Lane>) {
    && got.kind == want.kind && got.sees == want.sees && got.writes == want.writes
    && SameRegisters(k, want.s, got.s)
  }

  lemma AluStep(k: Kernel, t: Thread, text: seq<Line>, s: Lane, m: Mem, g: Guard, dst: Name, op: AluOp)
    requires SameRegisters(k, t, s) && GuardOk(k, g) && SupportedAlu(k, dst, op)
    requires s.pc < |text| && text[s.pc] == StoreReg(k, g, dst, LowerAlu(k, dst, op))
    requires GuardHolds(t, g) ==> AluVal(k, t, dst, op).Some?
    ensures WellTypedLine(k, text[s.pc])
    ensures Matches(k, if GuardHolds(t, g) then Perform(k, t, Alu(g, dst, op), m) else Quiet(Advanced, Next(t)), LineStep(text, s, m))
    ensures LineStep(text, s, m).s.pc == s.pc + 1
  {
    hide LineStep; hide SupportedAlu; hide AluVal; hide LowerAlu; hide StoreReg; hide SameRegisters; hide Delivers; hide GuardHolds; hide Expected;
    var v := AluVal(k, t, dst, op);
    AluCorrect(k, t, s, m, dst, op);
    StoreRegStep(k, t, text, s, m, g, dst, LowerAlu(k, dst, op), v);
    if GuardHolds(t, g) {
      SupportedIsInt(k, dst, op);
      DeliversFits(k, s, m, LowerAlu(k, dst, op), RegWidth(k, dst), v);
      WriteRegister(k, t, s, dst, v.value);
    } else {
      WriteNothing(k, t, s, dst);
    }
  }

  lemma SupportedIsInt(k: Kernel, dst: Name, op: AluOp)
    requires SupportedAlu(k, dst, op)
    ensures RegWidth(k, dst) != B1
  { }

  lemma DeliversFits(k: Kernel, s: Lane, m: Mem, e: Exp, w: Width, v: Option<Word>)
    requires Delivers(k, s, m, e, w, v) && v.Some?
    ensures v.value < Modulus(w)
  { }

  lemma SetPredStep(k: Kernel, t: Thread, text: seq<Line>, s: Lane, m: Mem, g: Guard, dst: Name, op: PredOp)
    requires SameRegisters(k, t, s) && GuardOk(k, g) && SupportedPred(k, dst, op)
    requires s.pc < |text| && text[s.pc] == StoreReg(k, g, dst, LowerPred(k, op))
    requires GuardHolds(t, g) ==> PredResult(t, op).Some?
    ensures WellTypedLine(k, text[s.pc])
    ensures Matches(k, if GuardHolds(t, g) then Perform(k, t, SetPred(g, dst, op), m) else Quiet(Advanced, Next(t)), LineStep(text, s, m))
    ensures LineStep(text, s, m).s.pc == s.pc + 1
  {
    hide LineStep; hide PredResult; hide LowerPred; hide StoreReg; hide SameRegisters; hide Delivers; hide GuardHolds; hide Expected;
    PredCorrect(k, t, s, m, dst, op);
    StoreRegStep(k, t, text, s, m, g, dst, LowerPred(k, op), TruthOf(PredResult(t, op)));
    if GuardHolds(t, g) {
      WritePredicate(k, t, s, dst, PredResult(t, op).value);
    } else {
      WriteNothing(k, t, s, dst);
    }
  }

  lemma LoadInstrStep(k: Kernel, t: Thread, text: seq<Line>, s: Lane, m: Mem, ins: Instr)
    requires SameRegisters(k, t, s) && ins.Load? && Supported(k, ins)
    requires s.pc < |text| && [text[s.pc]] == LowerInstr(k, ins)
    requires Perform(k, t, ins, m).kind == Advanced && Aligned(AddressVal(t, ins.addr), ins.w)
    ensures WellTypedLine(k, text[s.pc])
    ensures Matches(k, Perform(k, t, ins, m), LineStep(text, s, m))
    ensures LineStep(text, s, m).s.pc == s.pc + 1
  {
    hide Aligned; hide LineStep; hide AddressExp; hide AddressVal; hide SameRegisters; hide ReadLE; hide Mapped; hide Span; hide FitTo;
    var w, dst, a := ins.w, ins.dst, AddressVal(t, ins.addr);
    AddressCorrect(k, t, s, m, ins.addr);
    assert text[s.pc] == LowerInstr(k, ins)[0];
    LoadStep(k, text, s, m, w, dst, AddressExp(k, ins.addr), a);
    WriteRegister(k, t, s, dst, ReadLE(m, a, BytesOf(w)));
  }

  lemma StoreInstrStep(k: Kernel, t: Thread, text: seq<Line>, s: Lane, m: Mem, ins: Instr)
    requires SameRegisters(k, t, s) && ins.Store? && Supported(k, ins)
    requires s.pc < |text| && [text[s.pc]] == LowerInstr(k, ins)
    requires Perform(k, t, ins, m).kind == Advanced && Aligned(AddressVal(t, ins.addr), ins.w)
    ensures WellTypedLine(k, text[s.pc])
    ensures Matches(k, Perform(k, t, ins, m), LineStep(text, s, m))
    ensures LineStep(text, s, m).s.pc == s.pc + 1
  {
    hide Aligned; hide LineStep; hide AddressExp; hide AddressVal; hide SameRegisters; hide WriteLE; hide Mapped; hide Span; hide OperandExp;
    AddressCorrect(k, t, s, m, ins.addr);
    assert text[s.pc] == LowerInstr(k, ins)[0];
    GivesOperand(k, t, s, m, ins.src, ins.w);
    FitSame(ins.w, RegVal(t, ins.src.name));
    StoreStep(k, text, s, m, ins.w, AddressExp(k, ins.addr), AddressVal(t, ins.addr), OperandExp(k, ins.src, ins.w), RegVal(t, ins.src.name));
    SameMoved(k, t, s);
  }

  lemma SameMoved(k: Kernel, t: Thread, s: Lane)
    requires SameRegisters(k, t, s)
    ensures forall n: nat, i: nat :: SameRegisters(k, t.(pc := n), s.(pc := i))
  {
    forall n: nat, i: nat ensures SameRegisters(k, t.(pc := n), s.(pc := i)) {
      forall r: Name ensures SlotVal(s.(pc := i), r) == Expected(k, t.(pc := n), r) && Expected(k, t, r) < Modulus(RegWidth(k, r)) {
        assert SlotVal(s, r) == Expected(k, t, r);
      }
    }
  }

  // The line emitted for a supported instruction simulates the interpreter's step.
  lemma InstrCorrect(k: Kernel, t: Thread, text: seq<Line>, s: Lane, m: Mem)
    requires SameRegisters(k, t, s) && t.pc < |k.body| && StraightLine(k.body[t.pc]) && Supported(k, k.body[t.pc])
    requires s.pc < |text| && [text[s.pc]] == LowerInstr(k, k.body[t.pc])
    requires Step(k, t, m).kind != Failed && AccessAligned(k, t)
    ensures WellTypedLine(k, text[s.pc])
    ensures Matches(k, Step(k, t, m), LineStep(text, s, m))
    ensures LineStep(text, s, m).s.pc == s.pc + 1 && Step(k, t, m).s.pc == t.pc + 1
  {
    hide LowerAlu; hide LowerPred; hide StoreReg; hide SameRegisters; hide AluVal; hide PredResult; hide SupportedAlu; hide SupportedPred;
    var ins := k.body[t.pc];
    assert text[s.pc] == LowerInstr(k, ins)[0];
    match ins
    case Alu(g, dst, op) => AluStep(k, t, text, s, m, g, dst, op);
    case SetPred(g, dst, op) => SetPredStep(k, t, text, s, m, g, dst, op);
    case Load(_, _, _, _) => LoadInstrStep(k, t, text, s, m, ins);
    case Store(_, _, _, _) => StoreInstrStep(k, t, text, s, m, ins);
    case Bar(_) => SameMoved(k, t, s);
  }
}

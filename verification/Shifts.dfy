// Shifts and bitwise logic: the clamps, folds and masks of the emitted code
// against the interpreter's arithmetic.
module Shifts {
  import opened Bits
  import opened Words
  import opened Machine
  import opened Ptx
  import opened Ir
  import opened Lowering
  import opened BitFields
  import opened Related

  // ---- arithmetic facts ---------------------------------------------------------------

  lemma AddFit(w: Width, a: int, b: int)
    ensures Fit(w, Fit(w, a) + Fit(w, b)) == Fit(w, a + b)
    ensures Fit(w, Fit(w, a) - Fit(w, b)) == Fit(w, a - b)
    ensures Fit(w, Fit(w, a) + b) == Fit(w, a + b)
  {
    var m := Modulus(w);
    var p, q := a / m, b / m;
    assert a == p * m + a % m && b == q * m + b % m;
    ModShift(a % m + b % m, p + q, m);
    ModShift(a % m - b % m, p - q, m);
    ModShift(a % m + b, p, m);
    assert (p + q) * m == p * m + q * m && (p - q) * m == p * m - q * m;
  }

  lemma MulFit(w: Width, a: int, b: int)
    ensures Fit(w, Fit(w, a) * Fit(w, b)) == Fit(w, a * b)
  {
    AddMulMod(a, b, 0, Modulus(w));
  }

  lemma FloorOfComplement(u: nat, p: nat)
    requires p > 0
    ensures (-(u + 1)) / p == -(u / p) - 1
    ensures u / p <= u
  {
    var q, r := u / p, u % p;
    assert u == q * p + r;
    assert (-q - 1) * p == -(q * p) - p;
    DivUnique(-(u + 1), p, -q - 1, p - 1 - r);
    if q > u { MulAtLeast(p, q); }
  }

  lemma FitShift(w: Width, x: int)
    ensures Fit(w, x + Modulus(w)) == Fit(w, x)
  {
    ModShift(x, 1, Modulus(w));
  }

  // The complement form of the arithmetic shift is division rounding down.
  lemma SarIsDivision(w: Width, x: Word, n: nat)
    requires x < Modulus(w) && w != B1
    ensures SarVal(w, x, n) == Fit(w, Signed(w, x) / Pow2(n))
  {
    hide Pow2; hide Signed; hide Fit;
    var p, mod := Pow2(n), Modulus(w);
    FitSame(w, x);
    SignedOfLarge(w, x);
    if x >= mod / 2 {
      var u := mod - 1 - x;
      FloorOfComplement(u, p);
      FitShift(w, -(u / p) - 1);
    } else {
      FitSame(w, RShift(x, n));
    }
  }

  lemma SignedOfLarge(w: Width, x: Word)
    requires x < Modulus(w)
    ensures Signed(w, x) == if x >= Modulus(w) / 2 then -(Modulus(w) - 1 - x + 1) else x
  { }

  // Shifting by width-1 arithmetically copies the sign over the word.
  lemma SignFill(w: Width, x: Word)
    requires x < Modulus(w) && w != B1
    ensures Fit(w, Signed(w, x) / Pow2(BitsOf(w) - 1)) == if x >= Modulus(w) / 2 then Modulus(w) - 1 else 0
  {
    ModulusIsPow2(w);
    var h := Pow2(BitsOf(w) - 1);
    assert Modulus(w) == 2 * h;
    if x >= Modulus(w) / 2 {
      DivUnique(x - Modulus(w), h, -1, x - h);
    } else {
      DivUnique(x, h, 0, x);
    }
  }

  lemma AndLow(w: Width, x: Word)
    requires w != B1
    ensures And(x, BitsOf(w) - 1) == x % BitsOf(w)
  {
    var k := if w == B32 then 5 else 6;
    assert Pow2(5) == 32 && Pow2(6) == 64;
    AndOnes(x, k);
  }

  // ---- bitwise logic ---------------------------------------------------------------------

  // Words agree modulo the width when their low bits do.
  lemma SameLowBits(w: Width, x: nat, y: nat)
    requires forall j: nat :: j < BitsOf(w) ==> Bit(x, j) == Bit(y, j)
    ensures Fit(w, x) == Fit(w, y)
  {
    hide Pow2; hide Bit;
    ModulusIsPow2(w);
    var n := BitsOf(w);
    forall j: nat ensures Bit(x % Pow2(n), j) == Bit(y % Pow2(n), j) {
      BitMod(x, n, j);
      BitMod(y, n, j);
    }
    BitsDecide(x % Pow2(n), y % Pow2(n));
  }

  lemma BitOfFit(w: Width, x: nat, j: nat)
    requires j < BitsOf(w)
    ensures Bit(Fit(w, x), j) == Bit(x, j)
  {
    hide Pow2; hide Bit;
    ModulusIsPow2(w);
    BitMod(x, BitsOf(w), j);
  }

  lemma BitCombined(op: LogicOp, x: nat, y: nat, j: nat)
    ensures Bit(Combined(op, x, y), j) ==
            match op case LAnd => Bit(x, j) && Bit(y, j) case LOr => Bit(x, j) || Bit(y, j) case LXor => Bit(x, j) != Bit(y, j)
  {
    hide Bit; hide And; hide Or; hide Xor;
    BitAnd(x, y, j);
    BitOr(x, y, j);
    BitXor(x, y, j);
  }

  lemma LogicFit(op: LogicOp, w: Width, x: Word, y: Word)
    ensures BinVal(LogicOpOf(op), w, Fit(w, x), Fit(w, y)) == Fit(w, Combined(op, x, y))
  {
    hide Bit; hide And; hide Or; hide Xor; hide Fit;
    var l, r := Combined(op, Fit(w, x), Fit(w, y)), Combined(op, x, y);
    forall j: nat | j < BitsOf(w) ensures Bit(l, j) == Bit(r, j) {
      BitOfFit(w, x, j);
      BitOfFit(w, y, j);
      BitCombined(op, x, y, j);
      BitCombined(op, Fit(w, x), Fit(w, y), j);
    }
    SameLowBits(w, l, r);
  }

  lemma BitAllOnes(w: Width, j: nat)
    requires j < BitsOf(w)
    ensures Bit(Fit(w, -1), j)
  {
    hide Bit; hide Pow2;
    ModulusIsPow2(w);
    BitOnes(BitsOf(w), j);
  }

  lemma NotFit(w: Width, x: Word)
    ensures BinVal(IXor, w, Fit(w, x), Fit(w, -1)) == Fit(w, Not64(x))
  {
    hide Bit; hide Xor; hide Fit; hide Not64;
    var l := Xor(Fit(w, x), Fit(w, -1));
    forall j: nat | j < BitsOf(w) ensures Bit(l, j) == Bit(Not64(x), j) {
      BitXor(Fit(w, x), Fit(w, -1), j);
      BitOfFit(w, x, j);
      BitAllOnes(w, j);
      BitNot64(x, j);
    }
    SameLowBits(w, l, Not64(x));
  }

  // ---- shifts --------------------------------------------------------------------------------

  // What a shift by an amount c means, for c up to the width.
  function ShiftAt(kind: ShiftOp, w: Width, x: Word, c: nat): Word
  {
    match kind
    case Shl => Fit(w, x * Pow2(c))
    case ShrU => Fit(w, x / Pow2(c))
    case ShrS => Fit(w, Signed(w, x) / Pow2(c))
  }

  lemma ShiftMeaning(kind: ShiftOp, w: Width, a: Word, b: Word)
    requires w != B1
    ensures ShiftVal(kind, w, a, b) == ShiftAt(kind, w, Fit(w, a), Clamp(kind, w, Fit(B32, b)))
  {
    hide Pow2; hide Fit; hide ShiftAt; hide SarVal;
    var n := Fit(B32, b);
    if n < BitsOf(w) {
      ShiftInside(kind, w, a, n);
      assert Clamp(kind, w, n) == n;
    } else {
      ShiftPast(kind, w, Fit(w, a));
      assert Clamp(kind, w, n) == Clamp(kind, w, BitsOf(w));
    }
  }

  lemma ShiftInside(kind: ShiftOp, w: Width, a: Word, n: nat)
    requires w != B1
    ensures ShiftAt(kind, w, Fit(w, a), n) ==
            match kind
            case Shl => Fit(w, a * Pow2(n))
            case ShrU => RShift(Fit(w, a), n)
            case ShrS => SarVal(w, a, n)
  {
    hide Pow2; hide Fit; hide SarVal; hide Signed;
    var x := Fit(w, a);
    FitSame(w, x);
    match kind
    case Shl =>
      MulFit(w, a, Pow2(n));
      MulFit(w, x, Pow2(n));
    case ShrU =>
      FloorOfComplement(x, Pow2(n));
      FitSame(w, x / Pow2(n));
    case ShrS =>
      SarIsDivision(w, x, n);
      SarOfFit(w, a, n);
  }

  lemma SarOfFit(w: Width, a: Word, n: nat)
    ensures SarVal(w, a, n) == SarVal(w, Fit(w, a), n)
  {
    hide Fit;
    FitSame(w, Fit(w, a));
  }

  // Shifting everything out.
  lemma ShiftPast(kind: ShiftOp, w: Width, x: Word)
    requires w != B1 && x < Modulus(w)
    ensures ShiftAt(kind, w, x, Clamp(kind, w, BitsOf(w))) ==
            if kind == ShrS && x >= Modulus(w) / 2 then Modulus(w) - 1 else 0
  {
    ModulusIsPow2(w);
    match kind
    case Shl => ModShift(0, x, Modulus(w));
    case ShrU => DivUnique(x, Modulus(w), 0, x);
    case ShrS => SignFill(w, x);
  }

  lemma BinIsShiftAt(kind: ShiftOp, w: Width, x: Word, c: nat)
    requires c < M64
    ensures BinVal(ShiftOpOf(kind), w, x, c) == ShiftAt(kind, w, x, c)
  { }

  lemma AndOfZero(w: Width, x: Word)
    ensures BinVal(IAnd, w, x, 0) == 0
  {
    assert And(x, 0) == 0;
  }

  // A shift by a legal constant amount.
  lemma GivesShiftBy(k: Kernel, s: Lane, m: Mem, kind: ShiftOp, w: Width, a: Exp, x: Word, b: Exp, c: nat)
    requires Gives(k, s, m, a, w, x) && Gives(k, s, m, b, w, c) && c < BitsOf(w)
    ensures Gives(k, s, m, Bin(ShiftOpOf(kind), w, a, b), w, ShiftAt(kind, w, x, c))
  {
    hide Gives; hide BinVal; hide ShiftAt;
    GivesBin(k, s, m, ShiftOpOf(kind), w, a, x, b, c);
    BinIsShiftAt(kind, w, x, c);
  }

  // The saturated result: all ones or zero by the sign for shr.s, else zero.
  lemma GivesSignFill(k: Kernel, s: Lane, m: Mem, w: Width, a: Exp, x: Word)
    requires Gives(k, s, m, a, w, x) && w != B1
    ensures Gives(k, s, m, Bin(IAshr, w, a, Lit(w, BitsOf(w) - 1)), w, ShiftAt(ShrS, w, x, BitsOf(w) - 1))
  {
    hide Gives; hide BinVal; hide ShiftAt; hide Fit;
    GivesLit(k, s, m, w, BitsOf(w) - 1);
    FitSame(w, BitsOf(w) - 1);
    GivesShiftBy(k, s, m, ShrS, w, a, x, Lit(w, BitsOf(w) - 1), BitsOf(w) - 1);
  }

  // The value of the folded shift, whatever the literal.
  lemma LiteralFold(k: Kernel, kind: ShiftOp, w: Width, a: Exp, x: Word, v: Word, hex: bool, s: Lane, m: Mem)
    requires w != B1 && Gives(k, s, m, a, w, x)
    ensures Gives(k, s, m, LowerShift(k, kind, w, a, Imm(v, hex)), w, ShiftAt(kind, w, x, Clamp(kind, w, BaseTen(v, hex))))
  {
    hide Gives; hide ShiftAt; hide BinVal; hide Fit;
    GivesFits(k, s, m, a, w, x);
    var raw := BaseTen(v, hex);
    if raw < BitsOf(w) {
      FitSame(w, raw);
      GivesLit(k, s, m, w, raw);
      GivesShiftBy(k, s, m, kind, w, a, x, Lit(w, raw), raw);
      assert Clamp(kind, w, raw) == raw;
    } else {
      assert Clamp(kind, w, raw) == Clamp(kind, w, BitsOf(w));
      if kind == ShrS {
        GivesSignFill(k, s, m, w, a, x);
      } else {
        ShiftPast(kind, w, x);
        FitSame(w, 0);
        GivesLit(k, s, m, w, 0);
        AndOfZero(w, x);
        GivesBin(k, s, m, IAnd, w, a, x, Lit(w, 0), 0);
      }
    }
  }

  // The condition on literals is exact: outside it some operand tells the
  // folded shift and the interpreter's apart.
  lemma ShiftLiteralExact(k: Kernel, kind: ShiftOp, w: Width, v: Word, hex: bool)
    requires w != B1
    ensures ShiftLiteralOk(kind, w, v, hex) <==>
            forall x: Word | x < Modulus(w) ::
              Eval(LowerShift(k, kind, w, Lit(w, x), Imm(v, hex)), Lane(map[], 0, []), map[]) == ShiftVal(kind, w, x, v)
  {
    hide ShiftVal; hide ShiftAt; hide LowerShift; hide Fit;
    var c, d := Clamp(kind, w, BaseTen(v, hex)), Clamp(kind, w, Fit(B32, v));
    var s, m := Lane(map[], 0, []), map[];
    forall x: Word | x < Modulus(w)
      ensures Eval(LowerShift(k, kind, w, Lit(w, x), Imm(v, hex)), s, m) == ShiftAt(kind, w, x, c)
      ensures ShiftVal(kind, w, x, v) == ShiftAt(kind, w, x, d)
    {
      FitSame(w, x);
      GivesLit(k, s, m, w, x);
      LiteralFold(k, kind, w, Lit(w, x), x, v, hex, s, m);
      ShiftMeaning(kind, w, x, v);
    }
    if c != d {
      var x := Telltale(kind, w);
      if c < d { Tells(kind, w, c, d); } else { Tells(kind, w, d, c); }
      assert ShiftAt(kind, w, x, c) != ShiftAt(kind, w, x, d);
    }
  }

  // In terms of the spelling: a hexadecimal amount is read as zero, so it is right
  // only for zero; a decimal one below 2^32 is always right.
  lemma LiteralSpelling(kind: ShiftOp, w: Width, v: Word, hex: bool)
    requires w != B1
    ensures hex ==> (ShiftLiteralOk(kind, w, v, hex) <==> v % M32 == 0)
    ensures !hex && v < M32 ==> ShiftLiteralOk(kind, w, v, hex)
  { }

  // An operand every amount moves to a different place.
  function Telltale(kind: ShiftOp, w: Width): (x: Word)
    requires w != B1
    ensures x < Modulus(w)
  {
    match kind case Shl => 1 case ShrU => Modulus(w) - 1 case ShrS => Modulus(w) / 2 - 1
  }

  lemma Tells(kind: ShiftOp, w: Width, c: nat, d: nat)
    requires w != B1 && c < d == Clamp(kind, w, d)
    ensures ShiftAt(kind, w, Telltale(kind, w), c) != ShiftAt(kind, w, Telltale(kind, w), d)
  {
    hide Pow2; hide Fit; hide ShiftAt;
    if kind == Shl { OneMoves(w, c, d); } else {
      var n := if kind == ShrS then BitsOf(w) - 1 else BitsOf(w);
      HalfModulus(w);
      OnesMove(kind, w, n, c);
      OnesMove(kind, w, n, d);
      Pow2Strict(n - d, n - c);
    }
  }

  lemma OneMoves(w: Width, c: nat, d: nat)
    requires c < d <= BitsOf(w)
    ensures ShiftAt(Shl, w, 1, c) != ShiftAt(Shl, w, 1, d)
  {
    hide Pow2;
    ModulusIsPow2(w);
    Pow2Strict(c, BitsOf(w));
    if d < BitsOf(w) { Pow2Strict(c, d); Pow2Strict(d, BitsOf(w)); }
  }

  lemma OnesMove(kind: ShiftOp, w: Width, n: nat, c: nat)
    requires kind != Shl && w != B1 && c <= n == (if kind == ShrS then BitsOf(w) - 1 else BitsOf(w))
    ensures ShiftAt(kind, w, Telltale(kind, w), c) == Pow2(n - c) - 1
  {
    hide Pow2; hide Fit; hide Signed;
    HalfModulus(w);
    OnesShr(n, c);
    Pow2Mono(n - c, n);
    FitSame(w, Pow2(n - c) - 1);
    SignedOfLarge(w, Telltale(kind, w));
  }

  lemma HalfModulus(w: Width)
    requires w != B1
    ensures Modulus(w) / 2 == Pow2(BitsOf(w) - 1) && Modulus(w) == Pow2(BitsOf(w))
  {
    ModulusIsPow2(w);
  }

  lemma OnesShr(n: nat, c: nat)
    requires c <= n
    ensures (Pow2(n) - 1) / Pow2(c) == Pow2(n - c) - 1
  {
    Pow2Add(n - c, c);
    assert Pow2(n) - 1 == (Pow2(n - c) - 1) * Pow2(c) + (Pow2(c) - 1);
    DivUnique(Pow2(n) - 1, Pow2(c), Pow2(n - c) - 1, Pow2(c) - 1);
  }

  // The in-range amount: the register's low five or six bits.
  lemma GivesAmount(k: Kernel, s: Lane, m: Mem, w: Width, b32: Exp, n: Word)
    requires Gives(k, s, m, b32, B32, n) && w != B1
    ensures Gives(k, s, m, Bin(IAnd, w, FitTo(b32, w), Lit(w, BitsOf(w) - 1)), w, n % BitsOf(w))
  {
    hide Gives; hide FitTo; hide Fit; hide And;
    GivesFits(k, s, m, b32, B32, n);
    FitSame(w, n);
    GivesFitTo(k, s, m, b32, B32, w, n);
    FitSame(w, BitsOf(w) - 1);
    GivesLit(k, s, m, w, BitsOf(w) - 1);
    GivesBin(k, s, m, IAnd, w, FitTo(b32, w), n, Lit(w, BitsOf(w) - 1), BitsOf(w) - 1);
    AndLow(w, n);
    FitSame(w, n % BitsOf(w));
  }

  lemma ShiftRegister(k: Kernel, s: Lane, m: Mem, kind: ShiftOp, w: Width, a: Exp, x: Word, r: Name, n: Word)
    requires w != B1 && Gives(k, s, m, a, w, x)
    requires Gives(k, s, m, FitTo(Slot(RegWidth(k, r), r), B32), B32, n)
    ensures Gives(k, s, m, LowerShift(k, kind, w, a, Reg(r)), w, ShiftAt(kind, w, x, Clamp(kind, w, n)))
  {
    hide Gives; hide FitTo; hide Fit; hide BinVal; hide ShiftAt;
    var b32 := FitTo(Slot(RegWidth(k, r), r), B32);
    var bits, low := BitsOf(w), n % BitsOf(w);
    GivesAmount(k, s, m, w, b32, n);
    var amt := Bin(IAnd, w, FitTo(b32, w), Lit(w, bits - 1));
    GivesShiftBy(k, s, m, kind, w, a, x, amt, low);
    GivesLit(k, s, m, B32, bits);
    FitSame(B32, bits);
    GivesCmp(k, s, m, IUge, B32, b32, n, Lit(B32, bits), bits);
    GivesSaturated(k, s, m, kind, w, a, x);
    var sat := if kind == ShrS then Bin(IAshr, w, a, Lit(w, bits - 1)) else Lit(w, 0);
    GivesSelect(k, s, m, Cmp(IUge, B32, b32, Lit(B32, bits)), n >= bits, w,
                sat, ShiftAt(kind, w, x, Clamp(kind, w, bits)), Bin(ShiftOpOf(kind), w, a, amt), ShiftAt(kind, w, x, low));
  }

  lemma GivesSaturated(k: Kernel, s: Lane, m: Mem, kind: ShiftOp, w: Width, a: Exp, x: Word)
    requires w != B1 && Gives(k, s, m, a, w, x)
    ensures Gives(k, s, m, if kind == ShrS then Bin(IAshr, w, a, Lit(w, BitsOf(w) - 1)) else Lit(w, 0), w,
                  ShiftAt(kind, w, x, Clamp(kind, w, BitsOf(w))))
  {
    hide Gives; hide Fit; hide BinVal; hide ShiftAt;
    if kind == ShrS {
      GivesSignFill(k, s, m, w, a, x);
    } else {
      GivesFits(k, s, m, a, w, x);
      ShiftPast(kind, w, x);
      FitSame(w, 0);
      GivesLit(k, s, m, w, 0);
    }
  }

  // Shift lowering agrees with the interpreter for every operand and amount.
  lemma ShiftCorrect(k: Kernel, t: Thread, s: Lane, m: Mem, kind: ShiftOp, w: Width, a: Operand, b: Operand)
    requires SameRegisters(k, t, s) && w != B1 && HasWidth(k, a, w) && IsInt(k, b)
    requires b.Imm? ==> ShiftLiteralOk(kind, w, b.value, b.hex)
    ensures Gives(k, s, m, LowerShift(k, kind, w, OperandExp(k, a, w), b), w, ShiftVal(kind, w, OperandVal(t, a), OperandVal(t, b)))
  {
    hide Gives; hide Fit; hide ShiftVal; hide ShiftAt; hide LowerShift; hide OperandExp;
    var x := Fit(w, OperandVal(t, a));
    GivesOperand(k, t, s, m, a, w);
    ShiftMeaning(kind, w, OperandVal(t, a), OperandVal(t, b));
    match b
    case Imm(v, hex) => LiteralFold(k, kind, w, OperandExp(k, a, w), x, v, hex, s, m);
    case Reg(r) =>
      GivesSlot(k, t, s, m, r);
      GivesFitTo(k, s, m, Slot(RegWidth(k, r), r), RegWidth(k, r), B32, RegVal(t, r));
      ShiftRegister(k, s, m, kind, w, OperandExp(k, a, w), x, r, Fit(B32, RegVal(t, r)));
  }
}

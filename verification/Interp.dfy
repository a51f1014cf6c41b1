// The reference interpreter as it runs: a thread state updated in place by
// RunThreadStep, with the bit and byte loops of the source.
module Interp {
  import opened Bits
  import opened Words
  import opened Machine
  import opened Ptx
  import opened BitFields
  import opened BytePermute

  // bfi: copy the low bits of a over b, one at a time.
  method InsertField(w: Width, a: Word, b: Word, pos: Word, len: Word) returns (r: Word)
    requires w != B1
    ensures r == BfiVal(w, a, b, pos, len)
    ensures forall j: nat :: Bit(r, j) == BfiBit(BitsOf(w), a, b, pos % 256, len % 256, j)
  {
    var p, l, msb := pos % 256, len % 256, BitsOf(w) - 1;
    var f := b;
    var i: nat := 0;
    while i < l && p + i <= msb
      invariant BfiLoop(a, b, p, l, msb, 0) == BfiLoop(a, f, p, l, msb, i)
      decreases l - i
    {
      f := PutBit(f, p + i, BitVal(a, i));
      i := i + 1;
    }
    r := Fit(w, f);
    forall j: nat ensures Bit(r, j) == BfiBit(BitsOf(w), a, b, pos % 256, len % 256, j) { BfiValBit(w, a, b, pos, len, j); }
  }

  // bfe: collect the field's bits, then the sign.
  method ExtractField(w: Width, signed: bool, a: Word, pos: Word, len: Word) returns (r: Word)
    requires w != B1
    ensures r == BfeVal(w, signed, a, pos, len)
    ensures forall j: nat :: Bit(r, j) == BfeBit(BitsOf(w), signed, a, pos % 256, len % 256, j)
  {
    hide Pow2; hide Or; hide Bit; hide BitVal; hide BfeBit;
    var p, l, msb := pos % 256, len % 256, BitsOf(w) - 1;
    if l == 0 {
      r := 0;
    } else {
      var top := if p + l - 1 <= msb then p + l - 1 else msb;
      var sbit := if signed then BitVal(a, top) else 0;
      var d: nat := 0;
      var i: nat := 0;
      while i <= msb
        invariant BfeLoop(a, p, l, msb, sbit, 0, 0) == BfeLoop(a, p, l, msb, sbit, d, i)
        decreases msb + 1 - i
      {
        var bit := if i < l && p + i <= msb then BitVal(a, p + i) else sbit;
        d := Or(d, LShift(bit, i));
        i := i + 1;
      }
      r := Fit(w, d);
    }
    forall j: nat ensures Bit(r, j) == BfeBit(BitsOf(w), signed, a, pos % 256, len % 256, j) { BfeValBit(w, signed, a, pos, len, j); }
  }

  method Permute(a: Word, b: Word, c: Word) returns (r: Option<Word>)
    ensures r == PrmtVal(a, b, c)
    ensures r.None? <==> (Fit(B32, c) / 65536) % 16 != 0
    ensures r.Some? ==> forall j: nat :: j < 4 ==> ByteNo(r.value, j) == PermutedByte(Fit(B32, a), Fit(B32, b), Fit(B32, c), j)
  {
    forall j: nat | j < 4 ensures
      PrmtVal(a, b, c).Some? ==> ByteNo(PrmtVal(a, b, c).value, j) == PermutedByte(Fit(B32, a), Fit(B32, b), Fit(B32, c), j)
    {
      PrmtMeaning(a, b, c, j);
    }
    PrmtMeaning(a, b, c, 0);
    hide ByteNo; hide PermutedByte;
    var x, y, z := Fit(B32, a), Fit(B32, b), Fit(B32, c);
    if And(z / 65536, 15) != 0 { return None; }
    var src := Pair64(x, y);
    var packed: nat := 0;
    var i := 0;
    while i < 4
      invariant i <= 4 && packed == PrmtBytes(src, z, i)
    {
      packed := Or(packed, LShift(PrmtByte(src, Selector(z, i)), 8 * i));
      i := i + 1;
    }
    r := Some(Fit(B32, packed));
  }

  method Dot4(aS: bool, bS: bool, a: Word, b: Word, c: Word) returns (r: Word)
    ensures r == Fit(B32, c + Dp4aSum(aS, bS, a, b, 4))
  {
    var sum: int := c;
    var i := 0;
    while i < 4
      invariant i <= 4 && sum == c + Dp4aSum(aS, bS, a, b, i)
    {
      sum := sum + LaneVal(a, 8, i, aS) * LaneVal(b, 8, i, bS);
      i := i + 1;
    }
    r := Fit(B32, sum);
  }

  method Dot2(low: bool, aS: bool, bS: bool, a: Word, b: Word, c: Word) returns (r: Word)
    ensures r == Fit(B32, c + Dp2aSum(low, aS, bS, a, b, 2))
  {
    var sum: int := c;
    var i := 0;
    while i < 2
      invariant i <= 2 && sum == c + Dp2aSum(low, aS, bS, a, b, i)
    {
      sum := sum + LaneVal(a, 16, i, aS) * LaneVal(b, 8, (if low then 0 else 2) + i, bS);
      i := i + 1;
    }
    r := Fit(B32, sum);
  }

  class Memory {
    var bytes: Mem
    constructor (bytes: Mem)
      ensures this.bytes == bytes
    {
      this.bytes := bytes;
    }
  }

  class ExecState {
    var regs: map<Name, Word>
    var preds: map<Name, bool>
    var pc: nat
    const special: seq<Word>

    constructor (special: seq<Word>)
      ensures View() == Thread(map[], map[], 0, special)
    {
      regs, preds, pc := map[], map[], 0;
      this.special := special;
    }

    ghost function View(): Thread
      reads this
    {
      Thread(regs, preds, pc, special)
    }

    // An unset register reads as zero, an unset predicate as false.
    method Read(o: Operand) returns (v: Word)
      ensures v == OperandVal(View(), o)
    {
      match o
      case Imm(n, _) => v := n;
      case Reg(r) => v := if r in regs then regs[r] else 0;
    }

    method Holds(p: Name) returns (b: bool)
      ensures b == PredVal(View(), p)
    {
      b := p in preds && preds[p];
    }

    method Compute(k: Kernel, dst: Name, op: AluOp) returns (v: Option<Word>)
      ensures v == AluVal(k, View(), dst, op)
    {
      hide BfiVal; hide BfeVal; hide PrmtVal; hide Dp4aSum; hide Dp2aSum; hide Fit; hide ShiftVal; hide MinMaxVal;
      hide Combined; hide Not64; hide ByteNo; hide PermutedByte; hide BfiBit; hide BfeBit; hide Bit;
      var w := RegWidth(k, dst);
      match op
      case Bfi(a, b, pos, len) =>
        if w == B1 { return None; }
        var x := Read(a); var y := Read(b); var p := Read(pos); var l := Read(len);
        var r := InsertField(w, x, y, p, l);
        v := Some(r);
      case Bfe(signed, a, pos, len) =>
        if w == B1 { return None; }
        var x := Read(a); var p := Read(pos); var l := Read(len);
        var r := ExtractField(w, signed, x, p, l);
        v := Some(r);
      case Prmt(a, b, c) =>
        var x := Read(a); var y := Read(b); var z := Read(c);
        v := Permute(x, y, z);
      case Dp4a(aS, bS, a, b, c) =>
        var x := Read(a); var y := Read(b); var z := Read(c);
        var r := Dot4(aS, bS, x, y, z);
        v := Some(r);
      case Dp2a(low, aS, bS, a, b, c) =>
        var x := Read(a); var y := Read(b); var z := Read(c);
        var r := Dot2(low, aS, bS, x, y, z);
        v := Some(r);
      case Selp(ty, a, b, p) =>
        var c := Holds(p);
        var x := Read(if c then a else b);
        v := Some(Fit(ty, x));
      case _ =>
        v := AluVal(k, Thread(regs, preds, pc, special), dst, op);
    }

    // Advance by exactly one instruction (run_thread_step).
    method RunThreadStep(k: Kernel, mem: Memory) returns (rc: Kind)
      modifies this, mem
      ensures var e := Step(k, old(View()), old(mem.bytes));
        rc == e.kind && View() == e.s && mem.bytes == old(mem.bytes) + e.writes
    {
      hide AluVal; hide PredResult; hide ReadLE; hide Mapped; hide WriteLE; hide Span;
      if pc >= |k.body| { return Failed; }
      var ins := k.body[pc];
      var go := true;
      match ins.guard {
        case Always =>
        case When(p, negated) =>
          var val := Holds(p);
          go := val != negated;
      }
      if !go {
        pc := pc + 1;
        return Advanced;
      }
      rc := Dispatch(k, mem, ins);
    }

    method Dispatch(k: Kernel, mem: Memory, ins: Instr) returns (rc: Kind)
      modifies this, mem
      ensures var e := Perform(k, old(View()), ins, old(mem.bytes));
        rc == e.kind && View() == e.s && mem.bytes == old(mem.bytes) + e.writes
    {
      hide AluVal; hide PredResult; hide ReadLE; hide Mapped; hide WriteLE; hide Span;
      rc := Advanced;
      match ins
      case Alu(_, dst, op) =>
        var v := Compute(k, dst, op);
        if v.None? { return Failed; }
        regs := regs[dst := v.value];
        pc := pc + 1;
      case SetPred(_, dst, op) =>
        var v := PredResult(Thread(regs, preds, pc, special), op);
        if v.None? { return Failed; }
        preds := preds[dst := v.value];
        pc := pc + 1;
      case Load(_, w, dst, addr) =>
        var a := AddressVal(Thread(regs, preds, pc, special), addr);
        if w == B1 || !Mapped(mem.bytes, a, BytesOf(w)) { return Failed; }
        LoadFits(mem.bytes, a, w);
        regs := regs[dst := ReadLE(mem.bytes, a, BytesOf(w))];
        pc := pc + 1;
      case Store(_, w, addr, src) =>
        var a := AddressVal(Thread(regs, preds, pc, special), addr);
        if w == B1 || !Mapped(mem.bytes, a, BytesOf(w)) { return Failed; }
        // The source is looked up as a register, also when it is a literal.
        var v: Word := 0;
        if src.Reg? { v := Read(src); }
        mem.bytes := mem.bytes + WriteLE(a, BytesOf(w), v);
        pc := pc + 1;
      case Bra(_, target) =>
        if target !in k.labels { return Failed; }
        pc := k.labels[target];
      case Ret(_) => rc := Finished;
      case Bar(_) =>
        pc := pc + 1;
        rc := Parked;
      case LabelMark(_, _) => pc := pc + 1;
    }
  }
}

// What a store leaves in memory and a load takes from it, byte by byte and as
// steps of both machines.
module ByteOrder {
  import opened Bits
  import opened Words
  import opened Machine
  import opened Ptx
  import opened BytePermute
  import opened Ir
  import opened Related
  import opened LoweringCorrect
  import opened Simulation

  // An access covers the word's bits.
  lemma BytesAreBits(w: Width)
    requires w != B1
    ensures 8 * BytesOf(w) == BitsOf(w) && Pow2(8 * BytesOf(w)) == Modulus(w)
  {
    ModulusIsPow2(w);
  }

  lemma AtOfAt(a: Word, i: nat, j: nat)
    ensures At(At(a, i), j) == At(a, i + j)
  {
    ModShift(a + i + j, -((a + i) / M64), M64);
  }

  // Addresses go up and wrap at the top.
  lemma AtIs(a: Word, i: nat)
    ensures At(a, i) == (a + i) % M64
  { }

  lemma AtApart(a: Word, i: nat, j: nat)
    requires i < 8 && j < 8 && At(a, i) == At(a, j)
    ensures i == j
  { }

  // Byte i of the word goes to the address i above.
  lemma {:induction false} WrittenByte(a: Word, n: nat, v: nat, i: nat)
    requires i < n <= 8
    ensures (a + i) % M64 in WriteLE(a, n, v) && WriteLE(a, n, v)[(a + i) % M64] == ByteNo(v, i)
  {
    AtIs(a, i);
    hide At; hide Pow2;
    if i < n - 1 {
      WrittenByte(a, n - 1, v, i);
      if At(a, i) == At(a, n - 1) { AtApart(a, i, n - 1); }
    }
  }

  // And byte i of what is read comes from there.
  lemma {:induction false} ReadByte(m: Mem, a: Word, n: nat, i: nat)
    requires i < n && Mapped(m, a, n)
    ensures (a + i) % M64 in m && ByteNo(ReadLE(m, a, n), i) == m[(a + i) % M64]
  {
    AtIs(a, i);
    hide At; hide Pow2;
    SpanMore(a, n);
    ReadMore(m, a, n, m[At(a, n - 1)]);
    hide ReadLE; hide ByteNo;
    var low, byte, p := ReadLE(m, a, n - 1), m[At(a, n - 1)], Pow2(8 * (n - 1));
    if i < n - 1 {
      ReadByte(m, a, n - 1, i);
      LowByteStays(low, byte, n - 1, i);
    } else {
      TopByte(low, byte, n - 1);
    }
  }

  lemma TopByte(low: nat, byte: Byte, n: nat)
    requires low < Pow2(8 * n)
    ensures ByteNo(low + byte * Pow2(8 * n), n) == byte
  {
    hide Pow2;
    DivUnique(low + byte * Pow2(8 * n), Pow2(8 * n), byte, low);
  }

  lemma SpanMore(a: Word, n: nat)
    requires n > 0
    ensures Span(a, n) == Span(a, n - 1) + {At(a, n - 1)}
  { }

  lemma LowByteStays(low: nat, byte: nat, n: nat, i: nat)
    requires i < n
    ensures ByteNo(low + byte * Pow2(8 * n), i) == ByteNo(low, i)
  {
    var p, q := Pow2(8 * i), Pow2(8 * (n - 1 - i));
    Pow2Add(8 * (n - i), 8 * i);
    Times256(8 * (n - 1 - i));
    hide Pow2;
    assert byte * Pow2(8 * n) == ((byte * q) * 256) * p by {
      Regrouped(byte, 256 * q, p);
      Regrouped(byte, q, 256);
    }
    HighDrops(low, byte * q, p);
  }

  lemma HighDrops(low: nat, t: nat, p: nat)
    requires p > 0
    ensures ((low + (t * 256) * p) / p) % 256 == (low / p) % 256
  {
    var x := low / p;
    assert low == x * p + low % p;
    assert low + (t * 256) * p == (x + t * 256) * p + low % p;
    DivUnique(low + (t * 256) * p, p, x + t * 256, low % p);
    ModShift(x, t, 256);
  }

  lemma Regrouped(a: int, b: int, c: int)
    ensures a * (b * c) == (a * b) * c && a * (c * b) == (a * b) * c
  { }

  // ---- reading what was written -----------------------------------------------------

  // k bytes of v, from byte `off` on.
  function Part(v: nat, off: nat, k: nat): nat { (v / Pow2(8 * off)) % Pow2(8 * k) }

  lemma PartMore(v: nat, off: nat, k: nat)
    requires k > 0
    ensures Part(v, off, k) == Part(v, off, k - 1) + ByteNo(v, off + (k - 1)) * Pow2(8 * (k - 1))
  {
    Times256(8 * (k - 1));
    Pow2Add(8 * off, 8 * (k - 1));
    assert 8 * (k - 1) + 8 == 8 * k && 8 * off + 8 * (k - 1) == 8 * (off + (k - 1));
    hide Pow2;
    QuotientOfQuotient(v, Pow2(8 * off), Pow2(8 * (k - 1)));
    RemainderSplit(RShift(v, 8 * off), Pow2(8 * (k - 1)));
  }

  lemma RemainderSplit(x: nat, p: nat)
    requires p > 0
    ensures x % (256 * p) == x % p + ((x / p) % 256) * p
  {
    var y := x / p;
    var z, r := y / 256, y % 256;
    assert x == y * p + x % p && y == z * 256 + r;
    assert (z * 256 + r) * p == z * (256 * p) + r * p by { Regrouped(z, 256, p); }
    ScaleBound(r, 255, p);
    ScaleBound(0, r, p);
    DivUnique(x, 256 * p, z, r * p + x % p);
  }

  lemma QuotientOfQuotient(v: nat, a: nat, b: nat)
    requires a > 0 && b > 0
    ensures a * b > 0 && (v / a) / b == v / (a * b)
  {
    var x := v / a;
    var y := x / b;
    MulAtLeast(a, b);
    assert v == x * a + v % a && x == y * b + x % b;
    Regrouped(y, b, a);
    assert (x % b) * a + v % a < a * b by { ScaleBound(x % b, b - 1, a); }
    DivUnique(v, a * b, y, (x % b) * a + v % a);
  }

  // A read inside what was just written gives that part of the word.
  lemma {:induction false} ReadPart(m: Mem, a: Word, n: nat, v: nat, off: nat, k: nat)
    requires off + k <= n <= 8
    ensures var m' := m + WriteLE(a, n, v); Mapped(m', At(a, off), k) && ReadLE(m', At(a, off), k) == Part(v, off, k)
  {
    var m', x := m + WriteLE(a, n, v), At(a, off);
    hide At; hide Pow2; hide WriteLE; hide Part;
    if k == 0 {
      PartNone(v, off);
    } else {
      hide ReadLE; hide Mapped; hide Span; hide ByteNo;
      ReadPart(m, a, n, v, off, k - 1);
      WrittenAbove(m, a, n, v, off, k - 1);
      ReadMore(m', x, k, ByteNo(v, off + (k - 1)));
      PartMore(v, off, k);
    }
  }

  lemma WrittenAbove(m: Mem, a: Word, n: nat, v: nat, off: nat, j: nat)
    requires off + j < n <= 8
    ensures var m' := m + WriteLE(a, n, v);
      At(At(a, off), j) in m' && m'[At(At(a, off), j)] == ByteNo(v, off + j)
  {
    AtOfAt(a, off, j);
    AtIs(a, off + j);
    hide At; hide WriteLE; hide ByteNo;
    WrittenByte(a, n, v, off + j);
  }

  lemma ReadMore(m: Mem, a: Word, n: nat, byte: nat)
    requires n > 0 && Mapped(m, a, n - 1) && At(a, n - 1) in m && m[At(a, n - 1)] == byte
    ensures Mapped(m, a, n) && ReadLE(m, a, n) == ReadLE(m, a, n - 1) + byte * Pow2(8 * (n - 1))
  {
    hide At; hide Pow2;
  }

  lemma PartNone(v: nat, off: nat)
    ensures Part(v, off, 0) == 0
  {
    assert Pow2(0) == 1;
  }

  // The parts by name: the whole, the low and the high half.
  lemma Parts(v: nat)
    ensures Part(v, 0, 4) == v % M32 && Part(v, 0, 8) == v % M64 && Part(v, 4, 4) == (v / M32) % M32
  {
    ModulusIsPow2(B32);
    ModulusIsPow2(B64);
    assert Pow2(0) == 1;
  }

  // ---- both machines -----------------------------------------------------------------

  // The interpreter stores a word and some thread then loads from an address
  // inside it: it gets that part of the word, and nothing fails.
  lemma StoreThenLoad(k: Kernel, t: Thread, m: Mem, u: Thread, off: nat)
    requires t.pc < |k.body| && k.body[t.pc].Store? && k.body[t.pc].guard.Always? && k.body[t.pc].src.Reg?
    requires u.pc < |k.body| && k.body[u.pc].Load? && k.body[u.pc].guard.Always? && k.body[u.pc].w != B1
    requires Step(k, t, m).kind == Advanced && off + BytesOf(k.body[u.pc].w) <= BytesOf(k.body[t.pc].w)
    requires AddressVal(u, k.body[u.pc].addr) == (AddressVal(t, k.body[t.pc].addr) + off) % M64
    ensures var e := Step(k, u, m + Step(k, t, m).writes);
      e.kind == Advanced
      && RegVal(e.s, k.body[u.pc].dst) == Part(RegVal(t, k.body[t.pc].src.name), off, BytesOf(k.body[u.pc].w))
  {
    hide At; hide Pow2; hide WriteLE; hide ReadLE; hide Mapped; hide Span; hide Part;
    var st, ld := k.body[t.pc], k.body[u.pc];
    AtIs(AddressVal(t, st.addr), off);
    ReadPart(m, AddressVal(t, st.addr), BytesOf(st.w), RegVal(t, st.src.name), off, BytesOf(ld.w));
  }

  // The compiled lanes likewise, for aligned accesses.
  lemma CompiledStoreThenLoad(k: Kernel, text: seq<Line>, s: Lane, m: Mem, z: Lane, w: Width, src: Exp, addr: Exp,
                              w2: Width, dst: Name, addr2: Exp, off: nat)
    requires s.pc < |text| && text[s.pc] == StoreMem(w, addr, src) && LineStep(text, s, m).kind == Advanced
    requires z.pc < |text| && text[z.pc] == Assign(RegWidth(k, dst), dst, LoadedExp(k, w2, dst, addr2))
    requires w2 != B1 && RegWidth(k, dst) != B1 && (w2 == B64 ==> RegWidth(k, dst) == B64)
    requires off + BytesOf(w2) <= BytesOf(w)
    requires var m' := m + LineStep(text, s, m).writes;
      Gives(k, z, m', addr2, B64, (Eval(addr, s, m) + off) % M64) && Aligned((Eval(addr, s, m) + off) % M64, w2)
    ensures var e := LineStep(text, z, m + LineStep(text, s, m).writes);
      e.kind == Advanced && SlotVal(e.s, dst) == Part(Eval(src, s, m), off, BytesOf(w2))
  {
    hide At; hide Pow2; hide WriteLE; hide ReadLE; hide Mapped; hide Span; hide Part;
    hide Gives; hide Aligned; hide LoadedExp; hide Eval; hide Defined; hide Sees;
    var a := Eval(addr, s, m);
    AtIs(a, off);
    ReadPart(m, a, BytesOf(w), Eval(src, s, m), off, BytesOf(w2));
    LoadStep(k, text, z, m + LineStep(text, s, m).writes, w2, dst, addr2, At(a, off));
  }

  // An aligned address has as many low bits clear as the access has bytes.
  lemma AlignedBits(a: Word, w: Width)
    ensures Aligned(a, w) <==> And(a, BytesOf(w) - 1) == 0
  {
    var j := match w case B1 => 0 case B32 => 2 case B64 => 3;
    assert Pow2(j) == BytesOf(w) by { assert Pow2(0) == 1 && Pow2(2) == 4 && Pow2(3) == 8; }
    AndOnes(a, j);
  }
}

// mma.sync on a full warp. The interpreter gathers the fragments of all lanes
// into tiles, lane after lane, and lets each lane compute its four results from
// them; the compiled lanes compute, for every element they need, which lane
// published it and where.
module Mma {
  import opened Bits
  import opened Words
  import opened Ptx

  // m16n8k16 on halves, m16n8k16 on bytes, m16n8k8 on halves.
  datatype Format = Half16 | Byte16 | Half8

  function Depth(f: Format): nat { if f == Half8 then 8 else 16 }
  function RegsA(f: Format): nat { match f case Half16 => 4 case Byte16 => 2 case Half8 => 2 }
  function RegsB(f: Format): nat { match f case Half16 => 2 case Byte16 => 1 case Half8 => 1 }
  function SlotsA(f: Format): nat { if f == Half8 then 4 else 8 }
  function SlotsB(f: Format): nat { if f == Half8 then 2 else 4 }

  // ---- the interpreter's gather: where element s of lane l goes -----------------------

  function RowA(f: Format, l: nat, s: nat): nat {
    match f
    case Half16 => if s < 2 || (4 <= s < 6) then l / 4 else l / 4 + 8
    case Byte16 => if s < 4 then l / 4 else l / 4 + 8
    case Half8 => if s < 2 then l / 4 else l / 4 + 8
  }

  function ColA(f: Format, l: nat, s: nat): nat {
    match f
    case Half16 => (l % 4) * 2 + s % 2 + (if s < 4 then 0 else 8)
    case Byte16 => (l % 4) * 4 + s % 4
    case Half8 => (l % 4) * 2 + s % 2
  }

  function RowB(f: Format, l: nat, s: nat): nat {
    match f
    case Half16 => (l % 4) * 2 + s % 2 + (if s < 2 then 0 else 8)
    case Byte16 => (l % 4) * 4 + s
    case Half8 => (l % 4) * 2 + s
  }

  // Bits of one element, and element i of a register: 32-bit words hold them from
  // the low end.
  function ElemBits(f: Format): nat { if f == Byte16 then 8 else 16 }

  function Raw(f: Format, v: Word, i: nat): Word {
    RestAtMost(RShift(v, ElemBits(f) * i), Pow2(ElemBits(f)));
    RShift(v, ElemBits(f) * i) % Pow2(ElemBits(f))
  }

  lemma RestAtMost(x: nat, p: nat)
    requires p > 0
    ensures 0 <= x % p <= x
  {
    if x < p { DivUnique(x, p, 0, x); }
  }

  function PackA(f: Format): nat { if f == Byte16 then 4 else 2 }
  function PackB(f: Format): nat { if f == Byte16 then 4 else 2 }

  function RowC(l: nat, s: nat): nat { if s < 2 then l / 4 else l / 4 + 8 }
  function ColC(l: nat, s: nat): nat { (l % 4) * 2 + s % 2 }

  // ---- the compiler's owner formulas ------------------------------------------------------

  // Register of the fragment, element inside it, and the constant part of the owning lane.
  datatype Loc = Loc(reg: nat, within: nat, lane: nat)

  function SlotOfA(f: Format, rOff: nat, k: nat): nat {
    match f
    case Half16 => (if k >= 8 then 4 else 0) + (if rOff >= 8 then 2 else 0) + k % 2
    case Byte16 => (if rOff >= 8 then 4 else 0) + k % 4
    case Half8 => (if rOff >= 8 then 2 else 0) + k % 2
  }

  function ALoc(f: Format, rOff: nat, k: nat): Loc {
    var s := SlotOfA(f, rOff, k);
    Loc(s / PackA(f), s % PackA(f), if f == Byte16 then (k / 4) % 4 else (k / 2) % 4)
  }

  function SlotOfB(f: Format, k: nat): nat {
    match f
    case Half16 => (if k >= 8 then 2 else 0) + k % 2
    case Byte16 => k % 4
    case Half8 => k % 2
  }

  function BLoc(f: Format, k: nat): Loc {
    var s := SlotOfB(f, k);
    Loc(s / PackB(f), s % PackB(f), if f == Byte16 then (k / 4) % 4 else (k / 2) % 4)
  }

  function CElem(rOff: nat, cBit: nat): nat { (if rOff >= 8 then 2 else 0) + cBit }

  function OwnerA(f: Format, r: nat, k: nat): nat { (r % 8) * 4 + ALoc(f, r, k).lane }
  function OwnerB(f: Format, k: nat, c: nat): nat { c * 4 + BLoc(f, k).lane }

  // Lane l is row group g = l / 4 and column group t = l % 4. Element by element:
  lemma PairsInvert(g: nat, t: nat, s: nat, r: nat, k: nat)
    requires g < 8 && t < 4 && s < 8 && r < 16 && k < 16
    ensures (if s % 4 < 2 then g else g + 8) == r && t * 2 + s % 2 + (if s < 4 then 0 else 8) == k
      <==> g == r % 8 && t == (k / 2) % 4 && s == (if k >= 8 then 4 else 0) + (if r >= 8 then 2 else 0) + k % 2
  {
    var hi := if k >= 8 then 8 else 0;
    assert k == hi + ((k / 2) % 4) * 2 + k % 2;
  }

  lemma QuadsInvert(g: nat, t: nat, s: nat, r: nat, k: nat)
    requires g < 8 && t < 4 && s < 8 && r < 16 && k < 16
    ensures (if s < 4 then g else g + 8) == r && t * 4 + s % 4 == k
      <==> g == r % 8 && t == (k / 4) % 4 && s == (if r >= 8 then 4 else 0) + k % 4
  { }

  // The owner formulas invert the gather: element (r, k) comes from exactly one
  // place of exactly one lane, and that is where the compiler looks.
  lemma ALocInverts(f: Format, l: nat, s: nat, r: nat, k: nat)
    requires l < 32 && s < SlotsA(f) && r < 16 && k < Depth(f)
    ensures OwnerA(f, r, k) < 32 && SlotOfA(f, r, k) < SlotsA(f) && ALoc(f, r, k).reg < RegsA(f)
    ensures RowA(f, l, s) < 16 && ColA(f, l, s) < Depth(f)
    ensures RowA(f, l, s) == r && ColA(f, l, s) == k <==> l == OwnerA(f, r, k) && s == SlotOfA(f, r, k)
  {
    var g, t := l / 4, l % 4;
    assert l == g * 4 + t && g < 8;
    ALocBounds(f, r, k);
    ATargets(f, l, s);
    ALocGroups(f, g, t, l, s, r, k);
    hide ALoc; hide RowA; hide ColA; hide SlotOfA;
    SplitLane(g, t, r % 8, ALoc(f, r, k).lane);
  }

  lemma ALocGroups(f: Format, g: nat, t: nat, l: nat, s: nat, r: nat, k: nat)
    requires g < 8 && t < 4 && g == l / 4 && t == l % 4 && s < SlotsA(f) && r < 16 && k < Depth(f)
    ensures RowA(f, l, s) == r && ColA(f, l, s) == k <==> g == r % 8 && t == ALoc(f, r, k).lane && s == SlotOfA(f, r, k)
  {
    AForm(f, g, t, l, s);
    ALocForm(f, r, k);
    hide RowA; hide ColA; hide ALoc; hide SlotOfA; hide SlotsA; hide Depth;
    assert s < 8 && k < 16 by { ABounds(f, s, k); }
    if f == Byte16 { QuadsInvert(g, t, s, r, k); } else { PairsInvert(g, t, s, r, k); }
  }

  lemma ABounds(f: Format, s: nat, k: nat)
    requires s < SlotsA(f) && k < Depth(f)
    ensures s < 8 && k < 16
  { }

  lemma AForm(f: Format, g: nat, t: nat, l: nat, s: nat)
    requires g == l / 4 && t == l % 4 && s < SlotsA(f)
    ensures f == Byte16 ==> RowA(f, l, s) == (if s < 4 then g else g + 8) && ColA(f, l, s) == t * 4 + s % 4
    ensures f != Byte16 ==> RowA(f, l, s) == (if s % 4 < 2 then g else g + 8) && ColA(f, l, s) == t * 2 + s % 2 + (if s < 4 then 0 else 8)
  { }

  lemma ALocForm(f: Format, r: nat, k: nat)
    requires k < Depth(f)
    ensures f == Byte16 ==> ALoc(f, r, k).lane == (k / 4) % 4 && SlotOfA(f, r, k) == (if r >= 8 then 4 else 0) + k % 4
    ensures f != Byte16 ==> ALoc(f, r, k).lane == (k / 2) % 4 && SlotOfA(f, r, k) == (if k >= 8 then 4 else 0) + (if r >= 8 then 2 else 0) + k % 2
  { }

  lemma SplitLane(g: nat, t: nat, g': nat, t': nat)
    requires t < 4 && t' < 4
    ensures g * 4 + t == g' * 4 + t' <==> g == g' && t == t'
  { }

  lemma ALocBounds(f: Format, r: nat, k: nat)
    requires r < 16 && k < Depth(f)
    ensures OwnerA(f, r, k) < 32 && SlotOfA(f, r, k) < SlotsA(f) && ALoc(f, r, k).reg < RegsA(f) && ALoc(f, r, k).lane < 4
  { }

  lemma ATargets(f: Format, l: nat, s: nat)
    requires l < 32 && s < SlotsA(f)
    ensures RowA(f, l, s) < 16 && ColA(f, l, s) < Depth(f)
  { }

  lemma BPairsInvert(t: nat, s: nat, k: nat)
    requires t < 4 && s < 4 && k < 16
    ensures t * 2 + s % 2 + (if s < 2 then 0 else 8) == k <==> t == (k / 2) % 4 && s == (if k >= 8 then 2 else 0) + k % 2
  {
    var hi := if k >= 8 then 8 else 0;
    assert k == hi + ((k / 2) % 4) * 2 + k % 2;
  }

  lemma BLocBounds(f: Format, k: nat, c: nat)
    requires k < Depth(f) && c < 8
    ensures OwnerB(f, k, c) < 32 && SlotOfB(f, k) < SlotsB(f) && BLoc(f, k).reg < RegsB(f) && BLoc(f, k).lane < 4
  { }

  lemma BLocInverts(f: Format, l: nat, s: nat, k: nat, c: nat)
    requires l < 32 && s < SlotsB(f) && k < Depth(f) && c < 8
    ensures OwnerB(f, k, c) < 32 && SlotOfB(f, k) < SlotsB(f) && BLoc(f, k).reg < RegsB(f)
    ensures RowB(f, l, s) < Depth(f) && l / 4 < 8
    ensures RowB(f, l, s) == k && l / 4 == c <==> l == OwnerB(f, k, c) && s == SlotOfB(f, k)
  {
    var g, t := l / 4, l % 4;
    assert l == g * 4 + t && g < 8;
    BLocBounds(f, k, c);
    BLocGroups(f, t, l, s, k);
    hide BLoc; hide RowB; hide SlotOfB;
    SplitLane(g, t, c, BLoc(f, k).lane);
  }

  lemma BLocGroups(f: Format, t: nat, l: nat, s: nat, k: nat)
    requires t < 4 && t == l % 4 && s < SlotsB(f) && k < Depth(f)
    ensures RowB(f, l, s) < Depth(f)
    ensures RowB(f, l, s) == k <==> t == BLoc(f, k).lane && s == SlotOfB(f, k)
  {
    BForm(f, t, l, s, k);
    hide RowB; hide BLoc; hide SlotOfB; hide SlotsB; hide Depth;
    if f == Byte16 { SplitLane((k / 4) % 4, k % 4, t, s); } else { BPairsInvert(t, s, k); }
  }

  lemma BForm(f: Format, t: nat, l: nat, s: nat, k: nat)
    requires t < 4 && t == l % 4 && s < SlotsB(f) && k < Depth(f)
    ensures s < 4 && k < 16 && RowB(f, l, s) < Depth(f)
    ensures f == Byte16 ==> RowB(f, l, s) == t * 4 + s && BLoc(f, k).lane == (k / 4) % 4 && SlotOfB(f, k) == k % 4 && k == (k / 4) % 4 * 4 + k % 4
    ensures f != Byte16 ==> RowB(f, l, s) == t * 2 + s % 2 + (if s < 2 then 0 else 8) && BLoc(f, k).lane == (k / 2) % 4 && SlotOfB(f, k) == (if k >= 8 then 2 else 0) + k % 2
  { }

  // ---- places in the registers -------------------------------------------------------------

  // How the fragment fills its registers: no element reaches past bit 31, and
  // every place of every register of every lane holds exactly one element of A.
  lemma APlaces(f: Format, l: nat, reg: nat, within: nat) returns (r: nat, k: nat)
    requires l < 32 && reg < RegsA(f) && ElemBits(f) * (within + 1) <= 32
    ensures r < 16 && k < Depth(f)
    ensures forall r': nat, k': nat :: r' < 16 && k' < Depth(f) ==>
      ((OwnerA(f, r', k') == l && ALoc(f, r', k').reg == reg && ALoc(f, r', k').within == within) <==> (r' == r && k' == k))
  {
    hide Raw; hide ElemBits; hide ALoc; hide OwnerA; hide SlotOfA; hide RowA; hide ColA; hide PackA; hide SlotsA; hide RegsA;
    var s := SlotForA(f, reg, within);
    ALocInverts(f, l, s, 0, 0);
    r, k := RowA(f, l, s), ColA(f, l, s);
    forall r': nat, k': nat | r' < 16 && k' < Depth(f)
      ensures (OwnerA(f, r', k') == l && ALoc(f, r', k').reg == reg && ALoc(f, r', k').within == within) <==> (r' == r && k' == k)
    {
      ALocInverts(f, l, s, r', k');
    }
  }

  // The slot of a place.
  lemma SlotForA(f: Format, reg: nat, within: nat) returns (s: nat)
    requires reg < RegsA(f) && ElemBits(f) * (within + 1) <= 32
    ensures s < SlotsA(f)
    ensures forall r: nat, k: nat :: k < Depth(f) ==> (ALoc(f, r, k).reg == reg && ALoc(f, r, k).within == within <==> SlotOfA(f, r, k) == s)
  {
    s := reg * PackA(f) + within;
  }

  // Where it is: the element's bits are inside the register.
  lemma APlaceFits(f: Format, r: nat, k: nat)
    requires r < 16 && k < Depth(f)
    ensures OwnerA(f, r, k) < 32 && ALoc(f, r, k).reg < RegsA(f) && ElemBits(f) * (ALoc(f, r, k).within + 1) <= 32
  {
    ALocBounds(f, r, k);
  }

  // The same of B.
  lemma BPlaces(f: Format, l: nat, reg: nat, within: nat) returns (k: nat, c: nat)
    requires l < 32 && reg < RegsB(f) && ElemBits(f) * (within + 1) <= 32
    ensures k < Depth(f) && c < 8
    ensures forall k': nat, c': nat :: k' < Depth(f) && c' < 8 ==>
      ((OwnerB(f, k', c') == l && BLoc(f, k').reg == reg && BLoc(f, k').within == within) <==> (k' == k && c' == c))
  {
    hide Raw; hide ElemBits; hide BLoc; hide OwnerB; hide SlotOfB; hide RowB; hide PackB; hide SlotsB; hide RegsB;
    var s := SlotForB(f, reg, within);
    BLocInverts(f, l, s, 0, 0);
    k, c := RowB(f, l, s), l / 4;
    BLocInverts(f, l, s, k, c);
    forall k': nat, c': nat | k' < Depth(f) && c' < 8
      ensures (OwnerB(f, k', c') == l && BLoc(f, k').reg == reg && BLoc(f, k').within == within) <==> (k' == k && c' == c)
    {
      BLocInverts(f, l, s, k', c');
    }
  }

  // The slot of a place.
  lemma SlotForB(f: Format, reg: nat, within: nat) returns (s: nat)
    requires reg < RegsB(f) && ElemBits(f) * (within + 1) <= 32
    ensures s < SlotsB(f)
    ensures forall k: nat :: k < Depth(f) ==> (BLoc(f, k).reg == reg && BLoc(f, k).within == within <==> SlotOfB(f, k) == s)
  {
    s := reg * PackB(f) + within;
  }

  lemma BPlaceFits(f: Format, k: nat, c: nat)
    requires k < Depth(f) && c < 8
    ensures OwnerB(f, k, c) < 32 && BLoc(f, k).reg < RegsB(f) && ElemBits(f) * (BLoc(f, k).within + 1) <= 32
  {
    BLocBounds(f, k, c);
  }

  // Elements as numbers: the bits of the register from ElemBits * i on, so that
  // the register is made of its elements.
  lemma RawIs(f: Format, v: Word, i: nat)
    ensures Raw(f, v, i) < Pow2(ElemBits(f))
    ensures forall n: nat :: Bit(Raw(f, v, i), n) <==> n < ElemBits(f) && Bit(v, n + ElemBits(f) * i)
  {
    hide Pow2; hide Bit;
    forall n: nat ensures Bit(Raw(f, v, i), n) <==> n < ElemBits(f) && Bit(v, n + ElemBits(f) * i) {
      BitMod(RShift(v, ElemBits(f) * i), ElemBits(f), n);
      BitShr(v, ElemBits(f) * i, n);
    }
  }

  // Every element of the 16 by 8 result has one lane and one slot.
  lemma CElemInverts(l: nat, s: nat, r: nat, c: nat)
    requires l < 32 && s < 4 && r < 16 && c < 8
    ensures RowC(l, s) < 16 && ColC(l, s) < 8
    ensures RowC(l, s) == r && ColC(l, s) == c <==> l == (r % 8) * 4 + c / 2 && s == CElem(r, c % 2)
  {
    var g, t := l / 4, l % 4;
    assert l == g * 4 + t && g < 8;
    CGroups(l, g, t, s, r, c);
    hide RowC; hide ColC; hide CElem;
    SplitLane(g, t, r % 8, c / 2);
  }

  lemma CGroups(l: nat, g: nat, t: nat, s: nat, r: nat, c: nat)
    requires g < 8 && t < 4 && g == l / 4 && t == l % 4 && s < 4 && r < 16 && c < 8
    ensures RowC(l, s) < 16 && ColC(l, s) < 8
    ensures RowC(l, s) == r && ColC(l, s) == c <==> g == r % 8 && t == c / 2 && s == CElem(r, c % 2)
  { }

  // ---- one instruction on a warp -----------------------------------------------------------

  type Regs = map<Name, Word>
  type Warp = w: seq<Regs> | |w| == 32 witness seq(32, _ => map[])

  // Register groups and the arithmetic of one element type.
  datatype Arith<!F> = Arith(
    elemA: Word -> F, elemB: Word -> F,                 // from an element's bits
    accIn: Word -> F, mulAdd: (F, F, F) -> F, accOut: F -> Word)

  datatype Op = Op(f: Format, d: seq<Name>, a: seq<Name>, b: seq<Name>, c: seq<Name>)

  predicate ValidOp(op: Op) {
    |op.d| == 4 && |op.c| == 4 && |op.a| == RegsA(op.f) && |op.b| == RegsB(op.f)
  }

  function Get(r: Regs, n: Name): Word { RegVal(Thread(r, map[], 0, []), n) }

  lemma GetUpdated(r: Regs, n: Name, v: Word, other: Name)
    ensures Get(r[n := v], other) == if other == n then v else Get(r, other)
  { }

  // The logical operands: what the owner formulas address.
  function ElemA<F>(op: Op, x: Arith<F>, w: Warp, r: nat, k: nat): F
    requires ValidOp(op) && r < 16 && k < Depth(op.f)
  {
    ALocInverts(op.f, 0, 0, r, k);
    var at := ALoc(op.f, r, k);
    x.elemA(Raw(op.f, Get(w[OwnerA(op.f, r, k)], op.a[at.reg]), at.within))
  }

  function ElemB<F>(op: Op, x: Arith<F>, w: Warp, k: nat, c: nat): F
    requires ValidOp(op) && k < Depth(op.f) && c < 8
  {
    BLocInverts(op.f, 0, 0, k, c);
    var at := BLoc(op.f, k);
    x.elemB(Raw(op.f, Get(w[OwnerB(op.f, k, c)], op.b[at.reg]), at.within))
  }

  // acc + a(r,0) b(0,c) + a(r,1) b(1,c) + ..., in this order.
  function Chain<F>(op: Op, x: Arith<F>, w: Warp, r: nat, c: nat, acc: F, n: nat): F
    requires ValidOp(op) && r < 16 && c < 8 && n <= Depth(op.f)
  {
    if n == 0 then acc
    else x.mulAdd(ElemA(op, x, w, r, n - 1), ElemB(op, x, w, n - 1, c), Chain(op, x, w, r, c, acc, n - 1))
  }

  // The word result s of lane l: its element of A times B plus C.
  function Result<F>(op: Op, x: Arith<F>, w: Warp, l: nat, s: nat): Word
    requires ValidOp(op) && l < 32 && s < 4
  {
    ResultAt(l, s);
    x.accOut(Chain(op, x, w, RowC(l, s), ColC(l, s), x.accIn(Get(w[l], op.c[s])), Depth(op.f)))
  }

  // ---- the interpreter ---------------------------------------------------------------------

  // Element s of lane l is put where the owner formulas will look for it, and
  // nowhere else.
  lemma PlaceA<F>(op: Op, x: Arith<F>, w: Warp, l: nat, s: nat)
    requires ValidOp(op) && l < 32 && s < SlotsA(op.f)
    ensures RowA(op.f, l, s) < 16 && ColA(op.f, l, s) < Depth(op.f) && s / PackA(op.f) < |op.a|
    ensures ElemA(op, x, w, RowA(op.f, l, s), ColA(op.f, l, s)) == x.elemA(Raw(op.f, Get(w[l], op.a[s / PackA(op.f)]), s % PackA(op.f)))
    ensures forall r: nat, k: nat :: r < 16 && k < Depth(op.f) && OwnerA(op.f, r, k) == l && SlotOfA(op.f, r, k) == s ==>
      r == RowA(op.f, l, s) && k == ColA(op.f, l, s)
  {
    ATargets(op.f, l, s);
    ALocInverts(op.f, l, s, RowA(op.f, l, s), ColA(op.f, l, s));
    forall r: nat, k: nat | r < 16 && k < Depth(op.f) && OwnerA(op.f, r, k) == l && SlotOfA(op.f, r, k) == s
      ensures r == RowA(op.f, l, s) && k == ColA(op.f, l, s)
    {
      ALocInverts(op.f, l, s, r, k);
    }
  }

  lemma PlaceB<F>(op: Op, x: Arith<F>, w: Warp, l: nat, s: nat)
    requires ValidOp(op) && l < 32 && s < SlotsB(op.f)
    ensures RowB(op.f, l, s) < Depth(op.f) && l / 4 < 8 && s / PackB(op.f) < |op.b|
    ensures ElemB(op, x, w, RowB(op.f, l, s), l / 4) == x.elemB(Raw(op.f, Get(w[l], op.b[s / PackB(op.f)]), s % PackB(op.f)))
    ensures forall k: nat, c: nat :: k < Depth(op.f) && c < 8 && OwnerB(op.f, k, c) == l && SlotOfB(op.f, k) == s ==>
      k == RowB(op.f, l, s) && c == l / 4
  {
    BLocInverts(op.f, l, s, 0, 0);
    BLocInverts(op.f, l, s, RowB(op.f, l, s), l / 4);
    forall k: nat, c: nat | k < Depth(op.f) && c < 8 && OwnerB(op.f, k, c) == l && SlotOfB(op.f, k) == s
      ensures k == RowB(op.f, l, s) && c == l / 4
    {
      BLocInverts(op.f, l, s, k, c);
    }
  }

  // The tile holds every element that lanes below l own, and of lane l those in
  // slots below s.
  predicate FilledA<F(==)>(op: Op, x: Arith<F>, w: Warp, tile: array2<F>, l: nat, s: nat)
    requires ValidOp(op) && tile.Length0 == 16 && tile.Length1 == 16
    reads tile
  {
    forall r: nat, k: nat ::
      r < 16 && k < Depth(op.f) && (OwnerA(op.f, r, k) < l || (OwnerA(op.f, r, k) == l && SlotOfA(op.f, r, k) < s)) ==>
        tile[r, k] == ElemA(op, x, w, r, k)
  }

  predicate FilledB<F(==)>(op: Op, x: Arith<F>, w: Warp, tile: array2<F>, l: nat, s: nat)
    requires ValidOp(op) && tile.Length0 == 16 && tile.Length1 == 8
    reads tile
  {
    forall k: nat, c: nat ::
      k < Depth(op.f) && c < 8 && (OwnerB(op.f, k, c) < l || (OwnerB(op.f, k, c) == l && SlotOfB(op.f, k) < s)) ==>
        tile[k, c] == ElemB(op, x, w, k, c)
  }

  // The tile loops: after them, every element is the one the owner formulas name.
  method GatherA<F(==)>(op: Op, x: Arith<F>, w: Warp, zero: F) returns (tile: array2<F>)
    requires ValidOp(op)
    ensures fresh(tile) && tile.Length0 == 16 && tile.Length1 == 16
    ensures forall r: nat, k: nat :: r < 16 && k < Depth(op.f) ==> tile[r, k] == ElemA(op, x, w, r, k)
  {
    hide Raw; hide ElemA; hide OwnerA; hide SlotOfA; hide RowA; hide ColA;
    tile := new F[16, 16]((_, _) => zero);
    forall r: nat, k: nat | r < 16 && k < Depth(op.f) ensures OwnerA(op.f, r, k) < 32 && SlotOfA(op.f, r, k) < SlotsA(op.f) {
      ALocBounds(op.f, r, k);
    }
    for l := 0 to 32
      invariant FilledA(op, x, w, tile, l, 0)
    {
      for s := 0 to SlotsA(op.f)
        invariant FilledA(op, x, w, tile, l, s)
      {
        PlaceA(op, x, w, l, s);
        tile[RowA(op.f, l, s), ColA(op.f, l, s)] := x.elemA(Raw(op.f, Get(w[l], op.a[s / PackA(op.f)]), s % PackA(op.f)));
      }
    }
  }

  method GatherB<F(==)>(op: Op, x: Arith<F>, w: Warp, zero: F) returns (tile: array2<F>)
    requires ValidOp(op)
    ensures fresh(tile) && tile.Length0 == 16 && tile.Length1 == 8
    ensures forall k: nat, c: nat :: k < Depth(op.f) && c < 8 ==> tile[k, c] == ElemB(op, x, w, k, c)
  {
    hide Raw; hide ElemB; hide OwnerB; hide SlotOfB; hide RowB;
    tile := new F[16, 8]((_, _) => zero);
    forall k: nat, c: nat | k < Depth(op.f) && c < 8 ensures OwnerB(op.f, k, c) < 32 && SlotOfB(op.f, k) < SlotsB(op.f) {
      BLocBounds(op.f, k, c);
    }
    for l := 0 to 32
      invariant FilledB(op, x, w, tile, l, 0)
    {
      for s := 0 to SlotsB(op.f)
        invariant FilledB(op, x, w, tile, l, s)
      {
        PlaceB(op, x, w, l, s);
        tile[RowB(op.f, l, s), l / 4] := x.elemB(Raw(op.f, Get(w[l], op.b[s / PackB(op.f)]), s % PackB(op.f)));
      }
    }
  }

  // The four results of lane l, from the tiles.
  method ComputeLane<F(==)>(op: Op, x: Arith<F>, w: Warp, l: nat, zero: F) returns (words: seq<Word>)
    requires ValidOp(op) && l < 32
    ensures |words| == 4 && forall s: nat :: s < 4 ==> words[s] == Result(op, x, w, l, s)
  {
    hide Chain; hide ElemA; hide ElemB; hide Get; hide RowC; hide ColC;
    var tA := GatherA(op, x, w, zero);
    var tB := GatherB(op, x, w, zero);
    words := [];
    for s := 0 to 4
      invariant |words| == s && forall i: nat :: i < s ==> words[i] == Result(op, x, w, l, i)
      invariant forall r: nat, k: nat :: r < 16 && k < Depth(op.f) ==> tA[r, k] == ElemA(op, x, w, r, k)
      invariant forall k: nat, c: nat :: k < Depth(op.f) && c < 8 ==> tB[k, c] == ElemB(op, x, w, k, c)
    {
      ResultAt(l, s);
      var sum := Accumulate(op, x, w, tA, tB, RowC(l, s), ColC(l, s), x.accIn(Get(w[l], op.c[s])));
      words := words + [x.accOut(sum)];
    }
  }

  lemma ResultAt(l: nat, s: nat)
    requires l < 32 && s < 4
    ensures RowC(l, s) < 16 && ColC(l, s) < 8
  { }

  method Accumulate<F(==)>(op: Op, x: Arith<F>, w: Warp, tA: array2<F>, tB: array2<F>, r: nat, c: nat, acc: F) returns (sum: F)
    requires ValidOp(op) && r < 16 && c < 8 && tA.Length0 == tA.Length1 == tB.Length0 == 16 && tB.Length1 == 8
    requires forall r: nat, k: nat :: r < 16 && k < Depth(op.f) ==> tA[r, k] == ElemA(op, x, w, r, k)
    requires forall k: nat, c: nat :: k < Depth(op.f) && c < 8 ==> tB[k, c] == ElemB(op, x, w, k, c)
    ensures sum == Chain(op, x, w, r, c, acc, Depth(op.f))
  {
    hide ElemA; hide ElemB;
    sum := acc;
    for k := 0 to Depth(op.f)
      invariant sum == Chain(op, x, w, r, c, acc, k)
    {
      sum := x.mulAdd(tA[r, k], tB[k, c], sum);
    }
  }

  // Registers after writing words 0 .. n-1 of the results.
  function Put(r: Regs, d: seq<Name>, words: nat -> Word, n: nat): Regs
    requires n <= |d|
  {
    if n == 0 then r else Put(r, d, words, n - 1)[d[n - 1] := words(n - 1)]
  }

  function ResultsOf<F>(op: Op, x: Arith<F>, w: Warp, l: nat): nat -> Word
    requires ValidOp(op) && l < 32
  {
    (s: nat) => if s < 4 then Result(op, x, w, l, s) else 0
  }

  // Lanes 0 .. n-1 have executed the instruction, one after the other, each on
  // the registers the earlier ones left.
  function Round<F>(op: Op, x: Arith<F>, w: Warp, n: nat): Warp
    requires ValidOp(op) && n <= 32
  {
    if n == 0 then w
    else
      var v := Round(op, x, w, n - 1);
      v[n - 1 := Put(v[n - 1], op.d, ResultsOf(op, x, v, n - 1), 4)]
  }

  predicate Unread(names: seq<Name>, d: seq<Name>) { forall n :: n in names ==> n !in d }

  lemma {:induction false} PutKeeps(r: Regs, d: seq<Name>, words: nat -> Word, n: nat, other: Name)
    requires n <= |d| && other !in d[..n]
    ensures Get(Put(r, d, words, n), other) == Get(r, other)
  {
    if n > 0 {
      assert d[..n - 1] <= d[..n] && d[n - 1] == d[..n][n - 1];
      PutKeeps(r, d, words, n - 1, other);
    }
  }

  // A lane's turn changes no operand of A or B and no register of another lane.
  lemma {:induction false} RoundKeeps<F>(op: Op, x: Arith<F>, w: Warp, n: nat, l: nat, name: Name)
    requires ValidOp(op) && n <= 32 && l < 32 && name !in op.d
    ensures Get(Round(op, x, w, n)[l], name) == Get(w[l], name)
    ensures n <= l ==> Round(op, x, w, n)[l] == w[l]
  {
    hide Put; hide ResultsOf; hide Get;
    if n > 0 {
      RoundKeeps(op, x, w, n - 1, l, name);
      var v := Round(op, x, w, n - 1);
      if l == n - 1 {
        assert op.d[..4] == op.d;
        PutKeeps(v[l], op.d, ResultsOf(op, x, v, l), 4, name);
      }
    }
  }

  // v and w hold the same A and B operands.
  ghost predicate SameOperands(op: Op, v: Warp, w: Warp) {
    forall l: nat, name :: l < 32 && (name in op.a || name in op.b) ==> Get(v[l], name) == Get(w[l], name)
  }

  lemma ElemSame<F>(op: Op, x: Arith<F>, v: Warp, w: Warp, r: nat, k: nat, c: nat)
    requires ValidOp(op) && r < 16 && c < 8 && k < Depth(op.f) && SameOperands(op, v, w)
    ensures ElemA(op, x, v, r, k) == ElemA(op, x, w, r, k) && ElemB(op, x, v, k, c) == ElemB(op, x, w, k, c)
  {
    hide ALoc; hide BLoc; hide OwnerA; hide OwnerB; hide Get; hide SlotOfA; hide SlotOfB;
    ALocBounds(op.f, r, k);
    BLocBounds(op.f, k, c);
    assert op.a[ALoc(op.f, r, k).reg] in op.a && op.b[BLoc(op.f, k).reg] in op.b;
  }

  lemma {:induction false} ChainSame<F>(op: Op, x: Arith<F>, v: Warp, w: Warp, r: nat, c: nat, acc: F, n: nat)
    requires ValidOp(op) && r < 16 && c < 8 && n <= Depth(op.f) && SameOperands(op, v, w)
    ensures Chain(op, x, v, r, c, acc, n) == Chain(op, x, w, r, c, acc, n)
  {
    hide ElemA; hide ElemB; hide SameOperands;
    if n > 0 {
      ChainSame(op, x, v, w, r, c, acc, n - 1);
      ElemSame(op, x, v, w, r, n - 1, c);
    }
  }

  lemma PutUnfolds(r: Regs, d: seq<Name>, words: nat -> Word, n: nat)
    requires n <= |d|
    ensures Put(r, d, words, n) == if n == 0 then r else Put(r, d, words, n - 1)[d[n - 1] := words(n - 1)]
  { }

  lemma {:induction false} PutSame(r: Regs, d: seq<Name>, f: nat -> Word, g: nat -> Word, n: nat)
    requires n <= |d| && forall s: nat :: s < n ==> f(s) == g(s)
    ensures Put(r, d, f, n) == Put(r, d, g, n)
  {
    if n > 0 { PutSame(r, d, f, g, n - 1); }
  }

  lemma ResultsSame<F>(op: Op, x: Arith<F>, v: Warp, w: Warp, l: nat)
    requires ValidOp(op) && l < 32 && SameOperands(op, v, w) && v[l] == w[l]
    ensures forall s: nat :: s < 4 ==> ResultsOf(op, x, v, l)(s) == ResultsOf(op, x, w, l)(s)
  {
    hide Chain; hide SameOperands; hide Get;
    forall s: nat | s < 4 ensures ResultsOf(op, x, v, l)(s) == ResultsOf(op, x, w, l)(s) {
      ResultAt(l, s);
      ChainSame(op, x, v, w, RowC(l, s), ColC(l, s), x.accIn(Get(w[l], op.c[s])), Depth(op.f));
    }
  }

  lemma RoundOperands<F>(op: Op, x: Arith<F>, w: Warp, n: nat)
    requires ValidOp(op) && n <= 32 && Unread(op.a, op.d) && Unread(op.b, op.d)
    ensures SameOperands(op, Round(op, x, w, n), w)
  {
    hide Get; hide Round;
    forall l: nat, name | l < 32 && (name in op.a || name in op.b) ensures Get(Round(op, x, w, n)[l], name) == Get(w[l], name) {
      RoundKeeps(op, x, w, n, l, name);
    }
  }

  lemma {:induction false} RoundUntouched<F>(op: Op, x: Arith<F>, w: Warp, n: nat, l: nat)
    requires ValidOp(op) && n <= l < 32
    ensures Round(op, x, w, n)[l] == w[l]
  {
    hide Put; hide ResultsOf;
    if n > 0 { RoundUntouched(op, x, w, n - 1, l); }
  }

  // Executing lane after lane is as good as executing all at once.
  lemma {:induction false} RoundIsParallel<F>(op: Op, x: Arith<F>, w: Warp, n: nat, l: nat)
    requires ValidOp(op) && n <= 32 && l < n && Unread(op.a, op.d) && Unread(op.b, op.d)
    ensures Round(op, x, w, n)[l] == Put(w[l], op.d, ResultsOf(op, x, w, l), 4)
  {
    hide Put; hide ResultsOf; hide SameOperands; hide Unread;
    var v := Round(op, x, w, n - 1);
    if l < n - 1 {
      RoundIsParallel(op, x, w, n - 1, l);
    } else {
      RoundOperands(op, x, w, n - 1);
      RoundUntouched(op, x, w, n - 1, l);
      ResultsSame(op, x, v, w, l);
      PutSame(w[l], op.d, ResultsOf(op, x, v, l), ResultsOf(op, x, w, l), 4);
    }
  }

  // ---- the compiled lane ---------------------------------------------------------------------

  // What lane p published: its A words, then its B words.
  function Published(op: Op, w: Warp, p: nat, i: nat): Word
    requires ValidOp(op) && p < 32 && i < RegsA(op.f) + RegsB(op.f)
  {
    if i < RegsA(op.f) then Get(w[p], op.a[i]) else Get(w[p], op.b[i - RegsA(op.f)])
  }

  // What a lane reads from its peers: word i of lane p.
  type Reader = (nat, nat) -> Word

  // The reader delivers what was published.
  ghost predicate Delivers(op: Op, w: Warp, read: Reader)
    requires ValidOp(op)
  {
    forall p: nat, i: nat :: p < 32 && i < RegsA(op.f) + RegsB(op.f) ==> read(p, i) == Published(op, w, p, i)
  }

  // What the lane reads for step k of its result s: g and t are its row and
  // column group, the owner is a constant plus 4g, or plus 4 times the column.
  function LaneA<F>(op: Op, x: Arith<F>, read: Reader, l: nat, s: nat, k: nat): F {
    var at := ALoc(op.f, if s < 2 then 0 else 8, k);
    x.elemA(Raw(op.f, read((l / 4) * 4 + at.lane, at.reg), at.within))
  }

  function LaneB<F>(op: Op, x: Arith<F>, read: Reader, l: nat, s: nat, k: nat): F {
    var at := BLoc(op.f, k);
    x.elemB(Raw(op.f, read((2 * (l % 4) + s % 2) * 4 + at.lane, RegsA(op.f) + at.reg), at.within))
  }

  lemma LaneReach(f: Format, l: nat, s: nat, k: nat)
    requires l < 32 && s < 4 && k < Depth(f)
    ensures RowC(l, s) < 16 && ColC(l, s) < 8
    ensures ALoc(f, if s < 2 then 0 else 8, k) == ALoc(f, RowC(l, s), k)
    ensures ALoc(f, RowC(l, s), k).reg < RegsA(f) && BLoc(f, k).reg < RegsB(f)
    ensures (l / 4) * 4 + ALoc(f, RowC(l, s), k).lane == OwnerA(f, RowC(l, s), k) < 32
    ensures (2 * (l % 4) + s % 2) * 4 + BLoc(f, k).lane == OwnerB(f, k, ColC(l, s)) < 32
  {
    ResultAt(l, s);
    SameOwner(f, l, s, k);
    ALocBounds(f, RowC(l, s), k);
    BLocBounds(f, k, ColC(l, s));
  }

  function LaneChain<F>(op: Op, x: Arith<F>, read: Reader, l: nat, s: nat, acc: F, n: nat): F {
    if n == 0 then acc
    else x.mulAdd(LaneA(op, x, read, l, s, n - 1), LaneB(op, x, read, l, s, n - 1), LaneChain(op, x, read, l, s, acc, n - 1))
  }

  // Results 0 .. n-1 computed and stored one by one; C is read from the lane's
  // own registers as the earlier stores left them.
  function LaneRegs<F>(op: Op, x: Arith<F>, read: Reader, own: Regs, l: nat, n: nat): Regs
    requires ValidOp(op) && n <= 4
  {
    if n == 0 then own
    else
      var s, r := n - 1, LaneRegs(op, x, read, own, l, n - 1);
      r[op.d[s] := x.accOut(LaneChain(op, x, read, l, s, x.accIn(Get(r, op.c[CElem(if s < 2 then 0 else 8, s % 2)])), Depth(op.f)))]
  }

  // The published words the lane reads for step k are the operands (r, k) and (k, c).
  lemma LaneOperands<F>(op: Op, x: Arith<F>, w: Warp, read: Reader, l: nat, s: nat, k: nat)
    requires ValidOp(op) && Delivers(op, w, read) && l < 32 && s < 4 && k < Depth(op.f)
    ensures RowC(l, s) < 16 && ColC(l, s) < 8
    ensures LaneA(op, x, read, l, s, k) == ElemA(op, x, w, RowC(l, s), k)
    ensures LaneB(op, x, read, l, s, k) == ElemB(op, x, w, k, ColC(l, s))
  {
    hide ALoc; hide BLoc; hide Get; hide OwnerA; hide OwnerB; hide RowC; hide ColC;
    LaneReach(op.f, l, s, k);
  }

  lemma {:induction false} LaneChainIs<F>(op: Op, x: Arith<F>, w: Warp, read: Reader, l: nat, s: nat, acc: F, n: nat)
    requires ValidOp(op) && Delivers(op, w, read) && l < 32 && s < 4 && n <= Depth(op.f)
    ensures RowC(l, s) < 16 && ColC(l, s) < 8
    ensures LaneChain(op, x, read, l, s, acc, n) == Chain(op, x, w, RowC(l, s), ColC(l, s), acc, n)
  {
    ResultAt(l, s);
    hide ElemA; hide ElemB; hide LaneA; hide LaneB; hide RowC; hide ColC; hide Delivers;
    if n > 0 {
      LaneChainIs(op, x, w, read, l, s, acc, n - 1);
      LaneOperands(op, x, w, read, l, s, n - 1);
    }
  }

  lemma LaneResult<F>(op: Op, x: Arith<F>, w: Warp, read: Reader, l: nat, s: nat)
    requires ValidOp(op) && Delivers(op, w, read) && l < 32 && s < 4
    ensures x.accOut(LaneChain(op, x, read, l, s, x.accIn(Get(w[l], op.c[s])), Depth(op.f))) == ResultsOf(op, x, w, l)(s)
  {
    hide LaneChain; hide Chain; hide Get; hide Delivers;
    LaneChainIs(op, x, w, read, l, s, x.accIn(Get(w[l], op.c[s])), Depth(op.f));
  }

  lemma SameOwner(f: Format, l: nat, s: nat, k: nat)
    requires l < 32 && s < 4 && k < Depth(f)
    ensures var rOff := if s < 2 then 0 else 8;
      && ALoc(f, rOff, k) == ALoc(f, RowC(l, s), k)
      && (l / 4) * 4 + ALoc(f, rOff, k).lane == OwnerA(f, RowC(l, s), k)
      && (2 * (l % 4) + s % 2) * 4 + BLoc(f, k).lane == OwnerB(f, k, ColC(l, s))
  {
    assert l / 4 < 8;
  }

  // No result overwrites a C word that a later result still reads: disjoint
  // groups do, and so does C and D being the same registers.
  predicate CSafe(op: Op)
    requires ValidOp(op)
  {
    forall s: nat, s': nat :: s < s' < 4 ==> op.d[s] != op.c[s']
  }

  lemma {:induction false} LaneRegsAre<F>(op: Op, x: Arith<F>, w: Warp, read: Reader, l: nat, n: nat)
    requires ValidOp(op) && Delivers(op, w, read) && CSafe(op) && l < 32 && n <= 4
    ensures LaneRegs(op, x, read, w[l], l, n) == Put(w[l], op.d, ResultsOf(op, x, w, l), n)
  {
    hide Put; hide LaneChain; hide ResultsOf; hide Get; hide Delivers;
    if n > 0 {
      var s := n - 1;
      LaneRegsAre(op, x, w, read, l, s);
      PutUnfolds(w[l], op.d, ResultsOf(op, x, w, l), n);
      PutUnfolds(w[l], op.d, ResultsOf(op, x, w, l), 0);
      assert op.c[s] !in op.d[..s];
      PutKeeps(w[l], op.d, ResultsOf(op, x, w, l), s, op.c[s]);
      assert CElem(if s < 2 then 0 else 8, s % 2) == s;
      LaneResult(op, x, w, read, l, s);
    } else {
      PutUnfolds(w[l], op.d, ResultsOf(op, x, w, l), 0);
    }
  }

  // Both paths give every lane of a full warp the same registers.
  lemma MmaAgrees<F>(op: Op, x: Arith<F>, w: Warp, read: Reader, l: nat)
    requires ValidOp(op) && Delivers(op, w, read) && l < 32 && Unread(op.a, op.d) && Unread(op.b, op.d) && CSafe(op)
    ensures LaneRegs(op, x, read, w[l], l, 4) == Round(op, x, w, 32)[l]
  {
    RoundIsParallel(op, x, w, 32, l);
    LaneRegsAre(op, x, w, read, l, 4);
  }

  // ---- integers: 64-bit sums cut at the end, against 32-bit arithmetic -----------------------

  // s8 or u8 elements; the interpreter sums in int64.
  function Wide(signed: bool): Arith<int> {
    Arith(v => LaneVal(v, 8, 0, signed), v => LaneVal(v, 8, 0, signed),
          v => Signed(B32, v), (a, b, c) => c + a * b, v => Fit(B32, v))
  }

  // The compiled code multiplies and adds i32 words.
  function Narrow32(signed: bool): Arith<Word> {
    Arith(v => Fit(B32, LaneVal(v, 8, 0, signed)), v => Fit(B32, LaneVal(v, 8, 0, signed)),
          v => Fit(B32, v), (a, b, c) => Fit(B32, c + Fit(B32, (a as int) * (b as int))), v => v)
  }

  // y computes the images under h of what x computes.
  ghost predicate Image<F(!new), G(!new)>(x: Arith<F>, y: Arith<G>, h: F -> G) {
    && (forall v: Word :: y.elemA(v) == h(x.elemA(v)) && y.elemB(v) == h(x.elemB(v)))
    && (forall v: Word :: y.accIn(v) == h(x.accIn(v)))
    && (forall a: F, b: F, c: F :: y.mulAdd(h(a), h(b), h(c)) == h(x.mulAdd(a, b, c)))
    && (forall v: F :: y.accOut(h(v)) == x.accOut(v))
  }

  lemma {:induction false} ChainImage<F(!new), G(!new)>(op: Op, x: Arith<F>, y: Arith<G>, h: F -> G, w: Warp, r: nat, c: nat, acc: F, n: nat)
    requires ValidOp(op) && r < 16 && c < 8 && n <= Depth(op.f) && Image(x, y, h)
    ensures Chain(op, y, w, r, c, h(acc), n) == h(Chain(op, x, w, r, c, acc, n))
  {
    if n > 0 { ChainImage(op, x, y, h, w, r, c, acc, n - 1); }
  }

  lemma MmaAgreesAcross<F(!new), G(!new)>(op: Op, x: Arith<F>, y: Arith<G>, h: F -> G, w: Warp, read: Reader, l: nat)
    requires ValidOp(op) && Delivers(op, w, read) && l < 32 && Unread(op.a, op.d) && Unread(op.b, op.d) && CSafe(op) && Image(x, y, h)
    ensures LaneRegs(op, y, read, w[l], l, 4) == Round(op, x, w, 32)[l]
  {
    RoundIsParallel(op, x, w, 32, l);
    LaneRegsAre(op, y, w, read, l, 4);
    forall s: nat | s < 4 ensures ResultsOf(op, y, w, l)(s) == ResultsOf(op, x, w, l)(s) {
      CElemInverts(l, s, 0, 0);
      ChainImage(op, x, y, h, w, RowC(l, s), ColC(l, s), x.accIn(Get(w[l], op.c[s])), Depth(op.f));
    }
    PutSame(w[l], op.d, ResultsOf(op, y, w, l), ResultsOf(op, x, w, l), 4);
  }

  lemma WideImage(signed: bool)
    ensures Image(Wide(signed), Narrow32(signed), v => Fit(B32, v))
  {
    var x, y, h := Wide(signed), Narrow32(signed), (v: int) => Fit(B32, v);
    forall v: Word ensures y.accIn(v) == h(x.accIn(v)) { SignedFits(v); }
    forall a: int, b: int, c: int ensures y.mulAdd(h(a), h(b), h(c)) == h(x.mulAdd(a, b, c)) { MulAddFits(a, b, c); }
    forall v: int ensures y.accOut(h(v)) == x.accOut(v) { }
  }

  lemma SignedFits(v: Word)
    ensures Fit(B32, Signed(B32, v)) == Fit(B32, v)
  {
    ModShift(Fit(B32, v), -1, M32);
  }

  lemma MulAddFits(a: int, b: int, c: int)
    ensures Fit(B32, Fit(B32, c) + Fit(B32, Fit(B32, a) * Fit(B32, b))) == Fit(B32, c + a * b)
  {
    AddMulMod(a, b, 0, M32);
    AddFits(c, a * b);
  }

  lemma AddFits(x: int, y: int)
    ensures Fit(B32, Fit(B32, x) + Fit(B32, y)) == Fit(B32, x + y)
  {
    ModShift(x % M32 + y % M32, x / M32 + y / M32, M32);
  }

  // The 32-bit integer product of the compiled lanes is the interpreter's.
  lemma IntegerMmaAgrees(op: Op, signed: bool, w: Warp, read: Reader, l: nat)
    requires ValidOp(op) && Delivers(op, w, read) && l < 32 && Unread(op.a, op.d) && Unread(op.b, op.d) && CSafe(op)
    ensures LaneRegs(op, Narrow32(signed), read, w[l], l, 4) == Round(op, Wide(signed), w, 32)[l]
  {
    WideImage(signed);
    MmaAgreesAcross(op, Wide(signed), Narrow32(signed), v => Fit(B32, v), w, read, l);
  }

  // The logical product: the sum over k of A(r,k) B(k,c).
  function Dot(op: Op, signed: bool, w: Warp, r: nat, c: nat, n: nat): int
    requires ValidOp(op) && r < 16 && c < 8 && n <= Depth(op.f)
  {
    if n == 0 then 0
    else Dot(op, signed, w, r, c, n - 1) + ElemA(op, Wide(signed), w, r, n - 1) * ElemB(op, Wide(signed), w, n - 1, c)
  }

  lemma {:induction false} ChainIsDot(op: Op, signed: bool, w: Warp, r: nat, c: nat, acc: int, n: nat)
    requires ValidOp(op) && r < 16 && c < 8 && n <= Depth(op.f)
    ensures Chain(op, Wide(signed), w, r, c, acc, n) == acc + Dot(op, signed, w, r, c, n)
  {
    hide ElemA; hide ElemB;
    if n > 0 { ChainIsDot(op, signed, w, r, c, acc, n - 1); }
  }

  // The lane that holds element (r, c) of the result.
  function LaneOf(r: nat, c: nat): (l: nat)
    requires r < 16 && c < 8
    ensures l < 32
  {
    (r % 8) * 4 + c / 2
  }

  // Assembled over the warp, the D words are A times B plus C, modulo 2^32:
  // element (r, c) stands in the slot CElem names of the lane that owns it.
  lemma ProductAssembled(op: Op, signed: bool, w: Warp, r: nat, c: nat)
    requires ValidOp(op) && r < 16 && c < 8
    ensures CElem(r, c % 2) < 4
    ensures Result(op, Wide(signed), w, LaneOf(r, c), CElem(r, c % 2)) ==
            Fit(B32, Signed(B32, Get(w[LaneOf(r, c)], op.c[CElem(r, c % 2)])) + Dot(op, signed, w, r, c, Depth(op.f)))
  {
    hide Result; hide Dot; hide Get; hide Signed; hide Fit; hide LaneOf; hide CElem; hide RowC; hide ColC; hide Depth; hide Wide;
    OwnerOf(r, c);
    ResultIsDot(op, signed, w, LaneOf(r, c), CElem(r, c % 2), r, c);
  }

  lemma OwnerOf(r: nat, c: nat)
    requires r < 16 && c < 8
    ensures CElem(r, c % 2) < 4 && RowC(LaneOf(r, c), CElem(r, c % 2)) == r && ColC(LaneOf(r, c), CElem(r, c % 2)) == c
  {
    CElemInverts((r % 8) * 4 + c / 2, CElem(r, c % 2), r, c);
  }

  lemma ResultIsDot(op: Op, signed: bool, w: Warp, l: nat, s: nat, r: nat, c: nat)
    requires ValidOp(op) && r < 16 && c < 8 && l < 32 && s < 4 && RowC(l, s) == r && ColC(l, s) == c
    ensures Result(op, Wide(signed), w, l, s) == Fit(B32, Signed(B32, Get(w[l], op.c[s])) + Dot(op, signed, w, r, c, Depth(op.f)))
  {
    hide RowC; hide ColC; hide Chain; hide Dot; hide Get; hide Signed; hide Fit; hide Wide;
    WideEnds(signed, Get(w[l], op.c[s]));
    ChainIsDot(op, signed, w, r, c, Signed(B32, Get(w[l], op.c[s])), Depth(op.f));
  }

  lemma WideEnds(signed: bool, v: Word)
    ensures Wide(signed).accIn(v) == Signed(B32, v) && forall sum: int :: Wide(signed).accOut(sum) == Fit(B32, sum)
  { }
}

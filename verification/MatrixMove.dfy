// ldmatrix and stmatrix: a warp moves one, two or four 8x8 matrices of halves
// between memory and registers. In the interpreter every lane's step carries out
// the whole collective for all lanes; a compiled lane moves its own pieces only.
module MatrixMove {
  import opened Bits
  import opened Words
  import opened Ptx
  import opened Machine
  import Interp
  import Mma

  type Regs = Mma.Regs
  type Half = x: nat | x < 65536

  // [reg + off], or the address of a shared symbol plus an offset.
  datatype Base = InReg(name: Name) | Symbol(at: Word)

  datatype Move = Move(trans: bool, nMat: nat, frags: seq<Name>, base: Base, off: int)

  predicate ValidMove(op: Move) { (op.nMat == 1 || op.nMat == 2 || op.nMat == 4) && |op.frags| == op.nMat }

  // ---- where things lie ---------------------------------------------------------------

  // One half: matrix m's part e of lane l's fragment.
  datatype Piece = Piece(l: nat, m: nat, e: nat)

  predicate InMove(op: Move, n: nat, p: Piece) { p.l < n && p.m < op.nMat && p.e < 2 }

  function RowOf(trans: bool, p: Piece): nat { if trans then (p.l % 4) * 2 + p.e else p.l / 4 }
  function ColOf(trans: bool, p: Piece): nat { if trans then p.l / 4 else (p.l % 4) * 2 + p.e }

  type Rows = r: seq<Word> | |r| == 32 witness seq(32, _ => 0)

  // The row-start address every lane supplies; lanes that do not exist supply zero.
  function RowAddr(op: Move, w: seq<Regs>, l: nat): Word {
    if l >= |w| then 0
    else Fit(B64, (match op.base case InReg(name) => Mma.Get(w[l], name) case Symbol(at) => at) + op.off)
  }

  // The address of [base+off]: off bytes from that of [base], which is the
  // register's content or the symbol's place.
  lemma RowAddrIs(op: Move, w: seq<Regs>, l: nat)
    requires l < |w|
    ensures RowAddr(op.(off := 0), w, l) == match op.base case InReg(name) => Mma.Get(w[l], name) case Symbol(at) => at
    ensures exists turns: int :: RowAddr(op, w, l) == RowAddr(op.(off := 0), w, l) + op.off + turns * M64
  {
    var base := match op.base case InReg(name) => Mma.Get(w[l], name) case Symbol(at) => at;
    FitSame(B64, base);
    assert RowAddr(op, w, l) == base + op.off + (-((base + op.off) / M64)) * M64;
  }

  function RowsOf(op: Move, w: seq<Regs>): Rows { seq(32, l requires 0 <= l => RowAddr(op, w, l)) }

  // Byte i of the row that supplier s named.
  function ByteAt(rows: Rows, s: nat, i: nat): Word
    requires s < 32
  {
    At(rows[s], i)
  }

  function Supplier(op: Move, p: Piece): nat { p.m * 8 + RowOf(op.trans, p) }

  lemma SupplierIs(op: Move, p: Piece)
    requires ValidMove(op) && InMove(op, 32, p)
    ensures Supplier(op, p) < 32 && RowOf(op.trans, p) < 8 && ColOf(op.trans, p) < 8
  { }

  // Byte b of the piece.
  function CellByte(op: Move, rows: Rows, p: Piece, b: nat): Word
    requires ValidMove(op) && InMove(op, 32, p) && b < 2
  {
    SupplierIs(op, p);
    ByteAt(rows, Supplier(op, p), ColOf(op.trans, p) * 2 + b)
  }

  // The 16-byte rows in use do not overlap.
  ghost predicate Disjoint(op: Move, rows: Rows) {
    forall s: nat, i: nat, t: nat, j: nat ::
      (s < op.nMat * 8 && t < op.nMat * 8 && s < 32 && t < 32 && i < 16 && j < 16 && ByteAt(rows, s, i) == ByteAt(rows, t, j)) ==> s == t && i == j
  }

  // Different pieces lie at different bytes.
  lemma PiecesApart(op: Move, rows: Rows, p: Piece, b: nat, q: Piece, c: nat)
    requires ValidMove(op) && Disjoint(op, rows) && InMove(op, 32, p) && InMove(op, 32, q) && b < 2 && c < 2
    requires CellByte(op, rows, p, b) == CellByte(op, rows, q, c)
    ensures p == q && b == c
  {
    SupplierIs(op, p);
    SupplierIs(op, q);
    var s, i := Supplier(op, p), ColOf(op.trans, p) * 2 + b;
    var t, j := Supplier(op, q), ColOf(op.trans, q) * 2 + c;
    assert ByteAt(rows, s, i) == ByteAt(rows, t, j);
    assert s == t && i == j;
    Places(op.trans, p, q);
  }

  lemma Places(trans: bool, p: Piece, q: Piece)
    requires p.l < 32 && q.l < 32 && p.e < 2 && q.e < 2 && RowOf(trans, p) == RowOf(trans, q) && ColOf(trans, p) == ColOf(trans, q) && p.m == q.m
    ensures p == q
  {
    assert p.l == (p.l / 4) * 4 + p.l % 4 && q.l == (q.l / 4) * 4 + q.l % 4;
  }

  // ---- stores ------------------------------------------------------------------------------

  // The low or the high half of a fragment register, as 32 bits.
  function HalfOf(v: Word, e: nat): Half { if e == 0 then v % 65536 else (v / 65536) % 65536 }
  function ByteOf(h: Half, b: nat): Byte { if b == 0 then h % 256 else (h / 256) % 256 }

  function Stored1(op: Move, w: seq<Regs>, rows: Rows, p: Piece): Mem
    requires ValidMove(op) && InMove(op, |w|, p) && |w| <= 32
  {
    var h := HalfOf(Mma.Get(w[p.l], op.frags[p.m]), p.e);
    map[CellByte(op, rows, p, 0) := ByteOf(h, 0)][CellByte(op, rows, p, 1) := ByteOf(h, 1)]
  }

  ghost predicate AllIn(op: Move, n: nat, ps: seq<Piece>) { forall p :: p in ps ==> InMove(op, n, p) }

  function WriteSeq(op: Move, w: seq<Regs>, rows: Rows, mem: Mem, ps: seq<Piece>): Mem
    requires ValidMove(op) && |w| <= 32 && AllIn(op, |w|, ps)
  {
    if ps == [] then mem
    else
      WriteSeq(op, w, rows, mem, ps[..|ps| - 1]) + Stored1(op, w, rows, ps[|ps| - 1])
  }

  // The writes do not depend on what was there.
  lemma {:induction false} WritesAre(op: Move, w: seq<Regs>, rows: Rows, mem: Mem, ps: seq<Piece>)
    requires ValidMove(op) && |w| <= 32 && AllIn(op, |w|, ps)
    ensures WriteSeq(op, w, rows, mem, ps) == mem + WriteSeq(op, w, rows, map[], ps)
  {
    hide Stored1; hide ValidMove;
    if ps != [] {
      var rest := ps[..|ps| - 1];
      WritesAre(op, w, rows, mem, rest);
      MergeAssoc(mem, WriteSeq(op, w, rows, map[], rest), Stored1(op, w, rows, ps[|ps| - 1]));
    }
  }

  // Memory holds piece p's half at its place.
  ghost predicate Holds(op: Move, w: seq<Regs>, rows: Rows, mem: Mem, p: Piece)
    requires ValidMove(op) && InMove(op, |w|, p) && |w| <= 32
  {
    forall b: nat :: b < 2 ==>
      CellByte(op, rows, p, b) in mem && mem[CellByte(op, rows, p, b)] == ByteOf(HalfOf(Mma.Get(w[p.l], op.frags[p.m]), p.e), b)
  }

  // Byte a belongs to one of the pieces.
  ghost predicate Covered(op: Move, rows: Rows, ps: seq<Piece>, a: Word)
    requires ValidMove(op) && AllIn(op, 32, ps)
  {
    exists p, b: nat :: p in ps && b < 2 && CellByte(op, rows, p, b) == a
  }

  lemma HoldsAfter(op: Move, w: seq<Regs>, rows: Rows, mem: Mem, p: Piece)
    requires ValidMove(op) && InMove(op, |w|, p) && |w| <= 32 && Disjoint(op, rows)
    ensures Holds(op, w, rows, mem + Stored1(op, w, rows, p), p)
  {
    hide Disjoint; hide HalfOf; hide CellByte; hide ByteOf;
    if CellByte(op, rows, p, 0) == CellByte(op, rows, p, 1) { PiecesApart(op, rows, p, 0, p, 1); }
  }

  lemma HoldsStill(op: Move, w: seq<Regs>, rows: Rows, mem: Mem, p: Piece, q: Piece)
    requires ValidMove(op) && InMove(op, |w|, p) && InMove(op, |w|, q) && |w| <= 32 && Disjoint(op, rows) && p != q && Holds(op, w, rows, mem, p)
    ensures Holds(op, w, rows, mem + Stored1(op, w, rows, q), p)
  {
    hide Disjoint; hide HalfOf; hide CellByte; hide ByteOf;
    forall b: nat, c: nat | b < 2 && c < 2 ensures CellByte(op, rows, p, b) != CellByte(op, rows, q, c) {
      if CellByte(op, rows, p, b) == CellByte(op, rows, q, c) { PiecesApart(op, rows, p, b, q, c); }
    }
  }

  // After all writes every piece is in place.
  lemma {:induction false} AllHeld(op: Move, w: seq<Regs>, rows: Rows, mem: Mem, ps: seq<Piece>, p: Piece)
    requires ValidMove(op) && |w| <= 32 && AllIn(op, |w|, ps) && Disjoint(op, rows) && p in ps
    ensures Holds(op, w, rows, WriteSeq(op, w, rows, mem, ps), p)
  {
    hide Stored1; hide Disjoint; hide Holds; hide ValidMove;
    var rest, q := ps[..|ps| - 1], ps[|ps| - 1];
    assert ps == rest + [q];
    if p == q {
      HoldsAfter(op, w, rows, WriteSeq(op, w, rows, mem, rest), p);
    } else {
      AllHeld(op, w, rows, mem, rest, p);
      HoldsStill(op, w, rows, WriteSeq(op, w, rows, mem, rest), p, q);
    }
  }

  // Nothing else changes.
  lemma {:induction false} OthersKept(op: Move, w: seq<Regs>, rows: Rows, mem: Mem, ps: seq<Piece>, a: Word)
    requires ValidMove(op) && |w| <= 32 && AllIn(op, |w|, ps) && !Covered(op, rows, ps, a)
    ensures var after := WriteSeq(op, w, rows, mem, ps); (a in after <==> a in mem) && (a in mem ==> after[a] == mem[a])
  {
    hide CellByte; hide HalfOf;
    if ps != [] {
      var rest, q := ps[..|ps| - 1], ps[|ps| - 1];
      assert q in ps && forall p :: p in rest ==> p in ps;
      OthersKept(op, w, rows, mem, rest, a);
      assert CellByte(op, rows, q, 0) != a && CellByte(op, rows, q, 1) != a;
    }
  }

  // Any two orders of the same pieces leave the same memory: the interpreter's
  // loop, and the compiled lanes storing their own pieces in any interleaving.
  lemma AnyOrder(op: Move, w: seq<Regs>, rows: Rows, mem: Mem, ps: seq<Piece>, qs: seq<Piece>)
    requires ValidMove(op) && |w| <= 32 && AllIn(op, |w|, ps) && AllIn(op, |w|, qs) && Disjoint(op, rows)
    requires forall p :: p in ps <==> p in qs
    ensures WriteSeq(op, w, rows, mem, ps) == WriteSeq(op, w, rows, mem, qs)
  {
    hide Disjoint; hide ValidMove; hide CellByte; hide WriteSeq; hide HalfOf;
    var a, b := WriteSeq(op, w, rows, mem, ps), WriteSeq(op, w, rows, mem, qs);
    forall x: Word ensures (x in a <==> x in b) && (x in a ==> a[x] == b[x]) {
      if Covered(op, rows, ps, x) {
        var p, i: nat :| p in ps && i < 2 && CellByte(op, rows, p, i) == x;
        AllHeld(op, w, rows, mem, ps, p);
        AllHeld(op, w, rows, mem, qs, p);
      } else {
        OthersKept(op, w, rows, mem, ps, x);
        OthersKept(op, w, rows, mem, qs, x);
      }
    }
    assert a.Keys == b.Keys;
  }

  // ---- the interpreter's order -----------------------------------------------------------------

  // Lane by lane, matrix by matrix, low half first.
  function PieceAt(op: Move, i: nat): Piece
    requires ValidMove(op)
  {
    Piece(i / (2 * op.nMat), (i / 2) % op.nMat, i % 2)
  }

  function Order(op: Move, k: nat): seq<Piece>
    requires ValidMove(op)
    ensures |Order(op, k)| == k
  {
    if k == 0 then [] else Order(op, k - 1) + [PieceAt(op, k - 1)]
  }

  function Total(op: Move, n: nat): nat { IndexOf(op, Piece(n, 0, 0)) }

  function IndexOf(op: Move, p: Piece): nat {
    (if op.nMat == 1 then p.l * 2 else if op.nMat == 2 then p.l * 4 else p.l * 8) + p.m * 2 + p.e
  }

  lemma PlaceOf(op: Move, i: nat, p: Piece)
    requires ValidMove(op)
    ensures PieceAt(op, i) == p <==> p.m < op.nMat && p.e < 2 && i == IndexOf(op, p)
  {
    var h := i / 2;
    assert i == h * 2 + i % 2;
    if op.nMat == 1 {
      assert i / (2 * op.nMat) == h && h % op.nMat == 0;
    } else if op.nMat == 2 {
      assert i / (2 * op.nMat) == i / 4 == h / 2 && h % op.nMat == h % 2;
    } else {
      assert i / (2 * op.nMat) == i / 8 == h / 4 && h % op.nMat == h % 4;
    }
  }

  lemma PlaceIn(op: Move, n: nat, i: nat)
    requires ValidMove(op) && i < Total(op, n)
    ensures InMove(op, n, PieceAt(op, i))
  { }

  lemma {:induction false} OrderHas(op: Move, n: nat, k: nat, p: Piece)
    requires ValidMove(op) && k <= Total(op, n)
    ensures p in Order(op, k) <==> InMove(op, n, p) && IndexOf(op, p) < k
    decreases k
  {
    hide PieceAt; hide IndexOf; hide ValidMove; hide Total;
    if k > 0 {
      OrderHas(op, n, k - 1, p);
      PlaceIn(op, n, k - 1);
      PlaceOf(op, k - 1, p);
    }
  }

  lemma IndexIn(op: Move, n: nat, p: Piece)
    requires ValidMove(op) && InMove(op, n, p)
    ensures IndexOf(op, p) < Total(op, n)
  { }

  lemma OrderIn(op: Move, n: nat, k: nat)
    requires ValidMove(op) && k <= Total(op, n)
    ensures AllIn(op, n, Order(op, k))
  {
    forall p | p in Order(op, k) ensures InMove(op, n, p) { OrderHas(op, n, k, p); }
  }

  // Every piece of the move, nothing else.
  lemma OrderCovers(op: Move, n: nat, p: Piece)
    requires ValidMove(op)
    ensures p in Order(op, Total(op, n)) <==> InMove(op, n, p)
  {
    OrderHas(op, n, Total(op, n), p);
    if InMove(op, n, p) { IndexIn(op, n, p); }
  }

  // What one execution of stmatrix leaves in memory.
  function Stored(op: Move, w: seq<Regs>, mem: Mem): Mem
    requires ValidMove(op) && |w| <= 32
  {
    OrderIn(op, |w|, Total(op, |w|));
    WriteSeq(op, w, RowsOf(op, w), mem, Order(op, Total(op, |w|)))
  }

  // The 32-fold repetition: n executions, one for each lane's step.
  function StoreRound(op: Move, w: seq<Regs>, mem: Mem, n: nat): Mem
    requires ValidMove(op) && |w| <= 32
  {
    if n == 0 then mem else Stored(op, w, StoreRound(op, w, mem, n - 1))
  }

  // Storing again changes nothing, whatever the rows.
  lemma {:induction false} StoreRoundIsOnce(op: Move, w: seq<Regs>, mem: Mem, n: nat)
    requires ValidMove(op) && |w| <= 32 && n > 0
    ensures StoreRound(op, w, mem, n) == Stored(op, w, mem)
  {
    hide WriteSeq; hide ValidMove; hide Order; hide RowsOf; hide Total;
    if n > 1 {
      StoreRoundIsOnce(op, w, mem, n - 1);
      OrderIn(op, |w|, Total(op, |w|));
      var rows, ps := RowsOf(op, w), Order(op, Total(op, |w|));
      var d := WriteSeq(op, w, rows, map[], ps);
      WritesAre(op, w, rows, mem, ps);
      WritesAre(op, w, rows, mem + d, ps);
      assert (mem + d) + d == mem + d;
    }
  }

  // The compiled lanes: every lane stores its own pieces, in any interleaving.
  lemma CompiledStores(op: Move, w: seq<Regs>, mem: Mem, schedule: seq<Piece>)
    requires ValidMove(op) && |w| <= 32 && Disjoint(op, RowsOf(op, w))
    requires forall p :: p in schedule <==> InMove(op, |w|, p)
    ensures WriteSeq(op, w, RowsOf(op, w), mem, schedule) == StoreRound(op, w, mem, 32)
  {
    hide WriteSeq; hide ValidMove; hide Order; hide RowsOf; hide Total; hide Disjoint; hide InMove;
    StoreRoundIsOnce(op, w, mem, 32);
    OrderIn(op, |w|, Total(op, |w|));
    forall p ensures p in schedule <==> p in Order(op, Total(op, |w|)) { OrderCovers(op, |w|, p); }
    AnyOrder(op, w, RowsOf(op, w), mem, schedule, Order(op, Total(op, |w|)));
  }

  // ---- loads -----------------------------------------------------------------------------------

  function Peek(mem: Mem, a: Word): Byte { if a in mem then mem[a] else 0 }

  function HalfAt(op: Move, rows: Rows, mem: Mem, p: Piece): Half
    requires ValidMove(op) && InMove(op, 32, p)
  {
    Peek(mem, CellByte(op, rows, p, 0)) + 256 * Peek(mem, CellByte(op, rows, p, 1))
  }

  // Both halves of lane l's fragment of matrix m.
  function Fragment(op: Move, rows: Rows, mem: Mem, l: nat, m: nat): Word
    requires ValidMove(op) && l < 32 && m < op.nMat
  {
    HalfAt(op, rows, mem, Piece(l, m, 0)) + 65536 * HalfAt(op, rows, mem, Piece(l, m, 1))
  }

  // Lane l's registers after its first k fragments.
  function LoadRegs(op: Move, rows: Rows, mem: Mem, r: Regs, l: nat, k: nat): Regs
    requires ValidMove(op) && l < 32 && k <= op.nMat
  {
    if k == 0 then r else LoadRegs(op, rows, mem, r, l, k - 1)[op.frags[k - 1] := Fragment(op, rows, mem, l, k - 1)]
  }

  // What one execution of ldmatrix leaves in the registers of all lanes.
  function Loaded(op: Move, w: seq<Regs>, mem: Mem): seq<Regs>
    requires ValidMove(op) && |w| <= 32
  {
    seq(|w|, l requires 0 <= l < |w| => LoadRegs(op, RowsOf(op, w), mem, w[l], l, op.nMat))
  }

  function LoadRound(op: Move, w: seq<Regs>, mem: Mem, n: nat): (v: seq<Regs>)
    requires ValidMove(op) && |w| <= 32
    ensures |v| == |w|
  {
    if n == 0 then w else Loaded(op, LoadRound(op, w, mem, n - 1), mem)
  }

  lemma {:induction false} LoadRegsAre(op: Move, rows: Rows, mem: Mem, r: Regs, l: nat, k: nat)
    requires ValidMove(op) && l < 32 && k <= op.nMat
    ensures LoadRegs(op, rows, mem, r, l, k) == r + LoadRegs(op, rows, mem, map[], l, k)
  {
    hide Fragment; hide ValidMove;
    if k > 0 { LoadRegsAre(op, rows, mem, r, l, k - 1); }
  }

  lemma {:induction false} LoadKeeps(op: Move, rows: Rows, mem: Mem, r: Regs, l: nat, k: nat, name: Name)
    requires ValidMove(op) && l < 32 && k <= op.nMat && name !in op.frags
    ensures Mma.Get(LoadRegs(op, rows, mem, r, l, k), name) == Mma.Get(r, name)
  {
    hide Fragment;
    if k > 0 { LoadKeeps(op, rows, mem, r, l, k - 1, name); }
  }

  // The address register is not one of the fragments.
  predicate AddressStays(op: Move) { op.base.InReg? ==> op.base.name !in op.frags }

  lemma RowsStay(op: Move, w: seq<Regs>, mem: Mem)
    requires ValidMove(op) && |w| <= 32 && AddressStays(op)
    ensures RowsOf(op, Loaded(op, w, mem)) == RowsOf(op, w)
  {
    var v := Loaded(op, w, mem);
    forall l: nat | l < 32 ensures RowAddr(op, v, l) == RowAddr(op, w, l) {
      if l < |w| && op.base.InReg? { LoadKeeps(op, RowsOf(op, w), mem, w[l], l, op.nMat, op.base.name); }
    }
  }

  lemma LoadedTwice(op: Move, w: seq<Regs>, mem: Mem)
    requires ValidMove(op) && |w| <= 32 && AddressStays(op)
    ensures Loaded(op, Loaded(op, w, mem), mem) == Loaded(op, w, mem)
  {
    RowsStay(op, w, mem);
    var rows, v := RowsOf(op, w), Loaded(op, w, mem);
    hide LoadRegs; hide RowsOf; hide ValidMove;
    forall l: nat | l < |w| ensures LoadRegs(op, rows, mem, v[l], l, op.nMat) == v[l] {
      var d := LoadRegs(op, rows, mem, map[], l, op.nMat);
      LoadRegsAre(op, rows, mem, w[l], l, op.nMat);
      LoadRegsAre(op, rows, mem, v[l], l, op.nMat);
      assert (w[l] + d) + d == w[l] + d;
    }
  }

  lemma {:induction false} LoadRoundIsOnce(op: Move, w: seq<Regs>, mem: Mem, n: nat)
    requires ValidMove(op) && |w| <= 32 && AddressStays(op) && n > 0
    ensures LoadRound(op, w, mem, n) == Loaded(op, w, mem)
  {
    hide Loaded; hide ValidMove; hide AddressStays;
    if n > 1 {
      LoadRoundIsOnce(op, w, mem, n - 1);
      LoadedTwice(op, w, mem);
    }
  }

  // ---- the compiled load -----------------------------------------------------------------------

  // The compiled lane: row and column from lshr and and, halves joined by shl and or.
  function LaneFragment(op: Move, rows: Rows, mem: Mem, l: nat, m: nat): Word
    requires ValidMove(op) && l < 32 && m < op.nMat
  {
    var low, high := LaneHalf(op, rows, mem, l, m, 0), LaneHalf(op, rows, mem, l, m, 1);
    Joined16(low, high)
  }

  function Joined16(low: Half, high: Half): Word {
    var up := LShift(high, 16) % M32;
    OrFits(B32, low, up);
    Or(low, up)
  }

  lemma Joined16Is(low: Half, high: Half)
    ensures Joined16(low, high) == low + 65536 * high
  {
    SmallPowers();
    OrCommutes(low, high * Pow2(16));
    OrDisjoint(high, 16, low);
  }

  function LaneHalf(op: Move, rows: Rows, mem: Mem, l: nat, m: nat, e: nat): Half
    requires ValidMove(op) && l < 32 && m < op.nMat && e < 2
  {
    LaneParts(l);
    var fixed, e0 := RShift(l, 2), And(l, 3) * 2;
    var r, c := if op.trans then e0 + e else fixed, if op.trans then fixed else e0 + e;
    var at := At(rows[m * 8 + r], c * 2);
    Peek(mem, at) + 256 * Peek(mem, At(at, 1))
  }

  lemma LaneParts(l: nat)
    requires l < 32
    ensures RShift(l, 2) == l / 4 < 8 && And(l, 3) == l % 4
  {
    assert Pow2(2) == 4;
    AndOnes(l, 2);
  }

  lemma LaneHalfIs(op: Move, rows: Rows, mem: Mem, l: nat, m: nat, e: nat)
    requires ValidMove(op) && l < 32 && m < op.nMat && e < 2
    ensures LaneHalf(op, rows, mem, l, m, e) == HalfAt(op, rows, mem, Piece(l, m, e))
  {
    LaneParts(l);
    SupplierIs(op, Piece(l, m, e));
    hide RShift; hide And;
    var c := ColOf(op.trans, Piece(l, m, e));
    var row := rows[Supplier(op, Piece(l, m, e))];
    ModShift(row + c * 2 + 1, -((row + c * 2) / M64), M64);
    assert At(At(row, c * 2), 1) == At(row, c * 2 + 1);
  }

  // The compiled lane gets the fragments the interpreter gives it.
  lemma CompiledFragment(op: Move, rows: Rows, mem: Mem, l: nat, m: nat)
    requires ValidMove(op) && l < 32 && m < op.nMat
    ensures LaneFragment(op, rows, mem, l, m) == Fragment(op, rows, mem, l, m)
  {
    LaneHalfIs(op, rows, mem, l, m, 0);
    LaneHalfIs(op, rows, mem, l, m, 1);
    hide LaneHalf; hide HalfAt; hide ValidMove; hide Joined16;
    Joined16Is(LaneHalf(op, rows, mem, l, m, 0), LaneHalf(op, rows, mem, l, m, 1));
  }

  // ---- storing, then loading ----------------------------------------------------------------------

  lemma HalfBack(op: Move, w: seq<Regs>, rows: Rows, mem: Mem, p: Piece)
    requires ValidMove(op) && InMove(op, |w|, p) && |w| <= 32 && Holds(op, w, rows, mem, p)
    ensures HalfAt(op, rows, mem, p) == HalfOf(Mma.Get(w[p.l], op.frags[p.m]), p.e)
  {
    hide CellByte;
    assert CellByte(op, rows, p, 0) in mem && CellByte(op, rows, p, 1) in mem;
  }

  lemma FragmentBack(st: Move, ld: Move, w: seq<Regs>, mem: Mem, l: nat, m: nat)
    requires ValidMove(st) && ValidMove(ld) && |w| <= 32 && l < |w| && m < st.nMat
    requires st.trans == ld.trans && st.nMat == ld.nMat && RowsOf(st, w) == RowsOf(ld, w) && Disjoint(st, RowsOf(st, w))
    ensures Fragment(ld, RowsOf(ld, w), Stored(st, w, mem), l, m) == Fit(B32, Mma.Get(w[l], st.frags[m]))
  {
    var rows, n := RowsOf(st, w), Total(st, |w|);
    OrderIn(st, |w|, n);
    hide WriteSeq; hide Order; hide RowsOf; hide Disjoint; hide Total; hide CellByte; hide HalfOf; hide Holds;
    forall e: nat | e < 2 ensures HalfAt(ld, rows, Stored(st, w, mem), Piece(l, m, e)) == HalfOf(Mma.Get(w[l], st.frags[m]), e) {
      OrderCovers(st, |w|, Piece(l, m, e));
      AllHeld(st, w, rows, mem, Order(st, n), Piece(l, m, e));
      HalfBack(st, w, rows, Stored(st, w, mem), Piece(l, m, e));
      SameCell(st, ld, rows, Piece(l, m, e));
    }
    TwoHalves(Mma.Get(w[l], st.frags[m]));
  }

  lemma SameCell(st: Move, ld: Move, rows: Rows, p: Piece)
    requires ValidMove(st) && ValidMove(ld) && InMove(st, 32, p) && st.trans == ld.trans && st.nMat == ld.nMat
    ensures CellByte(st, rows, p, 0) == CellByte(ld, rows, p, 0) && CellByte(st, rows, p, 1) == CellByte(ld, rows, p, 1)
  { }

  lemma TwoHalves(v: Word)
    ensures HalfOf(v, 0) + 65536 * HalfOf(v, 1) == Fit(B32, v)
  { }

  predicate Distinct(names: seq<Name>) { forall i: nat, j: nat :: i < j < |names| ==> names[i] != names[j] }

  lemma {:induction false} LoadRegsAt(op: Move, rows: Rows, mem: Mem, r: Regs, l: nat, k: nat, m: nat)
    requires ValidMove(op) && l < 32 && m < k <= op.nMat && Distinct(op.frags)
    ensures Mma.Get(LoadRegs(op, rows, mem, r, l, k), op.frags[m]) == Fragment(op, rows, mem, l, m)
  {
    hide Fragment;
    if m < k - 1 { LoadRegsAt(op, rows, mem, r, l, k - 1, m); }
  }

  // A stmatrix followed by an ldmatrix from the same rows, the whole warp taking
  // part in both: every lane gets its fragments back, as 32-bit words, and no
  // byte outside the rows' pieces has changed.
  lemma StoreThenLoad(st: Move, ld: Move, w: seq<Regs>, mem: Mem, l: nat, m: nat, a: Word)
    requires ValidMove(st) && ValidMove(ld) && |w| <= 32 && l < |w| && m < st.nMat
    requires st.trans == ld.trans && st.nMat == ld.nMat && RowsOf(st, w) == RowsOf(ld, w) && Disjoint(st, RowsOf(st, w))
    requires Distinct(ld.frags) && AddressStays(ld)
    ensures var mem2 := StoreRound(st, w, mem, 32);
            && Mma.Get(LoadRound(ld, w, mem2, 32)[l], ld.frags[m]) == Fit(B32, Mma.Get(w[l], st.frags[m]))
            && (OutsideRows(st, RowsOf(st, w), a) ==> (a in mem2 <==> a in mem) && (a in mem ==> mem2[a] == mem[a]))
  {
    StoreRoundIsOnce(st, w, mem, 32);
    var mem2 := Stored(st, w, mem);
    LoadRoundIsOnce(ld, w, mem2, 32);
    FragmentBack(st, ld, w, mem, l, m);
    LoadRegsAt(ld, RowsOf(ld, w), mem2, w[l], l, ld.nMat, m);
    if OutsideRows(st, RowsOf(st, w), a) { OutsideKept(st, w, mem, a); }
    hide Fragment; hide Stored; hide LoadRegs; hide RowsOf; hide OutsideRows; hide Disjoint; hide Distinct;
  }

  ghost predicate OutsideRows(op: Move, rows: Rows, a: Word) {
    forall s: nat, i: nat :: s < op.nMat * 8 && s < 32 && i < 16 ==> ByteAt(rows, s, i) != a
  }

  lemma OutsideKept(op: Move, w: seq<Regs>, mem: Mem, a: Word)
    requires ValidMove(op) && |w| <= 32 && OutsideRows(op, RowsOf(op, w), a)
    ensures var mem2 := Stored(op, w, mem); (a in mem2 <==> a in mem) && (a in mem ==> mem2[a] == mem[a])
  {
    var rows, ps := RowsOf(op, w), Order(op, Total(op, |w|));
    OrderIn(op, |w|, Total(op, |w|));
    hide Order; hide Total; hide WriteSeq; hide RowsOf;
    forall p, b: nat | p in ps && b < 2 ensures CellByte(op, rows, p, b) != a {
      SupplierIs(op, p);
      assert ByteAt(rows, Supplier(op, p), ColOf(op.trans, p) * 2 + b) != a;
    }
    OthersKept(op, w, rows, mem, ps, a);
  }

  // ---- when the repetition shows -------------------------------------------------------------------

  // All bytes the rows take in are mapped, away from the null address.
  ghost predicate RowsMapped(op: Move, rows: Rows, mem: Mem) {
    forall s: nat, i: nat :: s < op.nMat * 8 && s < 32 && i < 16 ==> ByteAt(rows, s, i) in mem && ByteAt(rows, s, i) != 0
  }

  // A full warp whose rows are disjoint at first and mapped in each of n rounds.
  ghost predicate Readable(op: Move, w: seq<Regs>, mem: Mem, n: nat)
    requires ValidMove(op)
  {
    |w| == 32 && Disjoint(op, RowsOf(op, w)) && forall k: nat :: k < n ==> RowsMapped(op, RowsOf(op, LoadRound(op, w, mem, k)), mem)
  }

  // Loading n times over, on whatever registers and memory, is loading once.
  ghost predicate OnceEnough(op: Move, n: nat)
    requires ValidMove(op)
  {
    forall w: seq<Regs>, mem: Mem :: Readable(op, w, mem, n) ==> LoadRound(op, w, mem, n) == Loaded(op, w, mem)
  }

  // Byte x of the space that the move's offset shifts.
  function Shifted(off: int, x: nat): Word { Fit(B64, x + off) }

  lemma ShiftedAt(off: int, x: nat, i: nat)
    ensures At(Shifted(off, x), i) == Shifted(off, x + i)
  {
    ModShift(x + i + off, -((x + off) / M64), M64);
  }

  lemma ShiftedApart(off: int, x: nat, y: nat)
    requires x < M32 && y < M32 && Shifted(off, x) == Shifted(off, y)
    ensures x == y
  {
    var p, q := (x + off) / M64, (y + off) / M64;
    assert x - y == (p - q) * M64;
  }

  // n bytes c from x on.
  function Filled(off: int, x: nat, n: nat, c: Byte): Mem {
    if n == 0 then map[] else Filled(off, x, n - 1, c)[Shifted(off, x + (n - 1)) := c]
  }

  lemma {:induction false} FilledHas(off: int, x: nat, n: nat, c: Byte, i: nat)
    requires i < n
    ensures Shifted(off, x + i) in Filled(off, x, n, c) && Filled(off, x, n, c)[Shifted(off, x + i)] == c
  {
    hide Shifted;
    if Shifted(off, x + i) != Shifted(off, x + (n - 1)) { FilledHas(off, x, n - 1, c, i); }
  }

  lemma {:induction false} FilledOnly(off: int, x: nat, n: nat, c: Byte, y: nat)
    requires x + n <= M32 && y < M32 && (y < x || x + n <= y)
    ensures Shifted(off, y) !in Filled(off, x, n, c)
  {
    if n > 0 {
      FilledOnly(off, x, n - 1, c, y);
      if Shifted(off, y) == Shifted(off, x + (n - 1)) { ShiftedApart(off, y, x + (n - 1)); }
    }
  }

  // The word of four bytes c.
  const FOUR: nat := 0x0101_0101

  // Every byte of every row is c.
  ghost predicate RowsHold(op: Move, rows: Rows, mem: Mem, c: Byte) {
    forall s: nat, i: nat :: s < op.nMat * 8 && s < 32 && i < 16 ==> Peek(mem, ByteAt(rows, s, i)) == c
  }

  lemma FragmentOfSame(op: Move, rows: Rows, mem: Mem, c: Byte, l: nat, m: nat)
    requires ValidMove(op) && l < 32 && m < op.nMat && RowsHold(op, rows, mem, c)
    ensures Fragment(op, rows, mem, l, m) == c * FOUR
  {
    forall e: nat | e < 2 ensures HalfAt(op, rows, mem, Piece(l, m, e)) == 257 * c {
      var p := Piece(l, m, e);
      SupplierIs(op, p);
      assert Peek(mem, ByteAt(rows, Supplier(op, p), ColOf(op.trans, p) * 2)) == c;
      assert Peek(mem, ByteAt(rows, Supplier(op, p), ColOf(op.trans, p) * 2 + 1)) == c;
    }
  }

  lemma {:induction false} LoadsSame(op: Move, rows: Rows, mem: Mem, c: Byte, r: Regs, l: nat, k: nat, x: Name)
    requires ValidMove(op) && l < 32 && k <= op.nMat && RowsHold(op, rows, mem, c) && x in op.frags[..k]
    ensures Mma.Get(LoadRegs(op, rows, mem, r, l, k), x) == c * FOUR
  {
    FragmentOfSame(op, rows, mem, c, l, k - 1);
    Mma.GetUpdated(LoadRegs(op, rows, mem, r, l, k - 1), op.frags[k - 1], Fragment(op, rows, mem, l, k - 1), x);
    hide Fragment; hide RowsHold; hide Mma.Get; hide ValidMove;
    if x != op.frags[k - 1] {
      assert x in op.frags[..k - 1];
      LoadsSame(op, rows, mem, c, r, l, k - 1, x);
    }
  }

  // All lanes hold v in x.
  ghost predicate AllHold(w: seq<Regs>, x: Name, v: Word) { forall l: nat :: l < |w| ==> Mma.Get(w[l], x) == v }

  lemma LoadedSame(op: Move, w: seq<Regs>, mem: Mem, c: Byte, x: Name)
    requires ValidMove(op) && |w| == 32 && RowsHold(op, RowsOf(op, w), mem, c) && x in op.frags
    ensures AllHold(Loaded(op, w, mem), x, c * FOUR)
  {
    assert op.frags[..op.nMat] == op.frags;
    forall l: nat | l < |w| ensures Mma.Get(Loaded(op, w, mem)[l], x) == c * FOUR {
      LoadsSame(op, RowsOf(op, w), mem, c, w[l], l, op.nMat, x);
    }
  }

  // The counterexample for a move whose address register x is a fragment. Lane l
  // names the row at Far(c) + 16 l; those rows hold bytes c. Loaded, x is the
  // address c * FOUR of a row of bytes c + 1, and then (c + 1) * FOUR, which holds
  // the same. Far and both words are below 2^32 and, shifted, not null for one of
  // the two choices of c.
  function Chosen(off: int): (c: Byte)
    ensures c == 1 || c == 3
  {
    if (-off) % M64 >= 3 * FOUR then 1 else 3
  }

  function Far(c: Byte): nat { c * FOUR + 4096 }

  function FarRegs(x: Name, c: Byte, l: nat): Regs
    requires c < 4 && l < 32
  {
    var v: Word := Far(c) + 16 * l;
    map[x := v]
  }

  function FarWarp(x: Name, c: Byte): seq<Regs>
    requires c < 4
  {
    seq(32, l requires 0 <= l < 32 => FarRegs(x, c, l))
  }

  function FarMemory(off: int, c: Byte): Mem
    requires c < 4
  {
    Filled(off, c * FOUR, 16, c + 1) + Filled(off, (c + 1) * FOUR, 16, c + 1) + Filled(off, Far(c), 512, c)
  }

  lemma NotNull(off: int, y: nat)
    requires var c := Chosen(off); c * FOUR <= y < (c + 1) * FOUR + 16
    ensures Shifted(off, y) != 0
  {
    var e := (-off) % M64;
    var q := (-off) / M64;
    assert off == -(q * M64) - e;
    ModShift(y - e, -q, M64);
    assert Shifted(off, y) == (y - e) % M64;
    if e > y { assert (y - e) % M64 == y - e + M64; } else { assert (y - e) % M64 == y - e; }
  }

  // What the memory holds at the three places.
  lemma FarHolds(off: int, i: nat)
    ensures var c, mem := Chosen(off), FarMemory(off, Chosen(off));
      && (i < 512 ==> Shifted(off, Far(c) + i) in mem && mem[Shifted(off, Far(c) + i)] == c && Shifted(off, Far(c) + i) != 0)
      && (i < 16 ==> Shifted(off, c * FOUR + i) in mem && mem[Shifted(off, c * FOUR + i)] == c + 1 && Shifted(off, c * FOUR + i) != 0)
      && (i < 16 ==> Shifted(off, (c + 1) * FOUR + i) in mem && mem[Shifted(off, (c + 1) * FOUR + i)] == c + 1 && Shifted(off, (c + 1) * FOUR + i) != 0)
  {
    var c := Chosen(off);
    hide Filled; hide Shifted; hide Chosen;
    if i < 512 {
      FilledHas(off, Far(c), 512, c, i);
      NotNull(off, Far(c) + i);
    }
    if i < 16 {
      FilledHas(off, c * FOUR, 16, c + 1, i);
      FilledHas(off, (c + 1) * FOUR, 16, c + 1, i);
      FilledOnly(off, Far(c), 512, c, c * FOUR + i);
      FilledOnly(off, Far(c), 512, c, (c + 1) * FOUR + i);
      if Shifted(off, c * FOUR + i) in Filled(off, (c + 1) * FOUR, 16, c + 1) { FilledOnly(off, (c + 1) * FOUR, 16, c + 1, c * FOUR + i); }
      NotNull(off, c * FOUR + i);
      NotNull(off, (c + 1) * FOUR + i);
    }
  }

  lemma RowFrom(op: Move, w: seq<Regs>, x: Name, s: nat, i: nat)
    requires op.base == InReg(x) && |w| == 32 && s < 32
    ensures ByteAt(RowsOf(op, w), s, i) == Shifted(op.off, Mma.Get(w[s], x) + i)
  {
    var v := Mma.Get(w[s], x);
    assert RowsOf(op, w)[s] == RowAddr(op, w, s) == Shifted(op.off, v);
    ShiftedAt(op.off, v, i);
    hide RowsOf; hide RowAddr; hide Shifted;
  }

  // The rows a warp names that holds the same word in x throughout.
  lemma SameRows(op: Move, w: seq<Regs>, x: Name, v: Word, s: nat, i: nat)
    requires op.base == InReg(x) && |w| == 32 && AllHold(w, x, v) && s < 32
    ensures ByteAt(RowsOf(op, w), s, i) == Shifted(op.off, v + i)
  {
    hide RowsOf; hide Shifted; hide ByteAt;
    RowFrom(op, w, x, s, i);
  }

  lemma FarRows(op: Move, x: Name, c: Byte, s: nat, i: nat)
    requires op.base == InReg(x) && c < 4 && s < 32
    ensures ByteAt(RowsOf(op, FarWarp(x, c)), s, i) == Shifted(op.off, Far(c) + 16 * s + i)
  {
    hide RowsOf; hide Shifted; hide ByteAt;
    assert Mma.Get(FarWarp(x, c)[s], x) == Far(c) + 16 * s;
    RowFrom(op, FarWarp(x, c), x, s, i);
  }

  lemma FarStart(op: Move, x: Name)
    requires ValidMove(op) && op.base == InReg(x)
    ensures var c := Chosen(op.off); var rows := RowsOf(op, FarWarp(x, c));
      Disjoint(op, rows) && RowsMapped(op, rows, FarMemory(op.off, c)) && RowsHold(op, rows, FarMemory(op.off, c), c)
  {
    var c := Chosen(op.off);
    var rows, mem := RowsOf(op, FarWarp(x, c)), FarMemory(op.off, c);
    hide RowsOf; hide FarWarp; hide FarMemory; hide Shifted; hide ByteAt; hide Chosen;
    forall s: nat, i: nat | s < 32 && i < 16
      ensures ByteAt(rows, s, i) in mem && ByteAt(rows, s, i) != 0 && Peek(mem, ByteAt(rows, s, i)) == c
    {
      FarRows(op, x, c, s, i);
      FarHolds(op.off, 16 * s + i);
    }
    forall s: nat, i: nat, t: nat, j: nat | s < 32 && t < 32 && i < 16 && j < 16 && ByteAt(rows, s, i) == ByteAt(rows, t, j)
      ensures s == t && i == j
    {
      FarRows(op, x, c, s, i);
      FarRows(op, x, c, t, j);
      ShiftedApart(op.off, Far(c) + 16 * s + i, Far(c) + 16 * t + j);
    }
  }

  lemma NextRows(op: Move, w: seq<Regs>, x: Name, v: Word)
    requires var c := Chosen(op.off); v == c * FOUR || v == (c + 1) * FOUR
    requires ValidMove(op) && op.base == InReg(x) && |w| == 32 && AllHold(w, x, v)
    ensures var c := Chosen(op.off);
      RowsMapped(op, RowsOf(op, w), FarMemory(op.off, c)) && RowsHold(op, RowsOf(op, w), FarMemory(op.off, c), c + 1)
  {
    var c := Chosen(op.off);
    var rows, mem := RowsOf(op, w), FarMemory(op.off, c);
    hide RowsOf; hide FarMemory; hide Shifted; hide ByteAt; hide Chosen;
    forall s: nat, i: nat | s < 32 && i < 16
      ensures ByteAt(rows, s, i) in mem && ByteAt(rows, s, i) != 0 && Peek(mem, ByteAt(rows, s, i)) == c + 1
    {
      SameRows(op, w, x, v, s, i);
      FarHolds(op.off, i);
    }
  }

  // After k rounds all lanes hold the same word, from the second round on another
  // one than after the first.
  lemma {:induction false} FarRounds(op: Move, x: Name, k: nat)
    requires ValidMove(op) && op.base == InReg(x) && x in op.frags && k > 0
    ensures var c := Chosen(op.off);
      AllHold(LoadRound(op, FarWarp(x, c), FarMemory(op.off, c), k), x, if k == 1 then c * FOUR else (c + 1) * FOUR)
  {
    var c := Chosen(op.off);
    var w, mem := FarWarp(x, c), FarMemory(op.off, c);
    hide FarMemory; hide Chosen; hide RowsHold; hide RowsMapped; hide Loaded; hide AllHold; hide Disjoint;
    if k == 1 {
      FarStart(op, x);
      assert LoadRound(op, w, mem, 0) == w;
      LoadedSame(op, w, mem, c, x);
    } else {
      FarRounds(op, x, k - 1);
      var v := LoadRound(op, w, mem, k - 1);
      NextRows(op, v, x, if k == 2 then c * FOUR else (c + 1) * FOUR);
      LoadedSame(op, v, mem, c + 1, x);
    }
  }

  // Exactly when executing the collective again does no harm: for every form of
  // ldmatrix, repeating it (n is 32 in the interpreter) is loading once, on all
  // readable inputs, if and only if the address register is not a fragment.
  lemma AddressMustStay(op: Move, n: nat)
    requires ValidMove(op) && n > 1
    ensures OnceEnough(op, n) <==> AddressStays(op)
  {
    if AddressStays(op) {
      forall w: seq<Regs>, mem: Mem | Readable(op, w, mem, n) ensures LoadRound(op, w, mem, n) == Loaded(op, w, mem) {
        LoadRoundIsOnce(op, w, mem, n);
      }
    } else {
      hide LoadRound; hide FarMemory; hide FarWarp; hide Chosen; hide Loaded; hide RowsOf; hide RowsMapped; hide Disjoint;
      var x := op.base.name;
      var c := Chosen(op.off);
      var w, mem := FarWarp(x, c), FarMemory(op.off, c);
      FarReadable(op, x, n);
      FarRounds(op, x, n);
      FarRounds(op, x, 1);
      FirstRound(op, w, mem);
      assert Mma.Get(LoadRound(op, w, mem, n)[0], x) != Mma.Get(Loaded(op, w, mem)[0], x);
    }
  }

  lemma FirstRound(op: Move, w: seq<Regs>, mem: Mem)
    requires ValidMove(op) && |w| == 32
    ensures LoadRound(op, w, mem, 1) == Loaded(op, w, mem)
  {
    assert LoadRound(op, w, mem, 0) == w;
  }

  lemma FarReadable(op: Move, x: Name, n: nat)
    requires ValidMove(op) && op.base == InReg(x) && x in op.frags
    ensures Readable(op, FarWarp(x, Chosen(op.off)), FarMemory(op.off, Chosen(op.off)), n)
  {
    var c := Chosen(op.off);
    var w, mem := FarWarp(x, c), FarMemory(op.off, c);
    assert |w| == 32;
    FarStart(op, x);
    hide FarMemory; hide Chosen; hide RowsHold; hide RowsMapped; hide Loaded; hide Disjoint; hide RowsOf; hide FarWarp;
    forall k: nat | k < n ensures RowsMapped(op, RowsOf(op, LoadRound(op, w, mem, k)), mem) {
      if k == 0 {
        assert LoadRound(op, w, mem, 0) == w;
      } else {
        FarRounds(op, x, k);
        NextRows(op, LoadRound(op, w, mem, k), x, if k == 1 then c * FOUR else (c + 1) * FOUR);
      }
    }
  }

  // ---- the interpreter's loops ---------------------------------------------------------------------

  method RowAddresses(op: Move, w: seq<Regs>) returns (rowAddr: array<Word>)
    requires |w| <= 32
    ensures fresh(rowAddr) && rowAddr[..] == RowsOf(op, w)
  {
    rowAddr := new Word[32](_ => 0);
    for l := 0 to 32
      invariant forall j: nat :: j < l ==> rowAddr[j] == RowAddr(op, w, j)
    {
      if l >= |w| {
        rowAddr[l] := 0;
      } else {
        var base: Word := 0;
        match op.base {
          case InReg(name) => base := Mma.Get(w[l], name);
          case Symbol(at) => base := at;
        }
        rowAddr[l] := Fit(B64, base + op.off);
      }
    }
  }

  lemma OrderNext(op: Move, w: seq<Regs>, rows: Rows, mem: Mem, k: nat, p: Piece)
    requires ValidMove(op) && |w| <= 32 && InMove(op, |w|, p) && k == IndexOf(op, p)
    ensures k < Total(op, |w|) && AllIn(op, |w|, Order(op, k)) && AllIn(op, |w|, Order(op, k + 1))
    ensures WriteSeq(op, w, rows, mem, Order(op, k + 1)) == WriteSeq(op, w, rows, mem, Order(op, k)) + Stored1(op, w, rows, p)
  {
    IndexIn(op, |w|, p);
    OrderIn(op, |w|, k);
    OrderIn(op, |w|, k + 1);
    PlaceOf(op, k, p);
    hide IndexOf; hide PieceAt; hide Total; hide Stored1;
    var ps := Order(op, k + 1);
    assert ps[..|ps| - 1] == Order(op, k);
  }

  lemma CellIs(op: Move, rows: Rows, p: Piece)
    requires ValidMove(op) && InMove(op, 32, p)
    ensures Supplier(op, p) == p.m * 8 + RowOf(op.trans, p) < 32
    ensures CellByte(op, rows, p, 0) == At(rows[Supplier(op, p)], ColOf(op.trans, p) * 2)
    ensures CellByte(op, rows, p, 1) == At(rows[Supplier(op, p)], ColOf(op.trans, p) * 2 + 1)
  { }

  lemma TwoBytes(op: Move, w: seq<Regs>, rows: Rows, mem: Mem, p: Piece)
    requires ValidMove(op) && |w| <= 32 && InMove(op, |w|, p)
    ensures var bits := HalfOf(Mma.Get(w[p.l], op.frags[p.m]), p.e);
            mem + Stored1(op, w, rows, p) == mem[CellByte(op, rows, p, 0) := bits % 256][CellByte(op, rows, p, 1) := (bits / 256) % 256]
  {
    hide CellByte; hide HalfOf;
  }

  // What the first k writes leave.
  function WritesSoFar(op: Move, w: seq<Regs>, rows: Rows, mem: Mem, k: nat): Mem
    requires ValidMove(op) && |w| <= 32 && k <= Total(op, |w|)
  {
    OrderIn(op, |w|, k);
    WriteSeq(op, w, rows, mem, Order(op, k))
  }

  lemma StoreStep(op: Move, w: seq<Regs>, rows: Rows, was: Mem, mem: Mem, p: Piece)
    requires ValidMove(op) && |w| <= 32 && InMove(op, |w|, p)
    requires IndexOf(op, p) <= Total(op, |w|) && mem == WritesSoFar(op, w, rows, was, IndexOf(op, p))
    ensures IndexOf(op, p) + 1 <= Total(op, |w|) && p.m * 8 + RowOf(op.trans, p) < 32
    ensures var bits := HalfOf(Mma.Get(w[p.l], op.frags[p.m]), p.e);
            var row := rows[p.m * 8 + RowOf(op.trans, p)];
            mem[At(row, ColOf(op.trans, p) * 2) := bits % 256][At(row, ColOf(op.trans, p) * 2 + 1) := (bits / 256) % 256] ==
            WritesSoFar(op, w, rows, was, IndexOf(op, p) + 1)
  {
    OrderNext(op, w, rows, was, IndexOf(op, p), p);
    CellIs(op, rows, p);
    TwoBytes(op, w, rows, mem, p);
    hide WriteSeq; hide IndexOf; hide Order; hide Total; hide HalfOf; hide CellByte; hide At; hide RowOf; hide ColOf; hide Stored1;
  }

  method StoreOne(op: Move, w: seq<Regs>, mem: Interp.Memory, rowAddr: array<Word>, ghost was: Mem, l: nat, m: nat, e: nat)
    requires ValidMove(op) && |w| <= 32 && l < |w| && m < op.nMat && e < 2 && rowAddr.Length == 32
    requires IndexOf(op, Piece(l, m, e)) <= Total(op, |w|) && mem.bytes == WritesSoFar(op, w, rowAddr[..], was, IndexOf(op, Piece(l, m, e)))
    modifies mem
    ensures IndexOf(op, Piece(l, m, e)) + 1 <= Total(op, |w|)
    ensures mem.bytes == WritesSoFar(op, w, rowAddr[..], was, IndexOf(op, Piece(l, m, e)) + 1)
  {
    hide WritesSoFar; hide IndexOf; hide Total; hide HalfOf; hide At;
    StoreStep(op, w, rowAddr[..], was, mem.bytes, Piece(l, m, e));
    var e0, fixed := (l % 4) * 2, l / 4;
    var r, c := if op.trans then e0 + e else fixed, if op.trans then fixed else e0 + e;
    var provider := m * 8 + r;
    var bits := HalfOf(Mma.Get(w[l], op.frags[m]), e);
    mem.bytes := mem.bytes[At(rowAddr[provider], c * 2) := bits % 256][At(rowAddr[provider], c * 2 + 1) := (bits / 256) % 256];
  }

  lemma NextIndex(op: Move, l: nat, m: nat)
    requires ValidMove(op)
    ensures IndexOf(op, Piece(l, m, 1)) == IndexOf(op, Piece(l, m, 0)) + 1
    ensures IndexOf(op, Piece(l, m + 1, 0)) == IndexOf(op, Piece(l, m, 1)) + 1
    ensures IndexOf(op, Piece(l + 1, 0, 0)) == IndexOf(op, Piece(l, op.nMat, 0))
  { }

  method StoreLane(op: Move, w: seq<Regs>, mem: Interp.Memory, rowAddr: array<Word>, ghost was: Mem, l: nat)
    requires ValidMove(op) && |w| <= 32 && l < |w| && rowAddr.Length == 32
    requires IndexOf(op, Piece(l, 0, 0)) <= Total(op, |w|) && mem.bytes == WritesSoFar(op, w, rowAddr[..], was, IndexOf(op, Piece(l, 0, 0)))
    modifies mem
    ensures IndexOf(op, Piece(l + 1, 0, 0)) <= Total(op, |w|)
    ensures mem.bytes == WritesSoFar(op, w, rowAddr[..], was, IndexOf(op, Piece(l + 1, 0, 0)))
  {
    hide WritesSoFar; hide IndexOf; hide Total;
    NextIndex(op, l, 0);
    for m := 0 to op.nMat
      invariant IndexOf(op, Piece(l, m, 0)) <= Total(op, |w|)
      invariant mem.bytes == WritesSoFar(op, w, rowAddr[..], was, IndexOf(op, Piece(l, m, 0)))
    {
      NextIndex(op, l, m);
      StoreOne(op, w, mem, rowAddr, was, l, m, 0);
      StoreOne(op, w, mem, rowAddr, was, l, m, 1);
    }
  }

  // stmatrix, once.
  method StoreAll(op: Move, w: seq<Regs>, mem: Interp.Memory)
    requires ValidMove(op) && |w| <= 32
    modifies mem
    ensures mem.bytes == Stored(op, w, old(mem.bytes))
  {
    var rowAddr := RowAddresses(op, w);
    ghost var was, rows := mem.bytes, rowAddr[..];
    assert WritesSoFar(op, w, rows, was, IndexOf(op, Piece(0, 0, 0))) == was;
    hide WritesSoFar; hide RowsOf;
    for l := 0 to |w|
      invariant rowAddr[..] == rows && IndexOf(op, Piece(l, 0, 0)) <= Total(op, |w|)
      invariant mem.bytes == WritesSoFar(op, w, rows, was, IndexOf(op, Piece(l, 0, 0)))
    {
      StoreLane(op, w, mem, rowAddr, was, l);
    }
    StoredIs(op, w, rows, was);
  }

  lemma StoredIs(op: Move, w: seq<Regs>, rows: Rows, was: Mem)
    requires ValidMove(op) && |w| <= 32 && rows == RowsOf(op, w)
    ensures WritesSoFar(op, w, rows, was, Total(op, |w|)) == Stored(op, w, was)
  { }

  method LoadLane(op: Move, warp: array<Regs>, mem: Interp.Memory, rowAddr: array<Word>, l: nat)
    requires ValidMove(op) && l < warp.Length <= 32 && rowAddr.Length == 32
    modifies warp
    ensures warp[l] == LoadRegs(op, rowAddr[..], mem.bytes, old(warp[l]), l, op.nMat)
    ensures forall j: nat :: j < warp.Length && j != l ==> warp[j] == old(warp[j])
  {
    hide Fragment;
    ghost var rows := rowAddr[..];
    for m := 0 to op.nMat
      invariant rowAddr[..] == rows && warp[l] == LoadRegs(op, rows, mem.bytes, old(warp[l]), l, m)
      invariant forall j: nat :: j < warp.Length && j != l ==> warp[j] == old(warp[j])
    {
      var v := LoadOne(op, mem, rowAddr, l, m);
      warp[l] := warp[l][op.frags[m] := v];
    }
  }

  // ldmatrix, once.
  method LoadAll(op: Move, warp: array<Regs>, mem: Interp.Memory)
    requires ValidMove(op) && warp.Length <= 32
    modifies warp
    ensures warp[..] == Loaded(op, old(warp[..]), mem.bytes)
  {
    var rowAddr := RowAddresses(op, warp[..]);
    ghost var rows := rowAddr[..];
    hide RowsOf; hide LoadRegs; hide ValidMove;
    for l := 0 to warp.Length
      invariant rowAddr[..] == rows
      invariant forall j: nat :: j < warp.Length ==>
        warp[j] == if j < l then LoadRegs(op, rows, mem.bytes, old(warp[j]), j, op.nMat) else old(warp[j])
    {
      LoadLane(op, warp, mem, rowAddr, l);
    }
  }

  method LoadOne(op: Move, mem: Interp.Memory, rowAddr: array<Word>, l: nat, m: nat) returns (v: Word)
    requires ValidMove(op) && l < 32 && m < op.nMat && rowAddr.Length == 32
    ensures v == Fragment(op, rowAddr[..], mem.bytes, l, m)
  {
    var els := new Half[2](_ => 0);
    for e := 0 to 2
      invariant forall j: nat :: j < e ==> els[j] == HalfAt(op, rowAddr[..], mem.bytes, Piece(l, m, j))
    {
      SupplierIs(op, Piece(l, m, e));
      var e0, fixed := (l % 4) * 2, l / 4;
      var r, c := if op.trans then e0 + e else fixed, if op.trans then fixed else e0 + e;
      var provider := m * 8 + r;
      els[e] := Peek(mem.bytes, At(rowAddr[provider], c * 2)) + 256 * Peek(mem.bytes, At(rowAddr[provider], c * 2 + 1));
    }
    var low: nat, high: nat := els[0], els[1];
    v := low + 65536 * high;
  }
}

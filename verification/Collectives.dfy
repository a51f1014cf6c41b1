// Warp collectives end to end: the words a lane works with are the ones its
// peers published in the same collective, whatever the interleaving, so the
// compiled mma and matrix moves deliver what the interpreter delivers. A warp
// is 32 consecutive slots of the block, from slot `base` on.
module Collectives {
  import opened Bits
  import opened Words
  import opened Exchange
  import Mma
  import MatrixMove

  // ---- the slots as bytes --------------------------------------------------------------

  const MAX_FRAG: nat := 14

  // What a slot holds: a row address in its first eight bytes, fragment words after.
  datatype Field = RowAddress | Fragment(i: nat)

  predicate ValidField(f: Field) { f.Fragment? ==> f.i < MAX_FRAG }
  function Place(lane: nat, f: Field): nat { 64 * lane + (match f case RowAddress => 0 case Fragment(i) => 8 + 4 * i) }
  function Size(f: Field): nat { if f.RowAddress? then 8 else 4 }

  // Fields are aligned and stay inside their lane's 64 bytes, which they fill, and
  // the protocol's words fit as well.
  lemma FieldInside(l: nat, f: Field)
    requires ValidField(f)
    ensures 64 * l <= Place(l, f) && Place(l, f) + Size(f) <= 64 * l + 64
    ensures Place(l, f) % Size(f) == 0
    ensures Place(l, Fragment(MAX_FRAG)) == 64 * l + 64 && 4 * SLOT_WORDS == 64
  {
    match f
    case RowAddress => DivUnique(64 * l, 8, 8 * l, 0);
    case Fragment(i) => DivUnique(64 * l + (8 + 4 * i), 4, 16 * l + 2 + i, 0);
  }

  // Two fields never overlap.
  lemma FieldsApart(l: nat, f: Field, m: nat, g: Field)
    requires ValidField(f) && ValidField(g) && (l, f) != (m, g)
    ensures Place(l, f) + Size(f) <= Place(m, g) || Place(m, g) + Size(g) <= Place(l, f)
  {
    FieldInside(l, f);
    FieldInside(m, g);
    if l != m { hide Place; hide Size; }
  }

  // Every word the warp published in collective c is the one its lane had to publish.
  ghost predicate PublishesIn(s: State, c: nat, base: nat, value: (nat, nat) -> Word) {
    forall q: nat, i: nat :: base <= q < base + 32 && (c, q, i) in s.published ==> s.published[(c, q, i)] == value(q - base, i)
  }

  // Lane l of the warp has read the first n words of every peer in collective c.
  ghost predicate HasRead(s: State, c: nat, base: nat, l: nat, n: nat) {
    var reader := base + l;
    forall q: nat, i: nat :: base <= q < base + 32 && i < n ==> (c, reader, q, i) in s.got
  }

  function ReadBy(s: State, c: nat, base: nat, l: nat): (nat, nat) -> Word {
    (p: nat, i: nat) => if (c, base + l, base + p, i) in s.got then s.got[(c, base + l, base + p, i)] else 0
  }

  // What arrives is what was to be published.
  lemma Arrives(u: Setup, events: seq<Event>, c: nat, base: nat, l: nat, n: nat, value: (nat, nat) -> Word, p: nat, i: nat)
    requires ValidSetup(u) && u.closing && PublishesIn(Exec(u, events), c, base, value)
    requires HasRead(Exec(u, events), c, base, l, n) && p < 32 && i < n
    ensures ReadBy(Exec(u, events), c, base, l)(p, i) == value(p, i)
  {
    ExchangeSafe(u, events);
    hide Exec; hide Inv;
    var s := Exec(u, events);
    assert (c, base + l, base + p, i) in s.got;
  }

  // What lane p of the warp has to publish for an mma.
  function Fragments(op: Mma.Op, w: Mma.Warp): (nat, nat) -> Word
    requires Mma.ValidOp(op)
  {
    (p: nat, i: nat) => if p < 32 && i < Mma.RegsA(op.f) + Mma.RegsB(op.f) then Mma.Published(op, w, p, i) else 0
  }

  // A lane that has read its peers' fragments in collective c computes, from the
  // words it read, the registers the interpreter gives it.
  lemma MmaThroughSlots<F>(u: Setup, events: seq<Event>, c: nat, base: nat, op: Mma.Op, x: Mma.Arith<F>, w: Mma.Warp, l: nat)
    requires ValidSetup(u) && u.closing && Mma.ValidOp(op) && l < 32
    requires Mma.Unread(op.a, op.d) && Mma.Unread(op.b, op.d) && Mma.CSafe(op)
    requires PublishesIn(Exec(u, events), c, base, Fragments(op, w))
    requires HasRead(Exec(u, events), c, base, l, Mma.RegsA(op.f) + Mma.RegsB(op.f))
    ensures Mma.LaneRegs(op, x, ReadBy(Exec(u, events), c, base, l), w[l], l, 4) == Mma.Round(op, x, w, 32)[l]
  {
    var read := ReadBy(Exec(u, events), c, base, l);
    hide Exec; hide ReadBy; hide HasRead; hide PublishesIn; hide Mma.Unread; hide Mma.CSafe; hide Mma.Round; hide Mma.LaneRegs;
    forall p: nat, i: nat | p < 32 && i < Mma.RegsA(op.f) + Mma.RegsB(op.f) ensures read(p, i) == Mma.Published(op, w, p, i) {
      Arrives(u, events, c, base, l, Mma.RegsA(op.f) + Mma.RegsB(op.f), Fragments(op, w), p, i);
    }
    Mma.MmaAgrees(op, x, w, read, l);
  }

  // What lane p of the warp has to publish for a matrix move.
  function RowWords(op: MatrixMove.Move, w: seq<MatrixMove.Regs>): (nat, nat) -> Word {
    (p: nat, i: nat) => MatrixMove.RowAddr(op, w, p)
  }

  // The row addresses a lane has read are the ones the interpreter collects.
  lemma RowsThroughSlots(u: Setup, events: seq<Event>, c: nat, base: nat, op: MatrixMove.Move, w: seq<MatrixMove.Regs>, l: nat)
    requires ValidSetup(u) && u.closing && |w| == 32
    requires PublishesIn(Exec(u, events), c, base, RowWords(op, w)) && HasRead(Exec(u, events), c, base, l, 1)
    ensures seq(32, p requires 0 <= p < 32 => ReadBy(Exec(u, events), c, base, l)(p, 0)) == MatrixMove.RowsOf(op, w)
  {
    hide Exec; hide ReadBy; hide HasRead; hide PublishesIn; hide MatrixMove.RowAddr;
    forall p: nat | p < 32 ensures ReadBy(Exec(u, events), c, base, l)(p, 0) == MatrixMove.RowAddr(op, w, p) {
      Arrives(u, events, c, base, l, 1, RowWords(op, w), p, 0);
    }
  }
}

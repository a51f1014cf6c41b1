// The text of a compiled kernel (LlvmGen::generate): label pseudo-instructions
// are folded away, every instruction belongs to a named block, and a label is
// printed wherever the name changes.
module Layout {
  import opened Ptx
  import opened Ir
  import opened Lowering

  // ---- normalize_body --------------------------------------------------------

  // The body without its label marks.
  function Kept(body: seq<Instr>): seq<Instr> {
    if body == [] then []
    else
      var n := |body| - 1;
      if body[n].LabelMark? then Kept(body[..n]) else Kept(body[..n]) + [body[n]]
  }

  // Where old index p lands.
  function NewIndex(k: Kernel, p: nat): nat
    requires p <= |k.body|
  {
    |Kept(k.body[..p])|
  }

  // Names of the marks; a later mark of the same name wins.
  function Marks(body: seq<Instr>): map<Name, nat> {
    if body == [] then map[]
    else
      var n := |body| - 1;
      if body[n].LabelMark? then Marks(body[..n])[body[n].name := |Kept(body[..n])|] else Marks(body[..n])
  }

  // The parser's labels override the marks, except one behind the last line.
  function LabelTable(k: Kernel): map<Name, nat> {
    Marks(k.body) + Overrides(k, k.labels.Keys)
  }

  // What the parser's labels in `some` say.
  function Overrides(k: Kernel, some: set<Name>): map<Name, nat> {
    map l | l in some && l in k.labels && k.labels[l] < |k.body| :: NewIndex(k, k.labels[l])
  }

  // A kernel with its folded code, label table and block names.
  datatype Listing = Listing(k: Kernel, code: seq<Instr>, labels: map<Name, nat>, names: seq<BlockName>)

  // ---- build_block_names --------------------------------------------------------

  predicate Labelled(labels: map<Name, nat>, i: nat) { exists l :: l in labels && labels[l] == i }
  predicate Terminator(ins: Instr) { ins.Bra? || ins.Ret? }

  // A block without a label starts at i.
  predicate AnonStart(code: seq<Instr>, labels: map<Name, nat>, i: nat)
    requires i < |code|
  {
    0 < i && !Labelled(labels, i) && Terminator(code[i - 1])
  }

  // The running number of such blocks before i.
  function AnonBefore(code: seq<Instr>, labels: map<Name, nat>, i: nat): nat
    requires i <= |code|
  {
    if i == 0 then 0
    else AnonBefore(code, labels, i - 1) + (if AnonStart(code, labels, i - 1) then 1 else 0)
  }

  // The name of the block that instruction i belongs to. Where several labels
  // share an index the source takes the first by spelling; any of them is
  // allowed here.
  predicate NameOk(code: seq<Instr>, labels: map<Name, nat>, names: seq<BlockName>, i: nat)
    requires i < |names| <= |code|
  {
    if Labelled(labels, i) then names[i].Named? && names[i].of in labels && labels[names[i].of] == i
    else if i == 0 then names[i] == Entry
    else if Terminator(code[i - 1]) then names[i] == Anon(AnonBefore(code, labels, i))
    else names[i] == names[i - 1]
  }

  // The first n names are right.
  predicate NamesOk(code: seq<Instr>, labels: map<Name, nat>, names: seq<BlockName>, n: nat)
    requires n <= |names| <= |code|
  {
    n == 0 || (NamesOk(code, labels, names, n - 1) && NameOk(code, labels, names, n - 1))
  }

  // g is what normalize_body and build_block_names make of its kernel.
  predicate IsListing(g: Listing) {
    && g.code == Kept(g.k.body) && g.labels == LabelTable(g.k)
    && |g.names| == |g.code| > 0 && NamesOk(g.code, g.labels, g.names, |g.names|)
  }

  // ---- the text --------------------------------------------------------------------

  const RET: BlockName := Named("ret")

  predicate Starts(g: Listing, i: nat)
    requires i < |g.names|
  {
    i > 0 && g.names[i] != g.names[i - 1]
  }

  function LabelPart(g: Listing, i: nat): seq<Line>
    requires i < |g.names|
  {
    if Starts(g, i) then [Label(g.names[i])] else []
  }

  // emit_terminator
  function Ending(g: Listing, i: nat): seq<Line>
    requires i < |g.code| == |g.names|
  {
    match g.code[i]
    case Ret(_) => [RetVoid]
    case Bra(guard, target) =>
      if target !in g.labels then []
      else if guard.Always? then [Br(Named(target))]
      else [CondBr(GuardExp(g.k, guard), Named(target), if i + 1 < |g.names| then g.names[i + 1] else RET)]
    case _ =>
      if i + 1 == |g.code| then [RetVoid]
      else if Starts(g, i + 1) then [Br(g.names[i + 1])]
      else []
  }

  function Chunk(g: Listing, i: nat): seq<Line>
    requires i < |g.code| == |g.names|
  {
    LabelPart(g, i) + LowerInstr(g.k, g.code[i]) + Ending(g, i)
  }

  // A label on the first instruction: an entry block that jumps to it.
  function Preamble(g: Listing): seq<Line>
    requires |g.names| > 0
  {
    if g.names[0] == Entry then [] else [Label(Entry), Br(g.names[0])]
  }

  function BodyText(g: Listing, i: nat): seq<Line>
    requires i <= |g.code| == |g.names| && |g.names| > 0
  {
    if i == 0 then Preamble(g) else BodyText(g, i - 1) + Chunk(g, i - 1)
  }

  // Only a guarded branch on the last line asks for the return block.
  predicate NeedsRet(g: Listing) {
    |g.code| > 0 &&
    var last := g.code[|g.code| - 1];
    last.Bra? && last.guard.When? && last.target in g.labels
  }

  function Tail(g: Listing): seq<Line> { if NeedsRet(g) then [Label(RET), RetVoid] else [] }

  function Text(g: Listing): seq<Line>
    requires |g.code| == |g.names| && |g.names| > 0
  {
    BodyText(g, |g.code|) + Tail(g)
  }

  // Position of instruction i's lines.
  function Start(g: Listing, i: nat): nat
    requires i <= |g.code| == |g.names| && |g.names| > 0
  {
    |BodyText(g, i)|
  }

  // ---- facts about folding ------------------------------------------------------------

  lemma {:induction false} KeptAt(body: seq<Instr>, p: nat)
    requires p < |body|
    ensures |Kept(body[..p])| <= |Kept(body)|
    ensures Kept(body[..p + 1]) == if body[p].LabelMark? then Kept(body[..p]) else Kept(body[..p]) + [body[p]]
    ensures !body[p].LabelMark? ==> |Kept(body[..p])| < |Kept(body)| && Kept(body)[|Kept(body[..p])|] == body[p]
  {
    var n := |body| - 1;
    assert body[..p + 1][..p] == body[..p];
    if p < n {
      KeptAt(body[..n], p);
      assert body[..n][..p] == body[..p];
    } else {
      assert body[..p + 1] == body;
    }
  }

  lemma {:induction false} KeptIsCode(body: seq<Instr>, i: nat)
    requires i < |Kept(body)|
    ensures !Kept(body)[i].LabelMark? && Kept(body)[i] in body
  {
    var n := |body| - 1;
    if i < |Kept(body[..n])| { KeptIsCode(body[..n], i); }
  }

  // ---- facts about names ------------------------------------------------------------------

  lemma {:induction false} AnonMono(code: seq<Instr>, labels: map<Name, nat>, i: nat, j: nat)
    requires i <= j <= |code|
    ensures AnonBefore(code, labels, i) <= AnonBefore(code, labels, j)
    decreases j
  {
    if i < j { AnonMono(code, labels, i, j - 1); }
  }

  lemma {:induction false} NameAt(code: seq<Instr>, labels: map<Name, nat>, names: seq<BlockName>, n: nat, i: nat)
    requires i < n <= |names| <= |code| && NamesOk(code, labels, names, n)
    ensures NameOk(code, labels, names, i)
    decreases n
  {
    if i < n - 1 { NameAt(code, labels, names, n - 1, i); }
  }

  lemma NameIs(g: Listing, i: nat)
    requires IsListing(g) && i < |g.names|
    ensures NameOk(g.code, g.labels, g.names, i)
  {
    NameAt(g.code, g.labels, g.names, |g.names|, i);
  }

  // A name never points forward.
  lemma {:induction false} NameBack(g: Listing, i: nat)
    requires IsListing(g) && i < |g.names|
    ensures match g.names[i]
      case Entry => true
      case Named(l) => l in g.labels && g.labels[l] <= i
      case Anon(c) => c < AnonBefore(g.code, g.labels, i + 1)
  {
    NameIs(g, i);
    if i > 0 {
      NameBack(g, i - 1);
      AnonMono(g.code, g.labels, i, i + 1);
    }
  }

  // A block starts exactly at a label or behind a terminator.
  lemma StartsWhere(g: Listing, i: nat)
    requires IsListing(g) && 0 < i < |g.names|
    ensures Starts(g, i) <==> Labelled(g.labels, i) || Terminator(g.code[i - 1])
  {
    NameIs(g, i);
    NameBack(g, i - 1);
  }

  // Blocks are named apart: no earlier instruction carries a new block's name.
  lemma NamesApart(g: Listing, i: nat, j: nat)
    requires IsListing(g) && j < i < |g.names| && Starts(g, i)
    ensures g.names[j] != g.names[i]
  {
    NameIs(g, i);
    StartsWhere(g, i);
    NameBack(g, j);
    AnonMono(g.code, g.labels, j + 1, i);
  }

  // ---- facts about positions -----------------------------------------------------------------

  lemma {:induction false} ChunkPlace(g: Listing, i: nat, j: nat, x: nat)
    requires |g.code| == |g.names| && i < j <= |g.code| && x < |Chunk(g, i)|
    ensures Start(g, i) + x < Start(g, j) && BodyText(g, j)[Start(g, i) + x] == Chunk(g, i)[x]
    decreases j
  {
    hide Chunk; hide Preamble;
    if i + 1 < j { ChunkPlace(g, i, j - 1, x); }
  }

  lemma ChunkIn(g: Listing, i: nat, x: nat)
    requires |g.code| == |g.names| && i < |g.code| && x < |Chunk(g, i)|
    ensures Start(g, i) + x < |Text(g)| && Text(g)[Start(g, i) + x] == Chunk(g, i)[x]
  {
    hide Chunk;
    ChunkPlace(g, i, |g.code|, x);
  }

  lemma {:induction false} PrefixOfText(g: Listing, j: nat)
    requires |g.code| == |g.names| && |g.code| > 0 && j <= |g.code|
    ensures BodyText(g, j) <= Text(g)
    decreases |g.code| - j
  {
    hide Chunk; hide Preamble;
    if j < |g.code| { PrefixOfText(g, j + 1); }
  }

  lemma LabelsOnlyFirst(g: Listing, i: nat, x: nat)
    requires i < |g.code| == |g.names| && x < |Chunk(g, i)|
    ensures Starts(g, i) ==> Chunk(g, i)[0] == Label(g.names[i])
    ensures x > 0 || !Starts(g, i) ==> !Chunk(g, i)[x].Label?
  {
    var a, b, c := LabelPart(g, i), LowerInstr(g.k, g.code[i]), Ending(g, i);
    assert forall l :: l in b || l in c ==> !l.Label?;
    if |a| <= x {
      assert (a + b + c)[x] in b || (a + b + c)[x] in c;
    }
  }

  // Before its own block, a name is never printed.
  lemma {:induction false} NotPrintedBefore(g: Listing, i: nat, j: nat, x: nat)
    requires IsListing(g) && j <= i < |g.names| && Starts(g, i) && x < Start(g, j)
    ensures BodyText(g, j)[x] != Label(g.names[i])
    decreases j
  {
    hide Chunk;
    if j == 0 {
      NamesApart(g, i, 0);
      EntryOnce(g, i);
    } else if x < Start(g, j - 1) {
      NotPrintedBefore(g, i, j - 1, x);
    } else {
      var y := x - Start(g, j - 1);
      assert BodyText(g, j)[x] == Chunk(g, j - 1)[y];
      LabelsOnlyFirst(g, j - 1, y);
      NamesApart(g, i, j - 1);
    }
  }

  lemma EntryOnce(g: Listing, i: nat)
    requires IsListing(g) && i < |g.names| && Starts(g, i)
    ensures g.names[i] != Entry
  {
    NameIs(g, i);
    StartsWhere(g, i);
  }

  lemma {:induction false} FindsAt(text: seq<Line>, name: BlockName, p: nat)
    requires p < |text| && text[p] == Label(name)
    requires forall x: nat :: x < p ==> text[x] != Label(name)
    ensures FindLabel(text, name) == p
  {
    if p > 0 {
      assert text[0] != Label(name);
      assert forall x: nat :: x < p - 1 ==> text[1..][x] == text[x + 1] != Label(name);
      FindsAt(text[1..], name, p - 1);
    }
  }

  // A branch to a block's name lands on its first line.
  lemma BlockFound(g: Listing, i: nat)
    requires IsListing(g) && i < |g.names| && Starts(g, i)
    ensures FindLabel(Text(g), g.names[i]) == Start(g, i) < |Text(g)|
  {
    ChunkIn(g, i, 0);
    PrefixOfText(g, i);
    LabelsOnlyFirst(g, i, 0);
    forall x: nat | x < Start(g, i) ensures Text(g)[x] != Label(g.names[i]) {
      NotPrintedBefore(g, i, i, x);
      assert Text(g)[x] == BodyText(g, i)[x];
    }
    FindsAt(Text(g), g.names[i], Start(g, i));
  }

  // The entry block is printed first.
  lemma EntryStart(g: Listing)
    requires IsListing(g) && g.names[0] == Entry
    ensures Start(g, 0) == 0
  { }
}

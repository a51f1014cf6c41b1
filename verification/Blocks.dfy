// When the printed text is a well-formed control-flow graph: blocks closed by
// terminators, labels printed once, branch targets printed.
module Blocks {
  import opened Ptx
  import opened Ir
  import opened Lowering
  import opened Layout
  import opened LoweringCorrect
  import opened Simulation

  predicate EndsBlock(l: Line) { l.Br? || l.CondBr? || l.RetVoid? }

  predicate Targets(l: Line, b: BlockName) { (l.Br? && l.target == b) || (l.CondBr? && (l.yes == b || l.no == b)) }

  predicate Printed(text: seq<Line>, b: BlockName) { exists x: nat :: x < |text| && text[x] == Label(b) }

  predicate LabelsUnique(text: seq<Line>) {
    forall x: nat, y: nat :: x < y < |text| && text[x].Label? && text[y].Label? ==> text[x].name != text[y].name
  }

  ghost predicate TargetsPrinted(text: seq<Line>) {
    forall x: nat, b: BlockName :: x < |text| && Targets(text[x], b) ==> Printed(text, b)
  }

  // Control never falls into a label, nothing follows a terminator inside its
  // block, and the last block is closed. (Slot declarations precede the text, so
  // only the entry label may stand first.)
  predicate BlocksClosed(text: seq<Line>) {
    && |text| > 0 && EndsBlock(text[|text| - 1])
    && (text[0].Label? ==> text[0].name == Entry)
    && (forall x: nat :: 0 < x < |text| && text[x].Label? ==> EndsBlock(text[x - 1]))
    && (forall x: nat :: x + 1 < |text| && EndsBlock(text[x]) ==> text[x + 1].Label?)
  }

  ghost predicate ValidText(text: seq<Line>) { LabelsUnique(text) && TargetsPrinted(text) && BlocksClosed(text) }

  // ---- which labels are printed ---------------------------------------------------

  // Line x prints name b: the entry label, a block's own label, or the return block's.
  predicate PrintedBy(g: Listing, n: nat, x: nat, b: BlockName)
    requires n <= |g.code| == |g.names| && |g.names| > 0
  {
    (x == 0 && b == Entry && g.names[0] != Entry)
    || exists i: nat :: i < n && Starts(g, i) && x == Start(g, i) && b == g.names[i]
  }

  lemma {:induction false} LabelSource(g: Listing, n: nat, x: nat)
    requires n <= |g.code| == |g.names| && |g.names| > 0 && x < Start(g, n) && BodyText(g, n)[x].Label?
    ensures PrintedBy(g, n, x, BodyText(g, n)[x].name)
  {
    hide Chunk; hide Starts;
    if n > 0 {
      if x < Start(g, n - 1) {
        LabelSource(g, n - 1, x);
      } else {
        var y := x - Start(g, n - 1);
        assert BodyText(g, n)[x] == Chunk(g, n - 1)[y];
        LabelsOnlyFirst(g, n - 1, y);
      }
    }
  }

  lemma TextLabel(g: Listing, x: nat)
    requires |g.code| == |g.names| > 0 && x < |Text(g)| && Text(g)[x].Label?
    ensures PrintedBy(g, |g.code|, x, Text(g)[x].name)
            || (NeedsRet(g) && x == Start(g, |g.code|) && Text(g)[x].name == RET)
  {
    hide PrintedBy; hide BodyText;
    if x < Start(g, |g.code|) { LabelSource(g, |g.code|, x); }
  }

  lemma StartStrict(g: Listing, i: nat, j: nat)
    requires i < j <= |g.code| == |g.names| && Starts(g, i)
    ensures Start(g, i) < Start(g, j)
  {
    ChunkNonempty(g, i);
    ChunkPlace(g, i, j, 0);
  }

  // A block is printed under the label's name: the label's own, or the return
  // block, which goes by the name "ret".
  predicate Lands(g: Listing, l: Name)
    requires |g.code| == |g.names|
  {
    BranchOk(g, l) || (l in g.labels && Named(l) == RET && NeedsRet(g))
  }

  // Every branch in code[lo..n] lands.
  predicate LandsWithin(g: Listing, lo: nat, n: nat)
    requires n <= |g.code| == |g.names|
  {
    n <= lo || (LandsWithin(g, lo, n - 1) && (g.code[n - 1].Bra? ==> Lands(g, g.code[n - 1].target)))
  }

  // With a label on the first instruction the entry jumps to a block that is
  // never printed, unless the label is "ret" and the jump finds the return block.
  // What follows the jump must then be a label, so the first instruction must be
  // a branch that prints nothing.
  predicate StrayEntry(g: Listing)
    requires |g.code| == |g.names| > 0
  {
    g.names[0] == RET && NeedsRet(g) && g.code[0].Bra? && g.code[0].target !in g.labels
  }

  // The first instruction that prints something.
  function First(g: Listing): nat
    requires |g.names| > 0
  {
    if g.names[0] == Entry then 0 else 1
  }

  // When the text is well formed (ValidExactly).
  predicate TextOk(g: Listing)
    requires |g.code| == |g.names| > 0
  {
    (g.names[0] == Entry || StrayEntry(g)) && LandsWithin(g, First(g), |g.code|) && !RetTwice(g)
  }

  lemma {:induction false} LandsAt(g: Listing, lo: nat, n: nat, i: nat)
    requires lo <= i < n <= |g.code| == |g.names| && LandsWithin(g, lo, n) && g.code[i].Bra?
    ensures Lands(g, g.code[i].target) && g.code[i].target in g.labels
  {
    hide BranchOk; hide NeedsRet;
    if i < n - 1 { LandsAt(g, lo, n - 1, i); } else { LandsLabel(g, g.code[i].target); }
  }

  lemma LandsOk(g: Listing, i: nat)
    requires |g.code| == |g.names| > 0 && TextOk(g) && First(g) <= i < |g.code| && g.code[i].Bra?
    ensures Lands(g, g.code[i].target) && g.code[i].target in g.labels
  {
    LandsAt(g, First(g), |g.code|, i);
  }

  lemma LandsLabel(g: Listing, l: Name)
    requires |g.code| == |g.names| && Lands(g, l)
    ensures l in g.labels
  { }

  lemma {:induction false} LandsAll(g: Listing, lo: nat, n: nat)
    requires n <= |g.code| == |g.names|
    requires forall i: nat :: lo <= i < |g.code| && g.code[i].Bra? ==> Lands(g, g.code[i].target)
    ensures LandsWithin(g, lo, n)
    decreases n
  {
    hide Lands;
    if lo < n { LandsAll(g, lo, n - 1); }
  }

  // What is printed under a label's name.
  lemma NamedPrinted(g: Listing, x: nat, l: Name)
    requires IsListing(g) && l in g.labels && x < |Text(g)| && Text(g)[x] == Label(Named(l))
    ensures Lands(g, l)
  {
    hide Text;
    TextLabel(g, x);
    if PrintedBy(g, |g.code|, x, Named(l)) {
      var i: nat :| i < |g.code| && Starts(g, i) && Named(l) == g.names[i];
      StartsWhere(g, i);
      NameIs(g, i);
    }
  }

  // ---- valid text has branches that land -----------------------------------------------

  // A jump from the entry can only find the return block.
  lemma ValidEntry(g: Listing)
    requires IsListing(g) && g.names[0] != Entry && ValidText(Text(g))
    ensures StrayEntry(g)
  {
    NameIs(g, 0);
    PrefixOfText(g, 0);
    assert Preamble(g)[1] == Br(g.names[0]);
    assert Text(g)[1] == BodyText(g, 0)[1];
    assert Targets(Text(g)[1], g.names[0]) && Printed(Text(g), g.names[0]);
    var x: nat :| x < |Text(g)| && Text(g)[x] == Label(g.names[0]);
    NamedPrinted(g, x, g.names[0].of);
    assert g.names[0] == RET && NeedsRet(g);
    if !(g.code[0].Bra? && g.code[0].target !in g.labels) {
      FirstPrints(g);
      ChunkIn(g, 0, 0);
    }
  }

  // Anything but an unresolved branch prints a line, and on the first instruction
  // no label before it.
  lemma FirstPrints(g: Listing)
    requires IsListing(g) && !(g.code[0].Bra? && g.code[0].target !in g.labels)
    ensures |Chunk(g, 0)| > 0 && !Chunk(g, 0)[0].Label?
  {
    KeptIsCode(g.k.body, 0);
    hide LowerAlu; hide LowerPred; hide StoreReg; hide GuardExp; hide AddressExp;
    if !Terminator(g.code[0]) { StoreRegIsPlain(g.k, g.code[0]); }
  }

  lemma BranchTargets(g: Listing, i: nat)
    requires IsListing(g) && i < |g.code| && g.code[i].Bra? && g.code[i].target in g.labels
    ensures LineOf(g, i) < |Text(g)| && Targets(Text(g)[LineOf(g, i)], Named(g.code[i].target))
  {
    hide Text;
    EndingLine(g, i);
  }

  // A branch to an unknown label prints nothing, so its block stays open.
  lemma OpenBlock(g: Listing, i: nat)
    requires IsListing(g) && First(g) <= i < |g.code| && g.code[i].Bra? && g.code[i].target !in g.labels
    ensures !BlocksClosed(Text(g))
  {
    CodeIsKept(g);
    hide Text; hide Chunk; hide IsListing; hide BodyText; hide EndsBlock; hide Start; hide BlocksClosed; hide LabelPart; hide LabelTable; hide Kept;
    NothingPrinted(g, i);
    StartIn(g, i + 1);
    if i + 1 < |g.code| {
      BehindTerminator(g, i);
      BlockFirstLine(g, i + 1);
    } else {
      LastLine(g, i);
    }
    if Start(g, i + 1) > 0 { OpenBefore(g, i); }
    StillOpen(Text(g), Start(g, i + 1));
  }

  lemma StartIn(g: Listing, j: nat)
    requires |g.code| == |g.names| > 0 && j <= |g.code|
    ensures Start(g, j) <= |Text(g)|
  {
    PrefixOfText(g, j);
  }

  lemma StillOpen(text: seq<Line>, x: nat)
    requires x <= |text| && (x > 0 ==> !EndsBlock(text[x - 1]))
    requires x < |text| ==> text[x].Label? && text[x].name != Entry
    ensures !BlocksClosed(text)
  { }

  lemma NothingPrinted(g: Listing, i: nat)
    requires i < |g.code| == |g.names| && g.code[i].Bra? && g.code[i].target !in g.labels
    ensures Chunk(g, i) == LabelPart(g, i)
  { }

  lemma BlockFirstLine(g: Listing, i: nat)
    requires IsListing(g) && i < |g.code| && Starts(g, i)
    ensures Start(g, i) < |Text(g)| && Text(g)[Start(g, i)] == Label(g.names[i]) && g.names[i] != Entry
  {
    hide Text; hide Chunk; hide BodyText;
    ChunkNonempty(g, i);
    LabelsOnlyFirst(g, i, 0);
    ChunkIn(g, i, 0);
    EntryOnce(g, i);
  }

  lemma LastLine(g: Listing, i: nat)
    requires i + 1 == |g.code| == |g.names| && g.code[i].Bra? && g.code[i].target !in g.labels
    ensures Start(g, i + 1) == |Text(g)|
  { }

  lemma NotFirst(g: Listing, i: nat)
    requires IsListing(g) && First(g) <= i < |g.code| && !Starts(g, i) && Chunk(g, i) == LabelPart(g, i) && Start(g, i + 1) > 0
    ensures i > 0 && Start(g, i) == Start(g, i + 1)
  {
    NextStart(g, i);
    if i == 0 { EntryStart(g); }
    hide Chunk; hide BodyText;
  }

  lemma OpenBefore(g: Listing, i: nat)
    requires IsListing(g) && First(g) <= i < |g.code| && Chunk(g, i) == LabelPart(g, i) && Start(g, i + 1) > 0
    ensures Start(g, i + 1) <= |Text(g)| && !EndsBlock(Text(g)[Start(g, i + 1) - 1])
  {
    CodeIsKept(g);
    hide Text; hide Chunk; hide IsListing; hide BodyText; hide EndsBlock; hide Start; hide Starts; hide LabelPart; hide LabelTable; hide Kept;
    if Starts(g, i) { OpenAtLabel(g, i); } else { OpenInside(g, i); }
  }

  lemma OpenAtLabel(g: Listing, i: nat)
    requires IsListing(g) && i < |g.code| && Chunk(g, i) == LabelPart(g, i) && Starts(g, i)
    ensures 0 < Start(g, i + 1) <= |Text(g)| && !EndsBlock(Text(g)[Start(g, i + 1) - 1])
  {
    CodeIsKept(g);
    NextStart(g, i);
    hide Text; hide Chunk; hide IsListing; hide BodyText; hide Start; hide LabelTable; hide Kept;
    BlockFirstLine(g, i);
  }

  lemma OpenInside(g: Listing, i: nat)
    requires IsListing(g) && First(g) <= i < |g.code| && Chunk(g, i) == LabelPart(g, i) && Start(g, i + 1) > 0 && !Starts(g, i)
    ensures Start(g, i + 1) <= |Text(g)| && !EndsBlock(Text(g)[Start(g, i + 1) - 1])
  {
    CodeIsKept(g);
    hide Text; hide Chunk; hide IsListing; hide BodyText; hide EndsBlock; hide Start; hide Starts; hide LabelPart; hide LabelTable;
    NotFirst(g, i);
    StartsWhere(g, i);
    KeptIsCode(g.k.body, i - 1);
    PlainBefore(g, i - 1);
  }

  // An instruction that runs on into the next one leaves a plain line last.
  lemma PlainBefore(g: Listing, i: nat)
    requires i + 1 < |g.code| == |g.names| && StraightLine(g.code[i]) && !Starts(g, i + 1)
    ensures 0 < Start(g, i + 1) <= |Text(g)| && !EndsBlock(Text(g)[Start(g, i + 1) - 1])
  {
    StoreRegIsPlain(g.k, g.code[i]);
    ChunkOfPlain(g, i);
    hide Text; hide Chunk; hide BodyText; hide LowerInstr;
    NextStart(g, i);
    StraightLines(g, i);
  }

  lemma ChunkOfPlain(g: Listing, i: nat)
    requires i + 1 < |g.code| == |g.names| && StraightLine(g.code[i]) && !Starts(g, i + 1)
    requires |LowerInstr(g.k, g.code[i])| == 1
    ensures |Chunk(g, i)| == |LabelPart(g, i)| + 1
  {
    hide LowerInstr;
  }

  lemma ValidResolves(g: Listing)
    requires IsListing(g) && ValidText(Text(g))
    ensures TextOk(g)
  {
    if g.names[0] != Entry { ValidEntry(g); }
    forall i: nat | First(g) <= i < |g.code| && g.code[i].Bra? ensures Lands(g, g.code[i].target) {
      hide Text; hide IsListing;
      var l := g.code[i].target;
      if l !in g.labels { OpenBlock(g, i); }
      BranchTargets(g, i);
      assert Printed(Text(g), Named(l));
      var x: nat :| x < |Text(g)| && Text(g)[x] == Label(Named(l));
      NamedPrinted(g, x, l);
    }
    hide Text; hide IsListing;
    LandsAll(g, First(g), |g.code|);
    if RetTwice(g) {
      var i: nat :| i < |g.names| && Starts(g, i) && g.names[i] == RET;
      RetClash(g, i);
    }
  }

  // ---- landing branches make valid text --------------------------------------------------

  lemma LabelPrinted(g: Listing, i: nat)
    requires IsListing(g) && i < |g.code| && Starts(g, i)
    ensures Printed(Text(g), g.names[i])
  {
    hide Text; hide Chunk;
    ChunkNonempty(g, i);
    LabelsOnlyFirst(g, i, 0);
    ChunkIn(g, i, 0);
  }

  lemma RetPrinted(g: Listing)
    requires IsListing(g) && NeedsRet(g)
    ensures Printed(Text(g), RET)
  {
    hide BodyText;
    assert Text(g)[Start(g, |g.code|)] == Label(RET);
  }

  // The shape of one instruction's lines.
  lemma ChunkShape(g: Listing, i: nat)
    requires IsListing(g) && i < |g.code| && (g.code[i].Bra? ==> g.code[i].target in g.labels)
    ensures var c := Chunk(g, i);
      && |c| > 0
      && (c[0].Label? <==> Starts(g, i))
      && (forall y: nat :: 0 < y < |c| ==> !c[y].Label?)
      && (forall y: nat :: y + 1 < |c| ==> !EndsBlock(c[y]))
      && (EndsBlock(c[|c| - 1]) <==> i + 1 == |g.code| || Starts(g, i + 1))
  {
    KeptIsCode(g.k.body, i);
    hide LowerAlu; hide LowerPred; hide StoreReg; hide GuardExp; hide AddressExp;
    if Terminator(g.code[i]) {
      assert LowerInstr(g.k, g.code[i]) == [];
      if i + 1 < |g.code| { BehindTerminator(g, i); }
    } else {
      StoreRegIsPlain(g.k, g.code[i]);
    }
  }

  lemma ChunkCloses(g: Listing, i: nat)
    requires IsListing(g) && TextOk(g) && First(g) <= i < |g.code| && (i + 1 == |g.code| || Starts(g, i + 1))
    ensures |Chunk(g, i)| > 0 && EndsBlock(Chunk(g, i)[|Chunk(g, i)| - 1])
  {
    hide Chunk; hide EndsBlock;
    if g.code[i].Bra? { LandsAt(g, First(g), |g.code|, i); }
    ChunkShape(g, i);
  }

  lemma StoreRegIsPlain(k: Kernel, ins: Instr)
    requires !Terminator(ins) && !ins.LabelMark?
    ensures var b := LowerInstr(k, ins); |b| == 1 && !EndsBlock(b[0]) && !b[0].Label?
  { }

  lemma {:induction false} Locate(g: Listing, n: nat, x: nat) returns (i: nat, y: nat)
    requires n <= |g.code| == |g.names| && |g.names| > 0 && |Preamble(g)| <= x < Start(g, n)
    ensures i < n && y < |Chunk(g, i)| && x == Start(g, i) + y
  {
    hide Chunk;
    if x < Start(g, n - 1) { i, y := Locate(g, n - 1, x); } else { i, y := n - 1, x - Start(g, n - 1); }
  }

  lemma TargetPrinted(g: Listing, x: nat, b: BlockName)
    requires IsListing(g) && TextOk(g) && x < |Text(g)| && Targets(Text(g)[x], b)
    ensures Printed(Text(g), b)
  {
    hide Printed; hide BodyText; hide LowerAlu; hide LowerPred; hide StoreReg; hide GuardExp; hide AddressExp; hide Lands; hide BranchOk; hide NeedsRet;
    assert x < Start(g, |g.code|);
    if x < |Preamble(g)| {
      EntryLines(g);
      RetPrinted(g);
    } else {
      var i, y := Locate(g, |g.code|, x);
      PrintsLater(g, i, y);
      ChunkIn(g, i, y);
      ChunkTarget(g, i, y, b);
    }
  }

  // The jump from a stray entry.
  lemma EntryLines(g: Listing)
    requires IsListing(g) && TextOk(g) && g.names[0] != Entry
    ensures StrayEntry(g) && Start(g, 0) == Start(g, 1) == |Preamble(g)| == 2 <= |Text(g)| && Chunk(g, 0) == []
    ensures Text(g)[0] == Label(Entry) && Text(g)[1] == Br(RET)
  {
    PrefixOfText(g, 0);
    NothingPrinted(g, 0);
    NextStart(g, 0);
    hide Chunk;
  }

  lemma PrintsLater(g: Listing, i: nat, y: nat)
    requires IsListing(g) && TextOk(g) && i < |g.code| && y < |Chunk(g, i)|
    ensures First(g) <= i
  {
    if i < First(g) { EntryLines(g); }
  }

  lemma ChunkTarget(g: Listing, i: nat, y: nat, b: BlockName)
    requires IsListing(g) && TextOk(g) && First(g) <= i < |g.code| && y < |Chunk(g, i)| && Targets(Chunk(g, i)[y], b)
    ensures Printed(Text(g), b)
  {
    hide Printed; hide Text; hide LowerAlu; hide LowerPred; hide StoreReg; hide GuardExp; hide AddressExp; hide NeedsRet; hide BranchOk; hide TextOk; hide Start;
    CodeIsKept(g);
    if g.code[i].Bra? { LandsOk(g, i); }
    ChunkShape(g, i);
    assert y + 1 == |Chunk(g, i)|;
    assert i + 1 == |g.code| || Starts(g, i + 1);
    EndingLast(g, i);
    hide Chunk; hide IsListing; hide LabelTable;
    match g.code[i]
    case Bra(_, l) =>
      if BranchOk(g, l) { OwnPrinted(g, l); }
      if NeedsRet(g) { RetPrinted(g); }
      if i + 1 < |g.code| { LabelPrinted(g, i + 1); } else { AsksForRet(g, i); }
    case Ret(_) =>
    case _ => LabelPrinted(g, i + 1);
  }

  lemma OwnPrinted(g: Listing, l: Name)
    requires IsListing(g) && BranchOk(g, l)
    ensures Printed(Text(g), Named(l))
  {
    BranchBlock(g, l);
    LabelPrinted(g, g.labels[l]);
  }

  lemma AsksForRet(g: Listing, i: nat)
    requires i + 1 == |g.code| == |g.names| && g.code[i].Bra? && g.code[i].target in g.labels
    ensures g.code[i].guard.Always? || NeedsRet(g)
  { }

  // A closing line is the ending's.
  lemma EndingLast(g: Listing, i: nat)
    requires i < |g.code| == |g.names| && (g.code[i].Bra? ==> g.code[i].target in g.labels)
    requires i + 1 == |g.code| || Starts(g, i + 1)
    ensures |Ending(g, i)| == 1 && Chunk(g, i)[|Chunk(g, i)| - 1] == Ending(g, i)[0]
  {
    hide LowerInstr;
  }

  lemma ClosedAt(g: Listing, x: nat)
    requires IsListing(g) && TextOk(g) && x < |Text(g)|
    ensures Text(g)[x].Label? ==> (x == 0 && Text(g)[x].name == Entry) || (x > 0 && EndsBlock(Text(g)[x - 1]))
    ensures x + 1 < |Text(g)| && EndsBlock(Text(g)[x]) ==> Text(g)[x + 1].Label?
    ensures x + 1 == |Text(g)| ==> EndsBlock(Text(g)[x])
  {
    CodeIsKept(g);
    hide *;
    if x < |Preamble(g)| {
      InEntry(g, x);
      ClosedInEntry(g, x);
    } else if x < Start(g, |g.code|) {
      ClosedInBody(g, x);
    } else {
      ClosedInTail(g, x);
    }
  }

  lemma ClosedInBody(g: Listing, x: nat)
    requires IsListing(g) && TextOk(g) && |Preamble(g)| <= x < Start(g, |g.code|) && x < |Text(g)|
    ensures Text(g)[x].Label? ==> x > 0 && EndsBlock(Text(g)[x - 1])
    ensures x + 1 < |Text(g)| && EndsBlock(Text(g)[x]) ==> Text(g)[x + 1].Label?
    ensures x + 1 == |Text(g)| ==> EndsBlock(Text(g)[x])
  {
    CodeIsKept(g);
    hide *;
    var i, y := Locate(g, |g.code|, x);
    PrintsLater(g, i, y);
    InChunk(g, i, y);
  }

  lemma InEntry(g: Listing, x: nat)
    requires |g.code| == |g.names| > 0 && x < |Preamble(g)|
    ensures g.names[0] != Entry && x < 2
  { }

  lemma ClosedInEntry(g: Listing, x: nat)
    requires IsListing(g) && TextOk(g) && g.names[0] != Entry && x < 2 && x < |Text(g)|
    ensures Text(g)[x].Label? ==> x == 0 && Text(g)[x].name == Entry
    ensures x + 1 < |Text(g)| && EndsBlock(Text(g)[x]) ==> Text(g)[x + 1].Label?
    ensures x + 1 < |Text(g)|
  {
    EntryLines(g);
    AfterEntry(g);
    hide Text; hide IsListing; hide TextOk; hide Start; hide Chunk; hide StrayEntry; hide Preamble;
  }

  lemma ClosedInTail(g: Listing, x: nat)
    requires IsListing(g) && TextOk(g) && Start(g, |g.code|) <= x < |Text(g)|
    ensures Text(g)[x].Label? ==> x > 0 && EndsBlock(Text(g)[x - 1])
    ensures x + 1 < |Text(g)| && EndsBlock(Text(g)[x]) ==> Text(g)[x + 1].Label?
    ensures x + 1 == |Text(g)| ==> EndsBlock(Text(g)[x])
  {
    BeforeStart(g, |g.code|);
    hide BodyText; hide IsListing; hide TextOk;
  }

  // The last instruction resolves, the first does not.
  lemma MoreThanOne(g: Listing)
    requires |g.code| == |g.names| > 0 && StrayEntry(g)
    ensures |g.code| > 1
  { }

  lemma FirstBranches(g: Listing)
    requires |g.code| == |g.names| > 0 && StrayEntry(g)
    ensures Terminator(g.code[0])
  { }

  // Behind a stray entry comes a label.
  lemma AfterEntry(g: Listing)
    requires IsListing(g) && TextOk(g) && g.names[0] != Entry
    ensures 2 < |Text(g)| && Text(g)[2].Label?
  {
    CodeIsKept(g);
    EntryLines(g);
    MoreThanOne(g);
    FirstBranches(g);
    hide *;
    BehindTerminator(g, 0);
    BlockFirstLine(g, 1);
  }

  lemma InChunk(g: Listing, i: nat, y: nat)
    requires IsListing(g) && TextOk(g) && First(g) <= i < |g.code| && y < |Chunk(g, i)|
    ensures var x := Start(g, i) + y;
      && x < |Text(g)|
      && (Text(g)[x].Label? ==> x > 0 && EndsBlock(Text(g)[x - 1]))
      && (x + 1 < |Text(g)| && EndsBlock(Text(g)[x]) ==> Text(g)[x + 1].Label?)
      && (x + 1 == |Text(g)| ==> EndsBlock(Text(g)[x]))
  {
    CodeIsKept(g);
    if g.code[i].Bra? { LandsAt(g, First(g), |g.code|, i); }
    ChunkShape(g, i);
    if Chunk(g, i)[y].Label? { BeforeStart(g, i); }
    hide Chunk; hide IsListing; hide TextOk; hide BodyText; hide EndsBlock; hide Text;
    ChunkIn(g, i, y);
    NextStart(g, i);
    if y + 1 < |Chunk(g, i)| {
      ChunkIn(g, i, y + 1);
    } else {
      AfterChunk(g, i);
    }
  }

  // The line behind a closed chunk, if there is one, is a label.
  lemma AfterChunk(g: Listing, i: nat)
    requires IsListing(g) && TextOk(g) && First(g) <= i < |g.code|
    ensures var x := Start(g, i + 1);
      && (i + 1 == |g.code| || Starts(g, i + 1) ==> x < |Text(g)| ==> Text(g)[x].Label?)
      && (x == |Text(g)| ==> i + 1 == |g.code|)
  {
    CodeIsKept(g);
    hide Chunk; hide BodyText; hide Text; hide LandsWithin;
    if i + 1 < |g.code| {
      if g.code[i + 1].Bra? { LandsAt(g, First(g), |g.code|, i + 1); }
      ChunkShape(g, i + 1);
      ChunkIn(g, i + 1, 0);
    } else {
      TailFirst(g);
    }
  }

  lemma TailFirst(g: Listing)
    requires |g.code| == |g.names| > 0
    ensures Start(g, |g.code|) < |Text(g)| ==> Text(g)[Start(g, |g.code|)] == Label(RET)
  { }

  lemma BeforeStart(g: Listing, i: nat)
    requires IsListing(g) && TextOk(g) && 0 < i <= |g.code| && (i == |g.code| || Starts(g, i))
    ensures 0 < Start(g, i) <= |Text(g)| && EndsBlock(Text(g)[Start(g, i) - 1])
  {
    CodeIsKept(g);
    hide *;
    var j := i - 1;
    if First(g) <= j { ChunkEnds(g, j); } else { EntryEnds(g, j); }
  }

  lemma ChunkEnds(g: Listing, j: nat)
    requires IsListing(g) && TextOk(g) && First(g) <= j < |g.code| && (j + 1 == |g.code| || Starts(g, j + 1))
    ensures 0 < Start(g, j + 1) <= |Text(g)| && EndsBlock(Text(g)[Start(g, j + 1) - 1])
  {
    CodeIsKept(g);
    hide *;
    ChunkCloses(g, j);
    LastOfChunk(g, j);
  }

  lemma EntryEnds(g: Listing, j: nat)
    requires IsListing(g) && TextOk(g) && j < First(g)
    ensures 0 < Start(g, j + 1) <= |Text(g)| && EndsBlock(Text(g)[Start(g, j + 1) - 1])
  {
    assert j == 0 && g.names[0] != Entry;
    hide *;
    EntryCloses(g);
  }

  lemma EntryCloses(g: Listing)
    requires IsListing(g) && TextOk(g) && g.names[0] != Entry
    ensures 0 < Start(g, 1) <= |Text(g)| && EndsBlock(Text(g)[Start(g, 1) - 1])
  {
    EntryLines(g);
    hide Text; hide Start; hide IsListing; hide TextOk; hide Chunk;
  }

  lemma LastOfChunk(g: Listing, i: nat)
    requires i < |g.code| == |g.names| && |Chunk(g, i)| > 0
    ensures 0 < Start(g, i + 1) <= |Text(g)| && Text(g)[Start(g, i + 1) - 1] == Chunk(g, i)[|Chunk(g, i)| - 1]
  {
    hide Chunk; hide BodyText; hide Text;
    ChunkIn(g, i, |Chunk(g, i)| - 1);
    NextStart(g, i);
  }

  lemma StartBelow(g: Listing, x: nat)
    requires |g.code| == |g.names| > 0 && x < |Text(g)| && Text(g)[x].Label?
    ensures x <= Start(g, |g.code|)
  { }

  lemma PrintedOnce(g: Listing, x: nat, y: nat, b: BlockName)
    requires IsListing(g) && |g.code| == |g.names| > 0 && PrintedBy(g, |g.code|, x, b) && PrintedBy(g, |g.code|, y, b)
    ensures x == y
  {
    hide Start; hide IsListing;
    if b == Entry {
      forall i: nat | i < |g.names| && Starts(g, i) ensures g.names[i] != Entry { EntryOnce(g, i); }
    } else {
      var i: nat :| i < |g.code| && Starts(g, i) && x == Start(g, i) && b == g.names[i];
      var j: nat :| j < |g.code| && Starts(g, j) && y == Start(g, j) && b == g.names[j];
      if i < j { NamesApart(g, j, i); } else if j < i { NamesApart(g, i, j); }
    }
  }

  lemma UniqueAt(g: Listing, x: nat, y: nat)
    requires IsListing(g) && !RetTwice(g)
    requires x < y < |Text(g)| && Text(g)[x].Label? && Text(g)[y].Label?
    ensures Text(g)[x].name != Text(g)[y].name
  {
    hide Text; hide Start;
    TextLabel(g, x);
    TextLabel(g, y);
    StartBelow(g, y);
    if Text(g)[x].name == Text(g)[y].name {
      var b := Text(g)[x].name;
      assert PrintedBy(g, |g.code|, x, b);
      if PrintedBy(g, |g.code|, y, b) { PrintedOnce(g, x, y, b); }
    }
  }

  lemma AllClosed(g: Listing)
    requires IsListing(g) && TextOk(g)
    ensures BlocksClosed(Text(g))
  {
    BeforeStart(g, |g.code|);
    hide IsListing; hide TextOk; hide EndsBlock; hide Text;
    forall x: nat | x < |Text(g)|
      ensures Text(g)[x].Label? ==> (x == 0 && Text(g)[x].name == Entry) || (x > 0 && EndsBlock(Text(g)[x - 1]))
      ensures x + 1 < |Text(g)| && EndsBlock(Text(g)[x]) ==> Text(g)[x + 1].Label?
    {
      ClosedAt(g, x);
    }
    ClosedAt(g, |Text(g)| - 1);
    ClosedAt(g, 0);
  }

  // The printed text is well formed exactly when no label stands on the first
  // instruction, every branch names a printed block, and the return block's name
  // is free. (StrayEntry: the one label that may stand there.)
  lemma ValidExactly(g: Listing)
    requires IsListing(g)
    ensures ValidText(Text(g)) <==> TextOk(g)
  {
    CodeIsKept(g);
    hide Text; hide TextOk; hide IsListing; hide BlocksClosed; hide Targets; hide Printed;
    if TextOk(g) {
      forall x: nat, b: BlockName | x < |Text(g)| && Targets(Text(g)[x], b) ensures Printed(Text(g), b) {
        TargetPrinted(g, x, b);
      }
      OkOnce(g);
      forall x: nat, y: nat | x < y < |Text(g)| && Text(g)[x].Label? && Text(g)[y].Label?
        ensures Text(g)[x].name != Text(g)[y].name
      {
        UniqueAt(g, x, y);
      }
      AllClosed(g);
    } else if ValidText(Text(g)) {
      ValidResolves(g);
    }
  }

  lemma OkOnce(g: Listing)
    requires IsListing(g) && TextOk(g)
    ensures !RetTwice(g)
  { }

  // Where no label is spelled "ret", this is the condition of the simulation
  // theorems; and those never speak of text that LLVM would refuse.
  lemma ValidWithoutRet(g: Listing)
    requires IsListing(g)
    ensures BranchesOk(g) && !RetTwice(g) ==> ValidText(Text(g))
    ensures "ret" !in g.labels ==> (ValidText(Text(g)) <==> BranchesOk(g))
  {
    ValidExactly(g);
    hide Text; hide BranchOk;
    if BranchesOk(g) {
      forall i: nat | i < |g.code| && g.code[i].Bra? ensures Lands(g, g.code[i].target) { BranchAt(g, |g.code|, i); }
      LandsAll(g, 0, |g.code|);
    }
    if "ret" !in g.labels {
      forall i: nat | i < |g.names| ensures g.names[i] != RET { NameBack(g, i); }
      if TextOk(g) {
        forall i: nat | i < |g.code| && g.code[i].Bra? ensures BranchOk(g, g.code[i].target) { LandsAt(g, 0, |g.code|, i); }
        BranchesAll(g, |g.code|);
      }
    }
  }

  // A kernel label spelled "ret" collides with the return block.
  lemma RetClash(g: Listing, i: nat)
    requires IsListing(g) && NeedsRet(g) && i < |g.code| && Starts(g, i) && g.names[i] == RET
    ensures RetTwice(g) && !ValidText(Text(g))
  {
    BlockFirstLine(g, i);
    StartStrict(g, i, |g.code|);
    RetLast(g);
    hide Text; hide BodyText; hide BlocksClosed; hide TargetsPrinted; hide IsListing;
    assert Text(g)[Start(g, i)].name == Text(g)[Start(g, |g.code|)].name;
  }

  // Where the label "ret" has no block of its own, a branch to it finds the
  // return block: well-formed text that does not do what the kernel says.
  lemma RetBorrowed(g: Listing)
    requires IsListing(g) && NeedsRet(g) && "ret" in g.labels && !BranchOk(g, "ret")
    ensures FindLabel(Text(g), Named("ret")) == Start(g, |g.code|)
  {
    RetLast(g);
    hide Text;
    forall x: nat | x < Start(g, |g.code|) ensures Text(g)[x] != Label(RET) {
      TextLabelBefore(g, x);
      if PrintedBy(g, |g.code|, x, RET) {
        var i: nat :| i < |g.code| && Starts(g, i) && x == Start(g, i) && RET == g.names[i];
        StartsWhere(g, i);
        NameIs(g, i);
      }
    }
    FindsAt(Text(g), RET, Start(g, |g.code|));
  }

  lemma TextLabelBefore(g: Listing, x: nat)
    requires |g.code| == |g.names| > 0 && x < Start(g, |g.code|)
    ensures x < |Text(g)| && (Text(g)[x].Label? ==> PrintedBy(g, |g.code|, x, Text(g)[x].name))
  {
    hide PrintedBy; hide BodyText;
    if Text(g)[x].Label? { TextLabel(g, x); }
  }

  lemma RetLast(g: Listing)
    requires |g.code| == |g.names| > 0 && NeedsRet(g)
    ensures Start(g, |g.code|) < |Text(g)| && Text(g)[Start(g, |g.code|)] == Label(RET)
  { }
}

// The compiled text runs the way the interpreter does: instruction for
// instruction, and over whole runs.
module Simulation {
  import opened Machine
  import opened Ptx
  import opened Ir
  import opened Lowering
  import opened Related
  import opened LoweringCorrect
  import opened Layout

  // A block is printed under the name `l`.
  predicate BranchOk(g: Listing, l: Name)
    requires |g.code| == |g.names|
  {
    l in g.labels && 0 < g.labels[l] < |g.code| && g.names[g.labels[l]] == Named(l)
  }

  predicate BranchesOkTo(g: Listing, n: nat)
    requires n <= |g.code| == |g.names|
  {
    n == 0 || (BranchesOkTo(g, n - 1) && (g.code[n - 1].Bra? ==> BranchOk(g, g.code[n - 1].target)))
  }

  // No label on the first instruction, and every branch names a printed block.
  predicate BranchesOk(g: Listing)
    requires |g.code| == |g.names|
  {
    |g.names| > 0 && g.names[0] == Entry && BranchesOkTo(g, |g.code|)
  }

  lemma {:induction false} BranchAt(g: Listing, n: nat, i: nat)
    requires i < n <= |g.code| == |g.names| && BranchesOkTo(g, n) && g.code[i].Bra?
    ensures BranchOk(g, g.code[i].target)
  {
    if i < n - 1 { BranchAt(g, n - 1, i); }
  }

  lemma {:induction false} BranchesAll(g: Listing, n: nat)
    requires n <= |g.code| == |g.names|
    requires forall i: nat :: i < |g.code| && g.code[i].Bra? ==> BranchOk(g, g.code[i].target)
    ensures BranchesOkTo(g, n)
  {
    hide BranchOk;
    if n > 0 { BranchesAll(g, n - 1); }
  }

  predicate SupportedTo(k: Kernel, n: nat)
    requires n <= |k.body|
  {
    n == 0 || (SupportedTo(k, n - 1) && Supported(k, k.body[n - 1]))
  }

  lemma {:induction false} SupportedAt(k: Kernel, n: nat, i: nat)
    requires i < n <= |k.body| && SupportedTo(k, n)
    ensures Supported(k, k.body[i])
  {
    hide Supported;
    if i < n - 1 { SupportedAt(k, n - 1, i); }
  }

  // A label spelled "ret" that starts a block collides with the return block,
  // which is printed under the same name.
  predicate RetTwice(g: Listing) { NeedsRet(g) && exists i: nat :: i < |g.names| && Starts(g, i) && g.names[i] == RET }

  // A listing of a kernel both paths support, with all branches resolved.
  predicate Compiled(g: Listing) {
    IsListing(g) && BranchesOk(g) && !RetTwice(g) && SupportedTo(g.k, |g.k.body|)
  }

  // The lane stands in front of instruction i, or one jump away from it.
  predicate Near(g: Listing, i: nat, at: nat)
    requires i < |g.code| == |g.names|
  {
    at == Start(g, i) || (Starts(g, i) && at < |Text(g)| && Text(g)[at] == Br(g.names[i]))
  }

  // Related registers and, while instructions are left, related positions.
  ghost predicate InStep(g: Listing, t: Thread, s: Lane)
    requires |g.code| == |g.names|
  {
    SameRegisters(g.k, t, s) &&
    (t.pc < |g.k.body| && NewIndex(g.k, t.pc) < |g.code| ==> Near(g, NewIndex(g.k, t.pc), s.pc))
  }

  function PtxStep(k: Kernel): Stepper<Thread> { (t, m) => Step(k, t, m) }

  // The printed accesses promise LLVM their natural alignment, so the text
  // follows the interpreter as long as every access is aligned.
  function AlignedAt(k: Kernel): Thread -> bool { t => AccessAligned(k, t) }
  function AlignedStep(k: Kernel): Stepper<Thread> { Guarded(PtxStep(k), AlignedAt(k)) }

  function IrStep(text: seq<Line>): Stepper<Lane> { (s, m) => LineStep(text, s, m) }

  function PtxRun(k: Kernel, t: Thread, m: Mem, n: nat): Effect<Thread> { Run(PtxStep(k), t, m, n) }
  function IrRun(text: seq<Line>, s: Lane, m: Mem, n: nat): Effect<Lane> { Run(IrStep(text), s, m, n) }

  lemma IrAppend(text: seq<Line>, s: Lane, m: Mem, a: nat, b: nat)
    ensures var e := IrRun(text, s, m, a);
      IrRun(text, s, m, a + b) == if e.kind != Advanced then e else Joined(e, IrRun(text, e.s, m + e.writes, b))
  {
    RunAppend(IrStep(text), s, m, a, b);
  }

  // The lane does what the thread does, and can be followed further.
  ghost predicate Follows(g: Listing, want: Effect<Thread>, got: Effect<Lane>)
    requires |g.code| == |g.names|
  {
    Matches(g.k, want, got) && (want.kind == Advanced || want.kind == Parked ==> InStep(g, want.s, got.s))
  }

  // ---- getting to the instruction's own line ------------------------------------------

  lemma OneLine(text: seq<Line>, s: Lane, m: Mem)
    ensures IrRun(text, s, m, 1) == LineStep(text, s, m)
  {
    var e := LineStep(text, s, m);
    assert IrStep(text)(s, m) == e;
    JoinedQuiet(e.s, e);
    if e.kind == Advanced {
      assert IrRun(text, e.s, m + e.writes, 0) == Quiet(Advanced, e.s);
    }
  }

  // A line without effect on memory, then the rest.
  lemma ThenRun(text: seq<Line>, s: Lane, m: Mem, s': Lane, c: nat)
    requires LineStep(text, s, m) == Quiet(Advanced, s')
    ensures IrRun(text, s, m, 1 + c) == IrRun(text, s', m, c)
  {
    IrAppend(text, s, m, 1, c);
    OneLine(text, s, m);
    assert m + map[] == m;
    JoinedQuiet(s', IrRun(text, s', m, c));
  }

  function LineOf(g: Listing, i: nat): nat
    requires i < |g.code| == |g.names|
  {
    Start(g, i) + |LabelPart(g, i)|
  }

  // Past the printed label, and into a block from one jump away.
  lemma PassLabel(g: Listing, i: nat, s: Lane, m: Mem)
    requires IsListing(g) && i < |g.code| && Starts(g, i) && s.pc == Start(g, i)
    ensures LineStep(Text(g), s, m) == Quiet(Advanced, s.(pc := LineOf(g, i)))
  {
    hide Text; hide Chunk; hide BodyText;
    ChunkNonempty(g, i);
    LabelsOnlyFirst(g, i, 0);
    ChunkIn(g, i, 0);
  }

  lemma JumpTo(g: Listing, i: nat, s: Lane)
    requires IsListing(g) && i < |g.code| && Starts(g, i)
    ensures Jump(Text(g), s, g.names[i]) == Quiet(Advanced, s.(pc := Start(g, i)))
  {
    hide Text; hide FindLabel;
    BlockFound(g, i);
  }

  // Entering the block of instruction i costs at most two quiet lines.
  lemma Arrive(g: Listing, i: nat, s: Lane, m: Mem, c: nat) returns (d: nat)
    requires IsListing(g) && i < |g.code| && Near(g, i, s.pc)
    ensures d <= 2
    ensures IrRun(Text(g), s, m, d + c) == IrRun(Text(g), s.(pc := LineOf(g, i)), m, c)
  {
    CodeIsKept(g);
    hide FindLabel; hide Text; hide IsListing; hide Chunk; hide Jump; hide BodyText; hide IrRun;
    if !Starts(g, i) {
      InPlace(g, i, s);
      hide Near; hide LineOf;
      d := 0;
    } else {
      d := ArriveAtLabel(g, i, s, m, c);
    }
  }

  lemma InPlace(g: Listing, i: nat, s: Lane)
    requires IsListing(g) && i < |g.code| && Near(g, i, s.pc) && !Starts(g, i)
    ensures s == s.(pc := LineOf(g, i))
  {
    CodeIsKept(g);
    hide FindLabel; hide Text; hide IsListing; hide Chunk; hide Jump; hide BodyText;
  }

  lemma ArriveAtLabel(g: Listing, i: nat, s: Lane, m: Mem, c: nat) returns (d: nat)
    requires IsListing(g) && i < |g.code| && Near(g, i, s.pc) && Starts(g, i)
    ensures d <= 2
    ensures IrRun(Text(g), s, m, d + c) == IrRun(Text(g), s.(pc := LineOf(g, i)), m, c)
  {
    CodeIsKept(g);
    hide FindLabel; hide Text; hide IsListing; hide Chunk; hide Jump; hide BodyText; hide IrRun;
    var s1, s2 := s.(pc := Start(g, i)), s.(pc := LineOf(g, i));
    PassLabel(g, i, s1, m);
    ThenRun(Text(g), s1, m, s2, c);
    d := 1;
    if s.pc != Start(g, i) {
      JumpTo(g, i, s);
      assert LineStep(Text(g), s, m) == Quiet(Advanced, s1);
      ThenRun(Text(g), s, m, s1, 1 + c);
      d := 2;
    } else {
      assert s == s1;
    }
  }

  lemma CodeIsKept(g: Listing)
    requires IsListing(g)
    ensures g.code == Kept(g.k.body) && |g.code| == |g.names| > 0
  { }

  lemma ChunkNonempty(g: Listing, i: nat)
    requires i < |g.code| == |g.names| && Starts(g, i)
    ensures |Chunk(g, i)| > 0
  { }

  // ---- what is printed for one instruction -----------------------------------------------

  lemma StraightLines(g: Listing, i: nat)
    requires i < |g.code| == |g.names| && StraightLine(g.code[i])
    ensures LineOf(g, i) < |Text(g)| && [Text(g)[LineOf(g, i)]] == LowerInstr(g.k, g.code[i])
    ensures i + 1 < |g.code| ==> Near(g, i + 1, LineOf(g, i) + 1)
  {
    hide Text; hide LowerAlu; hide LowerPred; hide StoreReg; hide AddressExp;
    var x := |LabelPart(g, i)|;
    assert |LowerInstr(g.k, g.code[i])| == 1;
    assert Chunk(g, i)[x] == LowerInstr(g.k, g.code[i])[0];
    ChunkIn(g, i, x);
    if i + 1 < |g.code| {
      if Starts(g, i + 1) {
        assert Chunk(g, i)[x + 1] == Br(g.names[i + 1]);
        ChunkIn(g, i, x + 1);
      } else {
        NextStart(g, i);
        assert |Chunk(g, i)| == x + 1;
      }
    }
  }

  lemma NextStart(g: Listing, i: nat)
    requires i < |g.code| == |g.names|
    ensures Start(g, i + 1) == Start(g, i) + |Chunk(g, i)|
  { }

  lemma EndingLine(g: Listing, i: nat)
    requires i < |g.code| == |g.names| && Terminator(g.code[i]) && |Ending(g, i)| == 1
    ensures LineOf(g, i) < |Text(g)| && Text(g)[LineOf(g, i)] == Ending(g, i)[0]
  {
    hide Text;
    assert Chunk(g, i)[|LabelPart(g, i)|] == Ending(g, i)[0];
    ChunkIn(g, i, |LabelPart(g, i)|);
  }

  // ---- one step ------------------------------------------------------------------------------

  // How the folded index moves along with the program counter.
  lemma IndexStep(k: Kernel, p: nat)
    requires p < |k.body|
    ensures NewIndex(k, p + 1) == NewIndex(k, p) + (if k.body[p].LabelMark? then 0 else 1)
    ensures !k.body[p].LabelMark? ==> NewIndex(k, p) < |Kept(k.body)| && Kept(k.body)[NewIndex(k, p)] == k.body[p]
  {
    KeptAt(k.body, p);
  }

  lemma StraightStep(g: Listing, t: Thread, s: Lane, m: Mem) returns (d: nat)
    requires Compiled(g) && InStep(g, t, s) && t.pc < |g.k.body| && StraightLine(g.k.body[t.pc])
    requires Step(g.k, t, m).kind != Failed && AccessAligned(g.k, t)
    ensures d <= 3 && Follows(g, Step(g.k, t, m), IrRun(Text(g), s, m, d))
  {
    hide Step; hide AccessAligned; hide LineStep; hide Text; hide LowerInstr; hide SameRegisters; hide Supported; hide BranchesOk; hide NewIndex; hide IrRun; hide PtxRun;
    var i := NewIndex(g.k, t.pc);
    IndexStep(g.k, t.pc);
    var s' := s.(pc := LineOf(g, i));
    d := Arrive(g, i, s, m, 1);
    d := d + 1;
    SameMoved(g.k, t, s);
    assert SameRegisters(g.k, t.(pc := t.pc), s');
    StraightLines(g, i);
    SupportedAt(g.k, |g.k.body|, t.pc);
    InstrCorrect(g.k, t, Text(g), s', m);
    OneLine(Text(g), s', m);
  }

  lemma SkipMark(g: Listing, t: Thread, s: Lane, m: Mem)
    requires Compiled(g) && InStep(g, t, s) && t.pc < |g.k.body| && g.k.body[t.pc].LabelMark?
    ensures Follows(g, Step(g.k, t, m), IrRun(Text(g), s, m, 0))
  {
    hide Text; hide SameRegisters; hide Supported; hide BranchesOk; hide NewIndex;
    IndexStep(g.k, t.pc);
    SameMoved(g.k, t, s);
    assert SameRegisters(g.k, t.(pc := t.pc + 1), s.(pc := s.pc));
  }

  lemma RetStep(g: Listing, t: Thread, s: Lane, m: Mem) returns (d: nat)
    requires Compiled(g) && InStep(g, t, s) && t.pc < |g.k.body| && g.k.body[t.pc].Ret?
    ensures d <= 3 && Follows(g, Step(g.k, t, m), IrRun(Text(g), s, m, d))
  {
    hide Text; hide SameRegisters; hide BranchesOk; hide NewIndex; hide IrRun; hide PtxRun;
    var i := NewIndex(g.k, t.pc);
    IndexStep(g.k, t.pc);
    SupportedAt(g.k, |g.k.body|, t.pc);
    var s' := s.(pc := LineOf(g, i));
    d := Arrive(g, i, s, m, 1);
    d := d + 1;
    EndingLine(g, i);
    OneLine(Text(g), s', m);
    SameMoved(g.k, t, s);
    assert SameRegisters(g.k, t.(pc := t.pc), s');
  }

  // Where a parser label sends the two sides.
  lemma TargetIndex(g: Listing, l: Name)
    requires IsListing(g) && l in g.k.labels && g.k.labels[l] < |g.k.body|
    ensures l in g.labels && g.labels[l] == NewIndex(g.k, g.k.labels[l])
  { }

  lemma BranchBlock(g: Listing, l: Name)
    requires IsListing(g) && BranchOk(g, l)
    ensures Starts(g, g.labels[l])
  {
    StartsWhere(g, g.labels[l]);
  }

  lemma BehindTerminator(g: Listing, i: nat)
    requires IsListing(g) && i + 1 < |g.code| && Terminator(g.code[i])
    ensures Starts(g, i + 1)
  {
    StartsWhere(g, i + 1);
  }

  lemma {:induction false} FindsLast(text: seq<Line>, name: BlockName, p: nat)
    requires p < |text| && text[p] == Label(name)
    ensures FindLabel(text, name) <= p
  {
    if p > 0 && text[0] != Label(name) { FindsLast(text[1..], name, p - 1); }
  }

  lemma RetFound(g: Listing, s: Lane)
    requires IsListing(g) && NeedsRet(g)
    ensures var e := Jump(Text(g), s, RET); e == Quiet(Advanced, s.(pc := e.s.pc))
  {
    hide BodyText;
    var p := Start(g, |g.code|);
    assert Text(g)[p] == Label(RET);
    FindsLast(Text(g), RET, p);
  }

  lemma Moved(g: Listing, t: Thread, s: Lane, p: nat, s': Lane)
    requires SameRegisters(g.k, t, s) && |g.code| == |g.names| && s'.slots == s.slots && s'.special == s.special
    requires p < |g.k.body| && NewIndex(g.k, p) < |g.code| ==> Near(g, NewIndex(g.k, p), s'.pc)
    ensures InStep(g, t.(pc := p), s')
  {
    SameMoved(g.k, t, s);
    assert SameRegisters(g.k, t.(pc := p), s.(pc := s'.pc));
  }

  // What the branch line does to a lane in front of it.
  lemma BranchLine(g: Listing, t: Thread, s: Lane, m: Mem, i: nat, ins: Instr)
    requires i < |g.code| == |g.names| && g.code[i] == ins && ins.Bra? && ins.target in g.labels && GuardOk(g.k, ins.guard)
    requires SameRegisters(g.k, t, s) && s.pc == LineOf(g, i)
    ensures LineStep(Text(g), s, m) == Jump(Text(g), s, GoesTo(g, t, i, ins))
  {
    hide Text; hide SameRegisters; hide Eval; hide Defined; hide GuardExp; hide Jump; hide WellTyped; hide Pure; hide LineOf;
    EndingLine(g, i);
    if ins.guard.When? {
      GivesGuard(g.k, t, s, m, ins.guard);
      PureSees(GuardExp(g.k, ins.guard), s, m);
      JumpQuiet(Text(g), s, GoesTo(g, t, i, ins));
    }
  }

  // The block a branch continues in.
  function GoesTo(g: Listing, t: Thread, i: nat, ins: Instr): BlockName
    requires i < |g.code| == |g.names| && ins.Bra?
  {
    if GuardHolds(t, ins.guard) then Named(ins.target) else if i + 1 < |g.code| then g.names[i + 1] else RET
  }

  lemma JumpQuiet(text: seq<Line>, s: Lane, name: BlockName)
    ensures var j := Jump(text, s, name); j.(sees := {}) == j
  { }

  lemma BranchStep(g: Listing, t: Thread, s: Lane, m: Mem) returns (d: nat)
    requires Compiled(g) && InStep(g, t, s) && t.pc < |g.k.body| && g.k.body[t.pc].Bra?
    requires Step(g.k, t, m).kind != Failed
    ensures d <= 3 && Follows(g, Step(g.k, t, m), IrRun(Text(g), s, m, d))
  {
    hide Text; hide SameRegisters; hide NewIndex; hide IrRun; hide PtxRun; hide LineStep; hide Jump; hide IsListing; hide LabelTable;
    var i, ins := NewIndex(g.k, t.pc), g.k.body[t.pc];
    IndexStep(g.k, t.pc);
    CodeIsKept(g);
    SupportedAt(g.k, |g.k.body|, t.pc);
    var s' := s.(pc := LineOf(g, i));
    d := Arrive(g, i, s, m, 1);
    d := d + 1;
    SameMoved(g.k, t, s);
    assert SameRegisters(g.k, t.(pc := t.pc), s');
    BranchAt(g, |g.code|, i);
    BranchLine(g, t, s', m, i, ins);
    OneLine(Text(g), s', m);
    var j := g.labels[ins.target];
    BranchBlock(g, ins.target);
    JumpTo(g, j, s');
    if GuardHolds(t, ins.guard) {
      var p := g.k.labels[ins.target];
      if p < |g.k.body| { TargetIndex(g, ins.target); }
      Moved(g, t, s, p, s'.(pc := Start(g, j)));
    } else {
      if i + 1 < |g.code| { FallNext(g, t, s', i); } else { FallLast(g, t, s', i); }
    }
  }

  // A branch not taken: on to the next block, or to the return block behind the last line.
  lemma FallNext(g: Listing, t: Thread, s: Lane, i: nat)
    requires IsListing(g) && SameRegisters(g.k, t, s) && t.pc < |g.k.body| && i == NewIndex(g.k, t.pc)
    requires i + 1 < |g.code| && g.k.body[t.pc].Bra? && g.code[i] == g.k.body[t.pc]
    ensures var e := Jump(Text(g), s, g.names[i + 1]);
      e == Quiet(Advanced, e.s) && InStep(g, Next(t), e.s)
  {
    hide Text; hide SameRegisters; hide NewIndex; hide Near; hide Jump;
    IndexStep(g.k, t.pc);
    BehindTerminator(g, i);
    JumpTo(g, i + 1, s);
    NearStart(g, i + 1);
    Moved(g, t, s, t.pc + 1, s.(pc := Start(g, i + 1)));
  }

  lemma FallLast(g: Listing, t: Thread, s: Lane, i: nat)
    requires IsListing(g) && SameRegisters(g.k, t, s) && t.pc < |g.k.body| && i == NewIndex(g.k, t.pc)
    requires i + 1 == |g.code| && g.k.body[t.pc].Bra? && g.code[i] == g.k.body[t.pc] && NeedsRet(g)
    ensures var e := Jump(Text(g), s, RET);
      e == Quiet(Advanced, e.s) && InStep(g, Next(t), e.s)
  {
    hide Text; hide SameRegisters; hide NewIndex; hide Jump; hide Near;
    IndexStep(g.k, t.pc);
    RetFound(g, s);
    Moved(g, t, s, t.pc + 1, Jump(Text(g), s, RET).s);
  }

  lemma NearStart(g: Listing, i: nat)
    requires i < |g.code| == |g.names|
    ensures Near(g, i, Start(g, i))
  { }

  // Every step of the interpreter is matched by at most three printed lines.
  lemma StepCorrect(g: Listing, t: Thread, s: Lane, m: Mem) returns (d: nat)
    requires Compiled(g) && InStep(g, t, s) && Step(g.k, t, m).kind != Failed && AccessAligned(g.k, t)
    ensures d <= 3 && Follows(g, Step(g.k, t, m), IrRun(Text(g), s, m, d))
  {
    hide AccessAligned; hide Text; hide SameRegisters; hide NewIndex; hide IrRun; hide PtxRun; hide LineStep; hide Supported; hide IsListing; hide BranchesOk; hide Perform;
    assert t.pc < |g.k.body|;
    match g.k.body[t.pc]
    case Bra(_, _) => d := BranchStep(g, t, s, m);
    case Ret(_) => d := RetStep(g, t, s, m);
    case LabelMark(_, _) => SkipMark(g, t, s, m); d := 0;
    case _ => d := StraightStep(g, t, s, m);
  }

  // What links the two sides, by the way the run stopped.
  ghost function Link(g: Listing): (Kind, Thread, Lane) -> bool {
    (kind: Kind, t: Thread, s: Lane) =>
      |g.code| == |g.names| && SameRegisters(g.k, t, s) && (kind == Advanced || kind == Parked ==> InStep(g, t, s))
  }

  lemma AlignedStepIs(k: Kernel, t: Thread, m: Mem)
    ensures AlignedStep(k)(t, m) == if AccessAligned(k, t) then Step(k, t, m) else Quiet(Failed, t)
  { }

  lemma StepsCorrect(g: Listing)
    requires Compiled(g)
    ensures FollowsSteps(AlignedStep(g.k), IrStep(Text(g)), Link(g))
  {
    forall t: Thread, s: Lane, m: Mem | Link(g)(Advanced, t, s) && AlignedStep(g.k)(t, m).kind != Failed
      ensures exists d: nat :: d <= 3 && Matched(Link(g), AlignedStep(g.k)(t, m), Run(IrStep(Text(g)), s, m, d))
    {
      hide Compiled; hide SameRegisters; hide Step; hide AccessAligned; hide Text; hide Near; hide NewIndex; hide AlignedStep;
      AlignedStepIs(g.k, t, m);
      var d := StepCorrect(g, t, s, m);
      assert Matched(Link(g), AlignedStep(g.k)(t, m), Run(IrStep(Text(g)), s, m, d));
    }
  }

  // Every run of the interpreter that meets no error and makes aligned accesses,
  // of any length, is matched by a run of the compiled text: same way of
  // stopping, same registers, same bytes read and written.
  lemma RunCorrect(g: Listing, t: Thread, s: Lane, m: Mem, n: nat)
    requires Compiled(g) && InStep(g, t, s) && PtxRun(g.k, t, m, n).kind != Failed
    requires FineRun(PtxStep(g.k), AlignedAt(g.k), t, m, n)
    ensures exists d: nat :: d <= 3 * n && Follows(g, PtxRun(g.k, t, m, n), IrRun(Text(g), s, m, d))
  {
    StepsCorrect(g);
    GuardedSame(PtxStep(g.k), AlignedAt(g.k), t, m, n);
    var d := FollowsRuns(AlignedStep(g.k), IrStep(Text(g)), Link(g), t, s, m, n);
    hide Compiled; hide SameRegisters; hide Text; hide InStep;
    assert Follows(g, PtxRun(g.k, t, m, n), IrRun(Text(g), s, m, d));
  }
}

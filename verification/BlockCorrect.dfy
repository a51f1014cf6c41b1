// A whole block of threads: whatever order the operating system runs the
// compiled lanes in, they end where the interpreter's lockstep ends.
module BlockCorrect {
  import opened Words
  import opened Machine
  import opened Ptx
  import opened Ir
  import opened Related
  import opened Layout
  import opened Simulation
  import opened Schedule
  import opened Refinement

  // ---- both machines look only at the bytes they report -----------------------------

  lemma {:induction false} ReadLocal(m: Mem, m': Mem, a: Word, n: nat)
    requires Agree(m, m', Span(a, n))
    ensures Mapped(m, a, n) == Mapped(m', a, n)
    ensures Mapped(m, a, n) ==> ReadLE(m, a, n) == ReadLE(m', a, n)
  {
    if n > 0 {
      assert forall x :: x in Span(a, n - 1) ==> x in Span(a, n);
      ReadLocal(m, m', a, n - 1);
      assert At(a, n - 1) in Span(a, n);
    }
  }

  lemma LocalPtx(k: Kernel)
    ensures Local(PtxStep(k))
  {
    forall t: Thread, m: Mem, m': Mem | Agree(m, m', PtxStep(k)(t, m).sees) ensures PtxStep(k)(t, m') == PtxStep(k)(t, m) {
      hide AluVal; hide PredResult; hide Mapped; hide Span; hide WriteLE; hide ReadLE;
      if t.pc < |k.body| && GuardHolds(t, k.body[t.pc].guard) {
        match k.body[t.pc]
        case Load(_, w, _, addr) => ReadLocal(m, m', AddressVal(t, addr), BytesOf(w));
        case Store(_, w, addr, _) => ReadLocal(m, m', AddressVal(t, addr), BytesOf(w));
        case _ =>
      }
    }
  }

  // The memory does not show outside the bytes an expression reads.
  predicate SameHere(e: Exp, s: Lane, m: Mem, m': Mem) {
    Eval(e, s, m) == Eval(e, s, m') && Defined(e, s, m) == Defined(e, s, m') && Sees(e, s, m) == Sees(e, s, m')
  }

  lemma AgreeOn(m: Mem, m': Mem, a: set<Word>, b: set<Word>)
    requires Agree(m, m', a + b)
    ensures Agree(m, m', a) && Agree(m, m', b)
  {
    assert forall x :: x in a ==> x in a + b;
    assert forall x :: x in b ==> x in a + b;
  }

  lemma {:induction false} ExpLocal(e: Exp, s: Lane, m: Mem, m': Mem)
    requires Agree(m, m', Sees(e, s, m))
    ensures SameHere(e, s, m, m')
    decreases e
  {
    hide Agree; hide BinVal; hide BinDefined; hide CmpVal; hide MinMaxCallVal; hide Mapped; hide ReadLE; hide Span; hide Fit;
    match e
    case Slot(_, _) =>
    case Lit(_, _) =>
    case LaunchField(_) =>
    case Bin(_, _, a, b) =>
      AgreeOn(m, m', Sees(a, s, m), Sees(b, s, m));
      ExpLocal(a, s, m, m');
      ExpLocal(b, s, m, m');
    case Cmp(_, _, a, b) =>
      AgreeOn(m, m', Sees(a, s, m), Sees(b, s, m));
      ExpLocal(a, s, m, m');
      ExpLocal(b, s, m, m');
    case MinMaxCall(_, _, _, a, b) =>
      AgreeOn(m, m', Sees(a, s, m), Sees(b, s, m));
      ExpLocal(a, s, m, m');
      ExpLocal(b, s, m, m');
    case Select(c, _, a, b) =>
      AgreeOn(m, m', Sees(c, s, m) + Sees(a, s, m), Sees(b, s, m));
      AgreeOn(m, m', Sees(c, s, m), Sees(a, s, m));
      ExpLocal(c, s, m, m');
      ExpLocal(a, s, m, m');
      ExpLocal(b, s, m, m');
    case Zext(_, a, _) => ExpLocal(a, s, m, m');
    case Trunc(_, a, _) => ExpLocal(a, s, m, m');
    case LoadMem(w, addr) =>
      AgreeOn(m, m', Sees(addr, s, m), Span(Eval(addr, s, m), BytesOf(w)));
      ExpLocal(addr, s, m, m');
      ReadLocal(m, m', Eval(addr, s, m), BytesOf(w));
  }

  lemma LineLocal(text: seq<Line>, s: Lane, m: Mem, m': Mem)
    requires Agree(m, m', LineStep(text, s, m).sees)
    ensures LineStep(text, s, m') == LineStep(text, s, m)
  {
    hide Agree; hide Eval; hide Defined; hide Sees; hide Mapped; hide Span; hide FindLabel;
    if s.pc < |text| {
      match text[s.pc]
      case Assign(_, _, e) => ExpLocal(e, s, m, m');
      case StoreMem(w, addr, v) =>
        var span := Span(Eval(addr, s, m), BytesOf(w));
        AgreeOn(m, m', Sees(addr, s, m) + Sees(v, s, m), span);
        AgreeOn(m, m', Sees(addr, s, m), Sees(v, s, m));
        ExpLocal(addr, s, m, m');
        ExpLocal(v, s, m, m');
        ReadLocal(m, m', Eval(addr, s, m), BytesOf(w));
      case CondBr(c, _, _) => ExpLocal(c, s, m, m');
      case _ =>
    }
  }

  lemma LocalIr(text: seq<Line>)
    ensures Local(IrStep(text))
  {
    forall s: Lane, m: Mem, m': Mem | Agree(m, m', IrStep(text)(s, m).sees) ensures IrStep(text)(s, m') == IrStep(text)(s, m) {
      hide LineStep;
      LineLocal(text, s, m, m');
    }
  }

  // ---- the block theorem ---------------------------------------------------------------

  // Lane for thread, in the same memory.
  ghost predicate SameBlock(g: Listing, c: Block<Thread>, c': Block<Lane>) { Twins(Link(g), c, c') }

  // Every access of the interpreter's execution is aligned.
  predicate AlignedThroughout(k: Kernel, c: Block<Thread>, p: seq<seq<nat>>)
    requires Shaped(c)
  {
    FineThroughout(PtxStep(k), AlignedAt(k), c, p)
  }

  lemma LocalAligned(k: Kernel)
    ensures Local(AlignedStep(k))
  {
    LocalPtx(k);
    forall t: Thread, m: Mem, m': Mem | Agree(m, m', AlignedStep(k)(t, m).sees) ensures AlignedStep(k)(t, m') == AlignedStep(k)(t, m) {
      hide Step; hide AccessAligned; hide Agree;
      if AccessAligned(k, t) { LocalStep(PtxStep(k), t, m, m'); }
    }
  }

  // What the general theorems ask for.
  lemma Prepared(g: Listing, c: Block<Thread>, p: seq<seq<nat>>, d: Block<Thread>)
    requires Compiled(g) && Shaped(c) && RaceFreeThroughout(PtxStep(g.k), c)
    requires Executes(PtxStep(g.k), c, p, d) && AlignedThroughout(g.k, c, p)
    ensures FollowsSteps(AlignedStep(g.k), IrStep(Text(g)), Link(g)) && Resumes(Link(g))
    ensures Local(AlignedStep(g.k)) && Local(IrStep(Text(g)))
    ensures RaceFreeThroughout(AlignedStep(g.k), c) && Executes(AlignedStep(g.k), c, p, d)
    ensures NobodyLeft(AlignedStep(g.k), c, p) <==> NobodyLeft(PtxStep(g.k), c, p)
  {
    LocalAligned(g.k);
    LocalIr(Text(g));
    StepsCorrect(g);
    assert Resumes(Link(g));
    hide Compiled; hide Text; hide RaceFreeThroughout; hide Executes; hide Local; hide FollowsSteps; hide NobodyLeft; hide LineStep; hide Step;
    GuardedRaceFreeThroughout(PtxStep(g.k), AlignedAt(g.k), c);
    GuardedExecutes(PtxStep(g.k), AlignedAt(g.k), c, p, d);
  }

  // The promise of the two paths, for a block: the interpreter finished it in
  // lockstep; then the compiled lanes, in any interleaving that respects the
  // barriers, end with the same memory and the same registers. (HostIsExecution:
  // the interleavings under a pthread barrier are among these.)
  lemma BlockRunsAlike(g: Listing, c: Block<Thread>, p: seq<seq<nat>>, d: Block<Thread>,
                       c': Block<Lane>, q: seq<seq<nat>>, d': Block<Lane>)
    requires Compiled(g) && SameBlock(g, c, c') && Shaped(c) && Shaped(c')
    requires RaceFreeThroughout(PtxStep(g.k), c)
    requires Executes(PtxStep(g.k), c, p, d) && AllDone(d) && AlignedThroughout(g.k, c, p)
    requires Executes(IrStep(Text(g)), c', q, d') && AllDone(d')
    ensures d'.mem == d.mem && |d'.owners| == |d.owners|
    ensures forall i: nat :: i < |d.owners| ==> SameRegisters(g.k, d.owners[i], d'.owners[i])
  {
    Prepared(g, c, p, d);
    hide *;
    TwinsToTheEnd(AlignedStep(g.k), IrStep(Text(g)), Link(g), c, p, d, c', q, d');
    TwinsSame(g, d, d');
  }

  // The compiled lanes meet at a pthread barrier, which waits for every thread
  // of the block, finished or not. They have an order in which all of them
  // finish if and only if no thread of the interpreter's execution had finished
  // when a barrier opened.
  lemma BlockFinishes(g: Listing, c: Block<Thread>, p: seq<seq<nat>>, d: Block<Thread>, c': Block<Lane>)
    requires Compiled(g) && SameBlock(g, c, c') && Shaped(c) && Shaped(c')
    requires RaceFreeThroughout(PtxStep(g.k), c)
    requires Executes(PtxStep(g.k), c, p, d) && AllDone(d) && AlignedThroughout(g.k, c, p)
    ensures HostCanFinish(IrStep(Text(g)), c') <==> NobodyLeft(PtxStep(g.k), c, p)
  {
    Prepared(g, c, p, d);
    hide *;
    FinishesExactly(AlignedStep(g.k), IrStep(Text(g)), Link(g), c, p, d, c');
  }

  // In that case no interleaving gets stuck or fails: whenever no lane can step,
  // all are done or all are at the barrier.
  lemma BlockNeverStuck(g: Listing, c: Block<Thread>, p: seq<seq<nat>>, d: Block<Thread>,
                        c': Block<Lane>, q: seq<seq<nat>>, d': Block<Lane>)
    requires Compiled(g) && SameBlock(g, c, c') && Shaped(c) && Shaped(c')
    requires RaceFreeThroughout(PtxStep(g.k), c)
    requires Executes(PtxStep(g.k), c, p, d) && AllDone(d) && AlignedThroughout(g.k, c, p)
    requires NobodyLeft(PtxStep(g.k), c, p) && HostExecutes(IrStep(Text(g)), c', q, d')
    ensures Broken !in d'.status
    ensures Ready !in d'.status ==> AllDone(d') || AllArrived(d')
  {
    Prepared(g, c, p, d);
    hide *;
    HostNeverStuck(AlignedStep(g.k), IrStep(Text(g)), Link(g), c, p, d, c', q, d');
  }

  lemma TwinsSame(g: Listing, d: Block<Thread>, d': Block<Lane>)
    requires Twins(Link(g), d, d') && AllDone(d)
    ensures d'.mem == d.mem && |d'.owners| == |d.owners|
    ensures forall i: nat :: i < |d.owners| ==> SameRegisters(g.k, d.owners[i], d'.owners[i])
  {
    forall i: nat | i < |d.owners| ensures SameRegisters(g.k, d.owners[i], d'.owners[i]) {
      assert Link(g)(KindOf(d.status[i]), d.owners[i], d'.owners[i]);
    }
  }

  // No lane meets an error on the way, whatever the order.
  lemma LanesSurvive(g: Listing, c: Block<Thread>, p: seq<nat>, c': Block<Lane>, q: seq<nat>)
    requires Compiled(g) && SameBlock(g, c, c') && Shaped(c) && Shaped(c')
    requires RaceFree(PtxStep(g.k), c) && Settled(After(PtxStep(g.k), c, p)) && FineAfter(PtxStep(g.k), AlignedAt(g.k), c, p)
    ensures Broken !in After(IrStep(Text(g)), c', q).status
  {
    LocalAligned(g.k);
    LocalIr(Text(g));
    StepsCorrect(g);
    hide *;
    GuardedRaceFree(PtxStep(g.k), AlignedAt(g.k), c);
    GuardedAfter(PtxStep(g.k), AlignedAt(g.k), c, p);
    FollowerSurvives(AlignedStep(g.k), IrStep(Text(g)), Link(g), c, p, c', q);
  }

  // A freshly launched lane is in step with a freshly launched thread. The text
  // clears predicate slots only: whatever else the slots hold, the lane is in
  // step with the thread that starts with these values (with zeros, as the
  // interpreter does, if they are zero).
  lemma LaunchInStep(g: Listing, slots: map<Name, Word>, special: seq<Word>)
    requires Compiled(g) && |special| == 12
    requires forall r: Name :: r in slots ==> slots[r] < Modulus(RegWidth(g.k, r)) && (RegWidth(g.k, r) == B1 ==> slots[r] == 0)
    ensures InStep(g, Thread(slots, map[], 0, special), Lane(slots, 0, special))
  {
    EntryStart(g);
    var t, s := Thread(slots, map[], 0, special), Lane(slots, 0, special);
    forall r: Name ensures SlotVal(s, r) == Expected(g.k, t, r) && Expected(g.k, t, r) < Modulus(RegWidth(g.k, r)) { }
  }
}

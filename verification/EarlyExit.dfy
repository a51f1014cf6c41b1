// A kernel in which one thread leaves before the barrier: the interpreter
// finishes it, the compiled lanes wait for ever.
//
//         mov.u32      %r, %tid.x
//         setp.eq.u32  %p, %r, 0
//     @%p bra          END
//         bar.sync     0
//   END:  ret
module EarlyExit {
  import opened Words
  import opened Machine
  import opened Ptx
  import opened Ir
  import opened Layout
  import opened Simulation
  import opened Schedule
  import opened Refinement
  import opened BlockCorrect

  // ---- kernels without memory accesses ----------------------------------------------

  predicate NoAccess(k: Kernel) { forall i :: 0 <= i < |k.body| ==> !k.body[i].Load? && !k.body[i].Store? }

  lemma QuietStep(k: Kernel, t: Thread, m: Mem)
    requires NoAccess(k)
    ensures PtxStep(k)(t, m).sees == {} && PtxStep(k)(t, m).writes == map[] && AlignedAt(k)(t)
  {
    hide AluVal; hide PredResult;
    if t.pc < |k.body| { assert !k.body[t.pc].Load? && !k.body[t.pc].Store?; }
  }

  lemma {:induction false} QuietRun(k: Kernel, t: Thread, m: Mem, n: nat)
    requires NoAccess(k)
    ensures Run(PtxStep(k), t, m, n).sees == {} && Run(PtxStep(k), t, m, n).writes == map[]
    decreases n
  {
    QuietStep(k, t, m);
    hide NoAccess; hide PtxStep;
    if n > 0 {
      var e := PtxStep(k)(t, m);
      if e.kind == Advanced { QuietRun(k, e.s, m + e.writes, n - 1); }
    }
  }

  lemma NoAccessNoRace(k: Kernel, c: Block<Thread>)
    requires NoAccess(k) && Shaped(c)
    ensures RaceFreeThroughout(PtxStep(k), c)
  {
    hide NoAccess;
    forall d: Block<Thread> | Shaped(d) ensures RaceFree(PtxStep(k), d) {
      forall i: nat, j: nat, n: nat, p: nat | i < |d.status| && j < |d.status| && i != j && d.status[i] == Ready == d.status[j]
        ensures Apart(Solo(PtxStep(k), d, i, n), Solo(PtxStep(k), d, j, p))
      {
        QuietRun(k, d.owners[i], d.mem, n);
        QuietRun(k, d.owners[j], d.mem, p);
      }
    }
  }

  lemma {:induction false} NoAccessFine(k: Kernel, c: Block<Thread>, order: seq<nat>)
    requires NoAccess(k) && Shaped(c)
    ensures FineAfter(PtxStep(k), AlignedAt(k), c, order)
  {
    hide NoAccess; hide AlignedAt; hide PtxStep;
    if order != [] {
      var n := |order| - 1;
      NoAccessFine(k, c, order[..n]);
      var d := After(PtxStep(k), c, order[..n]);
      if order[n] < |d.status| { QuietStep(k, d.owners[order[n]], d.mem); }
    }
  }

  lemma {:induction false} NoAccessAligned(k: Kernel, c: Block<Thread>, p: seq<seq<nat>>)
    requires NoAccess(k) && Shaped(c)
    ensures AlignedThroughout(k, c, p)
    decreases |p|
  {
    hide NoAccess; hide AlignedAt; hide PtxStep;
    if p != [] {
      NoAccessFine(k, c, p[0]);
      NoAccessAligned(k, Release(After(PtxStep(k), c, p[0])), p[1..]);
    }
  }

  // ---- the kernel -------------------------------------------------------------------------

  const BODY: seq<Instr> := [
    Alu(Always, "r", MovSpecial(0)),
    SetPred(Always, "p", Setp(Eq, false, B32, Reg("r"), Imm(0, false))),
    Bra(When("p", false), "END"),
    Bar(Always),
    Ret(Always)
  ]
  const KERNEL: Kernel := Kernel(BODY, map["END" := 4], map["p" := B1])
  const NAMES: seq<BlockName> := [Entry, Entry, Entry, Anon(0), Named("END")]
  const LISTING: Listing := Listing(KERNEL, BODY, map["END" := 4], NAMES)

  lemma {:induction false} KeptWhole(body: seq<Instr>)
    requires forall i :: 0 <= i < |body| ==> !body[i].LabelMark?
    ensures Kept(body) == body && Marks(body) == map[]
  {
    if body != [] { KeptWhole(body[..|body| - 1]); }
  }

  lemma Names()
    ensures NamesOk(LISTING.code, LISTING.labels, LISTING.names, 5)
  {
    var code, labels, names := LISTING.code, LISTING.labels, LISTING.names;
    assert forall i: nat :: Labelled(labels, i) ==> i == 4;
    assert "END" in labels && labels["END"] == 4;
    assert AnonBefore(code, labels, 1) == 0;
    assert AnonBefore(code, labels, 2) == 0;
    assert AnonBefore(code, labels, 3) == 0;
    assert NamesOk(code, labels, names, 1);
    assert NamesOk(code, labels, names, 2);
    assert NamesOk(code, labels, names, 3);
    assert NamesOk(code, labels, names, 4);
  }

  lemma IsCompiled()
    ensures Compiled(LISTING) && NoAccess(KERNEL)
  {
    var g := LISTING;
    KeptWhole(BODY);
    assert BODY[..4] + [BODY[4]] == BODY;
    KeptWhole(BODY[..4]);
    assert LabelTable(g.k) == g.labels;
    Names();
    assert BranchesOkTo(g, 1);
    assert BranchesOkTo(g, 2);
    assert BranchOk(g, "END");
    assert BranchesOkTo(g, 3);
    assert BranchesOkTo(g, 4);
    assert SupportedTo(g.k, 1);
    assert SupportedTo(g.k, 2);
    assert SupportedTo(g.k, 3);
    assert SupportedTo(g.k, 4);
  }

  // ---- two threads ---------------------------------------------------------------------------

  function Special(tid: Word): seq<Word> { [tid, 0, 0, 0, 0, 0, 2, 1, 1, 1, 1, 1] }
  function Fresh(tid: Word): Thread { Thread(map[], map[], 0, Special(tid)) }
  function FreshLane(tid: Word): Lane { Lane(map[], 0, Special(tid)) }

  const THREADS: Block<Thread> := Block([Fresh(0), Fresh(1)], [Ready, Ready], map[])
  const LANES: Block<Lane> := Block([FreshLane(0), FreshLane(1)], [Ready, Ready], map[])

  lemma Launched()
    ensures SameBlock(LISTING, THREADS, LANES)
  {
    IsCompiled();
    LaunchInStep(LISTING, map[], Special(0));
    LaunchInStep(LISTING, map[], Special(1));
  }

  // One more step of one of the two threads.
  lemma Grown(c: Block<Thread>, order: seq<nat>, d: Block<Thread>, i: nat, t: Thread, status: Status) returns (longer: seq<nat>, e: Block<Thread>)
    requires Shaped(c) && After(PtxStep(KERNEL), c, order) == d && |d.status| == 2 && d.mem == map[] && i < 2 && d.status[i] == Ready
    requires var f := Step(KERNEL, d.owners[i], map[]); f.s == t && StatusOf(f.kind) == status
    ensures longer == order + [i] && After(PtxStep(KERNEL), c, longer) == e
    ensures e == Block(d.owners[i := t], d.status[i := status], map[])
  {
    IsCompiled();
    QuietStep(KERNEL, d.owners[i], map[]);
    longer, e := order + [i], StepOne(PtxStep(KERNEL), d, i);
    assert longer[..|order|] == order;
    hide Step;
    assert PtxStep(KERNEL)(d.owners[i], map[]) == Step(KERNEL, d.owners[i], map[]);
    assert map[] + PtxStep(KERNEL)(d.owners[i], map[]).writes == map[];
  }

  // Thread 0 runs to its end; thread 1 runs into the barrier.
  function After4(tid: Word): Thread {
    Thread(map["r" := tid], map["p" := tid == 0], 4, Special(tid))
  }

  lemma FirstStretch() returns (order: seq<nat>)
    ensures After(PtxStep(KERNEL), THREADS, order) == Block([After4(0), After4(1)], [Done, Waiting], map[])
  {
    var t0 := [Thread(map["r" := 0], map[], 1, Special(0)), Thread(map["r" := 0], map["p" := true], 2, Special(0))];
    var t1 := [Thread(map["r" := 1], map[], 1, Special(1)), Thread(map["r" := 1], map["p" := false], 2, Special(1)),
               Thread(map["r" := 1], map["p" := false], 3, Special(1))];
    assert After(PtxStep(KERNEL), THREADS, []) == THREADS;
    var a1, d1 := Grown(THREADS, [], THREADS, 0, t0[0], Ready);
    var a2, d2 := Grown(THREADS, a1, d1, 0, t0[1], Ready);
    var a3, d3 := Grown(THREADS, a2, d2, 0, After4(0), Ready);
    var a4, d4 := Grown(THREADS, a3, d3, 0, After4(0), Done);
    var a5, d5 := Grown(THREADS, a4, d4, 1, t1[0], Ready);
    var a6, d6 := Grown(THREADS, a5, d5, 1, t1[1], Ready);
    var a7, d7 := Grown(THREADS, a6, d6, 1, t1[2], Ready);
    var a8, d8 := Grown(THREADS, a7, d7, 1, After4(1), Waiting);
    order := a8;
  }

  // Thread 1 goes on alone, and ends.
  lemma Finishes() returns (p: seq<seq<nat>>, d: Block<Thread>)
    ensures Executes(PtxStep(KERNEL), THREADS, p, d) && AllDone(d) && !NobodyLeft(PtxStep(KERNEL), THREADS, p)
  {
    var order := FirstStretch();
    assert Shaped(THREADS);
    hide PtxStep; hide After4; hide THREADS;
    var e := After(PtxStep(KERNEL), THREADS, order);
    var again := Release(e);
    assert again == Block([After4(0), After4(1)], [Done, Ready], map[]);
    assert After(PtxStep(KERNEL), again, []) == again;
    var last;
    last, d := LastStep(again);
    p := [order, last];
    assert e.status[1] == Waiting && CanRelease(e);
    assert p[1..] == [last] && Executes(PtxStep(KERNEL), again, [last], d);
    assert EndOf(PtxStep(KERNEL), THREADS, p, 0).status[0] == Done;
  }

  lemma LastStep(again: Block<Thread>) returns (last: seq<nat>, d: Block<Thread>)
    requires again == Block([After4(0), After4(1)], [Done, Ready], map[]) && After(PtxStep(KERNEL), again, []) == again
    ensures After(PtxStep(KERNEL), again, last) == d && Shaped(d) && AllDone(d)
  {
    last, d := Grown(again, [], again, 1, After4(1), Done);
  }

  // The interpreter completes the block, the compiled lanes cannot.
  lemma InterpreterAlone()
    ensures Compiled(LISTING) && SameBlock(LISTING, THREADS, LANES) && RaceFreeThroughout(PtxStep(KERNEL), THREADS)
    ensures exists p: seq<seq<nat>>, d: Block<Thread> ::
      Executes(PtxStep(KERNEL), THREADS, p, d) && AllDone(d) && AlignedThroughout(KERNEL, THREADS, p)
    ensures !HostCanFinish(IrStep(Text(LISTING)), LANES)
  {
    IsCompiled();
    Launched();
    NoAccessNoRace(KERNEL, THREADS);
    var p, d := Finishes();
    NoAccessAligned(KERNEL, THREADS, p);
    hide *;
    BlockFinishes(LISTING, THREADS, p, d, LANES);
  }
}

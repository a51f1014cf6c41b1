// The promise of the repository in one place: the scheduler has run a block to
// completion, and the compiled lanes of the same kernel are started beside it.
module TwoPaths {
  import opened Ptx
  import opened Ir
  import opened Related
  import opened Layout
  import opened Simulation
  import opened Schedule
  import opened Refinement
  import opened BlockCorrect
  import opened CtaScheduler

  // A supported kernel's listing, lanes launched like the threads, no races.
  ghost predicate Comparable(g: Listing, c: Block<Thread>, c': Block<Lane>) {
    && Compiled(g) && SameBlock(g, c, c') && Shaped(c) && Shaped(c') && RaceFreeThroughout(PtxStep(g.k), c)
  }

  // However the lanes are interleaved, if they all finish they end as the
  // interpreter did; and under a pthread barrier they can all finish if and only
  // if no thread had left before a barrier of the execution `trace` opened.
  ghost predicate EndAlike(g: Listing, c: Block<Thread>, trace: seq<seq<nat>>, d: Block<Thread>, c': Block<Lane>)
    requires Shaped(c) && Shaped(c') && |g.code| == |g.names| > 0
  {
    && (forall q: seq<seq<nat>>, d': Block<Lane> :: Executes(IrStep(Text(g)), c', q, d') && AllDone(d') ==> SameEnd(g, d, d'))
    && (HostCanFinish(IrStep(Text(g)), c') <==> NobodyLeft(PtxStep(g.k), c, trace))
  }

  ghost predicate SameEnd(g: Listing, d: Block<Thread>, d': Block<Lane>) {
    && d'.mem == d.mem && |d'.owners| == |d.owners|
    && forall i: nat :: i < |d.owners| ==> SameRegisters(g.k, d.owners[i], d'.owners[i])
  }

  lemma BothEnd(g: Listing, c: Block<Thread>, trace: seq<seq<nat>>, d: Block<Thread>, c': Block<Lane>)
    requires Comparable(g, c, c') && |g.code| == |g.names| > 0
    requires Executes(PtxStep(g.k), c, trace, d) && AllDone(d) && AlignedThroughout(g.k, c, trace)
    ensures EndAlike(g, c, trace, d, c')
  {
    forall q: seq<seq<nat>>, d': Block<Lane> | Executes(IrStep(Text(g)), c', q, d') && AllDone(d') ensures SameEnd(g, d, d') {
      hide Compiled; hide SameBlock; hide RaceFreeThroughout; hide Executes; hide Text; hide AlignedThroughout; hide SameRegisters;
      BlockRunsAlike(g, c, trace, d, c', q, d');
    }
    hide Compiled; hide SameBlock; hide RaceFreeThroughout; hide Executes; hide Text; hide AlignedThroughout;
    BlockFinishes(g, c, trace, d, c');
  }

  // Runs the scheduler. If it completes the block and its execution made aligned
  // accesses only, the compiled lanes end alike.
  method ExecuteBeside(s: CtaScheduler, ghost g: Listing, ghost c': Block<Lane>) returns (verdict: Verdict)
    requires s.Valid() && s.steps == 0 && forall i: nat :: i < |s.states| ==> s.StatusAt(i) == Ready
    requires s.k == g.k && Comparable(g, s.View(), c') && |g.code| == |g.names| > 0
    modifies s.Footprint()
    ensures verdict == Completed ==> s.Valid() && AllDone(s.View())
    ensures verdict == Completed ==>
      exists trace: seq<seq<nat>> :: Executes(PtxStep(g.k), old(s.View()), trace, s.View()) &&
        (AlignedThroughout(g.k, old(s.View()), trace) ==> EndAlike(g, old(s.View()), trace, s.View(), c'))
  {
    ghost var c := s.View();
    verdict := s.ExecuteBlock();
    if verdict == Completed {
      ghost var trace: seq<seq<nat>> :| s.Reached(c, trace);
      ghost var d := s.View();
      assert Executes(PtxStep(g.k), c, trace, d);
      hide *;
      if AlignedThroughout(g.k, c, trace) { BothEnd(g, c, trace, d, c'); }
    }
  }
}

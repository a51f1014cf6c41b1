// The lockstep scheduler of one block (execute_kernel): every live thread that
// is not parked takes one step per round; when all live threads are parked, the
// barrier opens.
module CtaScheduler {
  import opened Machine
  import opened Ptx
  import opened Interp
  import opened Schedule
  import opened Simulation

  const MAX_STEPS: nat := 100_000_000

  datatype Verdict = Completed | StepLimit | EmulationError

  // An execution whose last stretch goes on with `more`.
  function Extended(stretches: seq<seq<nat>>, more: seq<nat>): (longer: seq<seq<nat>>)
    requires stretches != []
    ensures |longer| == |stretches|
  {
    var n := |stretches| - 1;
    stretches[..n] + [stretches[n] + more]
  }

  lemma ExtendedTwice(stretches: seq<seq<nat>>, a: seq<nat>, b: seq<nat>)
    requires stretches != []
    ensures Extended(Extended(stretches, a), b) == Extended(stretches, a + b)
    ensures Extended(stretches, []) == stretches
  {
    var n := |stretches| - 1;
    assert (stretches[n] + a) + b == stretches[n] + (a + b);
    assert Extended(stretches, a)[..n] == stretches[..n];
    assert stretches[n] + [] == stretches[n];
  }

  // The owners below n that can step, in order.
  function ReadyBelow(status: seq<Status>, n: nat): seq<nat>
    requires n <= |status|
  {
    if n == 0 then [] else ReadyBelow(status, n - 1) + (if status[n - 1] == Ready then [n - 1] else [])
  }

  lemma OneMoreBelow(stretches: seq<seq<nat>>, status: seq<Status>, i: nat)
    requires stretches != [] && i < |status|
    ensures var so := ReadyBelow(status, i);
      if status[i] == Ready then
        ReadyBelow(status, i + 1) == so + [i] && Extended(Extended(stretches, so), [i]) == Extended(stretches, so + [i])
      else ReadyBelow(status, i + 1) == so
  {
    ExtendedTwice(stretches, ReadyBelow(status, i), [i]);
  }

  lemma {:induction false} ExecutesFurther<S>(step: Stepper<S>, c: Block<S>, stretches: seq<seq<nat>>, d: Block<S>, i: nat)
    requires Shaped(c) && Executes(step, c, stretches, d) && Shaped(d)
    ensures Executes(step, c, Extended(stretches, [i]), StepOne(step, d, i))
    decreases |stretches|
  {
    var n := |stretches| - 1;
    var longer := Extended(stretches, [i]);
    if n == 0 {
      assert (stretches[0] + [i])[..|stretches[0]|] == stretches[0];
    } else {
      var rest := stretches[1..];
      ExecutesFurther(step, Release(After(step, c, stretches[0])), rest, d, i);
      assert longer[1..] == Extended(rest, [i]);
    }
  }

  lemma {:induction false} ExecutesRelease<S>(step: Stepper<S>, c: Block<S>, stretches: seq<seq<nat>>, d: Block<S>)
    requires Shaped(c) && Executes(step, c, stretches, d) && Shaped(d) && CanRelease(d)
    ensures Executes(step, c, stretches + [[]], Release(d))
    decreases |stretches|
  {
    if |stretches| == 1 {
      assert (stretches + [[]])[1..] == [[]];
      assert After(step, Release(d), []) == Release(d);
    } else {
      ExecutesRelease(step, Release(After(step, c, stretches[0])), stretches[1..], d);
      assert (stretches + [[]])[1..] == stretches[1..] + [[]];
    }
  }

  class CtaScheduler {
    const k: Kernel
    const states: seq<ExecState>
    const mem: Memory
    const alive: array<bool>
    const blocked: array<bool>
    var steps: nat
    // How often each thread has arrived at a barrier, and how often one opened.
    ghost var arrived: seq<nat>
    ghost var phase: nat

    ghost predicate Valid()
      reads this, alive, blocked
    {
      && alive.Length == blocked.Length == |states| == |arrived| && alive != blocked
      && (forall i, j :: 0 <= i < j < |states| ==> states[i] != states[j])
      && (forall i :: 0 <= i < |states| ==> alive[i] ==> arrived[i] == phase + (if blocked[i] then 1 else 0))
    }

    // Every thread that owns a piece of the state may move; nothing else does.
    ghost function Footprint(): set<object> {
      {this, mem, alive, blocked} + set s | s in states
    }

    ghost function StatusAt(i: nat): Status
      requires i < alive.Length && i < blocked.Length
      reads alive, blocked
    {
      if !alive[i] then Done else if blocked[i] then Waiting else Ready
    }

    ghost function View(): (c: Block<Thread>)
      requires alive.Length == blocked.Length == |states|
      reads Footprint()
      ensures Shaped(c)
    {
      Block(seq(|states|, i requires 0 <= i < |states| reads set s | s in states => states[i].View()),
            seq(|states|, i requires 0 <= i < |states| && alive.Length == blocked.Length == |states| reads alive, blocked => StatusAt(i)),
            mem.bytes)
    }

    constructor (k: Kernel, states: seq<ExecState>, mem: Memory)
      requires forall i, j :: 0 <= i < j < |states| ==> states[i] != states[j]
      ensures Valid() && this.k == k && this.states == states && this.mem == mem && steps == 0
      ensures fresh(this) && fresh(alive) && fresh(blocked)
      ensures forall i :: 0 <= i < |states| ==> StatusAt(i) == Ready
    {
      this.k := k;
      this.states := states;
      this.mem := mem;
      alive := new bool[|states|](_ => true);
      blocked := new bool[|states|](_ => false);
      steps := 0;
      arrived := seq(|states|, _ => 0);
      phase := 0;
    }

    // One thread's turn inside a round.
    method StepThread(i: nat) returns (rc: Kind)
      requires Valid() && i < |states| && StatusAt(i) == Ready
      modifies this, mem, alive, blocked, states[i]
      ensures Valid() && steps == old(steps) && phase == old(phase)
      ensures rc == Step(k, old(View()).owners[i], old(mem.bytes)).kind
      ensures rc != Failed ==> View() == StepOne(PtxStep(k), old(View()), i)
    {
      ghost var c := View();
      assert c.owners[i] == states[i].View();
      rc := states[i].RunThreadStep(k, mem);
      if rc == Parked {
        blocked[i] := true;
        arrived := arrived[i := arrived[i] + 1];
      } else if rc == Finished {
        alive[i] := false;
      }
      assert View().owners == c.owners[i := states[i].View()];
      if rc != Failed { assert View().status == c.status[i := StatusOf(rc)]; }
    }

    // All live threads are parked: every one of them has arrived, and goes on.
    method OpenBarrier()
      requires Valid() && forall i: nat :: i < |states| ==> StatusAt(i) != Ready
      modifies this, blocked
      ensures Valid() && steps == old(steps) && phase == old(phase) + 1 && arrived == old(arrived)
      ensures View() == Release(old(View()))
      ensures forall i :: 0 <= i < |states| && alive[i] ==> arrived[i] == phase
    {
      ghost var c := View();
      forall i: nat | i < |states| ensures alive[i] ==> blocked[i] { assert StatusAt(i) != Ready; }
      forall i | 0 <= i < blocked.Length { blocked[i] := false; }
      phase := phase + 1;
      assert View().owners == c.owners && View().status == Release(c).status;
    }

    // The execution so far, from `start`: which threads stepped in which stretch.
    ghost predicate Reached(start: Block<Thread>, trace: seq<seq<nat>>)
      requires Shaped(start) && alive.Length == blocked.Length == |states|
      reads Footprint()
    {
      Executes(PtxStep(k), start, trace, View())
    }

    // A thread met an instruction it could not execute.
    ghost predicate Stuck(start: Block<Thread>)
      requires Shaped(start)
      reads this
    {
      exists trace: seq<seq<nat>>, d: Block<Thread>, i: nat ::
        Shaped(d) && Executes(PtxStep(k), start, trace, d) && i < |d.status| && d.status[i] == Ready
        && Step(k, d.owners[i], d.mem).kind == Failed
    }

    method Turn(ghost start: Block<Thread>, ghost trace0: seq<seq<nat>>, i: nat) returns (rc: Kind, ghost trace: seq<seq<nat>>)
      requires Valid() && Shaped(start) && Reached(start, trace0) && i < |states| && StatusAt(i) == Ready
      modifies Footprint()
      ensures steps == old(steps)
      ensures rc == Failed ==> Stuck(start)
      ensures rc != Failed ==> Valid() && Reached(start, trace) && trace0 != [] && trace == Extended(trace0, [i])
      ensures rc != Failed ==> forall j: nat :: j < |states| && j != i ==> StatusAt(j) == old(StatusAt(j))
    {
      ghost var c := View();
      trace := trace0;
      assert Executes(PtxStep(k), start, trace, c) && c.status[i] == Ready;
      rc := StepThread(i);
      if rc != Failed {
        ExecutesFurther(PtxStep(k), start, trace, c, i);
        trace := Extended(trace, [i]);
        ghost var d := View();
        OthersKeep(c, d, i);
        forall j: nat | j < |states| && j != i ensures StatusAt(j) == old(StatusAt(j)) {
          assert d.status[j] == StatusAt(j) && c.status[j] == old(StatusAt(j));
        }
      }
    }

    // What a round does for thread i: a turn if it can step, nothing otherwise.
    method MaybeTurn(ghost start: Block<Thread>, ghost trace0: seq<seq<nat>>, i: nat)
      returns (verdict: Verdict, acted: bool, ghost trace: seq<seq<nat>>)
      requires Valid() && Shaped(start) && Reached(start, trace0) && i < |states| && steps <= MAX_STEPS
      modifies Footprint()
      ensures acted <==> old(StatusAt(i)) == Ready
      ensures verdict == Completed ==> Valid() && steps <= MAX_STEPS && Reached(start, trace)
      ensures verdict == Completed ==> steps == old(steps) + (if acted then 1 else 0)
      ensures verdict == Completed ==> trace0 != [] && trace == if acted then Extended(trace0, [i]) else trace0
      ensures verdict == Completed ==> forall j: nat :: j < |states| && j != i ==> StatusAt(j) == old(StatusAt(j))
      ensures verdict == Completed && !acted ==> View() == old(View())
      ensures verdict == StepLimit ==> steps == MAX_STEPS + 1
      ensures verdict == EmulationError ==> Stuck(start)
    {
      ghost var c := View();
      acted, trace := false, trace0;
      assert Executes(PtxStep(k), start, trace0, c);
      if alive[i] && !blocked[i] {
        acted := true;
        steps := steps + 1;
        assert View().owners == c.owners && View().status == c.status;
        if steps > MAX_STEPS { return StepLimit, acted, trace; }
        var rc;
        rc, trace := Turn(start, trace, i);
        if rc == Failed { return EmulationError, acted, trace; }
      }
      return Completed, acted, trace;
    }

    // One round: each thread that could step when it began steps exactly once,
    // in order, and nobody else does.
    method Round(ghost start: Block<Thread>, ghost trace0: seq<seq<nat>>)
      returns (verdict: Verdict, anyAlive: bool, ghost trace: seq<seq<nat>>)
      requires Valid() && Shaped(start) && Reached(start, trace0) && steps <= MAX_STEPS
      modifies Footprint()
      ensures verdict == Completed ==> Valid() && steps <= MAX_STEPS && Reached(start, trace)
      ensures verdict == Completed ==> trace0 != [] && trace == Extended(trace0, ReadyBelow(old(View()).status, |states|))
      ensures verdict == Completed ==> steps == old(steps) + |ReadyBelow(old(View()).status, |states|)|
      ensures verdict == Completed ==> (anyAlive <==> old(exists i: nat :: i < |states| && StatusAt(i) == Ready))
      ensures verdict == Completed && anyAlive ==> steps > old(steps)
      ensures verdict == Completed && !anyAlive ==> View() == old(View()) && trace == trace0
      ensures verdict == StepLimit ==> steps == MAX_STEPS + 1
      ensures verdict == EmulationError ==> Stuck(start)
    {
      anyAlive, trace := false, trace0;
      ghost var status := View().status;
      NonEmpty(start, trace0);
      ExtendedTwice(trace0, [], []);
      assert ReadyBelow(status, 0) == [];
      hide ReadyBelow; hide Extended; hide Reached; hide Valid; hide Stuck;
      var i := 0;
      while i < |states|
        invariant i <= |states| && Valid() && Reached(start, trace) && old(steps) <= steps <= MAX_STEPS
        invariant trace == Extended(trace0, ReadyBelow(status, i)) && steps == old(steps) + |ReadyBelow(status, i)|
        invariant forall j: nat :: i <= j < |states| ==> StatusAt(j) == old(StatusAt(j))
        invariant anyAlive <==> old(exists j: nat :: j < i && j < |states| && StatusAt(j) == Ready)
        invariant if anyAlive then steps > old(steps) else View() == old(View()) && trace == trace0
      {
        assert status[i] == old(StatusAt(i)) == StatusAt(i);
        OneMoreBelow(trace0, status, i);
        var acted;
        verdict, acted, trace := MaybeTurn(start, trace, i);
        if verdict != Completed { return; }
        anyAlive := anyAlive || acted;
        i := i + 1;
      }
      return Completed, anyAlive, trace;
    }

    lemma NonEmpty(start: Block<Thread>, trace: seq<seq<nat>>)
      requires Valid() && Shaped(start) && Reached(start, trace)
      ensures trace != []
    { }

    lemma OthersKeep(c: Block<Thread>, d: Block<Thread>, i: nat)
      requires Shaped(c) && Shaped(d) && i < |c.status| && d == StepOne(PtxStep(k), c, i)
      ensures forall j: nat :: j < |c.status| && j != i ==> d.status[j] == c.status[j]
    { }

    // No live thread is short of the barrier.
    method AllBlocked() returns (allBlocked: bool)
      requires Valid()
      ensures allBlocked <==> forall i: nat :: i < |states| ==> StatusAt(i) != Ready
    {
      allBlocked := true;
      for i := 0 to |states|
        invariant allBlocked ==> forall j: nat :: j < i ==> StatusAt(j) != Ready
        invariant !allBlocked ==> exists j: nat :: j < i && StatusAt(j) == Ready
      {
        if alive[i] && !blocked[i] { allBlocked := false; assert StatusAt(i) == Ready; }
      }
    }

    // If somebody waits, somebody can step.
    ghost predicate Moving()
      requires alive.Length == blocked.Length == |states|
      reads this, alive, blocked
    {
      (exists i: nat :: i < |states| && StatusAt(i) == Waiting) ==> exists i: nat :: i < |states| && StatusAt(i) == Ready
    }

    // Open the barrier if it holds up every live thread.
    method OpenIfAllBlocked(ghost start: Block<Thread>, ghost trace0: seq<seq<nat>>) returns (ghost trace: seq<seq<nat>>)
      requires Valid() && Shaped(start) && Reached(start, trace0)
      modifies this, blocked
      ensures Valid() && steps == old(steps) && Reached(start, trace) && Moving()
    {
      trace := trace0;
      ghost var c := View();
      var allBlocked := AllBlocked();
      assert View() == c;
      if allBlocked {
        OpenBarrier();
        assert View() == Release(c);
        if i: nat :| i < |c.status| && c.status[i] == Waiting {
          SettledView(c);
          ExecutesRelease(PtxStep(k), start, trace, c);
          trace := trace + [[]];
          assert View().status[i] == Ready && StatusAt(i) == Ready;
        } else {
          assert Release(c).status == c.status && Release(c) == c;
          assert Executes(PtxStep(k), start, trace, c);
          forall i: nat | i < |states| ensures StatusAt(i) != Waiting { assert View().status[i] == c.status[i]; }
        }
      }
    }

    // Runs the block to its end. Completed means that every thread has finished
    // (none is left at a barrier) and that the result is that of an execution.
    method ExecuteBlock() returns (verdict: Verdict)
      requires Valid() && steps == 0 && forall i: nat :: i < |states| ==> StatusAt(i) == Ready
      modifies Footprint()
      ensures verdict == Completed ==> Valid() && AllDone(View())
      ensures verdict == Completed ==> exists trace: seq<seq<nat>> :: Reached(old(View()), trace)
      ensures verdict == StepLimit ==> steps == 100_000_001
      ensures verdict == EmulationError ==> Stuck(old(View()))
    {
      ghost var start := View();
      ghost var trace: seq<seq<nat>> := [[]];
      while true
        invariant Valid() && Reached(start, trace) && steps <= MAX_STEPS && Moving()
        decreases MAX_STEPS - steps
      {
        var anyAlive;
        ghost var before := View();
        assert forall i: nat :: i < |states| ==> before.status[i] == StatusAt(i);
        verdict, anyAlive, trace := Round(start, trace);
        if verdict != Completed { return; }
        if !anyAlive {
          assert View() == before && forall i: nat :: i < |states| ==> before.status[i] == Done;
          return;
        }
        trace := OpenIfAllBlocked(start, trace);
      }
    }

    lemma SettledView(c: Block<Thread>)
      requires forall i: nat :: i < |c.status| ==> c.status[i] != Ready && c.status[i] != Broken
      ensures Settled(c)
    { }
  }
}

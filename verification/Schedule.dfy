// A block of owners (interpreter threads, or compiled lanes on operating-system
// threads) over one memory, stepped in any order between block barriers. If no
// owner touches, between two barriers, a byte that another one writes, the order
// does not matter.
module Schedule {
  import opened Words
  import opened Machine

  datatype Status = Ready | Waiting | Done | Broken
  datatype Block<S> = Block(owners: seq<S>, status: seq<Status>, mem: Mem)

  function StatusOf(kind: Kind): Status {
    match kind case Advanced => Ready case Parked => Waiting case Finished => Done case Failed => Broken
  }

  predicate Shaped<S>(c: Block<S>) { |c.owners| == |c.status| }

  // One step of owner i; an owner that cannot step leaves everything as it is.
  function StepOne<S>(step: Stepper<S>, c: Block<S>, i: nat): (d: Block<S>)
    requires Shaped(c)
    ensures Shaped(d) && |d.owners| == |c.owners|
  {
    if i < |c.status| && c.status[i] == Ready then
      var e := step(c.owners[i], c.mem);
      Block(c.owners[i := e.s], c.status[i := StatusOf(e.kind)], c.mem + e.writes)
    else c
  }

  // The steps of one stretch without barrier release, in the given order.
  function After<S>(step: Stepper<S>, c: Block<S>, order: seq<nat>): (d: Block<S>)
    requires Shaped(c)
    ensures Shaped(d) && |d.owners| == |c.owners|
  {
    if order == [] then c
    else StepOne(step, After(step, c, order[..|order| - 1]), order[|order| - 1])
  }

  predicate Settled<S>(c: Block<S>) { Ready !in c.status && Broken !in c.status }
  predicate AllDone<S>(c: Block<S>) { forall i :: 0 <= i < |c.status| ==> c.status[i] == Done }

  // The barrier opens when every live owner has arrived at it.
  predicate CanRelease<S>(c: Block<S>) { Settled(c) && Waiting in c.status }

  function Release<S>(c: Block<S>): (d: Block<S>)
    requires Shaped(c)
    ensures Shaped(d)
  {
    Block(c.owners, seq(|c.status|, i requires 0 <= i < |c.status| => if c.status[i] == Waiting then Ready else c.status[i]), c.mem)
  }

  // An execution: stretches of steps with a release between each two.
  ghost predicate Executes<S>(step: Stepper<S>, c: Block<S>, stretches: seq<seq<nat>>, d: Block<S>)
    requires Shaped(c)
    decreases |stretches|
  {
    stretches != [] &&
    var e := After(step, c, stretches[0]);
    if |stretches| == 1 then d == e else CanRelease(e) && Executes(step, Release(e), stretches[1..], d)
  }

  // ---- what a step depends on ------------------------------------------------------

  predicate Agree(m: Mem, m': Mem, on: set<Word>) {
    forall a :: a in on ==> (a in m <==> a in m') && (a in m ==> m[a] == m'[a])
  }

  // A step looks at no byte outside the ones it says it saw.
  ghost predicate Local<S(!new)>(step: Stepper<S>) {
    forall s: S, m: Mem, m': Mem :: Agree(m, m', step(s, m).sees) ==> step(s, m') == step(s, m)
  }

  lemma LocalStep<S(!new)>(step: Stepper<S>, s: S, m: Mem, m': Mem)
    requires Local(step) && Agree(m, m', step(s, m).sees)
    ensures step(s, m') == step(s, m)
  { }

  // Owner i alone, from the start of the stretch.
  function Solo<S>(step: Stepper<S>, c: Block<S>, i: nat, n: nat): Effect<S>
    requires i < |c.owners|
  {
    Run(step, c.owners[i], c.mem, n)
  }

  predicate Apart<S, T>(a: Effect<S>, b: Effect<T>) { a.writes.Keys !! b.sees && a.writes.Keys !! b.writes.Keys }

  // Left alone, no owner would write a byte that another one reads or writes
  // before the next barrier.
  ghost predicate RaceFree<S>(step: Stepper<S>, c: Block<S>)
    requires Shaped(c)
  {
    forall i: nat, j: nat, n: nat, p: nat :: i < |c.status| && j < |c.status| && i != j && c.status[i] == Ready == c.status[j] ==>
      Apart(Solo(step, c, i, n), Solo(step, c, j, p))
  }

  // Every stretch that some execution reaches is race free.
  ghost predicate RaceFreeThroughout<S(!new)>(step: Stepper<S>, c: Block<S>)
    requires Shaped(c)
  {
    RaceFree(step, c) &&
    forall stretches: seq<seq<nat>>, d: Block<S> :: Executes(step, c, stretches, d) && CanRelease(d) && Shaped(d) ==>
      RaceFree(step, Release(d))
  }

  // ---- inside one stretch -----------------------------------------------------------

  // What owner i has written after counts[i] steps of its own.
  function Written<S>(step: Stepper<S>, c: Block<S>, counts: seq<nat>, i: nat): Mem
    requires Shaped(c) && i < |c.status| == |counts|
  {
    if c.status[i] == Ready then Solo(step, c, i, counts[i]).writes else map[]
  }

  predicate OwnerAt<S(==)>(step: Stepper<S>, c: Block<S>, d: Block<S>, counts: seq<nat>, i: nat)
    requires Shaped(c) && Shaped(d) && i < |c.status| == |counts| == |d.status|
  {
    if c.status[i] == Ready then
      d.owners[i] == Solo(step, c, i, counts[i]).s && d.status[i] == StatusOf(Solo(step, c, i, counts[i]).kind)
    else d.owners[i] == c.owners[i] && d.status[i] == c.status[i]
  }

  // Byte a holds what its only writer put there, or what it held at the start.
  ghost predicate ByteAt<S>(step: Stepper<S>, c: Block<S>, d: Block<S>, counts: seq<nat>, a: Word)
    requires Shaped(c) && |c.status| == |counts|
  {
    (forall i: nat :: i < |counts| && a in Written(step, c, counts, i) ==> a in d.mem && d.mem[a] == Written(step, c, counts, i)[a]) &&
    ((forall i: nat :: i < |counts| ==> a !in Written(step, c, counts, i)) ==> Agree(c.mem, d.mem, {a}))
  }

  // The block looks as if every owner had run alone.
  ghost predicate AsIfAlone<S>(step: Stepper<S>, c: Block<S>, d: Block<S>, counts: seq<nat>) {
    && Shaped(c) && Shaped(d) && |d.status| == |c.status| == |counts|
    && (forall i: nat :: i < |counts| ==> OwnerAt(step, c, d, counts, i))
    && (forall a: Word :: ByteAt(step, c, d, counts, a))
  }

  lemma SoloMore<S>(step: Stepper<S>, c: Block<S>, i: nat, n: nat)
    requires i < |c.owners|
    ensures var e := Solo(step, c, i, n);
      Solo(step, c, i, n + 1) == if e.kind != Advanced then e else Joined(e, step(e.s, c.mem + e.writes))
  {
    var e := Solo(step, c, i, n);
    RunAppend(step, c.owners[i], c.mem, n, 1);
    var f := step(e.s, c.mem + e.writes);
    JoinedQuiet(f.s, f);
    assert Run(step, e.s, c.mem + e.writes, 1) == f by {
      if f.kind == Advanced { assert Run(step, f.s, c.mem + e.writes + f.writes, 0) == Quiet(Advanced, f.s); }
    }
  }

  // The memory owner i would see alone agrees with the real one where it looks.
  lemma SameView<S>(step: Stepper<S>, c: Block<S>, d: Block<S>, counts: seq<nat>, i: nat)
    requires AsIfAlone(step, c, d, counts) && RaceFree(step, c)
    requires i < |counts| && c.status[i] == Ready && Solo(step, c, i, counts[i]).kind == Advanced
    ensures var e := Solo(step, c, i, counts[i]);
      Agree(c.mem + e.writes, d.mem, step(e.s, c.mem + e.writes).sees)
  {
    var e := Solo(step, c, i, counts[i]);
    var f := step(e.s, c.mem + e.writes);
    SoloMore(step, c, i, counts[i]);
    forall a | a in f.sees
      ensures (a in c.mem + e.writes <==> a in d.mem) && (a in d.mem ==> (c.mem + e.writes)[a] == d.mem[a])
    {
      assert ByteAt(step, c, d, counts, a);
      forall j: nat | j < |counts| && j != i ensures a !in Written(step, c, counts, j) {
        if c.status[j] == Ready {
          assert Apart(Solo(step, c, j, counts[j]), Solo(step, c, i, counts[i] + 1));
          assert a in Solo(step, c, i, counts[i] + 1).sees;
        }
      }
      if a in e.writes { assert a in Written(step, c, counts, i); }
    }
  }

  // One more step anywhere keeps the picture.
  lemma StepKeeps<S(!new)>(step: Stepper<S>, c: Block<S>, d: Block<S>, counts: seq<nat>, i: nat) returns (counts': seq<nat>)
    requires Local(step) && AsIfAlone(step, c, d, counts) && RaceFree(step, c)
    ensures AsIfAlone(step, c, StepOne(step, d, i), counts')
    ensures counts' == if i < |d.status| && d.status[i] == Ready then counts[i := counts[i] + 1] else counts
  {
    counts' := counts;
    if i < |d.status| && d.status[i] == Ready {
      assert OwnerAt(step, c, d, counts, i);
      var e := Solo(step, c, i, counts[i]);
      assert c.status[i] == Ready && e.kind == Advanced;
      var f := step(e.s, c.mem + e.writes);
      SameView(step, c, d, counts, i);
      LocalStep(step, e.s, c.mem + e.writes, d.mem);
      SoloMore(step, c, i, counts[i]);
      counts' := counts[i := counts[i] + 1];
      StepKeepsOwners(step, c, d, counts, i, f, StepOne(step, d, i), counts');
      forall a: Word ensures ByteAt(step, c, StepOne(step, d, i), counts', a) { StepKeepsByte(step, c, d, counts, i, f, a); }
    }
  }

  lemma StepKeepsOwners<S>(step: Stepper<S>, c: Block<S>, d: Block<S>, counts: seq<nat>, i: nat, f: Effect<S>,
                            d': Block<S>, counts': seq<nat>)
    requires AsIfAlone(step, c, d, counts) && i < |counts| && c.status[i] == Ready == d.status[i]
    requires f == step(d.owners[i], d.mem) && Solo(step, c, i, counts[i] + 1) == Joined(Solo(step, c, i, counts[i]), f)
    requires d' == StepOne(step, d, i) && counts' == counts[i := counts[i] + 1]
    ensures forall j: nat :: j < |counts| ==> OwnerAt(step, c, d', counts', j)
  {
    forall j: nat | j < |counts| ensures OwnerAt(step, c, d', counts', j) {
      assert OwnerAt(step, c, d, counts, j);
    }
  }

  lemma StepKeepsByte<S>(step: Stepper<S>, c: Block<S>, d: Block<S>, counts: seq<nat>, i: nat, f: Effect<S>, a: Word)
    requires AsIfAlone(step, c, d, counts) && RaceFree(step, c) && i < |counts| && c.status[i] == Ready == d.status[i]
    requires f == step(d.owners[i], d.mem) && Solo(step, c, i, counts[i] + 1) == Joined(Solo(step, c, i, counts[i]), f)
    ensures ByteAt(step, c, StepOne(step, d, i), counts[i := counts[i] + 1], a)
  {
    var counts' := counts[i := counts[i] + 1];
    assert ByteAt(step, c, d, counts, a);
    assert Written(step, c, counts', i) == Written(step, c, counts, i) + f.writes;
    forall j: nat | j < |counts| && j != i
      ensures Written(step, c, counts', j) == Written(step, c, counts, j)
      ensures !(a in Written(step, c, counts, j) && a in f.writes)
    {
      if c.status[j] == Ready { assert Apart(Solo(step, c, i, counts'[i]), Solo(step, c, j, counts[j])); }
    }
    if a !in f.writes {
      forall j: nat | j < |counts| ensures a in Written(step, c, counts', j) <==> a in Written(step, c, counts, j) { }
    }
  }

  lemma StartAlone<S>(step: Stepper<S>, c: Block<S>)
    requires Shaped(c)
    ensures AsIfAlone(step, c, c, seq(|c.status|, _ => 0))
  {
    var counts := seq(|c.status|, _ => 0);
    forall i: nat | i < |counts| ensures OwnerAt(step, c, c, counts, i) && Written(step, c, counts, i) == map[] { }
    forall a: Word ensures ByteAt(step, c, c, counts, a) { }
  }

  // In every order, at every moment of a stretch, the block looks as if each
  // owner had run alone for some number of steps.
  lemma {:induction false} AloneAfter<S(!new)>(step: Stepper<S>, c: Block<S>, order: seq<nat>) returns (counts: seq<nat>)
    requires Shaped(c) && Local(step) && RaceFree(step, c)
    ensures AsIfAlone(step, c, After(step, c, order), counts)
  {
    if order == [] {
      StartAlone(step, c);
      counts := seq(|c.status|, _ => 0);
    } else {
      var n := |order| - 1;
      var counts0 := AloneAfter(step, c, order[..n]);
      counts := StepKeeps(step, c, After(step, c, order[..n]), counts0, order[n]);
    }
  }

  // ---- the end of a stretch ------------------------------------------------------------

  lemma RunStops<S>(step: Stepper<S>, s: S, m: Mem, a: nat, b: nat)
    requires Run(step, s, m, a).kind != Advanced && Run(step, s, m, b).kind != Advanced
    ensures Run(step, s, m, a) == Run(step, s, m, b)
  {
    if a <= b { RunAppend(step, s, m, a, b - a); } else { RunAppend(step, s, m, b, a - b); }
  }

  lemma SameOwners<S>(step: Stepper<S>, c: Block<S>, d: Block<S>, ds: seq<nat>, e: Block<S>, es: seq<nat>, i: nat)
    requires AsIfAlone(step, c, d, ds) && AsIfAlone(step, c, e, es) && Settled(d) && Settled(e) && i < |ds|
    ensures d.owners[i] == e.owners[i] && d.status[i] == e.status[i]
    ensures Written(step, c, ds, i) == Written(step, c, es, i)
  {
    assert OwnerAt(step, c, d, ds, i) && OwnerAt(step, c, e, es, i);
    if c.status[i] == Ready {
      assert d.status[i] != Ready && e.status[i] != Ready;
      RunStops(step, c.owners[i], c.mem, ds[i], es[i]);
    }
  }

  lemma SameBytes(m: Mem, m': Mem)
    requires forall a: Word :: (a in m <==> a in m') && (a in m ==> m[a] == m'[a])
    ensures m == m'
  {
    assert m.Keys == m'.Keys;
  }

  // Two settled ends of the same race-free stretch are the same block.
  lemma SettledSame<S>(step: Stepper<S>, c: Block<S>, d: Block<S>, ds: seq<nat>, e: Block<S>, es: seq<nat>)
    requires AsIfAlone(step, c, d, ds) && AsIfAlone(step, c, e, es) && Settled(d) && Settled(e)
    ensures d == e
  {
    forall i: nat | i < |ds|
      ensures d.owners[i] == e.owners[i] && d.status[i] == e.status[i] && Written(step, c, ds, i) == Written(step, c, es, i)
    {
      SameOwners(step, c, d, ds, e, es, i);
    }
    assert d.owners == e.owners && d.status == e.status;
    forall a: Word ensures (a in d.mem <==> a in e.mem) && (a in d.mem ==> d.mem[a] == e.mem[a]) {
      assert ByteAt(step, c, d, ds, a) && ByteAt(step, c, e, es, a);
      if i: nat :| i < |ds| && a in Written(step, c, ds, i) {
        assert a in Written(step, c, es, i);
      }
    }
    SameBytes(d.mem, e.mem);
  }

  lemma StretchesSame<S(!new)>(step: Stepper<S>, c: Block<S>, p: seq<nat>, q: seq<nat>)
    requires Shaped(c) && Local(step) && RaceFree(step, c)
    requires Settled(After(step, c, p)) && Settled(After(step, c, q))
    ensures After(step, c, p) == After(step, c, q)
  {
    var ds := AloneAfter(step, c, p);
    var es := AloneAfter(step, c, q);
    SettledSame(step, c, After(step, c, p), ds, After(step, c, q), es);
  }

  // ---- whole executions ---------------------------------------------------------------------

  lemma Later<S(!new)>(step: Stepper<S>, c: Block<S>, p: seq<nat>)
    requires Shaped(c) && RaceFreeThroughout(step, c) && CanRelease(After(step, c, p))
    ensures RaceFreeThroughout(step, Release(After(step, c, p)))
  {
    var e := After(step, c, p);
    assert Executes(step, c, [p], e);
    forall stretches: seq<seq<nat>>, d: Block<S> | Executes(step, Release(e), stretches, d) && CanRelease(d) && Shaped(d)
      ensures RaceFree(step, Release(d))
    {
      assert ([p] + stretches)[1..] == stretches;
      assert Executes(step, c, [p] + stretches, d);
    }
  }

  lemma DoneSettled<S>(c: Block<S>)
    requires AllDone(c)
    ensures Settled(c) && !CanRelease(c)
  { }

  // Schedule independence: all executions that run to completion, in whatever
  // order their steps are taken, end with the same owners and the same memory.
  lemma {:induction false} OrderIrrelevant<S(!new)>(step: Stepper<S>, c: Block<S>, p: seq<seq<nat>>, d: Block<S>, q: seq<seq<nat>>, e: Block<S>)
    requires Shaped(c) && Local(step) && RaceFreeThroughout(step, c)
    requires Executes(step, c, p, d) && Executes(step, c, q, e) && AllDone(d) && AllDone(e)
    ensures d == e && |p| == |q|
    decreases |p|
  {
    var d0, e0 := After(step, c, p[0]), After(step, c, q[0]);
    if |p| == 1 { DoneSettled(d0); }
    if |q| == 1 { DoneSettled(e0); }
    StretchesSame(step, c, p[0], q[0]);
    if |p| > 1 && |q| > 1 {
      Later(step, c, p[0]);
      OrderIrrelevant(step, Release(d0), p[1..], d, q[1..], e);
    }
  }

  // If one order settles, then no order breaks an owner on the way.
  lemma NeverBroken<S(!new)>(step: Stepper<S>, c: Block<S>, p: seq<nat>, q: seq<nat>)
    requires Shaped(c) && Local(step) && RaceFree(step, c) && Settled(After(step, c, p))
    ensures Broken !in After(step, c, q).status
  {
    var d, e := After(step, c, p), After(step, c, q);
    var ds := AloneAfter(step, c, p);
    var es := AloneAfter(step, c, q);
    forall i: nat | i < |e.status| ensures e.status[i] != Broken {
      assert OwnerAt(step, c, d, ds, i) && OwnerAt(step, c, e, es, i);
      assert d.status[i] != Ready && d.status[i] != Broken;
      if c.status[i] == Ready && e.status[i] == Broken { RunStops(step, c.owners[i], c.mem, ds[i], es[i]); }
    }
  }

  // ---- a barrier of operating-system threads ---------------------------------------------

  // pthread_barrier_wait, initialised with the number of threads, counts every
  // owner in: one that has finished never arrives.
  predicate AllArrived<S>(c: Block<S>) { |c.status| > 0 && forall i :: 0 <= i < |c.status| ==> c.status[i] == Waiting }

  // An execution under that barrier.
  ghost predicate HostExecutes<S>(step: Stepper<S>, c: Block<S>, stretches: seq<seq<nat>>, d: Block<S>)
    requires Shaped(c)
    decreases |stretches|
  {
    stretches != [] &&
    var e := After(step, c, stretches[0]);
    if |stretches| == 1 then d == e else AllArrived(e) && HostExecutes(step, Release(e), stretches[1..], d)
  }

  lemma ArrivedCanRelease<S>(c: Block<S>)
    requires AllArrived(c)
    ensures CanRelease(c)
  {
    assert c.status[0] == Waiting;
  }

  // The interpreter's barrier lets everything through that this one does.
  lemma {:induction false} HostIsExecution<S>(step: Stepper<S>, c: Block<S>, stretches: seq<seq<nat>>, d: Block<S>)
    requires Shaped(c) && HostExecutes(step, c, stretches, d)
    ensures Executes(step, c, stretches, d)
    decreases |stretches|
  {
    var e := After(step, c, stretches[0]);
    if |stretches| > 1 {
      ArrivedCanRelease(e);
      HostIsExecution(step, Release(e), stretches[1..], d);
    }
  }

  // The block at the end of stretch k.
  function EndOf<S>(step: Stepper<S>, c: Block<S>, stretches: seq<seq<nat>>, k: nat): (d: Block<S>)
    requires Shaped(c) && k < |stretches|
    ensures Shaped(d)
    decreases k
  {
    var e := After(step, c, stretches[0]);
    if k == 0 then e else EndOf(step, Release(e), stretches[1..], k - 1)
  }

  // Whenever the barrier opens, nobody has finished yet.
  ghost predicate NobodyLeft<S>(step: Stepper<S>, c: Block<S>, stretches: seq<seq<nat>>)
    requires Shaped(c)
  {
    forall k: nat :: k + 1 < |stretches| ==> Done !in EndOf(step, c, stretches, k).status
  }

  lemma NobodyLeftRest<S>(step: Stepper<S>, c: Block<S>, stretches: seq<seq<nat>>)
    requires Shaped(c) && |stretches| > 1
    ensures NobodyLeft(step, c, stretches) <==>
            Done !in After(step, c, stretches[0]).status && NobodyLeft(step, Release(After(step, c, stretches[0])), stretches[1..])
  {
    var e := After(step, c, stretches[0]);
    var rest := stretches[1..];
    assert EndOf(step, c, stretches, 0) == e;
    forall k: nat | k + 1 < |rest| ensures EndOf(step, Release(e), rest, k) == EndOf(step, c, stretches, k + 1) { }
    if NobodyLeft(step, c, stretches) {
      forall k: nat | k + 1 < |rest| ensures Done !in EndOf(step, Release(e), rest, k).status {
        assert Done !in EndOf(step, c, stretches, k + 1).status;
      }
    }
    if Done !in e.status && NobodyLeft(step, Release(e), rest) {
      forall k: nat | k + 1 < |stretches| ensures Done !in EndOf(step, c, stretches, k).status {
        if k > 0 { assert Done !in EndOf(step, Release(e), rest, k - 1).status; }
      }
    }
  }

  lemma EverybodyThere<S>(c: Block<S>)
    requires Settled(c)
    ensures Done !in c.status && Waiting in c.status <==> AllArrived(c)
  {
    if AllArrived(c) { ArrivedCanRelease(c); }
    if Done !in c.status && Waiting in c.status {
      forall i | 0 <= i < |c.status| ensures c.status[i] == Waiting { assert c.status[i] in c.status; }
    }
  }

  // ---- executions of a guarded machine ---------------------------------------------------------

  predicate FineNext<S>(fine: S -> bool, c: Block<S>, i: nat)
    requires Shaped(c)
  {
    i < |c.status| && c.status[i] == Ready ==> fine(c.owners[i])
  }

  // Every step of the stretch starts in a fine state.
  predicate FineAfter<S>(step: Stepper<S>, fine: S -> bool, c: Block<S>, order: seq<nat>)
    requires Shaped(c)
  {
    order == [] ||
    var n := |order| - 1;
    FineAfter(step, fine, c, order[..n]) && FineNext(fine, After(step, c, order[..n]), order[n])
  }

  // And of the execution.
  predicate FineThroughout<S>(step: Stepper<S>, fine: S -> bool, c: Block<S>, stretches: seq<seq<nat>>)
    requires Shaped(c)
    decreases |stretches|
  {
    stretches == [] ||
    (FineAfter(step, fine, c, stretches[0]) && FineThroughout(step, fine, Release(After(step, c, stretches[0])), stretches[1..]))
  }

  lemma {:induction false} GuardedAfter<S>(step: Stepper<S>, fine: S -> bool, c: Block<S>, order: seq<nat>)
    requires Shaped(c) && FineAfter(step, fine, c, order)
    ensures After(Guarded(step, fine), c, order) == After(step, c, order)
  {
    if order != [] { GuardedAfter(step, fine, c, order[..|order| - 1]); }
  }

  lemma {:induction false} GuardedExecutes<S>(step: Stepper<S>, fine: S -> bool, c: Block<S>, stretches: seq<seq<nat>>, d: Block<S>)
    requires Shaped(c) && FineThroughout(step, fine, c, stretches) && Executes(step, c, stretches, d)
    ensures Executes(Guarded(step, fine), c, stretches, d)
    ensures NobodyLeft(Guarded(step, fine), c, stretches) <==> NobodyLeft(step, c, stretches)
    decreases |stretches|
  {
    var e := After(step, c, stretches[0]);
    GuardedAfter(step, fine, c, stretches[0]);
    if |stretches| > 1 {
      GuardedExecutes(step, fine, Release(e), stretches[1..], d);
      NobodyLeftRest(step, c, stretches);
      NobodyLeftRest(Guarded(step, fine), c, stretches);
    }
  }

  lemma UnfineBreaks<S>(step: Stepper<S>, fine: S -> bool, d: Block<S>, i: nat)
    requires Shaped(d) && i < |d.status| && d.status[i] == Ready && !fine(d.owners[i])
    ensures Broken in StepOne(Guarded(step, fine), d, i).status
  {
    GuardedFails(step, fine, d.owners[i], d.mem);
    assert StepOne(Guarded(step, fine), d, i).status[i] == Broken;
  }

  // A stretch of the guarded machine that fails nowhere is one of the machine.
  lemma {:induction false} UnguardedAfter<S>(step: Stepper<S>, fine: S -> bool, c: Block<S>, order: seq<nat>)
    requires Shaped(c) && Broken !in After(Guarded(step, fine), c, order).status
    ensures After(Guarded(step, fine), c, order) == After(step, c, order)
  {
    if order != [] {
      var n := |order| - 1;
      var d, e := After(Guarded(step, fine), c, order[..n]), After(Guarded(step, fine), c, order);
      forall i | 0 <= i < |d.status| ensures d.status[i] != Broken {
        assert e.status[i] in e.status;
      }
      UnguardedAfter(step, fine, c, order[..n]);
      if order[n] < |d.status| && d.status[order[n]] == Ready && !fine(d.owners[order[n]]) {
        UnfineBreaks(step, fine, d, order[n]);
      }
    }
  }

  lemma {:induction false} UnguardedExecutes<S>(step: Stepper<S>, fine: S -> bool, c: Block<S>, stretches: seq<seq<nat>>, d: Block<S>)
    requires Shaped(c) && Executes(Guarded(step, fine), c, stretches, d) && CanRelease(d)
    ensures Executes(step, c, stretches, d)
    decreases |stretches|
  {
    UnguardedAfter(step, fine, c, stretches[0]);
    if |stretches| > 1 { UnguardedExecutes(step, fine, Release(After(step, c, stretches[0])), stretches[1..], d); }
  }

  lemma GuardedRaceFree<S>(step: Stepper<S>, fine: S -> bool, c: Block<S>)
    requires Shaped(c) && RaceFree(step, c)
    ensures RaceFree(Guarded(step, fine), c)
  {
    forall i: nat, j: nat, n: nat, p: nat | i < |c.status| && j < |c.status| && i != j && c.status[i] == Ready == c.status[j]
      ensures Apart(Solo(Guarded(step, fine), c, i, n), Solo(Guarded(step, fine), c, j, p))
    {
      var n' := GuardedTouches(step, fine, c.owners[i], c.mem, n);
      var p' := GuardedTouches(step, fine, c.owners[j], c.mem, p);
      assert Apart(Solo(step, c, i, n'), Solo(step, c, j, p'));
    }
  }

  lemma GuardedRaceFreeThroughout<S(!new)>(step: Stepper<S>, fine: S -> bool, c: Block<S>)
    requires Shaped(c) && RaceFreeThroughout(step, c)
    ensures RaceFreeThroughout(Guarded(step, fine), c)
  {
    GuardedRaceFree(step, fine, c);
    forall stretches: seq<seq<nat>>, d: Block<S> | Executes(Guarded(step, fine), c, stretches, d) && CanRelease(d) && Shaped(d)
      ensures RaceFree(Guarded(step, fine), Release(d))
    {
      UnguardedExecutes(step, fine, c, stretches, d);
      GuardedRaceFree(step, fine, Release(d));
    }
  }
}

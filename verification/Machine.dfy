// What both executions share: byte memory, and a machine that moves one owner
// (an interpreter thread or a compiled lane) by one step at a time.
module Machine {
  import opened Words

  type Byte = x: nat | x < 256
  type Mem = map<Word, Byte>

  datatype Kind = Advanced | Parked | Finished | Failed

  // Everything one step does: where the owner stands afterwards, which bytes it
  // read and which it wrote.
  datatype Effect<S> = Effect(kind: Kind, s: S, sees: set<Word>, writes: Mem)

  function Quiet<S>(kind: Kind, s: S): Effect<S> { Effect(kind, s, {}, map[]) }

  // b after a.
  function Joined<S>(a: Effect<S>, b: Effect<S>): Effect<S> {
    Effect(b.kind, b.s, a.sees + b.sees, a.writes + b.writes)
  }

  lemma JoinedAssoc<S>(a: Effect<S>, b: Effect<S>, c: Effect<S>)
    ensures Joined(a, Joined(b, c)) == Joined(Joined(a, b), c)
  {
    assert a.sees + (b.sees + c.sees) == (a.sees + b.sees) + c.sees;
    assert a.writes + (b.writes + c.writes) == (a.writes + b.writes) + c.writes;
  }

  lemma JoinedQuiet<S>(s: S, a: Effect<S>)
    ensures Joined(Quiet(Advanced, s), a) == a && Joined(a, Quiet(a.kind, a.s)) == a
  {
    assert {} + a.sees == a.sees == a.sees + {} && map[] + a.writes == a.writes == a.writes + map[];
  }

  lemma MergeAssoc(m: Mem, a: Mem, b: Mem)
    ensures (m + a) + b == m + (a + b)
  { }

  type Stepper<!S> = (S, Mem) -> Effect<S>

  // Up to n steps, with the reads and writes gathered; a step that does not
  // advance (a barrier, the end, an error) ends the run.
  function Run<S>(step: Stepper<S>, s: S, m: Mem, n: nat): Effect<S>
    decreases n
  {
    if n == 0 then Quiet(Advanced, s)
    else
      var e := step(s, m);
      if e.kind != Advanced then e
      else
        Joined(e, Run(step, e.s, m + e.writes, n - 1))
  }

  lemma {:induction false} RunAppend<S>(step: Stepper<S>, s: S, m: Mem, a: nat, b: nat)
    ensures var e := Run(step, s, m, a);
      Run(step, s, m, a + b) == if e.kind != Advanced then e else Joined(e, Run(step, e.s, m + e.writes, b))
    decreases a
  {
    if a == 0 {
      JoinedQuiet(s, Run(step, s, m, b));
      assert m + map[] == m;
    } else {
      var f := step(s, m);
      if f.kind == Advanced {
        var m' := m + f.writes;
        var g := Run(step, f.s, m', a - 1);
        RunAppend(step, f.s, m', a - 1, b);
        MergeAssoc(m, f.writes, g.writes);
        if g.kind == Advanced { JoinedAssoc(f, g, Run(step, g.s, m' + g.writes, b)); }
      }
    }
  }

  // ---- one machine following another ---------------------------------------------

  // Same way of stopping, same bytes read and written, related owners; what
  // "related" asks may depend on how the run stopped.
  ghost predicate Matched<S, T>(rel: (Kind, S, T) -> bool, want: Effect<S>, got: Effect<T>) {
    got.kind == want.kind && got.sees == want.sees && got.writes == want.writes && rel(want.kind, want.s, got.s)
  }

  // Each error-free step of the leader is matched by at most three steps of the follower.
  ghost predicate FollowsSteps<S(!new), T(!new)>(leader: Stepper<S>, follower: Stepper<T>, rel: (Kind, S, T) -> bool) {
    forall s: S, t: T, m: Mem :: rel(Advanced, s, t) && leader(s, m).kind != Failed ==>
      exists d: nat :: d <= 3 && Matched(rel, leader(s, m), Run(follower, t, m, d))
  }

  lemma MatchedJoined<S, T>(rel: (Kind, S, T) -> bool, a: Effect<S>, b: Effect<T>, c: Effect<S>, d: Effect<T>)
    requires Matched(rel, a, b) && Matched(rel, c, d)
    ensures Matched(rel, Joined(a, c), Joined(b, d))
  { }

  lemma StepMatched<S(!new), T(!new)>(leader: Stepper<S>, follower: Stepper<T>, rel: (Kind, S, T) -> bool,
                                      s: S, t: T, m: Mem) returns (d: nat)
    requires FollowsSteps(leader, follower, rel) && rel(Advanced, s, t) && leader(s, m).kind != Failed
    ensures d <= 3 && Matched(rel, leader(s, m), Run(follower, t, m, d))
  {
    d :| d <= 3 && Matched(rel, leader(s, m), Run(follower, t, m, d));
  }

  // Matching steps make matching runs, of every length.
  lemma {:induction false} FollowsRuns<S(!new), T(!new)>(leader: Stepper<S>, follower: Stepper<T>, rel: (Kind, S, T) -> bool,
                                                         s: S, t: T, m: Mem, n: nat) returns (d: nat)
    requires FollowsSteps(leader, follower, rel) && rel(Advanced, s, t) && Run(leader, s, m, n).kind != Failed
    ensures d <= 3 * n && Matched(rel, Run(leader, s, m, n), Run(follower, t, m, d))
    decreases n
  {
    if n == 0 {
      d := 0;
    } else {
      hide FollowsSteps;
      var e := leader(s, m);
      d := StepMatched(leader, follower, rel, s, t, m);
      var f := Run(follower, t, m, d);
      if e.kind == Advanced {
        var m' := m + e.writes;
        var rest := FollowsRuns(leader, follower, rel, e.s, f.s, m', n - 1);
        RunAppend(follower, t, m, d, rest);
        MatchedJoined(rel, e, f, Run(leader, e.s, m', n - 1), Run(follower, f.s, m', rest));
        d := d + rest;
      }
    }
  }

  // ---- steps that are asked more than the machine asks -----------------------------

  // The machine, failing where `fine` does not hold of its owner.
  function Guarded<S>(step: Stepper<S>, fine: S -> bool): Stepper<S> {
    (s, m) => if fine(s) then step(s, m) else Quiet(Failed, s)
  }

  lemma GuardedFails<S>(step: Stepper<S>, fine: S -> bool, s: S, m: Mem)
    requires !fine(s)
    ensures Guarded(step, fine)(s, m) == Quiet(Failed, s)
  { }

  // Every one of the first n steps starts in a fine state.
  predicate FineRun<S>(step: Stepper<S>, fine: S -> bool, s: S, m: Mem, n: nat)
    decreases n
  {
    n == 0 ||
    (fine(s) && var e := step(s, m); e.kind == Advanced ==> FineRun(step, fine, e.s, m + e.writes, n - 1))
  }

  lemma {:induction false} GuardedSame<S>(step: Stepper<S>, fine: S -> bool, s: S, m: Mem, n: nat)
    requires FineRun(step, fine, s, m, n)
    ensures Run(Guarded(step, fine), s, m, n) == Run(step, s, m, n)
    decreases n
  {
    if n > 0 {
      var e := step(s, m);
      if e.kind == Advanced { GuardedSame(step, fine, e.s, m + e.writes, n - 1); }
    }
  }

  // Failing early, it touches no more.
  lemma {:induction false} GuardedTouches<S>(step: Stepper<S>, fine: S -> bool, s: S, m: Mem, n: nat) returns (p: nat)
    ensures Run(Guarded(step, fine), s, m, n).sees == Run(step, s, m, p).sees
    ensures Run(Guarded(step, fine), s, m, n).writes == Run(step, s, m, p).writes
    decreases n
  {
    if n == 0 || !fine(s) {
      p := 0;
      if n > 0 { GuardedFails(step, fine, s, m); }
    } else {
      var e := step(s, m);
      assert Guarded(step, fine)(s, m) == e;
      p := 1;
      if e.kind == Advanced {
        var rest := GuardedTouches(step, fine, e.s, m + e.writes, n - 1);
        p := rest + 1;
      }
    }
  }
}

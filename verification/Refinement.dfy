// Two blocks side by side, one machine following the other step by step: what
// the leader reaches in one order, the follower reaches in every order.
module Refinement {
  import opened Words
  import opened Machine
  import opened Schedule

  function KindOf(status: Status): Kind {
    match status case Ready => Advanced case Waiting => Parked case Done => Finished case Broken => Failed
  }

  // Owner for owner related, in the same memory.
  ghost predicate Twins<S, T>(rel: (Kind, S, T) -> bool, c: Block<S>, c': Block<T>) {
    && Shaped(c) && Shaped(c') && c'.status == c.status && c'.mem == c.mem
    && forall i: nat :: i < |c.status| ==> rel(KindOf(c.status[i]), c.owners[i], c'.owners[i])
  }

  // A parked pair can go on.
  ghost predicate Resumes<S(!new), T(!new)>(rel: (Kind, S, T) -> bool) {
    forall s: S, t: T :: rel(Parked, s, t) ==> rel(Advanced, s, t)
  }

  // counts[i] steps of the leader's owner i are matched by lengths[i] of the follower's.
  ghost predicate MatchedAt<S, T>(leader: Stepper<S>, follower: Stepper<T>, rel: (Kind, S, T) -> bool,
                                  c: Block<S>, counts: seq<nat>, c': Block<T>, lengths: seq<nat>, i: nat)
  {
    i < |c.owners| && i < |c'.owners| && i < |counts| && i < |lengths| &&
    Matched(rel, Solo(leader, c, i, counts[i]), Solo(follower, c', i, lengths[i]))
  }

  ghost predicate AllMatched<S, T>(leader: Stepper<S>, follower: Stepper<T>, rel: (Kind, S, T) -> bool,
                                   c: Block<S>, counts: seq<nat>, c': Block<T>, lengths: seq<nat>)
  {
    forall i: nat :: i < |c.status| && c.status[i] == Ready ==> MatchedAt(leader, follower, rel, c, counts, c', lengths, i)
  }

  lemma RunWithin<S>(step: Stepper<S>, s: S, m: Mem, n: nat, full: nat)
    requires Run(step, s, m, full).kind != Advanced
    ensures Run(step, s, m, n).sees <= Run(step, s, m, full).sees
    ensures Run(step, s, m, n).writes.Keys <= Run(step, s, m, full).writes.Keys
  {
    if n <= full {
      RunAppend(step, s, m, n, full - n);
    } else {
      RunAppend(step, s, m, full, n - full);
    }
  }

  // An owner of a settled stretch ran to its stop, without error.
  lemma Stopped<S>(step: Stepper<S>, c: Block<S>, d: Block<S>, counts: seq<nat>, i: nat)
    requires AsIfAlone(step, c, d, counts) && Settled(d) && i < |counts| && c.status[i] == Ready
    ensures Solo(step, c, i, counts[i]).kind != Advanced && Solo(step, c, i, counts[i]).kind != Failed
  {
    assert OwnerAt(step, c, d, counts, i);
    assert d.status[i] in d.status;
  }

  lemma {:induction false} Lengths<S(!new), T(!new)>(leader: Stepper<S>, follower: Stepper<T>, rel: (Kind, S, T) -> bool,
                                                     c: Block<S>, d: Block<S>, counts: seq<nat>, c': Block<T>, n: nat) returns (lengths: seq<nat>)
    requires FollowsSteps(leader, follower, rel) && Twins(rel, c, c')
    requires AsIfAlone(leader, c, d, counts) && Settled(d) && n <= |counts|
    ensures |lengths| == n
    ensures forall i: nat :: i < n && c.status[i] == Ready ==> MatchedAt(leader, follower, rel, c, counts, c', lengths, i)
  {
    if n == 0 {
      lengths := [];
    } else {
      hide AsIfAlone; hide FollowsSteps;
      var rest := Lengths(leader, follower, rel, c, d, counts, c', n - 1);
      var more: nat := 0;
      if c.status[n - 1] == Ready {
        Stopped(leader, c, d, counts, n - 1);
        more := FollowsRuns(leader, follower, rel, c.owners[n - 1], c'.owners[n - 1], c.mem, counts[n - 1]);
      }
      lengths := rest + [more];
      forall i: nat | i < n && c.status[i] == Ready ensures MatchedAt(leader, follower, rel, c, counts, c', lengths, i) {
        if i < n - 1 { assert MatchedAt(leader, follower, rel, c, counts, c', rest, i); }
      }
    }
  }

  lemma MatchedEnd<S, T>(leader: Stepper<S>, follower: Stepper<T>, rel: (Kind, S, T) -> bool,
                         c: Block<S>, d: Block<S>, counts: seq<nat>, c': Block<T>, lengths: seq<nat>, i: nat)
    requires AsIfAlone(leader, c, d, counts) && Settled(d) && i < |counts| && c.status[i] == Ready && Twins(rel, c, c')
    requires MatchedAt(leader, follower, rel, c, counts, c', lengths, i)
    ensures var e, f := Solo(leader, c, i, counts[i]), Solo(follower, c', i, lengths[i]);
      f.kind == e.kind && e.kind != Advanced && e.kind != Failed && f.writes == e.writes && f.sees == e.sees
      && rel(e.kind, e.s, f.s)
  {
    Stopped(leader, c, d, counts, i);
  }

  // The follower inherits race freedom: its footprints are the leader's.
  lemma InheritsRaceFree<S, T>(leader: Stepper<S>, follower: Stepper<T>, rel: (Kind, S, T) -> bool,
                               c: Block<S>, d: Block<S>, counts: seq<nat>, c': Block<T>, lengths: seq<nat>)
    requires AsIfAlone(leader, c, d, counts) && Settled(d) && Twins(rel, c, c') && RaceFree(leader, c)
    requires AllMatched(leader, follower, rel, c, counts, c', lengths)
    ensures RaceFree(follower, c')
  {
    forall i: nat, j: nat, n: nat, p: nat |
      i < |c'.status| && j < |c'.status| && i != j && c'.status[i] == Ready == c'.status[j]
      ensures Apart(Solo(follower, c', i, n), Solo(follower, c', j, p))
    {
      assert MatchedAt(leader, follower, rel, c, counts, c', lengths, i);
      assert MatchedAt(leader, follower, rel, c, counts, c', lengths, j);
      MatchedEnd(leader, follower, rel, c, d, counts, c', lengths, i);
      MatchedEnd(leader, follower, rel, c, d, counts, c', lengths, j);
      assert Apart(Solo(leader, c, i, counts[i]), Solo(leader, c, j, counts[j]));
      RunWithin(follower, c'.owners[i], c'.mem, n, lengths[i]);
      RunWithin(follower, c'.owners[j], c'.mem, p, lengths[j]);
    }
  }

  // One owner at the end of a stretch, on both sides.
  lemma EndOwner<S, T>(leader: Stepper<S>, follower: Stepper<T>, rel: (Kind, S, T) -> bool,
                       c: Block<S>, d: Block<S>, counts: seq<nat>, c': Block<T>, d': Block<T>, counts': seq<nat>, lengths: seq<nat>, i: nat)
    requires AsIfAlone(leader, c, d, counts) && Settled(d) && Twins(rel, c, c') && i < |counts|
    requires AllMatched(leader, follower, rel, c, counts, c', lengths)
    requires AsIfAlone(follower, c', d', counts') && Settled(d')
    ensures d'.status[i] == d.status[i] && rel(KindOf(d.status[i]), d.owners[i], d'.owners[i])
    ensures Written(follower, c', counts', i) == Written(leader, c, counts, i)
  {
    assert OwnerAt(leader, c, d, counts, i) && OwnerAt(follower, c', d', counts', i);
    if c.status[i] == Ready {
      assert MatchedAt(leader, follower, rel, c, counts, c', lengths, i);
      MatchedEnd(leader, follower, rel, c, d, counts, c', lengths, i);
      Stopped(follower, c', d', counts', i);
      RunStops(follower, c'.owners[i], c'.mem, counts'[i], lengths[i]);
    }
  }

  lemma EndTwins<S, T>(leader: Stepper<S>, follower: Stepper<T>, rel: (Kind, S, T) -> bool,
                       c: Block<S>, d: Block<S>, counts: seq<nat>, c': Block<T>, d': Block<T>, counts': seq<nat>, lengths: seq<nat>)
    requires AsIfAlone(leader, c, d, counts) && Settled(d) && Twins(rel, c, c')
    requires AllMatched(leader, follower, rel, c, counts, c', lengths)
    requires AsIfAlone(follower, c', d', counts') && Settled(d')
    ensures Twins(rel, d, d')
  {
    forall i: nat | i < |counts|
      ensures d'.status[i] == d.status[i] && rel(KindOf(d.status[i]), d.owners[i], d'.owners[i])
      ensures Written(follower, c', counts', i) == Written(leader, c, counts, i)
    {
      EndOwner(leader, follower, rel, c, d, counts, c', d', counts', lengths, i);
    }
    assert d'.status == d.status;
    forall a: Word ensures (a in d.mem <==> a in d'.mem) && (a in d.mem ==> d.mem[a] == d'.mem[a]) {
      assert ByteAt(leader, c, d, counts, a) && ByteAt(follower, c', d', counts', a);
      if i: nat :| i < |counts| && a in Written(leader, c, counts, i) {
        assert a in Written(follower, c', counts', i);
      }
    }
    SameBytes(d.mem, d'.mem);
  }

  // One stretch: the leader settles in one order, then the follower, in any
  // order, is race free and settles in a twin of it.
  lemma StretchFollows<S(!new), T(!new)>(leader: Stepper<S>, follower: Stepper<T>, rel: (Kind, S, T) -> bool,
                                         c: Block<S>, p: seq<nat>, c': Block<T>)
    requires FollowsSteps(leader, follower, rel) && Local(leader) && Local(follower)
    requires Twins(rel, c, c') && RaceFree(leader, c) && Settled(After(leader, c, p))
    ensures RaceFree(follower, c')
    ensures forall q: seq<nat> :: Settled(After(follower, c', q)) ==> Twins(rel, After(leader, c, p), After(follower, c', q))
    ensures forall q: seq<nat> :: Broken !in After(follower, c', q).status
  {
    hide AsIfAlone; hide Local; hide FollowsSteps; hide Twins; hide RaceFree;
    assert Shaped(c) && Shaped(c') by { TwinsShaped(rel, c, c'); }
    var d := After(leader, c, p);
    var counts := AloneAfter(leader, c, p);
    CountsLength(leader, c, d, counts);
    var lengths := Lengths(leader, follower, rel, c, d, counts, c', |counts|);
    assert AllMatched(leader, follower, rel, c, counts, c', lengths);
    InheritsRaceFree(leader, follower, rel, c, d, counts, c', lengths);
    forall q: seq<nat>
      ensures Settled(After(follower, c', q)) ==> Twins(rel, d, After(follower, c', q))
      ensures Broken !in After(follower, c', q).status
    {
      var d' := After(follower, c', q);
      var counts' := AloneAfter(follower, c', q);
      if Settled(d') { EndTwins(leader, follower, rel, c, d, counts, c', d', counts', lengths); }
      NoneBroken(leader, follower, rel, c, d, counts, c', d', counts', lengths);
    }
  }

  lemma TwinsShaped<S, T>(rel: (Kind, S, T) -> bool, c: Block<S>, c': Block<T>)
    requires Twins(rel, c, c')
    ensures Shaped(c) && Shaped(c')
  { }

  lemma CountsLength<S>(step: Stepper<S>, c: Block<S>, d: Block<S>, counts: seq<nat>)
    requires AsIfAlone(step, c, d, counts)
    ensures |counts| == |c.status| == |c.owners|
  { }

  lemma NoneBroken<S, T>(leader: Stepper<S>, follower: Stepper<T>, rel: (Kind, S, T) -> bool,
                         c: Block<S>, d: Block<S>, counts: seq<nat>, c': Block<T>, d': Block<T>, counts': seq<nat>, lengths: seq<nat>)
    requires AsIfAlone(leader, c, d, counts) && Settled(d) && Twins(rel, c, c')
    requires AllMatched(leader, follower, rel, c, counts, c', lengths)
    requires AsIfAlone(follower, c', d', counts')
    ensures Broken !in d'.status
  {
    forall i: nat | i < |d'.status| ensures d'.status[i] != Broken {
      assert OwnerAt(leader, c, d, counts, i) && OwnerAt(follower, c', d', counts', i);
      if c.status[i] == Ready {
        assert MatchedAt(leader, follower, rel, c, counts, c', lengths, i);
        MatchedEnd(leader, follower, rel, c, d, counts, c', lengths, i);
        if d'.status[i] == Broken { RunStops(follower, c'.owners[i], c'.mem, counts'[i], lengths[i]); }
      } else {
        assert d.status[i] in d.status;
      }
    }
  }

  lemma ReleaseTwins<S(!new), T(!new)>(rel: (Kind, S, T) -> bool, d: Block<S>, d': Block<T>)
    requires Twins(rel, d, d') && Resumes(rel)
    ensures Twins(rel, Release(d), Release(d'))
  { }

  // Whole executions: the leader finished in one order; the follower, in every
  // order in which it finishes, ends as its twin.
  lemma {:induction false} TwinsToTheEnd<S(!new), T(!new)>(leader: Stepper<S>, follower: Stepper<T>, rel: (Kind, S, T) -> bool,
                                                           c: Block<S>, p: seq<seq<nat>>, d: Block<S>,
                                                           c': Block<T>, q: seq<seq<nat>>, d': Block<T>)
    requires FollowsSteps(leader, follower, rel) && Resumes(rel) && Local(leader) && Local(follower)
    requires Shaped(c) && Shaped(c') && Twins(rel, c, c') && RaceFreeThroughout(leader, c)
    requires Executes(leader, c, p, d) && AllDone(d) && Executes(follower, c', q, d') && AllDone(d')
    ensures Twins(rel, d, d')
    decreases |p|
  {
    var e, e' := After(leader, c, p[0]), After(follower, c', q[0]);
    if |p| == 1 { DoneSettled(e); }
    if |q| == 1 { DoneSettled(e'); }
    assert RaceFree(leader, c);
    StretchFollows(leader, follower, rel, c, p[0], c');
    assert Twins(rel, e, e');
    if |p| > 1 && |q| > 1 {
      Later(leader, c, p[0]);
      ReleaseTwins(rel, e, e');
      TwinsToTheEnd(leader, follower, rel, Release(e), p[1..], d, Release(e'), q[1..], d');
    }
  }

  // ---- stretches end -----------------------------------------------------------------

  function Total(s: seq<nat>): nat { if s == [] then 0 else Total(s[..|s| - 1]) + s[|s| - 1] }

  lemma {:induction false} TotalRaised(s: seq<nat>, i: nat)
    requires i < |s|
    ensures Total(s[i := s[i] + 1]) == Total(s) + 1
  {
    var n := |s| - 1;
    if i < n {
      TotalRaised(s[..n], i);
      assert s[i := s[i] + 1][..n] == s[..n][i := s[i] + 1];
    } else {
      assert s[i := s[i] + 1][..n] == s[..n];
    }
  }

  lemma {:induction false} TotalBelow(s: seq<nat>, t: seq<nat>)
    requires |s| == |t| && forall i: nat :: i < |s| ==> s[i] <= t[i]
    ensures Total(s) <= Total(t)
  {
    if s != [] { TotalBelow(s[..|s| - 1], t[..|t| - 1]); }
  }

  // Every live owner, alone, stops without error within its length.
  ghost predicate StopsWithin<S>(step: Stepper<S>, c: Block<S>, lengths: seq<nat>) {
    Shaped(c) && |lengths| == |c.status| && Broken !in c.status &&
    forall i: nat :: i < |lengths| && c.status[i] == Ready ==>
      Solo(step, c, i, lengths[i]).kind != Advanced && Solo(step, c, i, lengths[i]).kind != Failed
  }

  lemma StillShort<S>(step: Stepper<S>, c: Block<S>, i: nat, n: nat, full: nat)
    requires i < |c.owners| && Solo(step, c, i, n).kind == Advanced && Solo(step, c, i, full).kind != Advanced
    ensures n < full
  {
    if full <= n { RunAppend(step, c.owners[i], c.mem, full, n - full); }
  }

  // Whatever has been done so far, a finite number of further steps settles the
  // stretch; and no order has room for more than Total(lengths) steps.
  lemma {:induction false} Settles<S(!new)>(step: Stepper<S>, c: Block<S>, lengths: seq<nat>, q: seq<nat>, counts: seq<nat>) returns (more: seq<nat>)
    requires StopsWithin(step, c, lengths) && Local(step) && RaceFree(step, c)
    requires AsIfAlone(step, c, After(step, c, q), counts) && forall i: nat :: i < |counts| ==> counts[i] <= lengths[i]
    ensures q <= more && Settled(After(step, c, more)) && |more| - |q| <= Total(lengths) - Total(counts)
    decreases Total(lengths) - Total(counts)
  {
    var d := After(step, c, q);
    TotalBelow(counts, lengths);
    if i: nat :| i < |d.status| && d.status[i] == Ready {
      assert OwnerAt(step, c, d, counts, i);
      StillShort(step, c, i, counts[i], lengths[i]);
      var counts' := StepKeeps(step, c, d, counts, i);
      TotalRaised(counts, i);
      assert (q + [i])[..|q|] == q;
      TotalBelow(counts', lengths);
      more := Settles(step, c, lengths, q + [i], counts');
    } else {
      more := q;
      forall i: nat | i < |d.status| ensures d.status[i] != Broken {
        assert OwnerAt(step, c, d, counts, i);
        if c.status[i] == Ready && d.status[i] == Broken { RunStops(step, c.owners[i], c.mem, counts[i], lengths[i]); }
      }
    }
  }

  lemma MatchedStops<S, T>(leader: Stepper<S>, follower: Stepper<T>, rel: (Kind, S, T) -> bool,
                           c: Block<S>, d: Block<S>, counts: seq<nat>, c': Block<T>, lengths: seq<nat>)
    requires AsIfAlone(leader, c, d, counts) && Settled(d) && Twins(rel, c, c') && |lengths| == |counts|
    requires AllMatched(leader, follower, rel, c, counts, c', lengths)
    ensures StopsWithin(follower, c', lengths)
  {
    forall i: nat | i < |lengths| && c'.status[i] == Ready
      ensures Solo(follower, c', i, lengths[i]).kind != Advanced && Solo(follower, c', i, lengths[i]).kind != Failed
    {
      assert MatchedAt(leader, follower, rel, c, counts, c', lengths, i);
      MatchedEnd(leader, follower, rel, c, d, counts, c', lengths, i);
    }
    forall i: nat | i < |c.status| ensures c.status[i] != Broken {
      assert OwnerAt(leader, c, d, counts, i);
      assert d.status[i] in d.status;
    }
  }

  // The follower's stretch can always be brought to its end.
  lemma StretchEnds<S(!new), T(!new)>(leader: Stepper<S>, follower: Stepper<T>, rel: (Kind, S, T) -> bool,
                                      c: Block<S>, p: seq<nat>, c': Block<T>) returns (q: seq<nat>)
    requires FollowsSteps(leader, follower, rel) && Local(leader) && Local(follower)
    requires Twins(rel, c, c') && RaceFree(leader, c) && Settled(After(leader, c, p))
    ensures Shaped(c') && Settled(After(follower, c', q))
  {
    hide AsIfAlone; hide Local; hide FollowsSteps; hide Twins; hide RaceFree;
    TwinsShaped(rel, c, c');
    var d := After(leader, c, p);
    var counts := AloneAfter(leader, c, p);
    CountsLength(leader, c, d, counts);
    var lengths := Lengths(leader, follower, rel, c, d, counts, c', |counts|);
    assert AllMatched(leader, follower, rel, c, counts, c', lengths);
    InheritsRaceFree(leader, follower, rel, c, d, counts, c', lengths);
    MatchedStops(leader, follower, rel, c, d, counts, c', lengths);
    StartAlone(follower, c');
    assert After(follower, c', []) == c';
    q := Settles(follower, c', lengths, [], seq(|c'.status|, _ => 0));
  }

  // Under a barrier that counts every owner in, the follower can finish if
  // nobody has finished at any release of the leader's execution ...
  lemma {:induction false} HostFinishes<S(!new), T(!new)>(leader: Stepper<S>, follower: Stepper<T>, rel: (Kind, S, T) -> bool,
                                                          c: Block<S>, p: seq<seq<nat>>, d: Block<S>, c': Block<T>)
    returns (q: seq<seq<nat>>, d': Block<T>)
    requires FollowsSteps(leader, follower, rel) && Resumes(rel) && Local(leader) && Local(follower)
    requires Shaped(c) && Shaped(c') && Twins(rel, c, c') && RaceFreeThroughout(leader, c)
    requires Executes(leader, c, p, d) && AllDone(d) && NobodyLeft(leader, c, p)
    ensures HostExecutes(follower, c', q, d') && AllDone(d')
    decreases |p|
  {
    var e := After(leader, c, p[0]);
    if |p| == 1 { DoneSettled(e); }
    assert RaceFree(leader, c);
    StretchFollows(leader, follower, rel, c, p[0], c');
    var q0 := StretchEnds(leader, follower, rel, c, p[0], c');
    var e' := After(follower, c', q0);
    assert Twins(rel, e, e');
    if |p| == 1 {
      q, d' := [q0], e';
    } else {
      Later(leader, c, p[0]);
      ReleaseTwins(rel, e, e');
      NobodyLeftRest(leader, c, p);
      EverybodyThere(e');
      var rest, last := HostFinishes(leader, follower, rel, Release(e), p[1..], d, Release(e'));
      q, d' := [q0] + rest, last;
      assert q[1..] == rest;
    }
  }

  // ... and only then.
  lemma {:induction false} HostNeedsEverybody<S(!new), T(!new)>(leader: Stepper<S>, follower: Stepper<T>, rel: (Kind, S, T) -> bool,
                                                                c: Block<S>, p: seq<seq<nat>>, d: Block<S>,
                                                                c': Block<T>, q: seq<seq<nat>>, d': Block<T>)
    requires FollowsSteps(leader, follower, rel) && Resumes(rel) && Local(leader) && Local(follower)
    requires Shaped(c) && Shaped(c') && Twins(rel, c, c') && RaceFreeThroughout(leader, c)
    requires Executes(leader, c, p, d) && AllDone(d) && HostExecutes(follower, c', q, d') && AllDone(d')
    ensures NobodyLeft(leader, c, p)
    decreases |p|
  {
    var e, e' := After(leader, c, p[0]), After(follower, c', q[0]);
    if |p| == 1 { DoneSettled(e); }
    if |q| == 1 { DoneSettled(e'); } else { ArrivedCanRelease(e'); }
    assert RaceFree(leader, c);
    StretchFollows(leader, follower, rel, c, p[0], c');
    assert Twins(rel, e, e');
    if |p| > 1 && |q| > 1 {
      Later(leader, c, p[0]);
      ReleaseTwins(rel, e, e');
      EverybodyThere(e);
      HostNeedsEverybody(leader, follower, rel, Release(e), p[1..], d, Release(e'), q[1..], d');
      NobodyLeftRest(leader, c, p);
    }
  }

  ghost predicate HostCanFinish<S(!new)>(step: Stepper<S>, c: Block<S>)
    requires Shaped(c)
  {
    exists q: seq<seq<nat>>, d: Block<S> :: HostExecutes(step, c, q, d) && AllDone(d)
  }

  lemma FinishesExactly<S(!new), T(!new)>(leader: Stepper<S>, follower: Stepper<T>, rel: (Kind, S, T) -> bool,
                                          c: Block<S>, p: seq<seq<nat>>, d: Block<S>, c': Block<T>)
    requires FollowsSteps(leader, follower, rel) && Resumes(rel) && Local(leader) && Local(follower)
    requires Shaped(c) && Shaped(c') && Twins(rel, c, c') && RaceFreeThroughout(leader, c)
    requires Executes(leader, c, p, d) && AllDone(d)
    ensures HostCanFinish(follower, c') <==> NobodyLeft(leader, c, p)
  {
    hide FollowsSteps; hide Local; hide Twins; hide RaceFreeThroughout; hide Executes; hide HostExecutes; hide NobodyLeft; hide AllDone;
    if NobodyLeft(leader, c, p) {
      var q, d' := HostFinishes(leader, follower, rel, c, p, d, c');
    }
    if HostCanFinish(follower, c') {
      var q: seq<seq<nat>>, d': Block<T> :| HostExecutes(follower, c', q, d') && AllDone(d');
      HostNeedsEverybody(leader, follower, rel, c, p, d, c', q, d');
    }
  }

  // And then no order of the follower's steps gets stuck: whenever nobody can
  // step, everybody is done or everybody is at the barrier.
  lemma {:induction false} HostNeverStuck<S(!new), T(!new)>(leader: Stepper<S>, follower: Stepper<T>, rel: (Kind, S, T) -> bool,
                                                            c: Block<S>, p: seq<seq<nat>>, d: Block<S>,
                                                            c': Block<T>, q: seq<seq<nat>>, d': Block<T>)
    requires FollowsSteps(leader, follower, rel) && Resumes(rel) && Local(leader) && Local(follower)
    requires Shaped(c) && Shaped(c') && Twins(rel, c, c') && RaceFreeThroughout(leader, c)
    requires Executes(leader, c, p, d) && AllDone(d) && NobodyLeft(leader, c, p)
    requires HostExecutes(follower, c', q, d')
    ensures Broken !in d'.status
    ensures Ready !in d'.status ==> AllDone(d') || AllArrived(d')
    decreases |p|
  {
    var e, e' := After(leader, c, p[0]), After(follower, c', q[0]);
    if |p| == 1 { DoneSettled(e); } else { NobodyLeftRest(leader, c, p); }
    assert RaceFree(leader, c);
    StretchFollows(leader, follower, rel, c, p[0], c');
    if |q| == 1 {
      if Ready !in d'.status {
        assert Twins(rel, e, e');
        if |p| > 1 { EverybodyThere(e'); }
      }
    } else {
      ArrivedCanRelease(e');
      assert Twins(rel, e, e');
      assert e.status[0] == Waiting;
      Later(leader, c, p[0]);
      ReleaseTwins(rel, e, e');
      HostNeverStuck(leader, follower, rel, Release(e), p[1..], d, Release(e'), q[1..], d');
    }
  }

  lemma FollowerSurvives<S(!new), T(!new)>(leader: Stepper<S>, follower: Stepper<T>, rel: (Kind, S, T) -> bool,
                                           c: Block<S>, p: seq<nat>, c': Block<T>, q: seq<nat>)
    requires FollowsSteps(leader, follower, rel) && Local(leader) && Local(follower)
    requires Shaped(c) && Shaped(c') && Twins(rel, c, c') && RaceFree(leader, c) && Settled(After(leader, c, p))
    ensures Broken !in After(follower, c', q).status
  {
    StretchFollows(leader, follower, rel, c, p, c');
  }
}

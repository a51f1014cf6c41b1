// Warp collectives on operating-system threads. Every lane owns one 64-byte
// slot; a collective publishes into it, meets a block barrier, reads the peers'
// slots and meets the barrier again. The same slots serve every collective.
module Exchange {
  import opened Words

  const SLOT_WORDS: nat := 16

  // width(c): how many words a lane publishes in collective c. closing: whether
  // the barrier after the reads is there.
  datatype Setup = Setup(lanes: nat, width: nat -> nat, closing: bool)

  datatype Place =
    | Publishing(c: nat, done: nat)
    | FirstWait(c: nat, gen: nat)
    | Reading(c: nat)
    | SecondWait(c: nat, gen: nat)

  // A barrier as pthreads implement it: arrivals are counted, the last one opens
  // the next generation, and a waiter leaves once its generation is over.
  datatype State = State(
    place: seq<Place>,
    arrived: nat,
    gen: nat,
    slots: map<(nat, nat), Word>,                       // (lane, word)
    published: map<(nat, nat, nat), Word>,              // (collective, lane, word)
    got: map<(nat, nat, nat, nat), Word>                // (collective, reader, peer, word)
  )

  datatype Event =
    | Publish(lane: nat, v: Word)
    | Arrive(lane: nat)
    | Wake(lane: nat)
    | Read(lane: nat, peer: nat, word: nat)

  ghost predicate ValidSetup(u: Setup) { u.lanes > 0 && forall c: nat :: u.width(c) <= SLOT_WORDS }

  function Init(u: Setup): State {
    State(seq(u.lanes, _ => Publishing(0, 0)), 0, 0, map[], map[], map[])
  }

  // Arriving: the last lane opens the barrier and does not wait.
  function Arrived(u: Setup, s: State, l: nat, waiting: Place, through: Place): State
    requires l < |s.place|
  {
    if s.arrived + 1 == u.lanes then s.(place := s.place[l := through], arrived := 0, gen := s.gen + 1)
    else s.(place := s.place[l := waiting], arrived := s.arrived + 1)
  }

  // One event; one that is not possible now changes nothing.
  function Apply(u: Setup, s: State, e: Event): State {
    if e.lane >= |s.place| then s
    else
      var l := e.lane;
      match (e, s.place[l])
      case (Publish(_, v), Publishing(c, done)) =>
        if done < u.width(c) then
          s.(place := s.place[l := Publishing(c, done + 1)],
             slots := s.slots[(l, done) := v], published := s.published[(c, l, done) := v])
        else s
      case (Arrive(_), Publishing(c, done)) =>
        if done == u.width(c) then Arrived(u, s, l, FirstWait(c, s.gen), Reading(c)) else s
      case (Arrive(_), Reading(c)) =>
        if u.closing then Arrived(u, s, l, SecondWait(c, s.gen), Publishing(c + 1, 0))
        else s.(place := s.place[l := Publishing(c + 1, 0)])
      case (Wake(_), FirstWait(c, gen)) => if gen < s.gen then s.(place := s.place[l := Reading(c)]) else s
      case (Wake(_), SecondWait(c, gen)) => if gen < s.gen then s.(place := s.place[l := Publishing(c + 1, 0)]) else s
      case (Read(_, p, w), Reading(c)) =>
        if p < u.lanes && w < u.width(c) && (p, w) in s.slots then s.(got := s.got[(c, l, p, w) := s.slots[(p, w)]]) else s
      case _ => s
  }

  function Exec(u: Setup, events: seq<Event>): State {
    if events == [] then Init(u) else Apply(u, Exec(u, events[..|events| - 1]), events[|events| - 1])
  }

  // Everything read in collective c is what the peer published in collective c.
  ghost predicate ReadsExact(s: State) {
    forall c: nat, l: nat, p: nat, w: nat :: (c, l, p, w) in s.got ==>
      (c, p, w) in s.published && s.got[(c, l, p, w)] == s.published[(c, p, w)]
  }

  // ---- the invariant -------------------------------------------------------------------

  // How often a lane has arrived at the barrier.
  function Arrivals(p: Place): nat {
    match p
    case Publishing(c, _) => 2 * c
    case FirstWait(c, _) => 2 * c + 1
    case Reading(c) => 2 * c + 1
    case SecondWait(c, _) => 2 * c + 2
  }

  predicate PlaceOk(s: State, p: Place) {
    s.gen <= Arrivals(p) <= s.gen + 1 &&
    match p
    case Publishing(c, _) => s.gen == 2 * c
    case FirstWait(c, gen) => gen == 2 * c
    case Reading(c) => s.gen == 2 * c + 1
    case SecondWait(c, gen) => gen == 2 * c + 1
  }

  // How many of the first n lanes have arrived for the generation under way.
  function Ahead(s: State, n: nat): nat
    requires n <= |s.place|
  {
    if n == 0 then 0 else Ahead(s, n - 1) + (if Arrivals(s.place[n - 1]) == s.gen + 1 then 1 else 0)
  }

  // The collective whose words lane p's slot shows, and how many of them.
  function Showing(u: Setup, p: Place): (nat, nat) {
    match p
    case Publishing(c, done) => (c, done)
    case FirstWait(c, _) => (c, u.width(c))
    case Reading(c) => (c, u.width(c))
    case SecondWait(c, _) => (c, u.width(c))
  }

  predicate SlotOk(u: Setup, s: State, l: nat)
    requires l < |s.place|
  {
    var (c, n) := Showing(u, s.place[l]);
    n <= u.width(c) &&
    forall w: nat :: w < n ==> (l, w) in s.slots && (c, l, w) in s.published && s.slots[(l, w)] == s.published[(c, l, w)]
  }

  // Nothing beyond that has been published.
  ghost predicate NotYet(u: Setup, s: State, l: nat)
    requires l < |s.place|
  {
    var (c, n) := Showing(u, s.place[l]);
    forall c': nat, w: nat :: (c', l, w) in s.published ==> c' < c || (c' == c && w < n)
  }

  ghost predicate Inv(u: Setup, s: State) {
    && |s.place| == u.lanes && s.arrived < u.lanes && s.arrived == Ahead(s, u.lanes)
    && (forall l: nat :: l < u.lanes ==> PlaceOk(s, s.place[l]) && SlotOk(u, s, l) && NotYet(u, s, l))
    && ReadsExact(s)
  }

  lemma {:induction false} AheadBound(s: State, n: nat)
    requires n <= |s.place|
    ensures Ahead(s, n) <= n
    ensures Ahead(s, n) == n ==> forall l: nat :: l < n ==> Arrivals(s.place[l]) == s.gen + 1
  {
    if n > 0 { AheadBound(s, n - 1); }
  }

  lemma {:induction false} AheadOneMore(s: State, t: State, l: nat, n: nat)
    requires n <= |s.place| == |t.place| && l < |s.place| && s.gen == t.gen
    requires forall j: nat :: j < |s.place| && j != l ==> Arrivals(t.place[j]) == Arrivals(s.place[j])
    requires Arrivals(s.place[l]) == s.gen && Arrivals(t.place[l]) == s.gen + 1
    ensures Ahead(t, n) == Ahead(s, n) + (if l < n then 1 else 0)
  {
    if n > 0 { AheadOneMore(s, t, l, n - 1); }
  }

  lemma {:induction false} AheadSame(s: State, t: State, n: nat)
    requires n <= |s.place| == |t.place| && s.gen == t.gen
    requires forall j: nat :: j < |s.place| ==> Arrivals(t.place[j]) == Arrivals(s.place[j])
    ensures Ahead(t, n) == Ahead(s, n)
  {
    if n > 0 { AheadSame(s, t, n - 1); }
  }

  lemma {:induction false} AheadNone(s: State, n: nat)
    requires n <= |s.place| && forall l: nat :: l < n ==> Arrivals(s.place[l]) != s.gen + 1
    ensures Ahead(s, n) == 0
  {
    if n > 0 { AheadNone(s, n - 1); }
  }

  // The last arrival finds every other lane already there.
  lemma LastArrival(u: Setup, s: State, l: nat, t: State)
    requires Inv(u, s) && l < u.lanes && Arrivals(s.place[l]) == s.gen && s.arrived + 1 == u.lanes
    requires |t.place| == u.lanes && t.gen == s.gen && Arrivals(t.place[l]) == s.gen + 1
    requires forall j: nat :: j < u.lanes && j != l ==> t.place[j] == s.place[j]
    ensures forall j: nat :: j < u.lanes && j != l ==> Arrivals(s.place[j]) == s.gen + 1
  {
    AheadOneMore(s, t, l, u.lanes);
    AheadBound(t, u.lanes);
  }

  lemma ArriveLast(u: Setup, s: State, l: nat, through: Place)
    requires ValidSetup(u) && Inv(u, s) && l < u.lanes && Arrivals(s.place[l]) == s.gen && s.arrived + 1 == u.lanes
    requires Arrivals(through) == s.gen + 1 && PlaceOk(s.(gen := s.gen + 1), through)
    requires Showing(u, through) == Showing(u, s.place[l]) || (Showing(u, through).0 > Showing(u, s.place[l]).0 && Showing(u, through).1 == 0)
    ensures Inv(u, s.(place := s.place[l := through], arrived := 0, gen := s.gen + 1))
  {
    var t := s.(place := s.place[l := through], arrived := 0, gen := s.gen + 1);
    LastArrival(u, s, l, s.(place := s.place[l := through]));
    AheadNone(t, u.lanes);
    forall j: nat | j < u.lanes ensures PlaceOk(t, t.place[j]) && SlotOk(u, t, j) && NotYet(u, t, j) {
      assert PlaceOk(s, s.place[j]) && SlotOk(u, s, j) && NotYet(u, s, j);
    }
  }

  lemma ArriveWaits(u: Setup, s: State, l: nat, waiting: Place)
    requires ValidSetup(u) && Inv(u, s) && l < u.lanes && Arrivals(s.place[l]) == s.gen && s.arrived + 1 != u.lanes
    requires Arrivals(waiting) == s.gen + 1 && PlaceOk(s, waiting) && Showing(u, waiting) == Showing(u, s.place[l])
    ensures Inv(u, s.(place := s.place[l := waiting], arrived := s.arrived + 1))
  {
    var t := s.(place := s.place[l := waiting], arrived := s.arrived + 1);
    AheadOneMore(s, t, l, u.lanes);
    forall j: nat | j < u.lanes ensures PlaceOk(t, t.place[j]) && SlotOk(u, t, j) && NotYet(u, t, j) {
      assert PlaceOk(s, s.place[j]) && SlotOk(u, s, j) && NotYet(u, s, j);
    }
  }

  lemma ArriveKeeps(u: Setup, s: State, l: nat, waiting: Place, through: Place)
    requires ValidSetup(u) && Inv(u, s) && l < u.lanes && Arrivals(s.place[l]) == s.gen
    requires Arrivals(waiting) == Arrivals(through) == s.gen + 1 && PlaceOk(s, waiting) && PlaceOk(s.(gen := s.gen + 1), through)
    requires Showing(u, waiting) == Showing(u, s.place[l])
    requires Showing(u, through) == Showing(u, s.place[l]) || (Showing(u, through).0 > Showing(u, s.place[l]).0 && Showing(u, through).1 == 0)
    ensures Inv(u, Arrived(u, s, l, waiting, through))
  {
    hide Inv; hide PlaceOk; hide ValidSetup; hide Showing;
    if s.arrived + 1 == u.lanes { ArriveLast(u, s, l, through); } else { ArriveWaits(u, s, l, waiting); }
  }

  lemma WakeKeeps(u: Setup, s: State, l: nat, p: Place)
    requires ValidSetup(u) && Inv(u, s) && l < u.lanes && Arrivals(p) == Arrivals(s.place[l]) && PlaceOk(s, p)
    requires Showing(u, p) == Showing(u, s.place[l]) || (Showing(u, p).0 > Showing(u, s.place[l]).0 && Showing(u, p).1 == 0)
    ensures Inv(u, s.(place := s.place[l := p]))
  {
    var t := s.(place := s.place[l := p]);
    AheadSame(s, t, u.lanes);
    forall j: nat | j < u.lanes ensures PlaceOk(t, t.place[j]) && SlotOk(u, t, j) && NotYet(u, t, j) {
      assert PlaceOk(s, s.place[j]) && SlotOk(u, s, j) && NotYet(u, s, j);
    }
  }

  lemma PublishKeeps(u: Setup, s: State, l: nat, v: Word)
    requires ValidSetup(u) && Inv(u, s) && l < u.lanes && s.place[l].Publishing? && s.place[l].done < u.width(s.place[l].c)
    ensures Inv(u, Apply(u, s, Publish(l, v)))
    ensures (s.place[l].c, l, s.place[l].done) !in s.published
  {
    var t := Apply(u, s, Publish(l, v));
    AheadSame(s, t, u.lanes);
    assert NotYet(u, s, l);
    forall j: nat | j < u.lanes ensures PlaceOk(t, t.place[j]) && SlotOk(u, t, j) && NotYet(u, t, j) {
      assert PlaceOk(s, s.place[j]) && SlotOk(u, s, j) && NotYet(u, s, j);
    }
  }

  // While somebody reads in collective c, every slot shows collective c.
  lemma ReadKeeps(u: Setup, s: State, l: nat, p: nat, w: nat)
    requires ValidSetup(u) && Inv(u, s) && l < u.lanes && p < u.lanes && s.place[l].Reading? && w < u.width(s.place[l].c)
    ensures (p, w) in s.slots && (s.place[l].c, p, w) in s.published && s.slots[(p, w)] == s.published[(s.place[l].c, p, w)]
    ensures Inv(u, Apply(u, s, Read(l, p, w)))
  {
    assert PlaceOk(s, s.place[l]) && PlaceOk(s, s.place[p]) && SlotOk(u, s, p);
    var t := Apply(u, s, Read(l, p, w));
    AheadSame(s, t, u.lanes);
    forall j: nat | j < u.lanes ensures PlaceOk(t, t.place[j]) && SlotOk(u, t, j) && NotYet(u, t, j) {
      assert PlaceOk(s, s.place[j]) && SlotOk(u, s, j) && NotYet(u, s, j);
    }
  }

  lemma ArriveEvent(u: Setup, s: State, l: nat)
    requires ValidSetup(u) && u.closing && Inv(u, s) && l < u.lanes
    ensures Inv(u, Apply(u, s, Arrive(l)))
  {
    assert PlaceOk(s, s.place[l]) && SlotOk(u, s, l);
    hide Inv; hide SlotOk; hide ValidSetup; hide Arrived;
    match s.place[l]
    case Publishing(c, done) => if done == u.width(c) { ArriveKeeps(u, s, l, FirstWait(c, s.gen), Reading(c)); }
    case Reading(c) => ArriveKeeps(u, s, l, SecondWait(c, s.gen), Publishing(c + 1, 0));
    case _ =>
  }

  lemma WakeEvent(u: Setup, s: State, l: nat)
    requires ValidSetup(u) && Inv(u, s) && l < u.lanes
    ensures Inv(u, Apply(u, s, Wake(l)))
  {
    assert PlaceOk(s, s.place[l]);
    hide Inv; hide ValidSetup;
    match s.place[l]
    case FirstWait(c, gen) => if gen < s.gen { WakeKeeps(u, s, l, Reading(c)); }
    case SecondWait(c, gen) => if gen < s.gen { WakeKeeps(u, s, l, Publishing(c + 1, 0)); }
    case _ =>
  }

  lemma ApplyKeeps(u: Setup, s: State, e: Event)
    requires ValidSetup(u) && u.closing && Inv(u, s)
    ensures Inv(u, Apply(u, s, e))
  {
    assert |s.place| == u.lanes;
    hide Inv; hide ValidSetup; hide Arrived;
    if e.lane < u.lanes {
      var l := e.lane;
      match (e, s.place[l])
      case (Publish(_, v), Publishing(c, done)) => if done < u.width(c) { PublishKeeps(u, s, l, v); }
      case (Arrive(_), _) => ArriveEvent(u, s, l);
      case (Wake(_), _) => WakeEvent(u, s, l);
      case (Read(_, p, w), Reading(c)) => if p < u.lanes && w < u.width(c) { ReadKeeps(u, s, l, p, w); }
      case _ =>
    }
  }

  // Nothing published is ever replaced.
  lemma PublishedStays(u: Setup, s: State, e: Event)
    requires ValidSetup(u) && u.closing && Inv(u, s)
    ensures forall key :: key in s.published ==> key in Apply(u, s, e).published && Apply(u, s, e).published[key] == s.published[key]
  {
    if e.Publish? && e.lane < u.lanes && s.place[e.lane].Publishing? && s.place[e.lane].done < u.width(s.place[e.lane].c) {
      PublishKeeps(u, s, e.lane, e.v);
    }
    hide Inv;
  }

  // Over any interleaving and any number of collectives on the same slots, a
  // lane that reads a peer's slot in collective c sees exactly what the peer
  // published in c.
  lemma {:induction false} ExchangeSafe(u: Setup, events: seq<Event>)
    requires ValidSetup(u) && u.closing
    ensures Inv(u, Exec(u, events)) && ReadsExact(Exec(u, events))
  {
    if events == [] {
      AheadNone(Init(u), u.lanes);
    } else {
      ExchangeSafe(u, events[..|events| - 1]);
      ApplyKeeps(u, Exec(u, events[..|events| - 1]), events[|events| - 1]);
    }
  }

  // A read in collective c never finds an unpublished or half-published slot.
  lemma ReadNeverMisses(u: Setup, events: seq<Event>, l: nat, p: nat, w: nat)
    requires ValidSetup(u) && u.closing && l < u.lanes && p < u.lanes
    requires var s := Exec(u, events); |s.place| == u.lanes && s.place[l].Reading? && w < u.width(s.place[l].c)
    ensures var s := Exec(u, events);
      && (p, w) in s.slots && (s.place[l].c, p, w) in s.published
      && Apply(u, s, Read(l, p, w)).got[(s.place[l].c, l, p, w)] == s.published[(s.place[l].c, p, w)]
  {
    ExchangeSafe(u, events);
    ReadKeeps(u, Exec(u, events), l, p, w);
  }

  // With the first barrier alone the protocol fails: a fast lane publishes its
  // next word before a slow one has read the last.
  lemma ClosingBarrierNeeded(u: Setup)
    requires u.lanes == 2 && (forall c: nat :: u.width(c) == 1) && !u.closing
    ensures exists events: seq<Event> :: !ReadsExact(Exec(u, events))
  {
    var h1, s1 := Grown(u, [], Init(u), Publish(0, 7));
    var h2, s2 := Grown(u, h1, s1, Publish(1, 8));
    var h3, s3 := Grown(u, h2, s2, Arrive(0));
    var h4, s4 := Grown(u, h3, s3, Arrive(1));
    var h5, s5 := Grown(u, h4, s4, Wake(0));
    assert s5.place == [Reading(0), Reading(0)];
    var h6, s6 := Grown(u, h5, s5, Arrive(0));
    var h7, s7 := Grown(u, h6, s6, Publish(0, 9));
    var h8, s8 := Grown(u, h7, s7, Read(1, 0, 0));
    assert s8.got[(0, 1, 0, 0)] == 9 && s8.published[(0, 0, 0)] == 7;
    assert !ReadsExact(Exec(u, h8));
  }

  lemma Grown(u: Setup, events: seq<Event>, s: State, e: Event) returns (more: seq<Event>, t: State)
    requires s == Exec(u, events)
    ensures more == events + [e] && t == Apply(u, s, e) && t == Exec(u, more)
  {
    more, t := events + [e], Apply(u, s, e);
    assert more[..|events|] == events;
  }

  // ---- nobody waits for ever ---------------------------------------------------------------

  // Steps a lane has to make before it can arrive again.
  function Todo(u: Setup, p: Place): nat {
    match p
    case Publishing(c, done) => if done < u.width(c) then u.width(c) - done else 0
    case FirstWait(_, _) => 1
    case Reading(_) => 0
    case SecondWait(c, _) => u.width(c + 1) + 1
  }

  // The next event of a lane that has not arrived at the barrier under way.
  function NextEvent(u: Setup, l: nat, p: Place): Event {
    match p
    case Publishing(c, done) => if done < u.width(c) then Publish(l, 0) else Arrive(l)
    case FirstWait(_, _) => Wake(l)
    case Reading(_) => Arrive(l)
    case SecondWait(_, _) => Wake(l)
  }

  // It arrives, or comes closer to it, and leaves the other lanes where they are.
  lemma NextHelps(u: Setup, s: State, l: nat)
    requires ValidSetup(u) && u.closing && Inv(u, s) && l < u.lanes && Arrivals(s.place[l]) == s.gen
    ensures var t := Apply(u, s, NextEvent(u, l, s.place[l]));
      && |t.place| == u.lanes && (forall j: nat :: j < u.lanes && j != l ==> t.place[j] == s.place[j])
      && (t.gen == s.gen + 1
          || (t.gen == s.gen && t.arrived == s.arrived + 1)
          || (t.gen == s.gen && t.arrived == s.arrived && Arrivals(t.place[l]) == s.gen && Todo(u, t.place[l]) < Todo(u, s.place[l])))
  {
    assert PlaceOk(s, s.place[l]) && SlotOk(u, s, l);
  }

  lemma {:induction false} LaneArrives(u: Setup, events: seq<Event>, l: nat) returns (more: seq<Event>)
    requires ValidSetup(u) && u.closing && l < u.lanes
    requires var s := Exec(u, events); |s.place| == u.lanes && Arrivals(s.place[l]) == s.gen
    ensures events <= more
    ensures var s, t := Exec(u, events), Exec(u, more);
      && |t.place| == u.lanes && (forall j: nat :: j < u.lanes && j != l ==> t.place[j] == s.place[j])
      && (t.gen == s.gen + 1 || (t.gen == s.gen && t.arrived == s.arrived + 1))
    decreases Todo(u, Exec(u, events).place[l])
  {
    var s := Exec(u, events);
    ExchangeSafe(u, events);
    NextHelps(u, s, l);
    var t;
    more, t := Grown(u, events, s, NextEvent(u, l, s.place[l]));
    hide Apply; hide Inv; hide Arrivals; hide Todo;
    if t.gen == s.gen && t.arrived == s.arrived { more := LaneArrives(u, more, l); }
  }

  lemma {:induction false} AheadAll(s: State, n: nat)
    requires n <= |s.place| && forall l: nat :: l < n ==> Arrivals(s.place[l]) == s.gen + 1
    ensures Ahead(s, n) == n
  {
    if n > 0 { AheadAll(s, n - 1); }
  }

  // From every reachable state the barrier under way can be opened, by steps of
  // the lanes that have not arrived alone.
  lemma {:induction false} BarrierOpens(u: Setup, events: seq<Event>) returns (more: seq<Event>)
    requires ValidSetup(u) && u.closing
    ensures events <= more
    ensures var s, t := Exec(u, events), Exec(u, more);
      && |s.place| == |t.place| == u.lanes && t.gen == s.gen + 1
      && forall j: nat :: j < u.lanes && Arrivals(s.place[j]) == s.gen + 1 ==> t.place[j] == s.place[j]
    decreases u.lanes - Exec(u, events).arrived
  {
    var s := Exec(u, events);
    ExchangeSafe(u, events);
    assert |s.place| == u.lanes && s.arrived < u.lanes && s.arrived == Ahead(s, u.lanes);
    forall l: nat | l < u.lanes ensures s.gen <= Arrivals(s.place[l]) <= s.gen + 1 { assert PlaceOk(s, s.place[l]); }
    hide Inv; hide Arrivals;
    if forall l: nat :: l < u.lanes ==> Arrivals(s.place[l]) == s.gen + 1 { AheadAll(s, u.lanes); }
    var l: nat :| l < u.lanes && Arrivals(s.place[l]) == s.gen;
    more := LaneArrives(u, events, l);
    if Exec(u, more).gen == s.gen {
      StillCounting(u, more);
      more := BarrierOpens(u, more);
    }
  }

  lemma StillCounting(u: Setup, events: seq<Event>)
    requires ValidSetup(u) && u.closing
    ensures |Exec(u, events).place| == u.lanes && Exec(u, events).arrived < u.lanes
  {
    ExchangeSafe(u, events);
  }

  // No deadlock: in every reachable state, whoever waits at the first barrier can
  // come to read, and whoever waits at the second can come to the next collective.
  lemma WaiterFreed(u: Setup, events: seq<Event>, l: nat) returns (more: seq<Event>)
    requires ValidSetup(u) && u.closing && l < u.lanes
    requires var s := Exec(u, events); |s.place| == u.lanes && (s.place[l].FirstWait? || s.place[l].SecondWait?)
    ensures events <= more && |Exec(u, more).place| == u.lanes
    ensures var p := Exec(u, events).place[l];
      Exec(u, more).place[l] == if p.FirstWait? then Reading(p.c) else Publishing(p.c + 1, 0)
  {
    var s := Exec(u, events);
    ExchangeSafe(u, events);
    assert PlaceOk(s, s.place[l]);
    more := events;
    if s.place[l].gen == s.gen { more := BarrierOpens(u, events); }
    var t := Exec(u, more);
    assert t.place[l] == s.place[l] && s.place[l].gen < t.gen;
    more, t := Grown(u, more, t, Wake(l));
  }
}

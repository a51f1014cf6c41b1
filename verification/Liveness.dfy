// max_live_regs: the backward liveness sweep, and the register pressure read
// off its result.
module Liveness {

  // What the instruction scan produced: successors, used and defined registers
  // of each instruction, registers numbered 0 .. R-1.
  datatype Graph = Graph(succ: seq<seq<nat>>, uses: seq<set<nat>>, defs: seq<set<nat>>, R: nat)

  predicate Valid(g: Graph) {
    |g.succ| == |g.uses| == |g.defs| && forall i, k :: 0 <= i < |g.succ| && 0 <= k < |g.succ[i]| ==> g.succ[i][k] < |g.succ|
  }

  // A path along successor edges to a use of r, without a definition before it.
  predicate UsePath(g: Graph, p: seq<nat>, r: nat)
    requires Valid(g)
  {
    p != [] && p[0] < |g.succ| &&
    if |p| == 1 then r in g.uses[p[0]]
    else r !in g.defs[p[0]] && p[1] in g.succ[p[0]] && UsePath(g, p[1..], r)
  }

  ghost predicate LiveIn(g: Graph, i: nat, r: nat)
    requires Valid(g)
  {
    exists p: seq<nat> :: UsePath(g, p, r) && p[0] == i
  }

  ghost predicate LiveOut(g: Graph, i: nat, r: nat)
    requires Valid(g) && i < |g.succ|
  {
    exists p: seq<nat> :: UsePath(g, p, r) && p[0] in g.succ[i]
  }

  lemma LiveInStep(g: Graph, i: nat, r: nat)
    requires Valid(g) && i < |g.succ| && (r in g.uses[i] || (LiveOut(g, i, r) && r !in g.defs[i]))
    ensures LiveIn(g, i, r)
  {
    if r in g.uses[i] {
      assert UsePath(g, [i], r);
    } else {
      var p :| UsePath(g, p, r) && p[0] in g.succ[i];
      assert ([i] + p)[1..] == p;
      assert UsePath(g, [i] + p, r);
    }
  }

  lemma LiveOutStep(g: Graph, i: nat, s: nat, r: nat)
    requires Valid(g) && i < |g.succ| && s in g.succ[i] && LiveIn(g, s, r)
    ensures LiveOut(g, i, r)
  { }

  // ---- the two tables ----------------------------------------------------------

  type Cell = (bool, nat, nat)                      // (liveOut?, instruction, register)

  // Instruction i's own equations hold of the marked cells.
  ghost predicate Closed(g: Graph, marked: set<Cell>, i: nat)
    requires Valid(g) && i < |g.succ|
  {
    && (forall s: nat, r: nat :: s in g.succ[i] && (false, s, r) in marked ==> (true, i, r) in marked)
    && (forall r: nat :: r < g.R && (r in g.uses[i] || ((true, i, r) in marked && r !in g.defs[i])) ==> (false, i, r) in marked)
  }

  class Tables {
    const n: nat
    const R: nat
    const liveIn: array2<bool>
    const liveOut: array2<bool>
    ghost var marked: set<Cell>                     // the cells that are set

    constructor (n: nat, R: nat)
      ensures this.n == n && this.R == R && Shaped() && marked == {} && fresh(liveIn) && fresh(liveOut)
    {
      this.n, this.R := n, R;
      liveIn := new bool[n, R]((_, _) => false);
      liveOut := new bool[n, R]((_, _) => false);
      marked := {};
    }

    ghost predicate Shaped()
      reads this, liveIn, liveOut
    {
      && liveIn.Length0 == liveOut.Length0 == n && liveIn.Length1 == liveOut.Length1 == R && liveIn != liveOut
      && (forall c :: c in marked ==> c.1 < n && c.2 < R)
      && forall i: nat, r: nat :: i < n && r < R ==>
        (liveIn[i, r] <==> (false, i, r) in marked) && (liveOut[i, r] <==> (true, i, r) in marked)
    }

    // Only what a path justifies is marked.
    ghost predicate Sound(g: Graph)
      requires Valid(g) && n == |g.succ|
      reads this
    {
      forall i: nat, r: nat ::
        ((false, i, r) in marked && i < n ==> LiveIn(g, i, r)) && ((true, i, r) in marked && i < n ==> LiveOut(g, i, r))
    }

    method MarkIn(i: nat, r: nat)
      requires Shaped() && i < n && r < R
      modifies this, liveIn
      ensures Shaped() && marked == old(marked) + {(false, i, r)}
    {
      liveIn[i, r] := true;
      marked := marked + {(false, i, r)};
    }

    method MarkOut(i: nat, r: nat)
      requires Shaped() && i < n && r < R
      modifies this, liveOut
      ensures Shaped() && marked == old(marked) + {(true, i, r)}
    {
      liveOut[i, r] := true;
      marked := marked + {(true, i, r)};
    }

    // liveOut[i] takes in the liveIn of successor s.
    method Merge(g: Graph, i: nat, s: nat) returns (changed: bool)
      requires Valid(g) && n == |g.succ| && R == g.R && Shaped() && Sound(g) && i < n && s in g.succ[i] && s < n
      modifies this, liveOut
      ensures Shaped() && Sound(g) && old(marked) <= marked && (changed <==> marked != old(marked))
      ensures forall r: nat :: (false, s, r) in marked ==> (true, i, r) in marked
    {
      changed := false;
      for r := 0 to R
        invariant Shaped() && Sound(g) && old(marked) <= marked && (changed <==> marked != old(marked))
        invariant forall k: nat :: k < r && (false, s, k) in marked ==> (true, i, k) in marked
        invariant forall k: nat :: (false, s, k) in marked <==> (false, s, k) in old(marked)
      {
        if liveIn[s, r] && !liveOut[i, r] {
          LiveOutStep(g, i, s, r);
          MarkOut(i, r);
          changed := true;
        }
      }
    }

    // liveIn[i] = uses + (liveOut - defs)
    method Transfer(g: Graph, i: nat) returns (changed: bool)
      requires Valid(g) && n == |g.succ| && R == g.R && Shaped() && Sound(g) && i < n
      modifies this, liveIn
      ensures Shaped() && Sound(g) && old(marked) <= marked && (changed <==> marked != old(marked))
      ensures !changed ==> forall r: nat :: r < R && (r in g.uses[i] || ((true, i, r) in marked && r !in g.defs[i])) ==> (false, i, r) in marked
    {
      changed := false;
      for r := 0 to R
        invariant Shaped() && Sound(g) && old(marked) <= marked && (changed <==> marked != old(marked))
        invariant !changed ==> forall k: nat :: k < r && (k in g.uses[i] || ((true, i, k) in marked && k !in g.defs[i])) ==> (false, i, k) in marked
      {
        var v := r in g.uses[i] || (liveOut[i, r] && r !in g.defs[i]);
        if v && !liveIn[i, r] {
          LiveInStep(g, i, r);
          MarkIn(i, r);
          changed := true;
        }
      }
    }

    method Visit(g: Graph, i: nat) returns (changed: bool)
      requires Valid(g) && n == |g.succ| && R == g.R && Shaped() && Sound(g) && i < n
      modifies this, liveIn, liveOut
      ensures Shaped() && Sound(g) && old(marked) <= marked && (changed <==> marked != old(marked))
      ensures !changed ==> Closed(g, marked, i)
    {
      changed := false;
      for k := 0 to |g.succ[i]|
        invariant Shaped() && Sound(g) && old(marked) <= marked && (changed <==> marked != old(marked))
        invariant !changed ==> forall j: nat, r: nat :: j < k && (false, g.succ[i][j], r) in marked ==> (true, i, r) in marked
      {
        var more := Merge(g, i, g.succ[i][k]);
        changed := changed || more;
      }
      var more := Transfer(g, i);
      changed := changed || more;
    }

    // One backward sweep over the body.
    method Sweep(g: Graph) returns (changed: bool)
      requires Valid(g) && n == |g.succ| && R == g.R && Shaped() && Sound(g)
      modifies this, liveIn, liveOut
      ensures Shaped() && Sound(g) && old(marked) <= marked && (changed <==> marked != old(marked))
      ensures !changed ==> forall i: nat :: i < n ==> Closed(g, marked, i)
    {
      changed := false;
      for i := n downto 0
        invariant Shaped() && Sound(g) && old(marked) <= marked && (changed <==> marked != old(marked))
        invariant !changed ==> forall j: nat :: i <= j < n ==> Closed(g, marked, j)
      {
        var more := Visit(g, i);
        changed := changed || more;
      }
    }
  }

  // ---- at the fixpoint nothing is missing --------------------------------------------

  lemma {:induction false} PathMarked(g: Graph, t: Tables, p: seq<nat>, r: nat)
    requires Valid(g) && t.n == |g.succ| && t.R == g.R && t.Shaped() && r < t.R && UsePath(g, p, r)
    requires forall i: nat :: i < t.n ==> Closed(g, t.marked, i)
    ensures (false, p[0], r) in t.marked
  {
    assert Closed(g, t.marked, p[0]);
    if |p| > 1 { PathMarked(g, t, p[1..], r); }
  }

  lemma Exact(g: Graph, t: Tables)
    requires Valid(g) && t.n == |g.succ| && t.R == g.R && t.Shaped() && t.Sound(g)
    requires forall i: nat :: i < t.n ==> Closed(g, t.marked, i)
    ensures forall i: nat, r: nat :: i < t.n && r < t.R ==> (t.liveOut[i, r] <==> LiveOut(g, i, r))
  {
    forall i: nat, r: nat | i < t.n && r < t.R && LiveOut(g, i, r) ensures t.liveOut[i, r] {
      var p :| UsePath(g, p, r) && p[0] in g.succ[i];
      PathMarked(g, t, p, r);
      assert Closed(g, t.marked, i);
    }
  }

  // ---- how many rounds it can take ------------------------------------------------------

  function Row(b: bool, i: nat, R: nat): set<Cell> { set r: nat | r < R :: (b, i, r) }
  function Cells(b: bool, n: nat, R: nat): set<Cell> { set i: nat, r: nat | i < n && r < R :: (b, i, r) }

  lemma {:induction false} RowSize(b: bool, i: nat, R: nat)
    ensures |Row(b, i, R)| == R
  {
    if R > 0 {
      RowSize(b, i, R - 1);
      assert Row(b, i, R) == Row(b, i, R - 1) + {(b, i, R - 1)};
    }
  }

  lemma {:induction false} CellsSize(b: bool, n: nat, R: nat)
    ensures |Cells(b, n, R)| == n * R
  {
    if n == 0 {
      assert Cells(b, n, R) == {};
    } else {
      CellsSize(b, n - 1, R);
      RowSize(b, n - 1, R);
      assert Cells(b, n, R) == Cells(b, n - 1, R) + Row(b, n - 1, R);
      assert Cells(b, n - 1, R) !! Row(b, n - 1, R);
      assert (n - 1) * R + R == n * R;
    }
  }

  lemma {:induction false} SubsetSize<T>(a: set<T>, b: set<T>)
    requires a <= b
    ensures |a| <= |b|
  {
    if a != {} {
      var x :| x in a;
      SubsetSize(a - {x}, b - {x});
    }
  }

  lemma CellThere(c: Cell, n: nat, R: nat)
    requires c.1 < n && c.2 < R
    ensures c in Cells(false, n, R) || c in Cells(true, n, R)
  {
    var (b, i, r) := c;
    if b { assert (true, i, r) in Cells(true, n, R); } else { assert (false, i, r) in Cells(false, n, R); }
  }

  lemma MarkedBound(t: Tables)
    requires t.Shaped()
    ensures |t.marked| <= 2 * (t.n * t.R)
  {
    var all := Cells(false, t.n, t.R) + Cells(true, t.n, t.R);
    CellsSize(false, t.n, t.R);
    CellsSize(true, t.n, t.R);
    assert Cells(false, t.n, t.R) !! Cells(true, t.n, t.R);
    forall c | c in t.marked ensures c in all { CellThere(c, t.n, t.R); }
    SubsetSize(t.marked, all);
  }

  lemma StrictlyMore<T>(a: set<T>, b: set<T>)
    requires a < b
    ensures |a| < |b|
  {
    var x :| x in b && x !in a;
    SubsetSize(a + {x}, b);
  }

  const MAX_ROUNDS: nat := 100_000

  // Sweep until nothing changes, at most MAX_ROUNDS times.
  method Solve(g: Graph) returns (t: Tables, settled: bool, rounds: nat)
    requires Valid(g)
    ensures fresh(t) && t.n == |g.succ| && t.R == g.R && t.Shaped() && t.Sound(g)
    ensures settled ==> forall i: nat, r: nat :: i < t.n && r < t.R ==> (t.liveOut[i, r] <==> LiveOut(g, i, r))
    ensures rounds <= 2 * (|g.succ| * g.R) + 1 && rounds <= 100_000
    ensures 2 * (|g.succ| * g.R) < 100_000 ==> settled
  {
    t := new Tables(|g.succ|, g.R);
    rounds := 0;
    var changed := true;
    MarkedBound(t);
    while rounds < MAX_ROUNDS && changed
      invariant fresh(t) && fresh(t.liveIn) && fresh(t.liveOut) && t.n == |g.succ| && t.R == g.R && t.Shaped() && t.Sound(g)
      invariant rounds <= MAX_ROUNDS
      invariant !changed ==> forall i: nat :: i < t.n ==> Closed(g, t.marked, i)
      invariant |t.marked| >= (if changed then rounds else rounds - 1)
      invariant |t.marked| <= 2 * (t.n * t.R)
      decreases MAX_ROUNDS - rounds
    {
      ghost var before := t.marked;
      changed := t.Sweep(g);
      if changed { StrictlyMore(before, t.marked); }
      MarkedBound(t);
      rounds := rounds + 1;
    }
    settled := !changed;
    if settled { Exact(g, t); }
  }

  // ---- pressure -----------------------------------------------------------------------------

  // Weight of a declared register: predicates are free, 64-bit ones count double.
  function Weight(bits: int): nat { if bits <= 1 then 0 else if bits >= 64 then 2 else 1 }

  // declared_regs_bound over the declarations.
  function DeclaredBound(bits: seq<int>, d: nat): nat
    requires d <= |bits|
  {
    if d == 0 then 0 else DeclaredBound(bits, d - 1) + Weight(bits[d - 1])
  }

  // How many of the first d declarations have at least `least` bits.
  function Wider(bits: seq<int>, least: int, d: nat): nat
    requires d <= |bits|
  {
    if d == 0 then 0 else Wider(bits, least, d - 1) + (if bits[d - 1] >= least then 1 else 0)
  }

  // Every register wider than a predicate counts once, those of 64 bits or more
  // a second time.
  lemma {:induction false} DeclaredIs(bits: seq<int>, d: nat)
    requires d <= |bits|
    ensures DeclaredBound(bits, d) == Wider(bits, 2, d) + Wider(bits, 64, d)
  {
    if d > 0 { DeclaredIs(bits, d - 1); }
  }

  // The declarations in `some`, among the first d.
  function Chosen(bits: seq<int>, some: set<nat>, d: nat): nat
    requires d <= |bits|
  {
    if d == 0 then 0 else Chosen(bits, some, d - 1) + (if d - 1 in some then Weight(bits[d - 1]) else 0)
  }

  lemma {:induction false} ChosenOneMore(bits: seq<int>, some: set<nat>, x: nat, d: nat)
    requires d <= |bits| && x !in some && x < |bits|
    ensures Chosen(bits, some + {x}, d) == Chosen(bits, some, d) + (if x < d then Weight(bits[x]) else 0)
  {
    if d > 0 { ChosenOneMore(bits, some, x, d - 1); }
  }

  lemma {:induction false} ChosenWithin(bits: seq<int>, some: set<nat>, d: nat)
    requires d <= |bits|
    ensures Chosen(bits, some, d) <= DeclaredBound(bits, d)
  {
    if d > 0 { ChosenWithin(bits, some, d - 1); }
  }

  // Registers get their numbers on first mention; ids[r] is the declaration of
  // register r.
  predicate Numbering(bits: seq<int>, ids: seq<nat>) {
    (forall r :: 0 <= r < |ids| ==> ids[r] < |bits|) && forall r, s :: 0 <= r < s < |ids| ==> ids[r] != ids[s]
  }

  // Adds up the weights of one row of the table.
  method PointWeight(bits: seq<int>, ids: seq<nat>, t: Tables, i: nat) returns (w: nat)
    requires Numbering(bits, ids) && t.Shaped() && |ids| == t.R && i < t.n
    ensures w == Chosen(bits, set r: nat | r < t.R && t.liveOut[i, r] :: ids[r], |bits|)
  {
    w := 0;
    ghost var some: set<nat> := {};
    EmptyChosen(bits, |bits|);
    for r := 0 to t.R
      invariant w == Chosen(bits, some, |bits|)
      invariant some == set k: nat | k < r && t.liveOut[i, k] :: ids[k]
    {
      if t.liveOut[i, r] {
        ChosenOneMore(bits, some, ids[r], |bits|);
        w := w + Weight(bits[ids[r]]);
        some := some + {ids[r]};
      }
    }
  }

  lemma {:induction false} EmptyChosen(bits: seq<int>, d: nat)
    requires d <= |bits|
    ensures Chosen(bits, {}, d) == 0
  {
    if d > 0 { EmptyChosen(bits, d - 1); }
  }

  // What is live behind instruction i, in weight.
  ghost function Pressure(g: Graph, bits: seq<int>, ids: seq<nat>, i: nat): nat
    requires Valid(g) && i < |g.succ| && |ids| == g.R
  {
    Chosen(bits, set r: nat | r < g.R && LiveOut(g, i, r) :: ids[r], |bits|)
  }

  // The pressure at one point never exceeds what is declared.
  lemma PressureWithin(g: Graph, bits: seq<int>, ids: seq<nat>, i: nat)
    requires Valid(g) && i < |g.succ| && |ids| == g.R
    ensures Pressure(g, bits, ids, i) <= DeclaredBound(bits, |bits|)
  {
    ChosenWithin(bits, set r: nat | r < g.R && LiveOut(g, i, r) :: ids[r], |bits|);
  }

  // The largest pressure over all program points, -1 for an empty body; whether
  // the sweep settled.
  method MaxLiveRegs(g: Graph, bits: seq<int>, ids: seq<nat>) returns (best: int, settled: bool)
    requires Valid(g) && Numbering(bits, ids) && |ids| == g.R
    ensures if |g.succ| == 0 then best == -1 else 0 <= best <= DeclaredBound(bits, |bits|)
    ensures 2 * (|g.succ| * g.R) < 100_000 ==> settled
    ensures settled ==> forall i: nat :: i < |g.succ| ==> Pressure(g, bits, ids, i) <= best
    ensures settled && |g.succ| > 0 ==> exists i: nat :: i < |g.succ| && Pressure(g, bits, ids, i) == best
  {
    if |g.succ| == 0 { return -1, true; }
    var t, s, _ := Solve(g);
    settled := s;
    best := 0;
    for i := 0 to t.n
      invariant t.Shaped() && 0 <= best <= DeclaredBound(bits, |bits|)
      invariant s ==> forall i: nat, r: nat :: i < t.n && r < t.R ==> (t.liveOut[i, r] <==> LiveOut(g, i, r))
      invariant s ==> forall j: nat :: j < i ==> Pressure(g, bits, ids, j) <= best
      invariant s && i > 0 ==> exists j: nat :: j < i && Pressure(g, bits, ids, j) == best
      invariant i == 0 ==> best == 0
    {
      var w := PointWeight(bits, ids, t, i);
      ChosenWithin(bits, set r: nat | r < t.R && t.liveOut[i, r] :: ids[r], |bits|);
      if s {
        assert (set r: nat | r < t.R && t.liveOut[i, r] :: ids[r]) == (set r: nat | r < g.R && LiveOut(g, i, r) :: ids[r]);
        assert Pressure(g, bits, ids, i) == w;
      }
      if w > best { best := w; }
    }
  }
}

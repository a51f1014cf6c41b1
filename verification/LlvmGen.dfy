// The code generator as the source runs it: one object whose methods fold the
// body, name the blocks and append lines. Its output is the Text of a listing.
module LlvmGen {
  import opened Ptx
  import opened Ir
  import opened Lowering
  import opened Layout

  lemma {:induction false} NamesKept(code: seq<Instr>, labels: map<Name, nat>, names: seq<BlockName>, more: BlockName, n: nat)
    requires n <= |names| < |code| && NamesOk(code, labels, names, n)
    ensures NamesOk(code, labels, names + [more], n)
    decreases n
  {
    if n > 0 {
      NamesKept(code, labels, names, more, n - 1);
      assert NameOk(code, labels, names, n - 1);
    }
  }

  lemma OneOverride(k: Kernel, base: map<Name, nat>, done: set<Name>, l: Name)
    requires l in k.labels
    ensures base + Overrides(k, done + {l}) ==
            if k.labels[l] < |k.body| then (base + Overrides(k, done))[l := NewIndex(k, k.labels[l])] else base + Overrides(k, done)
  {
    hide NewIndex;
  }

  // The order of the label table: by spelling.
  predicate SpelledBefore(a: Name, b: Name) {
    b != [] && (a == [] || a[0] < b[0] || (a[0] == b[0] && SpelledBefore(a[1..], b[1..])))
  }

  lemma {:induction false} SpelledOn(a: Name, b: Name, c: Name)
    requires SpelledBefore(a, b) && SpelledBefore(b, c)
    ensures SpelledBefore(a, c)
  {
    if a != [] && a[0] == b[0] == c[0] { SpelledOn(a[1..], b[1..], c[1..]); }
  }

  lemma {:induction false} SpelledApart(a: Name, b: Name)
    ensures a == b || SpelledBefore(a, b) || SpelledBefore(b, a)
  {
    if a != [] && b != [] && a[0] == b[0] {
      SpelledApart(a[1..], b[1..]);
      if a[1..] == b[1..] { assert a == [a[0]] + a[1..] == b; }
    }
  }

  class LlvmGen {
    const k: Kernel
    var body: seq<Instr>
    var labels: map<Name, nat>
    var blockName: seq<BlockName>
    var anonSeq: nat
    var needRet: bool
    var out: seq<Line>

    constructor (k: Kernel)
      ensures this.k == k && fresh(this)
      ensures body == [] && labels == map[] && blockName == [] && anonSeq == 0 && !needRet && out == []
    {
      this.k := k;
      body, labels, blockName, anonSeq, needRet, out := [], map[], [], 0, false, [];
    }

    ghost function Built(): Listing
      reads this
    {
      Listing(k, body, labels, blockName)
    }

    // normalize_body: drop the label marks, then let the parser's labels
    // override what the marks said.
    method NormalizeBody()
      requires labels == map[]
      modifies `body, `labels
      ensures body == Kept(k.body) && labels == LabelTable(k)
    {
      var oldToNew := FoldMarks();
      OverrideLabels(oldToNew);
    }

    method FoldMarks() returns (oldToNew: seq<nat>)
      requires labels == map[]
      modifies `body, `labels
      ensures body == Kept(k.body) && labels == Marks(k.body)
      ensures |oldToNew| == |k.body| && forall p: nat :: p < |k.body| ==> oldToNew[p] == NewIndex(k, p)
    {
      oldToNew := [];
      body := [];
      var i := 0;
      while i < |k.body|
        invariant i <= |k.body| && |oldToNew| == i
        invariant body == Kept(k.body[..i]) && labels == Marks(k.body[..i])
        invariant forall p: nat :: p < i ==> oldToNew[p] == NewIndex(k, p)
      {
        var ins := k.body[i];
        assert k.body[..i + 1][..i] == k.body[..i];
        oldToNew := oldToNew + [|body|];
        if ins.LabelMark? { labels := labels[ins.name := |body|]; } else { body := body + [ins]; }
        i := i + 1;
      }
      assert k.body[..i] == k.body;
    }

    method OverrideLabels(oldToNew: seq<nat>)
      requires |oldToNew| == |k.body| && forall p: nat :: p < |k.body| ==> oldToNew[p] == NewIndex(k, p)
      modifies `labels
      ensures labels == old(labels) + Overrides(k, k.labels.Keys)
    {
      var todo, done := k.labels.Keys, {};
      while todo != {}
        invariant todo + done == k.labels.Keys
        invariant labels == old(labels) + Overrides(k, done)
        decreases todo
      {
        var l :| l in todo;
        if k.labels[l] < |oldToNew| { labels := labels[l := oldToNew[k.labels[l]]]; }
        OneOverride(k, old(labels), done, l);
        todo, done := todo - {l}, done + {l};
      }
    }

    // label_at: of the labels of index i the first by spelling, if there is one.
    method LabelAt(i: nat) returns (l: Option<Name>)
      ensures l.None? <==> !Labelled(labels, i)
      ensures l.Some? ==> l.value in labels && labels[l.value] == i
      ensures l.Some? ==> forall n :: n in labels && labels[n] == i ==> n == l.value || SpelledBefore(l.value, n)
    {
      l := None;
      var todo := labels.Keys;
      while todo != {}
        invariant todo <= labels.Keys
        invariant l.None? ==> forall n :: n in labels && n !in todo ==> labels[n] != i
        invariant l.Some? ==> l.value in labels && labels[l.value] == i
        invariant l.Some? ==> forall n :: n in labels && n !in todo && labels[n] == i ==> n == l.value || SpelledBefore(l.value, n)
        decreases todo
      {
        var n :| n in todo;
        if labels[n] == i && (l.None? || SpelledBefore(n, l.value)) {
          if l.Some? {
            forall m | SpelledBefore(l.value, m) ensures SpelledBefore(n, m) { SpelledOn(n, l.value, m); }
          }
          l := Some(n);
        } else if labels[n] == i {
          SpelledApart(l.value, n);
        }
        todo := todo - {n};
      }
    }

    method BuildBlockNames()
      requires anonSeq == 0
      modifies `blockName, `anonSeq
      ensures |blockName| == |body| && NamesOk(body, labels, blockName, |blockName|)
    {
      blockName := [];
      var termPrev := true;
      var i := 0;
      while i < |body|
        invariant i == |blockName| <= |body|
        invariant NamesOk(body, labels, blockName, i)
        invariant i > 0 ==> (termPrev <==> Terminator(body[i - 1]))
        invariant anonSeq == AnonBefore(body, labels, i)
      {
        var lab := LabelAt(i);
        var name;
        if lab.Some? {
          name := Named(lab.value);
        } else if i == 0 {
          name := Entry;
        } else if termPrev {
          name := Anon(anonSeq);
          anonSeq := anonSeq + 1;
        } else {
          name := blockName[i - 1];
        }
        NamesKept(body, labels, blockName, name, i);
        blockName := blockName + [name];
        termPrev := Terminator(body[i]);
        i := i + 1;
      }
    }

    method EmitTerminator(i: nat)
      requires i < |body| == |blockName|
      modifies `out, `needRet
      ensures out == old(out) + Ending(Built(), i)
      ensures needRet <==> old(needRet) || (i + 1 == |body| && NeedsRet(Built()))
    {
      match body[i]
      case Ret(_) => out := out + [RetVoid];
      case Bra(guard, target) =>
        if target !in labels { return; }
        match guard {
          case Always => out := out + [Br(Named(target))];
          case When(_, _) =>
            var fall;
            if i + 1 < |body| { fall := blockName[i + 1]; } else { needRet := true; fall := RET; }
            out := out + [CondBr(GuardExp(k, guard), Named(target), fall)];
        }
      case _ =>
        if i + 1 >= |body| {
          out := out + [RetVoid];
        } else if blockName[i + 1] != blockName[i] {
          out := out + [Br(blockName[i + 1])];
        }
    }

    // One turn of generate's loop.
    method EmitOne(i: nat)
      requires i < |body| == |blockName|
      modifies `out, `needRet
      ensures out == old(out) + Chunk(Built(), i)
      ensures needRet <==> old(needRet) || (i + 1 == |body| && NeedsRet(Built()))
    {
      hide LowerInstr; hide Ending; hide NeedsRet;
      if i > 0 && blockName[i] != blockName[i - 1] { out := out + [Label(blockName[i])]; }
      out := out + LowerInstr(k, body[i]);
      EmitTerminator(i);
    }

    // False for an empty body; otherwise the text of a listing of the kernel.
    method Generate() returns (ok: bool)
      requires labels == map[] && blockName == [] && anonSeq == 0 && !needRet && out == []
      modifies this
      ensures ok <==> Kept(k.body) != []
      ensures ok ==> IsListing(Built()) && Built().k == k && out == Text(Built())
    {
      NormalizeBody();
      if body == [] { return false; }
      BuildBlockNames();
      if blockName[0] != Entry { out := [Label(Entry), Br(blockName[0])]; }
      EmitAll();
      if needRet { out := out + [Label(RET), RetVoid]; }
      return true;
    }

    method EmitAll()
      requires |body| == |blockName| > 0 && !needRet && out == Preamble(Built())
      modifies `out, `needRet
      ensures out == BodyText(Built(), |body|) && (needRet <==> NeedsRet(Built()))
    {
      hide Chunk; hide NeedsRet; hide Preamble;
      var i := 0;
      while i < |body|
        invariant i <= |body|
        invariant out == BodyText(Built(), i)
        invariant needRet <==> i == |body| && NeedsRet(Built())
      {
        EmitOne(i);
        i := i + 1;
      }
    }
  }
}

/** The grammar simplifier as it runs: a tree of definitions whose nodes are overwritten in
    place.

    A node is addressed by its definition and its path of child positions, and every write
    goes to the definitions held by the object, so a node that is being rewritten is seen
    half done by whoever reads its definition. */
module BnfSimplifier {
  import opened BnfLanguage
  import opened BnfSimplify
  import opened BnfTermination

  // ----- paths -----

  predicate On(t: Bnf, p: seq<nat>) {
    p == [] || (p[0] < |t.kids| && On(t.kids[p[0]], p[1..]))
  }

  function At(t: Bnf, p: seq<nat>): Bnf
    requires On(t, p)
  {
    if p == [] then t else At(t.kids[p[0]], p[1..])
  }

  function Put(t: Bnf, p: seq<nat>, u: Bnf): Bnf
    requires On(t, p)
  {
    if p == [] then u else t.(kids := t.kids[p[0] := Put(t.kids[p[0]], p[1..], u)])
  }

  function PutDef(defs: seq<Def>, d: nat, p: seq<nat>, u: Bnf): seq<Def>
    requires d < |defs| && On(defs[d].body, p)
  {
    Rebody(defs, d, Put(defs[d].body, p, u))
  }

  lemma {:induction false} PutTwice(t: Bnf, p: seq<nat>, u: Bnf, v: Bnf)
    requires On(t, p)
    ensures On(Put(t, p, u), p) && At(Put(t, p, u), p) == u
    ensures Put(Put(t, p, u), p, v) == Put(t, p, v)
    ensures Put(t, p, At(t, p)) == t
    ensures p != [] ==> Put(t, p, u).id == t.id
  {
    if p != [] {
      PutTwice(t.kids[p[0]], p[1..], u, v);
    }
  }

  lemma {:induction false} PutChild(t: Bnf, p: seq<nat>, i: nat, u: Bnf)
    requires On(t, p) && i < |At(t, p).kids|
    ensures On(t, p + [i]) && At(t, p + [i]) == At(t, p).kids[i]
    ensures Put(t, p + [i], u) == Put(t, p, At(t, p).(kids := At(t, p).kids[i := u]))
  {
    if p != [] {
      PutChild(t.kids[p[0]], p[1..], i, u);
      assert (p + [i])[1..] == p[1..] + [i];
    } else {
      assert (p + [i])[1..] == [];
    }
  }

  // ----- inlining a reference -----

  /** The writes of inlining definition e at a reference: the node first takes over the head
      of e's body, and then copies of the children e's body has by that time. */
  function InlineWrites(defs: seq<Def>, d: nat, p: seq<nat>, e: nat): seq<Def>
    requires d < |defs| && e < |defs| && On(defs[d].body, p)
  {
    var rule := defs[e].body;
    var head := Bnf(rule.id, rule.name, rule.optional, At(defs[d].body, p).kids);
    var half := PutDef(defs, d, p, head);
    PutDef(defs, d, p, head.(kids := half[e].body.kids))
  }

  /** No live reference in the tree leads to definition d. */
  predicate Avoids(defs: seq<Def>, t: Bnf, d: nat)
    decreases t
  {
    && (t.id == Rule ==> Find(defs, t.name) != d)
    && (Composite(t) ==> forall i :: 0 <= i < |t.kids| ==> Avoids(defs, t.kids[i], d))
  }

  /** No rule marked for inlining refers to itself from inside its body. */
  predicate NoSelfInline(defs: seq<Def>) {
    forall d :: 0 <= d < |defs| && defs[d].inlined && defs[d].body.id != Rule ==> Avoids(defs, defs[d].body, d)
  }

  /** Inlining at a reference writes exactly the body of the rule, unless the reference is
      inside that same body: then the copy always differs from it. */
  lemma InlineExact(defs: seq<Def>, d: nat, p: seq<nat>, e: nat)
    requires d < |defs| && e < |defs| && On(defs[d].body, p)
    requires At(defs[d].body, p).id == Rule && (p != [] ==> Composite(defs[d].body))
    ensures InlineWrites(defs, d, p, e) == PutDef(defs, d, p, defs[e].body) <==> e != d || p == []
  {
    var body, rule := defs[d].body, defs[e].body;
    var head := Bnf(rule.id, rule.name, rule.optional, At(body, p).kids);
    if e == d && p != [] {
      var half := Put(body, p, head);
      PutTwice(body, p, head, head);
      assert half != body && half.(kids := body.kids) == body;
      var copy := head.(kids := half.kids);
      PutTwice(body, p, copy, copy);
      PutTwice(body, p, rule, rule);
      assert Put(body, p, copy) != Put(body, p, rule);
      assert InlineWrites(defs, d, p, e)[d].body == Put(body, p, copy);
    }
  }

  /** A rule `a : "x" a` marked for inlining derives nothing; inlining it into itself leaves
      a rule that derives "xx", because the copy is taken of the half-written node. */
  lemma SelfInlineChangesLanguage()
    ensures var x := Bnf(QuotedToken, "x", false, []);
            var defs := [Def("a", true, Bnf(Seq, "", false, [x, Bnf(Rule, "a", false, [])]))];
            var w := [Terminal(true, "x"), Terminal(true, "x")];
            && !NoSelfInline(defs)
            && !InRule(defs, "a", w)
            && InRule(InlineWrites(defs, 0, [1], 0), "a", w)
  {
    var x := Bnf(QuotedToken, "x", false, []);
    var r := Bnf(Rule, "a", false, []);
    var body := Bnf(Seq, "", false, [x, r]);
    var defs := [Def("a", true, body)];
    var w := [Terminal(true, "x"), Terminal(true, "x")];
    assert !Avoids(defs, body, 0) by {
      assert body.kids[1] == r && !Avoids(defs, r, 0);
    }
    assert !NoSelfInline(defs) by {
      assert defs[0].inlined;
    }
    forall k: nat
      ensures !Derives(defs, defs[0].body, w, k)
    {
      SelfReferenceDerivesNothing(defs, x, w, k);
    }
    SelfInlined(x);
    var g := InlineWrites(defs, 0, [1], 0);
    var w1 := [Terminal(true, "x")];
    assert Derives(g, x, w1, 0);
    DerivesTwice(g, x, w1);
    assert w1 + w1 == w;
    assert Derives(g, g[0].body, w, 0);
  }

  /** The node, half written, is an empty sequence. */
  lemma SelfInlined(x: Bnf)
    ensures var defs := [Def("a", true, Bnf(Seq, "", false, [x, Bnf(Rule, "a", false, [])]))];
            var hole := Bnf(Seq, "", false, []);
            InlineWrites(defs, 0, [1], 0)
            == [Def("a", true, Bnf(Seq, "", false, [x, Bnf(Seq, "", false, [x, hole])]))]
  {
    var r, hole := Bnf(Rule, "a", false, []), Bnf(Seq, "", false, []);
    var body := Bnf(Seq, "", false, [x, r]);
    PutSecond(body, hole);
    PutSecond(body, Bnf(Seq, "", false, [x, hole]));
    hide Put, At, On;
    var defs := [Def("a", true, body)];
    assert PutDef(defs, 0, [1], hole) == [Def("a", true, Bnf(Seq, "", false, [x, hole]))];
  }

  lemma PutSecond(t: Bnf, u: Bnf)
    requires |t.kids| == 2
    ensures On(t, [1]) && At(t, [1]) == t.kids[1] && Put(t, [1], u) == t.(kids := [t.kids[0], u])
  {
    var p: seq<nat> := [1];
    assert p[1..] == [];
  }

  lemma DerivesTwice(g: seq<Def>, x: Bnf, w: Sentence)
    requires Derives(g, x, w, 0)
    ensures var hole := Bnf(Seq, "", false, []);
            Derives(g, Bnf(Seq, "", false, [x, Bnf(Seq, "", false, [x, hole])]), w + w, 0)
  {
    var hole := Bnf(Seq, "", false, []);
    var inner := Bnf(Seq, "", false, [x, hole]);
    assert Derives(g, hole, [], 0);
    DerivesPair(g, x, hole, w, []);
    assert w + [] == w;
    DerivesPair(g, x, inner, w, w);
  }

  lemma DerivesPair(g: seq<Def>, x: Bnf, y: Bnf, v: Sentence, w: Sentence)
    requires Derives(g, x, v, 0) && Derives(g, y, w, 0)
    ensures DerivesSeq(g, [x, y], v + w, 0)
  {
    hide Derives;
    LoneSeq(g, y, w, 0);
    assert [x, y][1..] == [y];
    assert (v + w)[..|v|] == v && (v + w)[|v|..] == w;
  }

  lemma {:induction false} SelfReferenceDerivesNothing(defs: seq<Def>, x: Bnf, w: Sentence, k: nat)
    requires defs == [Def("a", true, Bnf(Seq, "", false, [x, Bnf(Rule, "a", false, [])]))]
    ensures !Derives(defs, defs[0].body, w, k)
    decreases k
  {
    var r := Bnf(Rule, "a", false, []);
    if Derives(defs, defs[0].body, w, k) {
      assert DerivesSeq(defs, [x, r], w, k);
      var i :| 0 <= i <= |w| && Derives(defs, x, w[..i], k) && DerivesSeq(defs, [x, r][1..], w[i..], k);
      assert [x, r][1..] == [r];
      LoneSeq(defs, r, w[i..], k);
      SelfReferenceDerivesNothing(defs, x, w[i..], k - 1);
    }
  }

  // ----- a half-rewritten definition looks the same to the rest of its body -----

  lemma {:induction false} SimplifyLocal(g: seq<Def>, h: seq<Def>, d: nat, t: Bnf)
    requires SameShape(g, h) && d < |g|
    requires forall i :: 0 <= i < |g| && i != d ==> g[i] == h[i]
    requires Composite(g[d].body) && Composite(h[d].body)
    requires g[d].inlined ==> Avoids(g, t, d)
    ensures Simplify(g, t) == Simplify(h, t)
    ensures Changed(g, t) == Changed(h, t)
    ensures h[d].inlined ==> Avoids(h, t, d)
    decreases t
  {
    SameFind(g, h, t.name);
    if Composite(t) {
      forall i | 0 <= i < |t.kids|
        ensures Simplify(g, t.kids[i]) == Simplify(h, t.kids[i])
        ensures Changed(g, t.kids[i]) == Changed(h, t.kids[i])
        ensures h[d].inlined ==> Avoids(h, t.kids[i], d)
      {
        SimplifyLocal(g, h, d, t.kids[i]);
      }
      assert SimplifyAll(g, t.kids) == SimplifyAll(h, t.kids);
      ChangedAnyMember(g, t.kids);
      ChangedAnyMember(h, t.kids);
    }
  }

  lemma HasAppend(ts: seq<Bnf>, c: Bnf, id: Kind)
    ensures Has(ts + [c], id) <==> Has(ts, id) || c.id == id
  {
    assert (ts + [c])[|ts|] == c;
    assert forall i :: 0 <= i < |ts| ==> (ts + [c])[i] == ts[i];
  }

  lemma {:induction false} LiveAppend(ts: seq<Bnf>, c: Bnf)
    ensures Live(ts + [c]) == Live(ts) + if Dead(c) then [] else [c]
  {
    if ts == [] {
      assert [c][1..] == [] && ts + [c] == [c];
    } else {
      assert (ts + [c])[1..] == ts[1..] + [c];
      LiveAppend(ts[1..], c);
    }
  }

  /** What a composite node with only live children left turns into. */
  function Collapsed(n: Bnf, anyNever: bool, anyNop: bool): Bnf {
    var optional := n.optional || anyNop;
    if n.id == Seq then
      if anyNever then n.(id := Never)
      else if n.kids == [] then n.(id := Nop)
      else if |n.kids| == 1 then n.kids[0]
      else n
    else if n.id == Or then
      if n.kids == [] then n.(id := if optional then Nop else Never, optional := optional)
      else if |n.kids| == 1 && !optional then n.kids[0]
      else n.(optional := optional)
    else if n.kids == [] then n.(id := Nop)
    else n
  }

  predicate CollapseChanges(n: Bnf, anyNever: bool, anyNop: bool) {
    || n.kids == []
    || (n.id == Seq && (anyNever || |n.kids| == 1))
    || (n.id == Or && (anyNop || (|n.kids| == 1 && !n.optional)))
  }

  lemma CollapseIsSettle(node: Bnf, ks: seq<Bnf>)
    requires Composite(node)
    ensures Collapsed(node.(kids := Live(ks)), Has(ks, Never), Has(ks, Nop)) == Settle(node, ks)
    ensures Unsettled(node, ks) <==>
              (Has(ks, Never) || Has(ks, Nop) || CollapseChanges(node.(kids := Live(ks)), Has(ks, Never), Has(ks, Nop)))
  {
    if !Has(ks, Never) && !Has(ks, Nop) {
      LiveAll(ks);
    }
  }

  /** Inlining a reference, where no rule is inlined into itself, is what Simplify says. */
  lemma ReferenceResult(defs: seq<Def>, d: nat, p: seq<nat>)
    requires d < |defs| && On(defs[d].body, p) && At(defs[d].body, p).id == Rule
    requires Find(defs, At(defs[d].body, p).name) < |defs|
    requires p != [] ==> Composite(defs[d].body)
    requires defs[d].inlined && p != [] ==> Avoids(defs, At(defs[d].body, p), d)
    ensures var e := Find(defs, At(defs[d].body, p).name);
            && Changed(defs, At(defs[d].body, p)) == Inlinable(defs[e])
            && PutDef(defs, d, p, BnfSimplify.Simplify(defs, At(defs[d].body, p)))
               == if Inlinable(defs[e]) then InlineWrites(defs, d, p, e) else defs
  {
    var node := At(defs[d].body, p);
    var e := Find(defs, node.name);
    if Inlinable(defs[e]) {
      InlineExact(defs, d, p, e);
    } else {
      PutTwice(defs[d].body, p, node, node);
    }
  }

  /** A child list after child i became s. */
  function WithChild(kids: seq<Bnf>, i: nat, s: Bnf): seq<Bnf>
    requires i < |kids|
  {
    if Dead(s) then kids[..i] + kids[i + 1..] else kids[i := s]
  }

  // ----- the state while the children of a node are being simplified -----

  /** The children when the first j have been dealt with. */
  ghost function MidwayKids(was: seq<Def>, node: Bnf, j: nat): seq<Bnf>
    requires j <= |node.kids|
  {
    Live(SimplifyAll(was, node.kids)[..j]) + node.kids[j..]
  }

  ghost function Midway(was: seq<Def>, d: nat, p: seq<nat>, j: nat): seq<Def>
    requires d < |was| && On(was[d].body, p) && j <= |At(was[d].body, p).kids|
  {
    var node := At(was[d].body, p);
    PutDef(was, d, p, node.(kids := MidwayKids(was, node, j)))
  }

  lemma MidwayEnds(was: seq<Def>, d: nat, p: seq<nat>)
    requires d < |was| && On(was[d].body, p)
    ensures Midway(was, d, p, 0) == was
    ensures MidwayKids(was, At(was[d].body, p), 0) == At(was[d].body, p).kids
    ensures Midway(was, d, p, |At(was[d].body, p).kids|)
            == PutDef(was, d, p, At(was[d].body, p).(kids := Live(SimplifyAll(was, At(was[d].body, p).kids))))
  {
    var node := At(was[d].body, p);
    var ks := SimplifyAll(was, node.kids);
    assert Live(ks[..0]) + node.kids[0..] == node.kids;
    assert ks[..|ks|] == ks && Live(ks) + node.kids[|ks|..] == Live(ks);
    PutTwice(was[d].body, p, node, node);
    assert node.(kids := MidwayKids(was, node, 0)) == node;
  }

  /** There is a child left to look at exactly when not all have been dealt with. */
  lemma MidwayLast(was: seq<Def>, d: nat, p: seq<nat>, j: nat)
    requires d < |was| && On(was[d].body, p) && j <= |At(was[d].body, p).kids|
    ensures On(Midway(was, d, p, j)[d].body, p)
    ensures Done(was, At(was[d].body, p), j).i < |At(Midway(was, d, p, j)[d].body, p).kids| <==> j < |At(was[d].body, p).kids|
  {
    var node := At(was[d].body, p);
    PutTwice(was[d].body, p, node.(kids := MidwayKids(was, node, j)), node);
  }

  /** When no child is left to look at, all have been simplified. */
  lemma MidwayDone(was: seq<Def>, d: nat, p: seq<nat>, j: nat, g: seq<Def>, s: Progress)
    requires d < |was| && On(was[d].body, p) && j <= |At(was[d].body, p).kids|
    requires g == Midway(was, d, p, j) && s == Done(was, At(was[d].body, p), j)
    requires On(g[d].body, p) && s.i >= |At(g[d].body, p).kids|
    ensures var node := At(was[d].body, p);
            var ks := SimplifyAll(was, node.kids);
            && g == PutDef(was, d, p, node.(kids := Live(ks)))
            && s.never == Has(ks, Never)
            && s.nop == Has(ks, Nop)
            && s.changed == (ChangedAny(was, node.kids) || Has(ks, Never) || Has(ks, Nop))
  {
    var node := At(was[d].body, p);
    var ks := SimplifyAll(was, node.kids);
    MidwayLast(was, d, p, j);
    MidwayEnds(was, d, p);
    assert ks[..j] == ks && node.kids[..j] == node.kids;
  }

  /** Midway the next child stands where it is looked for, and is simplified as it would
      have been at the start. */
  lemma MidwayReady(was: seq<Def>, d: nat, p: seq<nat>, j: nat)
    requires d < |was| && On(was[d].body, p) && j < |At(was[d].body, p).kids|
    requires Composite(At(was[d].body, p)) && Composite(was[d].body)
    requires ClosedTree(was, At(was[d].body, p))
    requires was[d].inlined ==> Avoids(was, At(was[d].body, p), d)
    ensures var node, g := At(was[d].body, p), Midway(was, d, p, j);
            var i, child := |Live(SimplifyAll(was, node.kids)[..j])|, node.kids[j];
            && On(g[d].body, p) && At(g[d].body, p) == node.(kids := MidwayKids(was, node, j))
            && i < |MidwayKids(was, node, j)| && MidwayKids(was, node, j)[i] == child
            && On(g[d].body, p + [i]) && At(g[d].body, p + [i]) == child
            && ClosedTree(g, child) && Composite(g[d].body)
            && (g[d].inlined ==> Avoids(g, child, d))
            && BnfSimplify.Simplify(g, child) == SimplifyAll(was, node.kids)[j]
            && Changed(g, child) == Changed(was, child)
  {
    var node, g := At(was[d].body, p), Midway(was, d, p, j);
    var i, child := |Live(SimplifyAll(was, node.kids)[..j])|, node.kids[j];
    PutTwice(was[d].body, p, node.(kids := MidwayKids(was, node, j)), node);
    PutChild(g[d].body, p, i, child);
    ClosedSameShape(was, g, child);
    SimplifyLocal(was, g, d, child);
  }

  lemma KidsStep(ks: seq<Bnf>, ts: seq<Bnf>, j: nat)
    requires |ks| == |ts| && j < |ks|
    ensures var i := |Live(ks[..j])|;
            && |Live(ks[..j + 1])| == i + (if Dead(ks[j]) then 0 else 1)
            && WithChild(Live(ks[..j]) + ts[j..], i, ks[j]) == Live(ks[..j + 1]) + ts[j + 1..]
  {
    var live := Live(ks[..j]);
    assert ks[..j + 1] == ks[..j] + [ks[j]];
    LiveAppend(ks[..j], ks[j]);
    var kids := live + ts[j..];
    assert kids[..|live|] == live;
    assert kids[|live| + 1..] == ts[j + 1..];
    assert kids[|live| := ks[j]] == live + [ks[j]] + ts[j + 1..];
  }

  /** Dealing with the next child leads to the next midway state. */
  lemma MidwayStep(was: seq<Def>, d: nat, p: seq<nat>, j: nat)
    requires d < |was| && On(was[d].body, p) && j < |At(was[d].body, p).kids|
    ensures var node, g := At(was[d].body, p), Midway(was, d, p, j);
            var ks := SimplifyAll(was, node.kids);
            var i, kids := |Live(ks[..j])|, MidwayKids(was, node, j);
            && On(g[d].body, p) && i < |kids|
            && PutDef(g, d, p, node.(kids := WithChild(kids, i, ks[j]))) == Midway(was, d, p, j + 1)
            && On(Midway(was, d, p, j + 1)[d].body, p)
            && At(Midway(was, d, p, j + 1)[d].body, p).kids == MidwayKids(was, node, j + 1)
            && |Live(ks[..j + 1])| == i + (if Dead(ks[j]) then 0 else 1)
  {
    var node := At(was[d].body, p);
    var ks := SimplifyAll(was, node.kids);
    var kids, next := MidwayKids(was, node, j), MidwayKids(was, node, j + 1);
    KidsStep(ks, node.kids, j);
    PutTwice(was[d].body, p, node.(kids := kids), node.(kids := next));
    PutTwice(was[d].body, p, node.(kids := next), node);
  }

  /** The flags after the next child. */
  lemma FlagsStep(was: seq<Def>, ts: seq<Bnf>, j: nat)
    requires j < |ts|
    ensures var ks := SimplifyAll(was, ts);
            && (Has(ks[..j + 1], Never) <==> Has(ks[..j], Never) || ks[j].id == Never)
            && (Has(ks[..j + 1], Nop) <==> Has(ks[..j], Nop) || ks[j].id == Nop)
            && (ChangedAny(was, ts[..j + 1]) <==> ChangedAny(was, ts[..j]) || Changed(was, ts[j]))
  {
    hide Has, SimplifyAll, BnfSimplify.Simplify, Changed, ChangedAny;
    var ks := SimplifyAll(was, ts);
    assert ks[..j + 1] == ks[..j] + [ks[j]];
    HasAppend(ks[..j], ks[j], Never);
    HasAppend(ks[..j], ks[j], Nop);
    assert ts[..j + 1] == ts[..j] + [ts[j]];
    ChangedAnyAppend(was, ts[..j], ts[j]);
  }

  /** The state of the loop over the children after j of them. */
  ghost predicate Underway(was: seq<Def>, d: nat, p: seq<nat>, j: nat, g: seq<Def>, s: Progress) {
    && d < |was| && On(was[d].body, p) && j <= |At(was[d].body, p).kids|
    && Composite(At(was[d].body, p)) && Composite(was[d].body)
    && ClosedTree(was, At(was[d].body, p))
    && (was[d].inlined ==> Avoids(was, At(was[d].body, p), d))
    && g == Midway(was, d, p, j)
    && d < |g| && On(g[d].body, p)
    && s == Done(was, At(was[d].body, p), j)
  }

  lemma UnderwayFirst(was: seq<Def>, d: nat, p: seq<nat>)
    requires d < |was| && On(was[d].body, p) && Composite(At(was[d].body, p)) && (p != [] ==> Composite(was[d].body))
    requires ClosedTree(was, At(was[d].body, p)) && (was[d].inlined ==> Avoids(was, At(was[d].body, p), d))
    ensures Underway(was, d, p, 0, was, Progress(0, false, false, false))
  {
    assert p == [] ==> At(was[d].body, p) == was[d].body;
    hide At, Put, SimplifyAll, Midway, ClosedTree, Avoids;
    MidwayEnds(was, d, p);
  }

  /** What the loop over the children has to know about the child it is at. */
  lemma MidwayNext(was: seq<Def>, d: nat, p: seq<nat>, j: nat, g: seq<Def>, h: seq<Def>, s: Progress)
    requires Underway(was, d, p, j, g, s) && j < |At(was[d].body, p).kids| && h == Midway(was, d, p, j + 1)
    ensures ReadyFor(g, d, p, s.i) && At(g[d].body, p + [s.i]) == At(was[d].body, p).kids[j]
    ensures ChildResult(g, d, p, s.i).defs == h && On(h[d].body, p)
    ensures s.Next(ChildResult(g, d, p, s.i)) == Done(was, At(was[d].body, p), j + 1)
  {
    var node := At(was[d].body, p);
    var ks := SimplifyAll(was, node.kids);
    MidwayReady(was, d, p, j);
    MidwayStep(was, d, p, j);
    FlagsStep(was, node.kids, j);
    var n := At(g[d].body, p);
    assert n.(kids := WithChild(n.kids, s.i, ks[j])) == node.(kids := WithChild(n.kids, s.i, ks[j]));
  }

  /** Where the loop over the children stands: the position in the shortened list, whether
      a never and a nop were met, and whether anything changed. */
  datatype Progress = Progress(i: nat, never: bool, nop: bool, changed: bool) {
    function Next(r: Outcome): Progress {
      Progress(if r.id == Never || r.id == Nop then i else i + 1, never || r.id == Never, nop || r.id == Nop, changed || r.changed)
    }
  }

  /** The definitions after a child was simplified, what it became, whether it changed. */
  datatype Outcome = Outcome(defs: seq<Def>, id: Kind, changed: bool)

  ghost function Done(was: seq<Def>, node: Bnf, j: nat): Progress
    requires j <= |node.kids|
  {
    var ks := SimplifyAll(was, node.kids)[..j];
    Progress(|Live(ks)|, Has(ks, Never), Has(ks, Nop),
             Has(ks, Never) || Has(ks, Nop) || ChangedAny(was, node.kids[..j]))
  }

  /** Child i of the node at p can be simplified in place. */
  ghost predicate ReadyFor(defs: seq<Def>, d: nat, p: seq<nat>, i: nat) {
    && d < |defs| && On(defs[d].body, p) && i < |At(defs[d].body, p).kids|
    && On(defs[d].body, p + [i]) && At(defs[d].body, p + [i]) == At(defs[d].body, p).kids[i]
    && Composite(defs[d].body)
    && ClosedTree(defs, At(defs[d].body, p + [i]))
    && (defs[d].inlined ==> Avoids(defs, At(defs[d].body, p + [i]), d))
  }

  ghost function ChildResult(defs: seq<Def>, d: nat, p: seq<nat>, i: nat): Outcome
    requires ReadyFor(defs, d, p, i)
  {
    var node := At(defs[d].body, p);
    var s := BnfSimplify.Simplify(defs, node.kids[i]);
    Outcome(PutDef(defs, d, p, node.(kids := WithChild(node.kids, i, s))), s.id, Changed(defs, node.kids[i]) || Dead(s))
  }

  lemma {:induction false} ChangedAnyAppend(defs: seq<Def>, ts: seq<Bnf>, c: Bnf)
    ensures ChangedAny(defs, ts + [c]) <==> ChangedAny(defs, ts) || Changed(defs, c)
  {
    if ts == [] {
      assert ts + [c] == [c] && [c][1..] == [];
    } else {
      assert (ts + [c])[1..] == ts[1..] + [c];
      ChangedAnyAppend(defs, ts[1..], c);
    }
  }

  // ----- whole passes -----

  /** A pass over the definitions from d on, each seeing the ones before it simplified. */
  ghost function PassFrom(defs: seq<Def>, d: nat): seq<Def>
    requires d <= |defs|
    decreases |defs| - d
  {
    if d == |defs| then defs
    else PassFrom(Rebody(defs, d, BnfSimplify.Simplify(defs, defs[d].body)), d + 1)
  }

  ghost predicate PassChanges(defs: seq<Def>, d: nat)
    requires d <= |defs|
    decreases |defs| - d
  {
    d < |defs| &&
    (Changed(defs, defs[d].body) || PassChanges(Rebody(defs, d, BnfSimplify.Simplify(defs, defs[d].body)), d + 1))
  }

  /** A pass keeps every language. */
  lemma {:induction false} PassKeepsLanguage(defs: seq<Def>, d: nat)
    requires d <= |defs|
    ensures SameLanguage(defs, PassFrom(defs, d))
    ensures SameShape(defs, PassFrom(defs, d))
    decreases |defs| - d
  {
    if d < |defs| {
      SimplifyDefKeepsLanguage(defs, d);
      PassKeepsLanguage(Rebody(defs, d, BnfSimplify.Simplify(defs, defs[d].body)), d + 1);
    }
  }

  /** A pass that reports no change has found the grammar in normal form. */
  lemma {:induction false} PassFixpoint(defs: seq<Def>, d: nat)
    requires d <= |defs| && Closed(defs)
    ensures !PassChanges(defs, d) ==> PassFrom(defs, d) == defs
    ensures !PassChanges(defs, d) ==> forall e :: d <= e < |defs| ==> Normal(defs, defs[e].body)
    decreases |defs| - d
  {
    if d < |defs| && !PassChanges(defs, d) {
      NormalIffUnchanged(defs, defs[d].body);
      assert Rebody(defs, d, defs[d].body) == defs;
      PassFixpoint(defs, d + 1);
    }
  }

  /** A pass keeps a grammar ranked, and lightens it whenever it reports a change. */
  lemma {:induction false} PassKeepsRank(V: string -> nat, defs: seq<Def>, d: nat)
    requires d <= |defs| && Closed(defs) && Ranked(V, defs)
    ensures Closed(PassFrom(defs, d)) && Ranked(V, PassFrom(defs, d))
    ensures TotalWeight(V, PassFrom(defs, d)) <= TotalWeight(V, defs)
    ensures PassChanges(defs, d) ==> TotalWeight(V, PassFrom(defs, d)) < TotalWeight(V, defs)
    decreases |defs| - d
  {
    if d < |defs| {
      StepKeepsRank(V, defs, d);
      PassKeepsRank(V, Rebody(defs, d, BnfSimplify.Simplify(defs, defs[d].body)), d + 1);
    }
  }

  lemma {:induction false} AvoidsSameShape(g: seq<Def>, h: seq<Def>, t: Bnf, d: nat)
    requires SameShape(g, h) && Avoids(g, t, d)
    ensures Avoids(h, t, d)
    decreases t
  {
    SameFind(g, h, t.name);
    if Composite(t) {
      forall i | 0 <= i < |t.kids|
        ensures Avoids(h, t.kids[i], d)
      {
        AvoidsSameShape(g, h, t.kids[i], d);
      }
    }
  }

  lemma StepClosed(defs: seq<Def>, d: nat)
    requires Closed(defs) && d < |defs|
    ensures Closed(Rebody(defs, d, BnfSimplify.Simplify(defs, defs[d].body)))
  {
    var after := Rebody(defs, d, BnfSimplify.Simplify(defs, defs[d].body));
    SimplifyClosed(defs, defs[d].body);
    forall i | 0 <= i < |after|
      ensures ClosedTree(after, after[i].body)
    {
      ClosedSameShape(defs, after, after[i].body);
    }
  }

  /** In a ranked grammar no rule is inlined into itself. */
  lemma RankedNoSelfInline(V: string -> nat, defs: seq<Def>)
    requires Closed(defs) && Ranked(V, defs)
    ensures NoSelfInline(defs)
  {
    forall d | 0 <= d < |defs| && defs[d].inlined
      ensures Avoids(defs, defs[d].body, d)
    {
      assert RankedDef(V, defs[d]);
      LightAvoids(V, defs, defs[d].body, d);
    }
  }

  lemma {:induction false} LightAvoids(V: string -> nat, defs: seq<Def>, t: Bnf, d: nat)
    requires ClosedTree(defs, t) && d < |defs| && Weight(V, t) < V(defs[d].name)
    ensures Avoids(defs, t, d)
    decreases t
  {
    if Composite(t) {
      forall i | 0 <= i < |t.kids|
        ensures Avoids(defs, t.kids[i], d)
      {
        WeightMember(V, t.kids, i);
        LightAvoids(V, defs, t.kids[i], d);
      }
    }
  }

  lemma {:induction false} WeightMember(V: string -> nat, ts: seq<Bnf>, i: nat)
    requires i < |ts|
    ensures Weight(V, ts[i]) <= WeightAll(V, ts)
  {
    if i > 0 {
      WeightMember(V, ts[1..], i - 1);
    }
  }

  /** Grammars of the same shape in which trees have the same languages give every rule
      the same sentences. */
  lemma SameLanguageSameRules(g: seq<Def>, h: seq<Def>)
    requires SameShape(g, h) && SameLanguage(g, h)
    ensures forall name, w :: InRule(h, name, w) <==> InRule(g, name, w)
  {
    forall name, w
      ensures InRule(h, name, w) <==> InRule(g, name, w)
    {
      SameFind(g, h, name);
      RuleAsReference(g, name, w);
      RuleAsReference(h, name, w);
    }
  }

  lemma RuleAsReference(g: seq<Def>, name: string, w: Sentence)
    ensures InRule(g, name, w) <==> InLanguage(g, Bnf(Rule, name, false, []), w)
  {
    var t := Bnf(Rule, name, false, []);
    var d := Find(g, name);
    if InRule(g, name, w) {
      var k: nat :| Derives(g, g[d].body, w, k);
      assert Derives(g, t, w, k + 1);
    }
    if InLanguage(g, t, w) {
      var k: nat :| Derives(g, t, w, k);
      assert Derives(g, g[d].body, w, k - 1);
    }
  }

  // ----- the simplifier -----

  class GrammarTree {
    var defs: seq<Def>

    constructor (defs: seq<Def>)
      ensures this.defs == defs
    {
      this.defs := defs;
    }

    /** What the writes below one node need: the node is there, its references resolve, and
        a rule being inlined into itself is out of the question. */
    ghost predicate Ready(d: nat, p: seq<nat>)
      reads this
    {
      && d < |defs|
      && On(defs[d].body, p)
      && ClosedTree(defs, At(defs[d].body, p))
      && (p != [] ==> Composite(defs[d].body))
      && (defs[d].inlined && !(p == [] && defs[d].body.id == Rule) ==> Avoids(defs, At(defs[d].body, p), d))
    }

    method SimplifyNode(d: nat, p: seq<nat>) returns (changed: bool)
      requires Ready(d, p)
      modifies this
      ensures defs == PutDef(old(defs), d, p, BnfSimplify.Simplify(old(defs), At(old(defs)[d].body, p)))
      ensures changed == Changed(old(defs), At(old(defs)[d].body, p))
      decreases At(defs[d].body, p), 1
    {
      var node := At(defs[d].body, p);
      if node.id == Seq || node.id == Or || node.id == Repeat {
        changed := SimplifyComposite(d, p);
      } else if node.id == Rule {
        ReferenceResult(defs, d, p);
        changed := InlineReference(d, p);
      } else {
        PutTwice(defs[d].body, p, node, node);
        changed := false;
      }
    }

    /** The sequence, choice and repeat cases: children first, then the node itself. */
    method SimplifyComposite(d: nat, p: seq<nat>) returns (changed: bool)
      requires Ready(d, p) && Composite(At(defs[d].body, p))
      modifies this
      ensures defs == PutDef(old(defs), d, p, BnfSimplify.Simplify(old(defs), At(old(defs)[d].body, p)))
      ensures changed == Changed(old(defs), At(old(defs)[d].body, p))
      decreases At(defs[d].body, p), 1, 0
    {
      ghost var node := At(defs[d].body, p);
      ghost var ks := SimplifyAll(defs, node.kids);
      var never, nop, c := SimplifyChildren(d, p);
      PutTwice(old(defs)[d].body, p, node.(kids := Live(ks)), Settle(node, ks));
      CollapseIsSettle(node, ks);
      changed := Collapse(d, p, never, nop, c);
    }

    /** Inlines the rule a reference names, if it is inlinable. */
    method InlineReference(d: nat, p: seq<nat>) returns (changed: bool)
      requires d < |defs| && On(defs[d].body, p) && At(defs[d].body, p).id == Rule
      requires Find(defs, At(defs[d].body, p).name) < |defs|
      modifies this
      ensures var e := Find(old(defs), At(old(defs)[d].body, p).name);
              && changed == Inlinable(old(defs)[e])
              && defs == if changed then InlineWrites(old(defs), d, p, e) else old(defs)
    {
      hide Put, At, On, Find;
      var node := At(defs[d].body, p);
      var e := Find(defs, node.name);
      var rule := defs[e].body;
      changed := false;
      if rule.id == Never || rule.id == Nop || rule.id == Token || rule.id == QuotedToken
         || rule.id == Rule || defs[e].inlined {
        var head := Bnf(rule.id, rule.name, rule.optional, node.kids);
        PutTwice(defs[d].body, p, head, head);
        defs := PutDef(defs, d, p, head);
        var copy := defs[e].body.kids;
        PutTwice(old(defs)[d].body, p, head, head.(kids := copy));
        defs := PutDef(defs, d, p, head.(kids := copy));
        changed := true;
      }
    }

    /** Turns a node whose children have been simplified into never, nop or its lone child. */
    method Collapse(d: nat, p: seq<nat>, anyNever: bool, anyNop: bool, changed: bool) returns (r: bool)
      requires d < |defs| && On(defs[d].body, p) && Composite(At(defs[d].body, p))
      modifies this
      ensures defs == PutDef(old(defs), d, p, Collapsed(At(old(defs)[d].body, p), anyNever, anyNop))
      ensures r == (changed || CollapseChanges(At(old(defs)[d].body, p), anyNever, anyNop))
    {
      r := changed;
      var node := At(defs[d].body, p);
      PutTwice(defs[d].body, p, node, node);
      match node.id {
        case Seq =>
          if anyNever {
            defs := PutDef(defs, d, p, node.(id := Never));
            r := true;
          } else if node.kids == [] {
            defs := PutDef(defs, d, p, node.(id := Nop));
            r := true;
          } else if |node.kids| == 1 {
            defs := PutDef(defs, d, p, UseChild(node));
            r := true;
          }
        case Or =>
          if anyNop {
            PutTwice(defs[d].body, p, node.(optional := true), node);
            defs := PutDef(defs, d, p, node.(optional := true));
            node := node.(optional := true);
            r := true;
            PutTwice(old(defs)[d].body, p, node, node.(id := Nop));
          }
          if node.kids == [] {
            defs := PutDef(defs, d, p, node.(id := if node.optional then Nop else Never));
            r := true;
          } else if |node.kids| == 1 && !node.optional {
            defs := PutDef(defs, d, p, UseChild(node));
            r := true;
          }
        case Repeat =>
          if node.kids == [] {
            defs := PutDef(defs, d, p, node.(id := Nop));
            r := true;
          }
      }
    }

    /** The node with its first child's state copied over it. */
    static function UseChild(node: Bnf): (r: Bnf)
      requires node.kids != []
      ensures r == node.kids[0]
    {
      var child := node.kids[0];
      node.(id := child.id, name := child.name, optional := child.optional, kids := child.kids)
    }

    /** Simplifies child i of a node, and unlinks it if it became never or nop. */
    method SimplifyChild(d: nat, p: seq<nat>, i: nat) returns (id: Kind, changed: bool)
      requires ReadyFor(defs, d, p, i)
      modifies this
      ensures Outcome(defs, id, changed) == ChildResult(old(defs), d, p, i)
      decreases At(defs[d].body, p + [i]), 2
    {
      ghost var node, s := At(defs[d].body, p), BnfSimplify.Simplify(defs, At(defs[d].body, p).kids[i]);
      PutChild(defs[d].body, p, i, s);
      PutTwice(defs[d].body, p, node.(kids := node.kids[i := s]), node.(kids := WithChild(node.kids, i, s)));
      PutTwice(defs[d].body, p + [i], s, s);
      changed := SimplifyNode(d, p + [i]);
      id := At(defs[d].body, p + [i]).id;
      if id == Never || id == Nop {
        var parent := At(defs[d].body, p);
        assert parent.kids[..i] + parent.kids[i + 1..] == node.kids[..i] + node.kids[i + 1..];
        defs := PutDef(defs, d, p, parent.(kids := parent.kids[..i] + parent.kids[i + 1..]));
        changed := true;
      }
    }

    /** One round of the loop over the children. */
    method VisitChild(d: nat, p: seq<nat>, s: Progress, ghost was: seq<Def>, ghost j: nat) returns (r: Progress)
      requires Underway(was, d, p, j, defs, s) && j < |At(was[d].body, p).kids|
      modifies this
      ensures Underway(was, d, p, j + 1, defs, r)
      decreases At(was[d].body, p), 0, 0
    {
      MidwayNext(was, d, p, j, defs, Midway(was, d, p, j + 1), s);
      var id, c := SimplifyChild(d, p, s.i);
      r := s.Next(Outcome(defs, id, c));
    }

    /** Simplifies the children of a node and unlinks those that became never or nop. */
    method SimplifyChildren(d: nat, p: seq<nat>) returns (never: bool, nop: bool, changed: bool)
      requires Ready(d, p) && Composite(At(defs[d].body, p))
      modifies this
      ensures var node := At(old(defs)[d].body, p);
              var ks := SimplifyAll(old(defs), node.kids);
              && defs == PutDef(old(defs), d, p, node.(kids := Live(ks)))
              && never == Has(ks, Never)
              && nop == Has(ks, Nop)
              && changed == (ChangedAny(old(defs), node.kids) || Has(ks, Never) || Has(ks, Nop))
      decreases At(defs[d].body, p), 0
    {
      hide Put, SimplifyAll, Live, Has, ChangedAny, Midway;
      ghost var j := 0;
      var s := Progress(0, false, false, false);
      assert p == [] ==> At(defs[d].body, p) == defs[d].body;
      hide At;
      UnderwayFirst(defs, d, p);
      while s.i < |At(defs[d].body, p).kids|
        invariant Underway(old(defs), d, p, j, defs, s)
        decreases |At(old(defs)[d].body, p).kids| - j
      {
        MidwayLast(old(defs), d, p, j);
        s := VisitChild(d, p, s, old(defs), j);
        j := j + 1;
      }
      MidwayDone(old(defs), d, p, j, defs, s);
      never, nop, changed := s.never, s.nop, s.changed;
    }

    /** One pass over all definitions. */
    method Pass() returns (changed: bool)
      requires Closed(defs) && NoSelfInline(defs)
      modifies this
      ensures defs == PassFrom(old(defs), 0)
      ensures changed == PassChanges(old(defs), 0)
    {
      hide BnfSimplify.Simplify, Changed, ClosedTree, Find;
      changed := false;
      var d := 0;
      while d < |defs|
        invariant d <= |defs| && SameShape(old(defs), defs) && Closed(defs)
        invariant forall e :: d <= e < |defs| ==> defs[e] == old(defs)[e]
        invariant PassFrom(old(defs), 0) == PassFrom(defs, d)
        invariant PassChanges(old(defs), 0) == (changed || PassChanges(defs, d))
      {
        if defs[d].inlined && defs[d].body.id != Rule {
          AvoidsSameShape(old(defs), defs, defs[d].body, d);
        }
        StepClosed(defs, d);
        var c := SimplifyNode(d, []);
        changed := changed || c;
        d := d + 1;
      }
    }

    /** Passes until nothing changes. */
    method Simplify(ghost V: string -> nat)
      requires Closed(defs) && Ranked(V, defs)
      modifies this
      ensures SameShape(old(defs), defs) && Closed(defs)
      ensures forall name, w :: InRule(defs, name, w) <==> InRule(old(defs), name, w)
      ensures forall d :: 0 <= d < |defs| ==> Normal(defs, defs[d].body)
    {
      var changed := true;
      while changed
        invariant SameShape(old(defs), defs) && Closed(defs) && Ranked(V, defs)
        invariant SameLanguage(old(defs), defs)
        invariant !changed ==> forall d :: 0 <= d < |defs| ==> Normal(defs, defs[d].body)
        decreases changed, TotalWeight(V, defs)
      {
        RankedNoSelfInline(V, defs);
        PassKeepsRank(V, defs, 0);
        PassKeepsLanguage(defs, 0);
        PassFixpoint(defs, 0);
        changed := Pass();
      }
      SameLanguageSameRules(old(defs), defs);
    }
  }
}

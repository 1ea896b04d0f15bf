/** When simplification stops: the changed flag of a pass, the normal form reached when
    nothing changes, and a weight that every change brings down. */
module BnfTermination {
  import opened BnfLanguage
  import opened BnfSimplify

  /** Whether simplifying the tree reports a change. */
  predicate Changed(defs: seq<Def>, t: Bnf)
    decreases t, 1
  {
    if Composite(t) then
      ChangedAny(defs, t.kids) || Unsettled(t, SimplifyAll(defs, t.kids))
    else
      t.id == Rule && Find(defs, t.name) < |defs| && Inlinable(defs[Find(defs, t.name)])
  }

  predicate ChangedAny(defs: seq<Def>, ts: seq<Bnf>)
    decreases ts, 0
  {
    ts != [] && (Changed(defs, ts[0]) || ChangedAny(defs, ts[1..]))
  }

  /** Settling the node over children ks drops a child or collapses the node. */
  predicate Unsettled(t: Bnf, ks: seq<Bnf>) {
    || Has(ks, Never) || Has(ks, Nop)
    || ks == []
    || (|ks| == 1 && (t.id == Seq || (t.id == Or && !t.optional)))
  }

  /** No sequence, choice or repeat is empty, holds a never or nop, or holds a lone child
      it could be replaced by, and no reference to an inlinable rule is left. */
  ghost predicate Normal(defs: seq<Def>, t: Bnf)
    decreases t
  {
    && (t.id == Rule ==> Find(defs, t.name) < |defs| && !Inlinable(defs[Find(defs, t.name)]))
    && (Composite(t) ==>
          && t.kids != []
          && (t.id == Seq || (t.id == Or && !t.optional) ==> |t.kids| > 1)
          && forall i :: 0 <= i < |t.kids| ==> !Dead(t.kids[i]) && Normal(defs, t.kids[i]))
  }

  lemma ChangedAnyMember(defs: seq<Def>, ts: seq<Bnf>)
    ensures ChangedAny(defs, ts) <==> exists i :: 0 <= i < |ts| && Changed(defs, ts[i])
  {
    if ts != [] {
      ChangedAnyMember(defs, ts[1..]);
      assert forall i :: 0 <= i < |ts[1..]| ==> ts[1..][i] == ts[i + 1];
      if i :| 0 <= i < |ts| && Changed(defs, ts[i]) {
        assert i > 0 ==> ts[1..][i - 1] == ts[i];
      }
    }
  }

  lemma {:induction false} LiveAll(ts: seq<Bnf>)
    requires !Has(ts, Never) && !Has(ts, Nop)
    ensures Live(ts) == ts
  {
    if ts != [] {
      assert forall i :: 0 <= i < |ts[1..]| ==> ts[1..][i] == ts[i + 1];
      assert ts[0].id != Never && ts[0].id != Nop;
      LiveAll(ts[1..]);
    }
  }

  /** A tree on which nothing changes is in normal form and stays as it is; a tree in
      normal form changes nothing. */
  lemma {:induction false} NormalIffUnchanged(defs: seq<Def>, t: Bnf)
    requires ClosedTree(defs, t)
    ensures Normal(defs, t) <==> !Changed(defs, t)
    ensures !Changed(defs, t) ==> Simplify(defs, t) == t
    decreases t
  {
    if Composite(t) {
      var ks := SimplifyAll(defs, t.kids);
      ChangedAnyMember(defs, t.kids);
      forall i | 0 <= i < |t.kids|
        ensures Normal(defs, t.kids[i]) <==> !Changed(defs, t.kids[i])
        ensures !Changed(defs, t.kids[i]) ==> ks[i] == t.kids[i]
      {
        NormalIffUnchanged(defs, t.kids[i]);
      }
      if !ChangedAny(defs, t.kids) {
        assert ks == t.kids;
        if !Unsettled(t, ks) {
          LiveAll(ks);
          assert forall i :: 0 <= i < |ks| ==> ks[i].id != Never && ks[i].id != Nop;
        }
      }
    }
  }

  lemma {:induction false} SimplifyClosed(defs: seq<Def>, t: Bnf)
    requires Closed(defs) && ClosedTree(defs, t)
    ensures ClosedTree(defs, Simplify(defs, t))
    decreases t
  {
    if Composite(t) {
      var ks := SimplifyAll(defs, t.kids);
      forall i | 0 <= i < |t.kids|
        ensures ClosedTree(defs, ks[i])
      {
        SimplifyClosed(defs, t.kids[i]);
      }
      assert forall c :: c in Live(ks) ==> c in ks;
    }
  }

  lemma {:induction false} ClosedSameShape(g: seq<Def>, h: seq<Def>, t: Bnf)
    requires SameShape(g, h) && ClosedTree(g, t)
    ensures ClosedTree(h, t)
    decreases t
  {
    SameFind(g, h, t.name);
    if Composite(t) {
      forall i | 0 <= i < |t.kids|
        ensures ClosedTree(h, t.kids[i])
      {
        ClosedSameShape(g, h, t.kids[i]);
      }
    }
  }

  // ----- weights -----

  /** Weight of a tree when a reference to rule n weighs V(n). */
  ghost function Weight(V: string -> nat, t: Bnf): nat
    decreases t, 0
  {
    if Composite(t) then 2 + WeightAll(V, t.kids)
    else if t.id == Rule then V(t.name)
    else 1
  }

  ghost function WeightAll(V: string -> nat, ts: seq<Bnf>): nat
    decreases ts, 0
  {
    if ts == [] then 0 else Weight(V, ts[0]) + WeightAll(V, ts[1..])
  }

  /** The next pass is certain to turn the tree into never. */
  ghost predicate MustNever(t: Bnf)
    decreases t, 0
  {
    t.id == Never || (t.id == Seq && AnyMustNever(t.kids)) || (t.id == Or && !t.optional && AllMustNever(t.kids))
  }

  ghost predicate AnyMustNever(ts: seq<Bnf>)
    decreases ts, 0
  {
    ts != [] && (MustNever(ts[0]) || AnyMustNever(ts[1..]))
  }

  ghost predicate AllMustNever(ts: seq<Bnf>)
    decreases ts, 0
  {
    ts == [] || (MustNever(ts[0]) && AllMustNever(ts[1..]))
  }

  /** Some pass might turn the tree into never or nop; any rule reference might. */
  ghost predicate MayVanish(t: Bnf)
    decreases t, 0
  {
    match t.id
    case Seq => t.kids == [] || AnyVanish(t.kids)
    case Or => AllVanish(t.kids)
    case Repeat => AllVanish(t.kids)
    case _ => Dead(t) || t.id == Rule
  }

  ghost predicate AllVanish(ts: seq<Bnf>)
    decreases ts, 0
  {
    ts == [] || (MayVanish(ts[0]) && AllVanish(ts[1..]))
  }

  ghost predicate AnyVanish(ts: seq<Bnf>)
    decreases ts, 0
  {
    ts != [] && (MayVanish(ts[0]) || AnyVanish(ts[1..]))
  }

  /** Every rule reference the tree might shrink to weighs less than x. */
  ghost predicate UnitsBelow(V: string -> nat, t: Bnf, x: nat)
    decreases t, 0
  {
    match t.id
    case Rule => V(t.name) < x
    case Seq => AnyMustNever(t.kids) || LoneBelow(V, true, t.kids, x)
    case Or => t.optional || LoneBelow(V, true, t.kids, x)
    case _ => true
  }

  /** The same for the last child left of a list, when those before it might vanish. */
  ghost predicate LoneBelow(V: string -> nat, before: bool, ts: seq<Bnf>, x: nat)
    decreases ts, 0
  {
    ts != [] ==>
    && (before && AllVanish(ts[1..]) ==> UnitsBelow(V, ts[0], x))
    && LoneBelow(V, before && MayVanish(ts[0]), ts[1..], x)
  }

  /** Inlining is acyclic: there is a weight for each rule that exceeds the weight of its
      body if it is marked for inlining, and of every rule its body might shrink to. */
  ghost predicate Ranked(V: string -> nat, defs: seq<Def>) {
    forall d :: 0 <= d < |defs| ==> RankedDef(V, defs[d])
  }

  ghost predicate RankedDef(V: string -> nat, d: Def) {
    && V(d.name) >= 2
    && (d.inlined ==> Weight(V, d.body) < V(d.name))
    && UnitsBelow(V, d.body, V(d.name))
  }

  ghost function TotalWeight(V: string -> nat, defs: seq<Def>): nat {
    if defs == [] then 0 else Weight(V, defs[0].body) + TotalWeight(V, defs[1..])
  }

  lemma {:induction false} WeightLive(V: string -> nat, ts: seq<Bnf>)
    ensures WeightAll(V, Live(ts)) <= WeightAll(V, ts)
  {
    if ts != [] {
      WeightLive(V, ts[1..]);
      if !Dead(ts[0]) {
        assert Live(ts)[0] == ts[0] && Live(ts)[1..] == Live(ts[1..]);
      }
    }
  }

  lemma {:induction false} WeightDead(V: string -> nat, ts: seq<Bnf>, i: nat)
    requires i < |ts| && Dead(ts[i])
    ensures WeightAll(V, Live(ts)) < WeightAll(V, ts)
  {
    if i == 0 {
      WeightLive(V, ts[1..]);
    } else {
      WeightDead(V, ts[1..], i - 1);
      if !Dead(ts[0]) {
        assert Live(ts)[0] == ts[0] && Live(ts)[1..] == Live(ts[1..]);
      }
    }
  }

  /** Inlining a rule replaces the reference by something lighter. */
  lemma InlineLighter(V: string -> nat, defs: seq<Def>, d: nat)
    requires Ranked(V, defs) && d < |defs| && Inlinable(defs[d])
    ensures Weight(V, defs[d].body) < V(defs[d].name)
  {
    assert RankedDef(V, defs[d]);
  }

  /** A settled node weighs no more than its children, and less if that changed it. */
  lemma SettleLighter(V: string -> nat, t: Bnf, ks: seq<Bnf>)
    requires Composite(t)
    ensures Weight(V, Settle(t, ks)) <= 2 + WeightAll(V, ks)
    ensures Unsettled(t, ks) ==> Weight(V, Settle(t, ks)) < 2 + WeightAll(V, ks)
  {
    var live := Live(ks);
    WeightLive(V, ks);
    if Has(ks, Never) || Has(ks, Nop) {
      var i :| 0 <= i < |ks| && Dead(ks[i]);
      WeightDead(V, ks, i);
    } else {
      LiveAll(ks);
    }
    if |live| == 1 {
      assert WeightAll(V, live) == Weight(V, live[0]) + WeightAll(V, live[1..]);
    }
  }

  /** Simplifying never makes a tree heavier, and every change makes it lighter. */
  lemma {:induction false} SimplifyLighter(V: string -> nat, defs: seq<Def>, t: Bnf)
    requires Ranked(V, defs) && Closed(defs) && ClosedTree(defs, t)
    ensures Weight(V, Simplify(defs, t)) <= Weight(V, t)
    ensures Changed(defs, t) ==> Weight(V, Simplify(defs, t)) < Weight(V, t)
    decreases t, 0
  {
    if Composite(t) {
      hide Settle, Ranked, Closed;
      SimplifyAllLighter(V, defs, t.kids);
      SettleLighter(V, t, SimplifyAll(defs, t.kids));
    } else if Changed(defs, t) {
      InlineLighter(V, defs, Find(defs, t.name));
    }
  }

  lemma {:induction false} SimplifyAllLighter(V: string -> nat, defs: seq<Def>, ts: seq<Bnf>)
    requires Ranked(V, defs) && Closed(defs) && forall i :: 0 <= i < |ts| ==> ClosedTree(defs, ts[i])
    ensures WeightAll(V, SimplifyAll(defs, ts)) <= WeightAll(V, ts)
    ensures ChangedAny(defs, ts) ==> WeightAll(V, SimplifyAll(defs, ts)) < WeightAll(V, ts)
    decreases ts, 0
  {
    if ts != [] {
      SimplifyLighter(V, defs, ts[0]);
      SimplifyAllLighter(V, defs, ts[1..]);
      assert SimplifyAll(defs, ts)[1..] == SimplifyAll(defs, ts[1..]);
    }
  }

  // ----- what a tree might shrink to never grows -----

  lemma {:induction false} MustNeverIsNever(defs: seq<Def>, t: Bnf)
    requires MustNever(t)
    ensures Simplify(defs, t).id == Never
    decreases t, 0
  {
    if t.id == Seq {
      AnyMustNeverHas(defs, t.kids);
    } else if t.id == Or {
      AllMustNeverDead(defs, t.kids);
    }
  }

  lemma {:induction false} AnyMustNeverHas(defs: seq<Def>, ts: seq<Bnf>)
    requires AnyMustNever(ts)
    ensures Has(SimplifyAll(defs, ts), Never)
    decreases ts, 0
  {
    var ks := SimplifyAll(defs, ts);
    if MustNever(ts[0]) {
      MustNeverIsNever(defs, ts[0]);
      assert ks[0].id == Never;
    } else {
      AnyMustNeverHas(defs, ts[1..]);
      var i :| 0 <= i < |ts[1..]| && SimplifyAll(defs, ts[1..])[i].id == Never;
      assert ks[i + 1].id == Never;
    }
  }

  lemma {:induction false} AllMustNeverDead(defs: seq<Def>, ts: seq<Bnf>)
    requires AllMustNever(ts)
    ensures Live(SimplifyAll(defs, ts)) == [] && !Has(SimplifyAll(defs, ts), Nop)
    decreases ts, 0
  {
    if ts != [] {
      MustNeverIsNever(defs, ts[0]);
      AllMustNeverDead(defs, ts[1..]);
      assert SimplifyAll(defs, ts)[1..] == SimplifyAll(defs, ts[1..]);
      assert forall i :: 1 <= i < |ts| ==> SimplifyAll(defs, ts)[i] == SimplifyAll(defs, ts[1..])[i - 1];
    }
  }

  lemma {:induction false} VanishBack(defs: seq<Def>, t: Bnf)
    requires MayVanish(Simplify(defs, t))
    ensures MayVanish(t)
    decreases t, 1
  {
    if Composite(t) {
      var ks := SimplifyAll(defs, t.kids);
      var live := Live(ks);
      AllVanishBack(defs, t.kids);
      AnyVanishBack(defs, t.kids);
      if i :| 0 <= i < |ks| && Dead(ks[i]) {
        DeadVanished(defs, t.kids, i);
      } else {
        LiveAll(ks);
      }
      if |live| == 1 {
        assert live == [live[0]];
        assert live[1..] == [] && AllVanish(live[1..]) && !AnyVanish(live[1..]);
      }
    }
  }

  lemma {:induction false} AllVanishBack(defs: seq<Def>, ts: seq<Bnf>)
    ensures AllVanish(Live(SimplifyAll(defs, ts))) ==> AllVanish(ts)
    decreases ts, 0
  {
    if ts != [] {
      var ks := SimplifyAll(defs, ts);
      assert ks[1..] == SimplifyAll(defs, ts[1..]);
      AllVanishBack(defs, ts[1..]);
      if MayVanish(ks[0]) {
        VanishBack(defs, ts[0]);
      }
      if !Dead(ks[0]) {
        assert Live(ks)[0] == ks[0] && Live(ks)[1..] == Live(ks[1..]);
      }
    }
  }

  lemma {:induction false} AnyVanishBack(defs: seq<Def>, ts: seq<Bnf>)
    ensures AnyVanish(Live(SimplifyAll(defs, ts))) ==> AnyVanish(ts)
    decreases ts, 0
  {
    if ts != [] {
      var ks := SimplifyAll(defs, ts);
      assert ks[1..] == SimplifyAll(defs, ts[1..]);
      AnyVanishBack(defs, ts[1..]);
      if MayVanish(ks[0]) {
        VanishBack(defs, ts[0]);
      } else {
        assert Live(ks)[0] == ks[0] && Live(ks)[1..] == Live(ks[1..]);
      }
    }
  }

  /** A child that became never or nop might have vanished. */
  lemma {:induction false} DeadVanished(defs: seq<Def>, ts: seq<Bnf>, i: nat)
    requires i < |ts| && Dead(Simplify(defs, ts[i]))
    ensures AnyVanish(ts)
    decreases ts, 0
  {
    hide Simplify;
    if i == 0 {
      VanishBack(defs, ts[0]);
    } else {
      DeadVanished(defs, ts[1..], i - 1);
    }
  }

  lemma {:induction false} UnitsBelowMonotone(V: string -> nat, t: Bnf, x: nat, y: nat)
    requires x <= y && UnitsBelow(V, t, x)
    ensures UnitsBelow(V, t, y)
    decreases t, 0
  {
    if t.id == Seq && !AnyMustNever(t.kids) {
      LoneBelowMonotone(V, true, t.kids, x, y);
    } else if t.id == Or && !t.optional {
      LoneBelowMonotone(V, true, t.kids, x, y);
    }
  }

  lemma {:induction false} LoneBelowMonotone(V: string -> nat, before: bool, ts: seq<Bnf>, x: nat, y: nat)
    requires x <= y && LoneBelow(V, before, ts, x)
    ensures LoneBelow(V, before, ts, y)
    decreases ts, 0
  {
    if ts != [] {
      if before && AllVanish(ts[1..]) {
        UnitsBelowMonotone(V, ts[0], x, y);
      }
      LoneBelowMonotone(V, before && MayVanish(ts[0]), ts[1..], x, y);
    }
  }

  lemma {:induction false} SimplifyUnits(V: string -> nat, defs: seq<Def>, t: Bnf, x: nat)
    requires Ranked(V, defs) && UnitsBelow(V, t, x)
    ensures UnitsBelow(V, Simplify(defs, t), x)
    decreases t, 1
  {
    if Composite(t) {
      var ks := SimplifyAll(defs, t.kids);
      var live := Live(ks);
      if t.id == Seq && AnyMustNever(t.kids) {
        AnyMustNeverHas(defs, t.kids);
      } else if t.id == Seq || (t.id == Or && !t.optional) {
        SimplifyLone(V, defs, true, true, t.kids, x);
        if |live| == 1 {
          assert live == [live[0]];
          assert live[1..] == [];
        }
      }
    } else if Simplify(defs, t) != t {
      var d := Find(defs, t.name);
      assert RankedDef(V, defs[d]);
      UnitsBelowMonotone(V, defs[d].body, V(t.name), x);
    }
  }

  lemma {:induction false} SimplifyLone(V: string -> nat, defs: seq<Def>, before: bool, after: bool, ts: seq<Bnf>, x: nat)
    requires Ranked(V, defs) && LoneBelow(V, before, ts, x) && (after ==> before)
    ensures LoneBelow(V, after, Live(SimplifyAll(defs, ts)), x)
    decreases ts, 0
  {
    if ts != [] {
      var ks := SimplifyAll(defs, ts);
      assert ks[1..] == SimplifyAll(defs, ts[1..]);
      if MayVanish(ks[0]) {
        VanishBack(defs, ts[0]);
      }
      if Dead(ks[0]) {
        SimplifyLone(V, defs, before && MayVanish(ts[0]), after, ts[1..], x);
      } else {
        assert Live(ks)[0] == ks[0] && Live(ks)[1..] == Live(ks[1..]);
        SimplifyLone(V, defs, before && MayVanish(ts[0]), after && MayVanish(ks[0]), ts[1..], x);
        AllVanishBack(defs, ts[1..]);
        if after && AllVanish(Live(ks[1..])) {
          SimplifyUnits(V, defs, ts[0], x);
        }
      }
    }
  }

  // ----- what a step of a pass keeps -----

  lemma {:induction false} TotalWeightRebody(V: string -> nat, defs: seq<Def>, d: nat, body: Bnf)
    requires d < |defs|
    ensures TotalWeight(V, Rebody(defs, d, body)) == TotalWeight(V, defs) - Weight(V, defs[d].body) + Weight(V, body)
  {
    if d > 0 {
      TotalWeightRebody(V, defs[1..], d - 1, body);
      assert Rebody(defs, d, body)[1..] == Rebody(defs[1..], d - 1, body);
    }
  }

  /** Simplifying a definition keeps the grammar closed and ranked, and makes it lighter
      if it changes anything. */
  lemma StepKeepsRank(V: string -> nat, defs: seq<Def>, d: nat)
    requires Ranked(V, defs) && Closed(defs) && d < |defs|
    ensures var after := Rebody(defs, d, Simplify(defs, defs[d].body));
            && Closed(after)
            && Ranked(V, after)
            && TotalWeight(V, after) <= TotalWeight(V, defs)
            && (Changed(defs, defs[d].body) ==> TotalWeight(V, after) < TotalWeight(V, defs))
  {
    var body := Simplify(defs, defs[d].body);
    var after := Rebody(defs, d, body);
    SimplifyClosed(defs, defs[d].body);
    forall i | 0 <= i < |after|
      ensures ClosedTree(after, after[i].body)
    {
      ClosedSameShape(defs, after, after[i].body);
    }
    SimplifyLighter(V, defs, defs[d].body);
    assert RankedDef(V, defs[d]);
    SimplifyUnits(V, defs, defs[d].body, V(defs[d].name));
    assert RankedDef(V, after[d]);
    TotalWeightRebody(V, defs, d, body);
  }
}

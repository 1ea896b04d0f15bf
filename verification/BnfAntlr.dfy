/** Getting round a bug of the ANTLR interpreter: a choice right under a repetition whose
    second alternative is not a token becomes a rule of its own, which leaves every rule's
    language as it is.

    A new rule is appended to the list of rules while the list is being walked. */
module BnfAntlr {
  import opened BnfLanguage
  import opened BnfSimplify

  /** The names of new rules, by number. */
  type Names = nat -> string

  predicate NeedsRule(t: Bnf) {
    t.id == Repeat && t.kids != [] && t.kids[0].id == Or && |t.kids[0].kids| > 1 &&
    t.kids[0].kids[1].id != Token && t.kids[0].kids[1].id != QuotedToken
  }

  function Reference(name: string): Bnf {
    Bnf(Rule, name, false, [])
  }

  /** What a tree becomes, and the rules that are added for it, numbered from n. */
  function Avoided(names: Names, t: Bnf, n: nat): (Bnf, seq<Def>)
    decreases t, 0
  {
    var (ks, ds) := AvoidedAll(names, t.kids, n);
    if NeedsRule(t.(kids := ks)) then
      (t.(kids := [Reference(names(n + |ds|))]), ds + [Def(names(n + |ds|), false, ks[0])])
    else (t.(kids := ks), ds)
  }

  function AvoidedAll(names: Names, ts: seq<Bnf>, n: nat): (r: (seq<Bnf>, seq<Def>))
    ensures |r.0| == |ts|
    decreases ts, 0
  {
    if ts == [] then ([], [])
    else
      var (u, ds) := Avoided(names, ts[0], n);
      var (us, es) := AvoidedAll(names, ts[1..], n + |ds|);
      ([u] + us, ds + es)
  }

  function AvoidedDefs(names: Names, defs: seq<Def>, n: nat): (r: (seq<Def>, seq<Def>))
    ensures |r.0| == |defs|
  {
    if defs == [] then ([], [])
    else
      var (u, ds) := Avoided(names, defs[0].body, n);
      var (us, es) := AvoidedDefs(names, defs[1..], n + |ds|);
      ([defs[0].(body := u)] + us, ds + es)
  }

  /** The whole grammar: the rules there were, and then the new ones. */
  function Avoiding(names: Names, defs: seq<Def>): seq<Def> {
    AvoidedDefs(names, defs, 0).0 + AvoidedDefs(names, defs, 0).1
  }

  // ----- the walk comes to an end -----

  /** There is nothing left to do in a tree. */
  predicate Quiet(t: Bnf)
    decreases t
  {
    !NeedsRule(t) && forall i :: 0 <= i < |t.kids| ==> Quiet(t.kids[i])
  }

  predicate QuietDefs(defs: seq<Def>) {
    forall d :: 0 <= d < |defs| ==> Quiet(defs[d].body)
  }

  lemma {:induction false} AvoidedIsQuiet(names: Names, t: Bnf, n: nat)
    ensures Quiet(Avoided(names, t, n).0) && QuietDefs(Avoided(names, t, n).1)
    decreases t, 0
  {
    AllQuiet(names, t.kids, n);
  }

  lemma {:induction false} AllQuiet(names: Names, ts: seq<Bnf>, n: nat)
    ensures var (us, ds) := AvoidedAll(names, ts, n);
            QuietDefs(ds) && forall i :: 0 <= i < |us| ==> Quiet(us[i])
    decreases ts, 0
  {
    if ts != [] {
      AvoidedIsQuiet(names, ts[0], n);
      AllQuiet(names, ts[1..], n + |Avoided(names, ts[0], n).1|);
    }
  }

  /** The rules that were added while the list was walked need nothing when their turn comes. */
  lemma {:induction false} QuietStays(names: Names, t: Bnf, n: nat)
    requires Quiet(t)
    ensures Avoided(names, t, n) == (t, [])
    decreases t, 0
  {
    QuietAllStay(names, t.kids, n);
  }

  lemma {:induction false} QuietAllStay(names: Names, ts: seq<Bnf>, n: nat)
    requires forall i :: 0 <= i < |ts| ==> Quiet(ts[i])
    ensures AvoidedAll(names, ts, n) == (ts, [])
    decreases ts, 0
  {
    if ts != [] {
      QuietStays(names, ts[0], n);
      QuietAllStay(names, ts[1..], n);
      var none: seq<Def> := [];
      assert AvoidedAll(names, ts[1..], n + |none|) == (ts[1..], none);
      assert AvoidedAll(names, ts, n) == ([ts[0]] + ts[1..], none + none);
      assert [ts[0]] + ts[1..] == ts && none + none == [];
    }
  }

  // ----- every rule keeps its language -----

  /** A repetition has one child, as the parser macros build them. */
  predicate Lone(t: Bnf)
    decreases t
  {
    (t.id == Repeat ==> |t.kids| == 1) && forall i :: 0 <= i < |t.kids| ==> Lone(t.kids[i])
  }

  /** The rules are those of h, found by name. */
  predicate Linked(h: seq<Def>, ds: seq<Def>) {
    forall i :: 0 <= i < |ds| ==> Find(h, ds[i].name) < |h| && h[Find(h, ds[i].name)].body == ds[i].body
  }

  lemma LinkedParts(h: seq<Def>, ds: seq<Def>, es: seq<Def>)
    requires Linked(h, ds + es)
    ensures Linked(h, ds) && Linked(h, es)
  {
    assert forall i :: 0 <= i < |ds| ==> (ds + es)[i] == ds[i];
    assert forall i :: 0 <= i < |es| ==> (ds + es)[|ds| + i] == es[i];
  }

  /** h holds every rule of g under its name, with the body that it became. */
  ghost predicate Holds(names: Names, g: seq<Def>, h: seq<Def>) {
    forall d :: 0 <= d < |g| && Find(g, g[d].name) == d ==>
      Find(h, g[d].name) == d < |h| && exists m :: Became(names, g[d].body, m, h[d].body, h)
  }

  ghost predicate Became(names: Names, t: Bnf, m: nat, u: Bnf, h: seq<Def>) {
    u == Avoided(names, t, m).0 && Linked(h, Avoided(names, t, m).1)
  }

  lemma {:induction false} Back(names: Names, g: seq<Def>, h: seq<Def>, t: Bnf, m: nat, j: nat)
    requires Closed(g) && Holds(names, g, h) && LoneDefs(g)
    requires ClosedTree(g, t) && Lone(t) && Linked(h, Avoided(names, t, m).1)
    ensures Into(h, Avoided(names, t, m).0, j, g, t, j)
    decreases j, t, 1
  {
    hide Linked, Holds, Lone, Derives;
    var (ks, ds) := AvoidedAll(names, t.kids, m);
    var u := Avoided(names, t, m).0;
    if Composite(t) {
      CompositeParts(g, t);
      if NeedsRule(t.(kids := ks)) {
        LinkedParts(h, ds, [Def(names(m + |ds|), false, ks[0])]);
        if j > 0 {
          AllBack(names, g, h, t.kids, m, j - 1);
        }
        ReferenceBack(h, names(m + |ds|), ks[0], j, g, t.kids[0]);
        assert AllInto(h, u.kids, j, g, t.kids, j);
      } else {
        AllBack(names, g, h, t.kids, m, j);
      }
      LiftNode(h, u, j, g, t, j);
    } else if t.id == Rule {
      var d := Find(g, t.name);
      var m1 := Target(names, g, h, d);
      if j > 0 {
        Back(names, g, h, g[d].body, m1, j - 1);
      }
      RuleInto(h, u, j, g, t, j);
    } else {
      LeafInto(h, u, j, g, t, j);
    }
  }

  lemma {:induction false} AllBack(names: Names, g: seq<Def>, h: seq<Def>, ts: seq<Bnf>, m: nat, j: nat)
    requires Closed(g) && Holds(names, g, h) && LoneDefs(g)
    requires (forall i :: 0 <= i < |ts| ==> ClosedTree(g, ts[i]) && Lone(ts[i])) && Linked(h, AvoidedAll(names, ts, m).1)
    ensures AllInto(h, AvoidedAll(names, ts, m).0, j, g, ts, j)
    decreases j, ts, 0
  {
    hide Linked, Holds, Lone, Into, Closed, ClosedTree, LoneDefs, Avoided, AvoidedAll, AllInto;
    if ts == [] {
      AllNoneBack(names, h, j, g, m);
    } else {
      AllParts(names, ts, m);
      TailParts(g, ts);
      var (u, ds) := Avoided(names, ts[0], m);
      var (us, es) := AvoidedAll(names, ts[1..], m + |ds|);
      LinkedParts(h, ds, es);
      Back(names, g, h, ts[0], m, j);
      AllBack(names, g, h, ts[1..], m + |ds|, j);
      AllConsBack(h, u, us, j, g, ts);
    }
  }

  lemma AllNoneBack(names: Names, h: seq<Def>, j: nat, g: seq<Def>, m: nat)
    ensures AllInto(h, AvoidedAll(names, [], m).0, j, g, [], j)
  {
  }

  lemma AllConsBack(h: seq<Def>, u: Bnf, us: seq<Bnf>, j: nat, g: seq<Def>, ts: seq<Bnf>)
    requires ts != [] && Into(h, u, j, g, ts[0], j) && AllInto(h, us, j, g, ts[1..], j)
    ensures AllInto(h, [u] + us, j, g, ts, j)
  {
    hide Into;
    forall i | 0 <= i < |us|
      ensures Into(h, us[i], j, g, ts[i + 1], j)
    {
      assert ts[i + 1] == ts[1..][i];
    }
  }

  lemma AllParts(names: Names, ts: seq<Bnf>, n: nat)
    requires ts != []
    ensures var (u, ds) := Avoided(names, ts[0], n);
            var (us, es) := AvoidedAll(names, ts[1..], n + |ds|);
            AvoidedAll(names, ts, n) == ([u] + us, ds + es)
  {
    hide Avoided;
  }

  lemma TailParts(g: seq<Def>, ts: seq<Bnf>)
    requires ts != [] && forall i :: 0 <= i < |ts| ==> ClosedTree(g, ts[i]) && Lone(ts[i])
    ensures forall i :: 0 <= i < |ts[1..]| ==> ClosedTree(g, ts[1..][i]) && Lone(ts[1..][i])
  {
  }

  ghost predicate LoneDefs(defs: seq<Def>) {
    forall d :: 0 <= d < |defs| ==> Lone(defs[d].body)
  }

  lemma CompositeParts(g: seq<Def>, t: Bnf)
    requires ClosedTree(g, t) && Composite(t) && Lone(t)
    ensures forall i :: 0 <= i < |t.kids| ==> ClosedTree(g, t.kids[i]) && Lone(t.kids[i])
    ensures t.id == Repeat ==> |t.kids| == 1
  {
  }

  /** Where a rule of g is in h. */
  lemma Target(names: Names, g: seq<Def>, h: seq<Def>, d: nat) returns (m: nat)
    requires Closed(g) && Holds(names, g, h) && LoneDefs(g) && d < |g| && Find(g, g[d].name) == d
    ensures ClosedTree(g, g[d].body) && Lone(g[d].body)
    ensures Find(h, g[d].name) == d < |h| && Became(names, g[d].body, m, h[d].body, h)
  {
    hide Lone, ClosedTree;
    m :| Became(names, g[d].body, m, h[d].body, h);
  }

  /** A reference derives what the rule's body does, one unfolding later. */
  lemma ReferenceBack(h: seq<Def>, name: string, u: Bnf, j: nat, g: seq<Def>, t: Bnf)
    requires Linked(h, [Def(name, false, u)]) && (j > 0 ==> Into(h, u, j - 1, g, t, j - 1))
    ensures Into(h, Reference(name), j, g, t, j)
  {
    assert Linked(h, [Def(name, false, u)]) && [Def(name, false, u)][0].name == name;
    if j > 0 {
      Monotone(g, t, j - 1, j);
    }
  }

  lemma RuleInto(g: seq<Def>, t: Bnf, j: nat, h: seq<Def>, u: Bnf, k: nat)
    requires t.id == u.id == Rule && Find(g, t.name) < |g| && Find(h, u.name) < |h|
    requires j > 0 ==> k > 0 && Into(g, g[Find(g, t.name)].body, j - 1, h, h[Find(h, u.name)].body, k - 1)
    ensures Into(g, t, j, h, u, k)
  {
  }

  lemma LeafInto(g: seq<Def>, t: Bnf, j: nat, h: seq<Def>, u: Bnf, k: nat)
    requires !Composite(t) && t.id != Rule && t.id == u.id && t.name == u.name
    ensures Into(g, t, j, h, u, k)
  {
  }

  function Height(t: Bnf): nat
    decreases t, 0
  {
    1 + HeightAll(t.kids)
  }

  function HeightAll(ts: seq<Bnf>): nat
    decreases ts, 0
  {
    if ts == [] then 0
    else if Height(ts[0]) > HeightAll(ts[1..]) then Height(ts[0]) else HeightAll(ts[1..])
  }

  ghost predicate NoHigher(defs: seq<Def>, top: nat) {
    forall d :: 0 <= d < |defs| ==> Height(defs[d].body) <= top
  }

  /** How deep to unfold in h what takes j unfoldings in g: each takes at most as many as a
      body is high, and one. */
  function Depth(top: nat, j: nat, x: nat): nat {
    j * (top + 1) + x
  }

  lemma DepthSteps(top: nat, j: nat, x: nat)
    ensures Depth(top, j, x + 1) == Depth(top, j, x) + 1
    ensures x <= top ==> Depth(top, j, x) + 1 <= Depth(top, j + 1, 0)
  {
    assert (j + 1) * (top + 1) == j * (top + 1) + top + 1;
  }

  lemma DepthGrows(top: nat, j: nat, x: nat, y: nat)
    requires x <= y
    ensures Depth(top, j, x) <= Depth(top, j, y)
  {
  }

  lemma {:induction false} Forth(names: Names, g: seq<Def>, h: seq<Def>, top: nat, t: Bnf, m: nat, j: nat)
    requires Closed(g) && Holds(names, g, h) && LoneDefs(g) && NoHigher(g, top)
    requires ClosedTree(g, t) && Lone(t) && Linked(h, Avoided(names, t, m).1)
    ensures Into(g, t, j, h, Avoided(names, t, m).0, Depth(top, j, Height(t)))
    decreases j, t, 1
  {
    hide Linked, Holds, Lone, Derives, Depth, Into, AllInto, NoHigher, LoneDefs, Closed, Avoided;
    if Composite(t) {
      CompositeParts(g, t);
      DsLinked(names, t, m, h);
      AllForth(names, g, h, top, t.kids, m, j);
      NodeForth(names, g, h, t, m, j, Depth(top, j, HeightAll(t.kids)));
      DepthSteps(top, j, HeightAll(t.kids));
    } else {
      var u := Avoided(names, t, m).0;
      AvoidedLeaf(names, t, m);
      if t.id == Rule {
        var d := FoundRule(g, t);
        var m1 := Target(names, g, h, d);
        if j > 0 {
          Forth(names, g, h, top, g[d].body, m1, j - 1);
          LowEnough(g, d, top);
          DepthSteps(top, j - 1, Height(g[d].body));
          DepthGrows(top, j, 0, Height(t) - 1);
          DepthSteps(top, j, Height(t) - 1);
          Later(g, g[d].body, j - 1, h, h[d].body, Depth(top, j - 1, Height(g[d].body)), Depth(top, j, Height(t)) - 1);
        }
        RuleInto(g, t, j, h, u, Depth(top, j, Height(t)));
      } else {
        LeafInto(g, t, j, h, u, Depth(top, j, Height(t)));
      }
    }
  }

  lemma LowEnough(defs: seq<Def>, d: nat, top: nat)
    requires NoHigher(defs, top) && d < |defs|
    ensures Height(defs[d].body) <= top
  {
  }

  lemma FoundRule(g: seq<Def>, t: Bnf) returns (d: nat)
    requires t.id == Rule && ClosedTree(g, t)
    ensures d == Find(g, t.name) < |g| && g[d].name == t.name
  {
    d := Find(g, t.name);
  }

  lemma AvoidedLeaf(names: Names, t: Bnf, m: nat)
    requires t.id != Repeat
    ensures var u := Avoided(names, t, m).0; u.id == t.id && u.name == t.name
  {
  }

  lemma NodeForth(names: Names, g: seq<Def>, h: seq<Def>, t: Bnf, m: nat, j: nat, k: nat)
    requires Composite(t) && (t.id == Repeat ==> |t.kids| == 1) && Linked(h, Avoided(names, t, m).1)
    requires AllInto(g, t.kids, j, h, AvoidedAll(names, t.kids, m).0, k)
    ensures Into(g, t, j, h, Avoided(names, t, m).0, k + 1)
  {
    hide Linked, Derives, Into;
    var (ks, ds) := AvoidedAll(names, t.kids, m);
    var u := Avoided(names, t, m).0;
    if NeedsRule(t.(kids := ks)) {
      LinkedParts(h, ds, [Def(names(m + |ds|), false, ks[0])]);
      ReferenceForth(g, t.kids[0], j, h, names(m + |ds|), ks[0], k);
      assert AllInto(g, t.kids, j, h, u.kids, k + 1);
      LiftNode(g, t, j, h, u, k + 1);
    } else {
      LiftNode(g, t, j, h, u, k);
      Later(g, t, j, h, u, k, k + 1);
    }
  }

  lemma DsLinked(names: Names, t: Bnf, m: nat, h: seq<Def>)
    requires Linked(h, Avoided(names, t, m).1)
    ensures Linked(h, AvoidedAll(names, t.kids, m).1)
  {
    var (ks, ds) := AvoidedAll(names, t.kids, m);
    hide Linked;
    if NeedsRule(t.(kids := ks)) {
      LinkedParts(h, ds, [Def(names(m + |ds|), false, ks[0])]);
    }
  }

  lemma {:induction false} AllForth(names: Names, g: seq<Def>, h: seq<Def>, top: nat, ts: seq<Bnf>, m: nat, j: nat)
    requires Closed(g) && Holds(names, g, h) && LoneDefs(g) && NoHigher(g, top)
    requires (forall i :: 0 <= i < |ts| ==> ClosedTree(g, ts[i]) && Lone(ts[i])) && Linked(h, AvoidedAll(names, ts, m).1)
    ensures AllInto(g, ts, j, h, AvoidedAll(names, ts, m).0, Depth(top, j, HeightAll(ts)))
    decreases j, ts, 0
  {
    hide Linked, Holds, Lone, Into, Closed, ClosedTree, LoneDefs, NoHigher, Depth, AllInto, Height, HeightAll, Avoided, AvoidedAll;
    if ts == [] {
      AllNone(names, g, j, h, m, Depth(top, j, HeightAll(ts)));
    } else {
      AllParts(names, ts, m);
      TailParts(g, ts);
      HeightParts(ts);
      var (u, ds) := Avoided(names, ts[0], m);
      var (us, es) := AvoidedAll(names, ts[1..], m + |ds|);
      LinkedParts(h, ds, es);
      Forth(names, g, h, top, ts[0], m, j);
      AllForth(names, g, h, top, ts[1..], m + |ds|, j);
      DepthGrows(top, j, Height(ts[0]), HeightAll(ts));
      DepthGrows(top, j, HeightAll(ts[1..]), HeightAll(ts));
      AllCons(g, ts, j, h, u, us, Depth(top, j, Height(ts[0])), Depth(top, j, HeightAll(ts[1..])), Depth(top, j, HeightAll(ts)));
    }
  }

  lemma AllNone(names: Names, g: seq<Def>, j: nat, h: seq<Def>, m: nat, k: nat)
    ensures AllInto(g, [], j, h, AvoidedAll(names, [], m).0, k)
  {
  }

  lemma HeightParts(ts: seq<Bnf>)
    requires ts != []
    ensures Height(ts[0]) <= HeightAll(ts) && HeightAll(ts[1..]) <= HeightAll(ts)
  {
  }

  lemma AllCons(g: seq<Def>, ts: seq<Bnf>, j: nat, h: seq<Def>, u: Bnf, us: seq<Bnf>, k0: nat, k1: nat, k: nat)
    requires ts != [] && Into(g, ts[0], j, h, u, k0) && AllInto(g, ts[1..], j, h, us, k1) && k0 <= k && k1 <= k
    ensures AllInto(g, ts, j, h, [u] + us, k)
  {
    hide Into;
    Later(g, ts[0], j, h, u, k0, k);
    forall i | 0 <= i < |us|
      ensures Into(g, ts[i + 1], j, h, us[i], k)
    {
      assert ts[i + 1] == ts[1..][i];
      Later(g, ts[i + 1], j, h, us[i], k1, k);
    }
  }

  lemma Later(g: seq<Def>, t: Bnf, j: nat, h: seq<Def>, u: Bnf, k: nat, k1: nat)
    requires Into(g, t, j, h, u, k) && k <= k1
    ensures Into(g, t, j, h, u, k1)
  {
    Monotone(h, u, k, k1);
  }

  lemma ReferenceForth(g: seq<Def>, t: Bnf, j: nat, h: seq<Def>, name: string, u: Bnf, k: nat)
    requires Linked(h, [Def(name, false, u)]) && Into(g, t, j, h, u, k)
    ensures Into(g, t, j, h, Reference(name), k + 1)
  {
    assert [Def(name, false, u)][0].name == name;
  }

  /** The names of new rules are new, and no two are the same. */
  ghost predicate Fresh(names: Names, defs: seq<Def>) {
    (forall m: nat, n: nat :: names(m) == names(n) ==> m == n) &&
    forall d, n: nat :: 0 <= d < |defs| ==> defs[d].name != names(n)
  }

  ghost predicate NumberedFrom(names: Names, ds: seq<Def>, n: nat) {
    forall i :: 0 <= i < |ds| ==> ds[i].name == names(n + i)
  }

  lemma NumberedSum(names: Names, ds: seq<Def>, es: seq<Def>, n: nat)
    requires NumberedFrom(names, ds, n) && NumberedFrom(names, es, n + |ds|)
    ensures NumberedFrom(names, ds + es, n)
  {
    forall i | 0 <= i < |ds + es|
      ensures (ds + es)[i].name == names(n + i)
    {
      if i >= |ds| {
        assert es[i - |ds|].name == names(n + |ds| + (i - |ds|));
      }
    }
  }

  lemma {:induction false} Numbered(names: Names, t: Bnf, n: nat)
    ensures NumberedFrom(names, Avoided(names, t, n).1, n)
    decreases t, 0
  {
    AllNumbered(names, t.kids, n);
    var (ks, ds) := AvoidedAll(names, t.kids, n);
    if NeedsRule(t.(kids := ks)) {
      NumberedSum(names, ds, [Def(names(n + |ds|), false, ks[0])], n);
    }
  }

  lemma {:induction false} AllNumbered(names: Names, ts: seq<Bnf>, n: nat)
    ensures NumberedFrom(names, AvoidedAll(names, ts, n).1, n)
    decreases ts, 0
  {
    if ts != [] {
      hide NumberedFrom;
      var (u, ds) := Avoided(names, ts[0], n);
      Numbered(names, ts[0], n);
      AllNumbered(names, ts[1..], n + |ds|);
      NumberedSum(names, ds, AvoidedAll(names, ts[1..], n + |ds|).1, n);
    } else {
      assert AvoidedAll(names, ts, n).1 == [];
    }
  }

  lemma {:induction false} DefsNumbered(names: Names, defs: seq<Def>, n: nat)
    ensures NumberedFrom(names, AvoidedDefs(names, defs, n).1, n)
  {
    if defs != [] {
      hide NumberedFrom;
      var (u, ds) := Avoided(names, defs[0].body, n);
      Numbered(names, defs[0].body, n);
      DefsNumbered(names, defs[1..], n + |ds|);
      NumberedSum(names, ds, AvoidedDefs(names, defs[1..], n + |ds|).1, n);
    } else {
      assert AvoidedDefs(names, defs, n).1 == [];
    }
  }

  /** What a rule became, with the rules added for it among all of those. */
  ghost predicate Placed(names: Names, t: Bnf, m: nat, u: Bnf, es: seq<Def>, at: nat) {
    at <= |es| && u == Avoided(names, t, m).0 && Avoided(names, t, m).1 <= es[at..]
  }

  lemma {:induction false} DefIs(names: Names, defs: seq<Def>, n: nat, d: nat) returns (m: nat, at: nat)
    requires d < |defs|
    ensures var (us, es) := AvoidedDefs(names, defs, n);
            us[d].name == defs[d].name && Placed(names, defs[d].body, m, us[d].body, es, at)
  {
    var (u, ds) := Avoided(names, defs[0].body, n);
    var (us, es) := AvoidedDefs(names, defs[1..], n + |ds|);
    hide Avoided;
    if d == 0 {
      m, at := n, 0;
      assert (ds + es)[0..] == ds + es;
    } else {
      m, at := DefIs(names, defs[1..], n + |ds|, d - 1);
      assert (ds + es)[|ds| + at..] == es[at..];
      at := |ds| + at;
    }
  }

  lemma {:induction false} FindFirst(defs: seq<Def>, d: nat)
    requires d < |defs| && forall e :: 0 <= e < d ==> defs[e].name != defs[d].name
    ensures Find(defs, defs[d].name) == d
  {
  }

  lemma NewFound(names: Names, us: seq<Def>, es: seq<Def>, i: nat)
    requires Fresh(names, us) && NumberedFrom(names, es, 0) && i < |es|
    ensures Find(us + es, es[i].name) == |us| + i && (us + es)[|us| + i] == es[i]
  {
    var h := us + es;
    forall e | 0 <= e < |us| + i
      ensures h[e].name != h[|us| + i].name
    {
      assert es[i].name == names(0 + i);
      if e < |us| {
        assert us[e].name != names(i);
      } else {
        assert h[e] == es[e - |us|] && es[e - |us|].name == names(0 + (e - |us|));
      }
    }
    FindFirst(h, |us| + i);
  }

  lemma AvoidingHolds(names: Names, defs: seq<Def>)
    requires Fresh(names, defs)
    ensures Holds(names, defs, Avoiding(names, defs))
  {
    var (us, es) := AvoidedDefs(names, defs, 0);
    var h := Avoiding(names, defs);
    DefsNumbered(names, defs, 0);
    assert h == us + es;
    hide AvoidedDefs, Avoided, Avoiding, NumberedFrom, Fresh, Linked;
    forall d | 0 <= d < |defs|
      ensures us[d].name == defs[d].name
    {
      var m, at := DefIs(names, defs, 0, d);
    }
    SameNames(names, defs, us);
    forall d | 0 <= d < |defs| && Find(defs, defs[d].name) == d
      ensures Find(h, defs[d].name) == d < |h| && exists m :: Became(names, defs[d].body, m, h[d].body, h)
    {
      var m, at := DefIs(names, defs, 0, d);
      OldFound(defs, us, es, d);
      PlacedLinked(names, us, es, defs[d].body, m, us[d].body, at);
      assert Became(names, defs[d].body, m, h[d].body, h);
    }
  }

  lemma SameNames(names: Names, defs: seq<Def>, us: seq<Def>)
    requires Fresh(names, defs) && |us| == |defs| && forall d :: 0 <= d < |defs| ==> us[d].name == defs[d].name
    ensures Fresh(names, us)
  {
  }

  lemma OldFound(defs: seq<Def>, us: seq<Def>, es: seq<Def>, d: nat)
    requires |us| == |defs| && (forall d :: 0 <= d < |defs| ==> us[d].name == defs[d].name)
    requires d < |defs| && Find(defs, defs[d].name) == d
    ensures Find(us + es, defs[d].name) == d && (us + es)[d] == us[d]
  {
    var h := us + es;
    assert forall e :: 0 <= e < |us| ==> h[e] == us[e];
    FindFirst(h, d);
  }

  lemma PlacedLinked(names: Names, us: seq<Def>, es: seq<Def>, t: Bnf, m: nat, u: Bnf, at: nat)
    requires Fresh(names, us) && NumberedFrom(names, es, 0) && Placed(names, t, m, u, es, at)
    ensures Became(names, t, m, u, us + es)
  {
    hide Fresh, NumberedFrom, Avoided;
    var ds := Avoided(names, t, m).1;
    forall i | 0 <= i < |ds|
      ensures Find(us + es, ds[i].name) < |us + es| && (us + es)[Find(us + es, ds[i].name)].body == ds[i].body
    {
      assert ds[i] == es[at..][i] == es[at + i];
      NewFound(names, us, es, at + i);
    }
  }

  function Highest(defs: seq<Def>): (top: nat)
    ensures NoHigher(defs, top)
  {
    if defs == [] then 0
    else if Height(defs[0].body) > Highest(defs[1..]) then Height(defs[0].body) else Highest(defs[1..])
  }

  /** Every rule of the grammar derives the sentences it did. */
  lemma AvoidingKeepsLanguage(names: Names, defs: seq<Def>, name: string, w: Sentence)
    requires Closed(defs) && LoneDefs(defs) && Fresh(names, defs) && Find(defs, name) < |defs|
    ensures InRule(defs, name, w) <==> InRule(Avoiding(names, defs), name, w)
  {
    var h, d, top := Avoiding(names, defs), Find(defs, name), Highest(defs);
    AvoidingHolds(names, defs);
    hide Avoiding, Avoided, Holds, Closed, LoneDefs, Derives, NoHigher, Height, Depth, Into;
    var m := Target(names, defs, h, d);
    if InRule(defs, name, w) {
      var j: nat :| Derives(defs, defs[d].body, w, j);
      Forth(names, defs, h, top, defs[d].body, m, j);
      IntoGives(defs, defs[d].body, j, h, h[d].body, Depth(top, j, Height(defs[d].body)), w);
    }
    if InRule(h, name, w) {
      var j: nat :| Derives(h, h[d].body, w, j);
      Back(names, defs, h, defs[d].body, m, j);
      IntoGives(h, h[d].body, j, defs, defs[d].body, j, w);
    }
  }

  lemma IntoGives(g: seq<Def>, t: Bnf, j: nat, h: seq<Def>, u: Bnf, k: nat, w: Sentence)
    requires Into(g, t, j, h, u, k) && Derives(g, t, w, j)
    ensures Derives(h, u, w, k)
  {
  }

  /** Simplifying a grammar keeps the one child of a repetition. */
  lemma {:induction false} SimplifyStaysLone(defs: seq<Def>, t: Bnf)
    requires LoneDefs(defs) && Lone(t)
    ensures Lone(Simplify(defs, t))
    decreases t
  {
    if Composite(t) {
      var ks := SimplifyAll(defs, t.kids);
      forall i | 0 <= i < |ks|
        ensures Lone(ks[i])
      {
        SimplifyStaysLone(defs, t.kids[i]);
      }
      LiveLone(ks);
    }
  }

  lemma {:induction false} LiveLone(ts: seq<Bnf>)
    requires forall i :: 0 <= i < |ts| ==> Lone(ts[i])
    ensures |Live(ts)| <= |ts| && forall i :: 0 <= i < |Live(ts)| ==> Lone(Live(ts)[i])
  {
    if ts != [] {
      LiveLone(ts[1..]);
    }
  }

  // ----- the code -----

  class Avoider {
    const names: Names
    var defs: seq<Def>
    var count: nat

    constructor (names: Names, defs: seq<Def>)
      ensures this.names == names && this.defs == defs && count == 0
    {
      this.names, this.defs, count := names, defs, 0;
    }

    /** Children first, then the node; a new rule goes to the end of the list. */
    method Avoid(t: Bnf) returns (r: Bnf)
      modifies this
      ensures r == Avoided(names, t, old(count)).0
      ensures defs == old(defs) + Avoided(names, t, old(count)).1
      ensures count == old(count) + |Avoided(names, t, old(count)).1|
      decreases t, 1
    {
      var ks := AvoidAll(t.kids);
      r := t.(kids := ks);
      if r.id != Repeat || ks == [] || ks[0].id != Or || |ks[0].kids| < 2 {
        return;
      }
      var second := ks[0].kids[1];
      if second.id == Token || second.id == QuotedToken {
        return;
      }
      defs := defs + [Def(names(count), false, ks[0])];
      r := r.(kids := [Reference(names(count))]);
      count := count + 1;
    }

    method AvoidAll(ts: seq<Bnf>) returns (us: seq<Bnf>)
      modifies this
      ensures us == AvoidedAll(names, ts, old(count)).0
      ensures defs == old(defs) + AvoidedAll(names, ts, old(count)).1
      ensures count == old(count) + |AvoidedAll(names, ts, old(count)).1|
      decreases ts, 0
    {
      us := [];
      ghost var was, all := count, AvoidedAll(names, ts, count);
      var i := 0;
      assert ts[0..] == ts;
      while i < |ts|
        invariant i <= |ts| == |all.0| && us == all.0[..i] && count >= was
        invariant var rest := AvoidedAll(names, ts[i..], count);
                  all.0[i..] == rest.0 && old(defs) + all.1 == defs + rest.1 && was + |all.1| == count + |rest.1|
      {
        assert ts[i..][0] == ts[i] && ts[i..][1..] == ts[i + 1..];
        ghost var rest, d0, ds := AvoidedAll(names, ts[i..], count), defs, Avoided(names, ts[i], count).1;
        var k := Avoid(ts[i]);
        ghost var next := AvoidedAll(names, ts[i + 1..], count);
        assert rest == ([k] + next.0, ds + next.1);
        assert d0 + (ds + next.1) == d0 + ds + next.1;
        assert all.0[i] == k && all.0[i + 1..] == next.0;
        us := us + [k];
        i := i + 1;
      }
      assert all.0[..i] == all.0;
    }

    /** Walks the list of rules, which grows as it is walked. */
    method Run()
      requires count == 0
      modifies this
      ensures defs == Avoiding(names, old(defs))
    {
      hide Avoided, Walked;
      ghost var was := defs;
      WalkedNone(names, was);
      var d := 0;
      while d < |defs|
        invariant d <= |defs| && Walked(names, was, d, count, defs)
        decreases if d < |was| then |was| - d else 0, |defs| - d
      {
        WalkedOne(names, was, d, count, defs);
        var r := Avoid(defs[d].body);
        defs := defs[d := defs[d].(body := r)];
        d := d + 1;
      }
      WalkedAll(names, was, d, count, defs);
    }
  }

  /** The list once d of the rules have been dealt with. */
  ghost predicate Walked(names: Names, was: seq<Def>, d: nat, count: nat, defs: seq<Def>) {
    |was| <= |defs| && if d < |was| then Ahead(names, was, d, count, defs) else defs == Avoiding(names, was)
  }

  /** In the rules there were: those before are done, the others as they were, and the rules
      added so far are behind. */
  ghost predicate Ahead(names: Names, was: seq<Def>, d: nat, count: nat, defs: seq<Def>)
    requires d <= |was| <= |defs|
  {
    var rest := AvoidedDefs(names, was[d..], count);
    && defs[d..|was|] == was[d..]
    && Avoiding(names, was) == defs[..d] + rest.0 + (defs[|was|..] + rest.1)
  }

  lemma WalkedNone(names: Names, was: seq<Def>)
    ensures Walked(names, was, 0, 0, was)
  {
    assert was[0..] == was;
  }

  lemma WalkedAll(names: Names, was: seq<Def>, d: nat, count: nat, defs: seq<Def>)
    requires Walked(names, was, d, count, defs) && d >= |defs|
    ensures defs == Avoiding(names, was)
  {
  }

  lemma WalkedOne(names: Names, was: seq<Def>, d: nat, count: nat, defs: seq<Def>)
    requires Walked(names, was, d, count, defs) && d < |defs|
    ensures var (u, ds) := Avoided(names, defs[d].body, count);
            && Walked(names, was, d + 1, count + |ds|, (defs + ds)[d := defs[d].(body := u)])
            && (d >= |was| ==> ds == [])
  {
    hide Avoided, Ahead;
    if d < |was| {
      WalkedStep(names, was, d, count, defs);
      if d + 1 == |was| {
        var (u, ds) := Avoided(names, defs[d].body, count);
        WalkedPast(names, was, count + |ds|, (defs + ds)[d := defs[d].(body := u)]);
      }
    } else {
      AddedQuiet(names, was, 0);
      assert defs[d] == AvoidedDefs(names, was, 0).1[d - |was|];
      QuietStays(names, defs[d].body, count);
      assert defs + [] == defs;
    }
  }

  lemma WalkedPast(names: Names, was: seq<Def>, count: nat, defs: seq<Def>)
    requires |was| <= |defs| && Ahead(names, was, |was|, count, defs)
    ensures defs == Avoiding(names, was)
  {
    assert was[|was|..] == [];
    assert defs[..|was|] + [] + (defs[|was|..] + []) == defs;
  }

  lemma WalkedStep(names: Names, was: seq<Def>, d: nat, count: nat, defs: seq<Def>)
    requires d < |was| <= |defs| && Ahead(names, was, d, count, defs)
    ensures defs[d] == was[d]
    ensures var (u, ds) := Avoided(names, was[d].body, count);
            var after := (defs + ds)[d := was[d].(body := u)];
            |was| <= |after| && Ahead(names, was, d + 1, count + |ds|, after)
  {
    hide Avoided, Avoiding;
    var (u, ds) := Avoided(names, was[d].body, count);
    var next := AvoidedDefs(names, was[d + 1..], count + |ds|);
    var after := (defs + ds)[d := was[d].(body := u)];
    assert was[d..][0] == was[d] && was[d..][1..] == was[d + 1..];
    assert AvoidedDefs(names, was[d..], count) == ([was[d].(body := u)] + next.0, ds + next.1);
    assert defs[d] == defs[d..|was|][0];
    assert after[d + 1..|was|] == defs[d..|was|][1..];
    Pieces(defs, ds, d, |was|, was[d].(body := u), next.0, next.1);
  }

  lemma Pieces(defs: seq<Def>, ds: seq<Def>, d: nat, n: nat, x: Def, us: seq<Def>, es: seq<Def>)
    requires d < n <= |defs|
    ensures var after := (defs + ds)[d := x];
            defs[..d] + ([x] + us) + (defs[n..] + (ds + es)) == after[..d + 1] + us + (after[n..] + es)
  {
    var after := (defs + ds)[d := x];
    assert after[..d + 1] == defs[..d] + [x];
    assert after[n..] == defs[n..] + ds;
  }

  lemma {:induction false} AddedQuiet(names: Names, defs: seq<Def>, n: nat)
    ensures QuietDefs(AvoidedDefs(names, defs, n).1)
  {
    if defs != [] {
      AvoidedIsQuiet(names, defs[0].body, n);
      AddedQuiet(names, defs[1..], n + |Avoided(names, defs[0].body, n).1|);
    }
  }
}

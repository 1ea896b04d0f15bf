/** What one simplification pass does to a tree, and why it keeps the language.

    Simplify is the value that bnf_simplify_node leaves in a node, as a function of the
    definitions and of the node; PassFrom is a pass over the whole grammar, in which a
    definition sees the already simplified bodies of those before it. */
module BnfSimplify {
  import opened BnfLanguage

  /** Rules that are never, nop or a lone token or rule reference are inlined where they
      are referenced, and so are those marked for it. */
  predicate Inlinable(d: Def) {
    !Composite(d.body) || d.inlined
  }

  predicate Has(ts: seq<Bnf>, id: Kind) {
    exists i :: 0 <= i < |ts| && ts[i].id == id
  }

  /** The children that are neither never nor nop. */
  function Live(ts: seq<Bnf>): (r: seq<Bnf>)
    ensures |r| <= |ts|
    ensures forall i :: 0 <= i < |r| ==> !Dead(r[i]) && r[i] in ts
  {
    if ts == [] then []
    else if Dead(ts[0]) then Live(ts[1..])
    else [ts[0]] + Live(ts[1..])
  }

  /** A composite node after its children have been simplified to ks: dead children go,
      then the node collapses if too little is left of it. */
  function Settle(t: Bnf, ks: seq<Bnf>): Bnf {
    var live := Live(ks);
    match t.id
    case Seq =>
      if Has(ks, Never) then t.(id := Never, kids := live)
      else if live == [] then t.(id := Nop, kids := [])
      else if |live| == 1 then live[0]
      else t.(kids := live)
    case Or =>
      var optional := t.optional || Has(ks, Nop);
      if live == [] then t.(id := if optional then Nop else Never, optional := optional, kids := [])
      else if |live| == 1 && !optional then live[0]
      else t.(optional := optional, kids := live)
    case Repeat =>
      if live == [] then t.(id := Nop, kids := []) else t.(kids := live)
    case _ => t
  }

  function Simplify(defs: seq<Def>, t: Bnf): Bnf
    decreases t, 0
  {
    if Composite(t) then
      Settle(t, SimplifyAll(defs, t.kids))
    else if t.id == Rule && Find(defs, t.name) < |defs| && Inlinable(defs[Find(defs, t.name)]) then
      defs[Find(defs, t.name)].body
    else
      t
  }

  function SimplifyAll(defs: seq<Def>, ts: seq<Bnf>): (r: seq<Bnf>)
    ensures |r| == |ts|
    ensures forall i :: 0 <= i < |ts| ==> r[i] == Simplify(defs, ts[i])
    decreases ts, 0
  {
    if ts == [] then [] else [Simplify(defs, ts[0])] + SimplifyAll(defs, ts[1..])
  }

  // ----- dropping dead children -----

  lemma {:induction false} LiveSeq(defs: seq<Def>, ts: seq<Bnf>, w: Sentence, k: nat)
    requires !Has(ts, Never)
    ensures DerivesSeq(defs, ts, w, k) <==> DerivesSeq(defs, Live(ts), w, k)
  {
    if ts != [] {
      assert ts[0].id != Never;
      assert forall i :: 0 <= i < |ts[1..]| ==> ts[1..][i] == ts[i + 1];
      forall i | 0 <= i <= |w|
        ensures DerivesSeq(defs, ts[1..], w[i..], k) <==> DerivesSeq(defs, Live(ts[1..]), w[i..], k)
      {
        LiveSeq(defs, ts[1..], w[i..], k);
      }
      if Dead(ts[0]) {
        assert w[0..] == w && w[..0] == [];
        assert forall i :: 0 <= i <= |w| && w[..i] == [] ==> w[i..] == w;
      } else {
        assert Live(ts)[0] == ts[0] && Live(ts)[1..] == Live(ts[1..]);
      }
    }
  }

  lemma {:induction false} NeverSeq(defs: seq<Def>, ts: seq<Bnf>, w: Sentence, k: nat)
    requires Has(ts, Never)
    ensures !DerivesSeq(defs, ts, w, k)
  {
    if ts[0].id != Never {
      var i :| 0 <= i < |ts| && ts[i].id == Never;
      assert ts[1..][i - 1].id == Never;
      forall i | 0 <= i <= |w|
        ensures !DerivesSeq(defs, ts[1..], w[i..], k)
      {
        NeverSeq(defs, ts[1..], w[i..], k);
      }
    }
  }

  lemma {:induction false} LiveAny(defs: seq<Def>, ts: seq<Bnf>, w: Sentence, k: nat)
    ensures DerivesAny(defs, ts, w, k) <==> (DerivesAny(defs, Live(ts), w, k) || (Has(ts, Nop) && w == []))
  {
    if ts != [] {
      LiveAny(defs, ts[1..], w, k);
      assert Has(ts, Nop) <==> ts[0].id == Nop || Has(ts[1..], Nop) by {
        assert forall i :: 0 <= i < |ts[1..]| ==> ts[1..][i] == ts[i + 1];
      }
      if !Dead(ts[0]) {
        assert Live(ts)[0] == ts[0] && Live(ts)[1..] == Live(ts[1..]);
      }
    }
  }

  lemma {:induction false} LiveStar(defs: seq<Def>, ts: seq<Bnf>, w: Sentence, k: nat)
    ensures DerivesStar(defs, ts, w, k) <==> DerivesStar(defs, Live(ts), w, k)
    decreases |w|
  {
    forall i | 0 < i <= |w|
      ensures DerivesAny(defs, ts, w[..i], k) <==> DerivesAny(defs, Live(ts), w[..i], k)
      ensures DerivesStar(defs, ts, w[i..], k) <==> DerivesStar(defs, Live(ts), w[i..], k)
    {
      LiveAny(defs, ts, w[..i], k);
      LiveStar(defs, ts, w[i..], k);
    }
  }

  lemma LoneSeq(defs: seq<Def>, t: Bnf, w: Sentence, k: nat)
    ensures DerivesSeq(defs, [t], w, k) <==> Derives(defs, t, w, k)
    ensures DerivesAny(defs, [t], w, k) <==> Derives(defs, t, w, k)
  {
    assert [t][1..] == [];
    assert w[..|w|] == w && w[|w|..] == [];
    assert DerivesSeq(defs, [t][1..], w[|w|..], k);
    assert forall i :: 0 <= i <= |w| && w[i..] == [] ==> w[..i] == w;
  }

  /** Settling a node does not change what it derives. */
  lemma SettleExact(defs: seq<Def>, t: Bnf, ks: seq<Bnf>, w: Sentence, k: nat)
    requires Composite(t)
    ensures Derives(defs, t.(kids := ks), w, k) <==> Derives(defs, Settle(t, ks), w, k)
  {
    var live := Live(ks);
    match t.id {
      case Seq =>
        if Has(ks, Never) {
          NeverSeq(defs, ks, w, k);
        } else {
          LiveSeq(defs, ks, w, k);
        }
      case Or => LiveAny(defs, ks, w, k);
      case Repeat => LiveStar(defs, ks, w, k);
    }
    if |live| == 1 {
      assert live == [live[0]];
      LoneSeq(defs, live[0], w, k);
    }
  }

  // ----- a pass over one tree -----

  /** A simplified tree derives what the tree did, no deeper ... */
  lemma {:induction false} SimplifySound(defs: seq<Def>, t: Bnf, k: nat)
    ensures Into(defs, t, k, defs, Simplify(defs, t), k)
    decreases t
  {
    if Composite(t) {
      var ks := SimplifyAll(defs, t.kids);
      forall i | 0 <= i < |t.kids|
        ensures Into(defs, t.kids[i], k, defs, ks[i], k)
      {
        SimplifySound(defs, t.kids[i], k);
      }
      LiftNode(defs, t, k, defs, t.(kids := ks), k);
      forall w: Sentence | Derives(defs, t, w, k)
        ensures Derives(defs, Simplify(defs, t), w, k)
      {
        SettleExact(defs, t, ks, w, k);
      }
    } else if t.id == Rule && Find(defs, t.name) < |defs| && k > 0 {
      Monotone(defs, defs[Find(defs, t.name)].body, k - 1, k);
    }
  }

  /** ... and nothing more, one unfolding deeper. */
  lemma {:induction false} SimplifyComplete(defs: seq<Def>, t: Bnf, k: nat)
    ensures Into(defs, Simplify(defs, t), k, defs, t, k + 1)
    decreases t
  {
    if Composite(t) {
      var ks := SimplifyAll(defs, t.kids);
      forall i | 0 <= i < |t.kids|
        ensures Into(defs, ks[i], k, defs, t.kids[i], k + 1)
      {
        SimplifyComplete(defs, t.kids[i], k);
      }
      LiftNode(defs, t.(kids := ks), k, defs, t, k + 1);
      forall w: Sentence | Derives(defs, Simplify(defs, t), w, k)
        ensures Derives(defs, t, w, k + 1)
      {
        SettleExact(defs, t, ks, w, k);
      }
    } else {
      Monotone(defs, t, k, k + 1);
    }
  }

  // ----- rewriting one definition of a grammar -----

  function Rebody(defs: seq<Def>, d: nat, body: Bnf): (r: seq<Def>)
    requires d < |defs|
    ensures |r| == |defs|
    ensures forall i :: 0 <= i < |defs| ==> r[i] == if i == d then defs[d].(body := body) else defs[i]
  {
    defs[d := defs[d].(body := body)]
  }

  /** Names and inlining marks are what the passes leave alone. */
  ghost predicate SameShape(g: seq<Def>, h: seq<Def>) {
    |g| == |h| && forall i :: 0 <= i < |g| ==> g[i].name == h[i].name && g[i].inlined == h[i].inlined
  }

  lemma {:induction false} SameFind(g: seq<Def>, h: seq<Def>, name: string)
    requires SameShape(g, h)
    ensures Find(g, name) == Find(h, name)
  {
    if g != [] {
      SameFind(g[1..], h[1..], name);
    }
  }

  /** u derives everything t does, no deeper. */
  ghost predicate Improves(g: seq<Def>, t: Bnf, u: Bnf) {
    forall j: nat :: Into(g, t, j, g, u, j)
  }

  /** Everything u derives t derives, at most one unfolding deeper. */
  ghost predicate Covers(g: seq<Def>, t: Bnf, u: Bnf) {
    forall j: nat :: CoversAt(g, t, u, j)
  }

  ghost predicate CoversAt(g: seq<Def>, t: Bnf, u: Bnf, j: nat) {
    Into(g, u, j, g, t, j + 1)
  }

  /** Replacing a body by one that derives at least as much, no deeper, loses nothing ... */
  lemma {:induction false} RebodySound(g: seq<Def>, d: nat, body: Bnf, t: Bnf, k: nat)
    requires d < |g| && Improves(g, g[d].body, body)
    ensures Into(g, t, k, Rebody(g, d, body), t, k)
    decreases k, t
  {
    var h := Rebody(g, d, body);
    if Composite(t) {
      forall i | 0 <= i < |t.kids|
        ensures Into(g, t.kids[i], k, h, t.kids[i], k)
      {
        RebodySound(g, d, body, t.kids[i], k);
      }
      LiftNode(g, t, k, h, t, k);
    } else if t.id == Rule {
      SameFind(g, h, t.name);
      var e := Find(g, t.name);
      if e < |g| && k > 0 {
        assert Into(g, g[e].body, k - 1, g, h[e].body, k - 1);
        RebodySound(g, d, body, h[e].body, k - 1);
      }
    }
  }

  /** ... and by one that derives nothing new, gains nothing. */
  lemma {:induction false} RebodyComplete(g: seq<Def>, d: nat, body: Bnf, t: Bnf, k: nat)
    requires d < |g| && Covers(g, g[d].body, body)
    ensures Into(Rebody(g, d, body), t, k, g, t, 2 * k)
    decreases k, t
  {
    var h := Rebody(g, d, body);
    if Composite(t) {
      forall i | 0 <= i < |t.kids|
        ensures Into(h, t.kids[i], k, g, t.kids[i], 2 * k)
      {
        RebodyComplete(g, d, body, t.kids[i], k);
      }
      LiftNode(h, t, k, g, t, 2 * k);
    } else if t.id == Rule {
      SameFind(g, h, t.name);
      var e := Find(g, t.name);
      if e < |g| && k > 0 {
        RebodyComplete(g, d, body, h[e].body, k - 1);
        if e == d {
          assert CoversAt(g, g[d].body, body, 2 * k - 2);
        } else {
          Monotone(g, g[e].body, 2 * k - 2, 2 * k - 1);
        }
      }
    }
  }

  lemma RebodyKeepsLanguage(g: seq<Def>, d: nat, body: Bnf)
    requires d < |g| && Improves(g, g[d].body, body) && Covers(g, g[d].body, body)
    ensures SameLanguage(g, Rebody(g, d, body))
  {
    var h := Rebody(g, d, body);
    forall t: Bnf, w: Sentence
      ensures InLanguage(g, t, w) <==> InLanguage(h, t, w)
    {
      if InLanguage(g, t, w) {
        var k: nat :| Derives(g, t, w, k);
        RebodySound(g, d, body, t, k);
        assert Derives(h, t, w, k);
      }
      if InLanguage(h, t, w) {
        var k: nat :| Derives(h, t, w, k);
        RebodyComplete(g, d, body, t, k);
        assert Derives(g, t, w, 2 * k);
      }
    }
  }

  /** Simplifying one definition leaves every language as it was. */
  lemma SimplifyDefKeepsLanguage(defs: seq<Def>, d: nat)
    requires d < |defs|
    ensures SameLanguage(defs, Rebody(defs, d, Simplify(defs, defs[d].body)))
  {
    var body := Simplify(defs, defs[d].body);
    forall j: nat
      ensures Into(defs, defs[d].body, j, defs, body, j)
      ensures CoversAt(defs, defs[d].body, body, j)
    {
      SimplifySound(defs, defs[d].body, j);
      SimplifyComplete(defs, defs[d].body, j);
    }
    RebodyKeepsLanguage(defs, d, body);
  }
}

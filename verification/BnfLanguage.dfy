/** The BNF trees that the grammar printer builds from the parser macros, and the
    language each tree stands for.

    A tree node keeps the four fields of the source's node that carry meaning (its id,
    name, optional flag and child list).  A node turned into NEVER or NOP keeps its old
    children, as the source does; they are dead and the language ignores them. */
module BnfLanguage {

  datatype Kind = Seq | Or | Repeat | Token | QuotedToken | Rule | Never | Nop

  datatype Bnf = Bnf(id: Kind, name: string, optional: bool, kids: seq<Bnf>)

  /** A rule definition: its name, whether it is marked for inlining, its single child. */
  datatype Def = Def(name: string, inlined: bool, body: Bnf)

  /** A lexical token as it occurs in a sentence. */
  datatype Terminal = Terminal(quoted: bool, text: string)

  type Sentence = seq<Terminal>

  predicate Composite(t: Bnf) {
    t.id == Seq || t.id == Or || t.id == Repeat
  }

  predicate Dead(t: Bnf) {
    t.id == Never || t.id == Nop
  }

  /** The index of the first definition with the given name, or the number of definitions
      when there is none. */
  function Find(defs: seq<Def>, name: string): (i: nat)
    ensures i <= |defs|
    ensures i < |defs| ==> defs[i].name == name
    ensures forall j :: 0 <= j < i ==> defs[j].name != name
  {
    if defs == [] then 0
    else if defs[0].name == name then 0
    else 1 + Find(defs[1..], name)
  }

  /** Every live rule reference in the tree names a definition. */
  predicate ClosedTree(defs: seq<Def>, t: Bnf)
    decreases t
  {
    && (t.id == Rule ==> Find(defs, t.name) < |defs|)
    && (Composite(t) ==> forall i :: 0 <= i < |t.kids| ==> ClosedTree(defs, t.kids[i]))
  }

  predicate Closed(defs: seq<Def>) {
    forall i :: 0 <= i < |defs| ==> ClosedTree(defs, defs[i].body)
  }

  // ----- derivations -----

  /** Tree t derives the sentence w unfolding rule references to depth at most k. */
  ghost predicate Derives(defs: seq<Def>, t: Bnf, w: Sentence, k: nat)
    decreases k, t, 0
  {
    match t.id
    case Never => false
    case Nop => w == []
    case Token => w == [Terminal(false, t.name)]
    case QuotedToken => w == [Terminal(true, t.name)]
    case Rule =>
      var d := Find(defs, t.name);
      d < |defs| && k > 0 && Derives(defs, defs[d].body, w, k - 1)
    case Seq => DerivesSeq(defs, t.kids, w, k)
    case Or => (t.optional && w == []) || DerivesAny(defs, t.kids, w, k)
    case Repeat => DerivesStar(defs, t.kids, w, k)
  }

  /** w splits into one piece for each tree, in order. */
  ghost predicate DerivesSeq(defs: seq<Def>, ts: seq<Bnf>, w: Sentence, k: nat)
    decreases k, ts, 0
  {
    if ts == [] then w == []
    else exists i :: 0 <= i <= |w| && Derives(defs, ts[0], w[..i], k) && DerivesSeq(defs, ts[1..], w[i..], k)
  }

  /** Some tree derives w. */
  ghost predicate DerivesAny(defs: seq<Def>, ts: seq<Bnf>, w: Sentence, k: nat)
    decreases k, ts, 0
  {
    ts != [] && (Derives(defs, ts[0], w, k) || DerivesAny(defs, ts[1..], w, k))
  }

  /** w is a string of nonempty pieces, each derived by some tree. */
  ghost predicate DerivesStar(defs: seq<Def>, ts: seq<Bnf>, w: Sentence, k: nat)
    decreases k, ts, 1, |w|
  {
    w == [] || exists i :: 0 < i <= |w| && DerivesAny(defs, ts, w[..i], k) && DerivesStar(defs, ts, w[i..], k)
  }

  /** The language of a tree in a grammar, and of a named rule. */
  ghost predicate InLanguage(defs: seq<Def>, t: Bnf, w: Sentence) {
    exists k: nat :: Derives(defs, t, w, k)
  }

  ghost predicate InRule(defs: seq<Def>, name: string, w: Sentence) {
    var d := Find(defs, name);
    d < |defs| && InLanguage(defs, defs[d].body, w)
  }

  /** Two grammars with the same rule names give every tree the same language. */
  ghost predicate SameLanguage(g: seq<Def>, h: seq<Def>) {
    forall t: Bnf, w: Sentence :: InLanguage(g, t, w) <==> InLanguage(h, t, w)
  }

  // ----- carrying derivations from one grammar and tree to another -----

  /** Whatever t derives in g with depth j, u derives in h with depth k. */
  ghost predicate Into(g: seq<Def>, t: Bnf, j: nat, h: seq<Def>, u: Bnf, k: nat) {
    forall w: Sentence :: Derives(g, t, w, j) ==> Derives(h, u, w, k)
  }

  ghost predicate AllInto(g: seq<Def>, ts: seq<Bnf>, j: nat, h: seq<Def>, us: seq<Bnf>, k: nat) {
    |ts| == |us| && forall i :: 0 <= i < |ts| ==> Into(g, ts[i], j, h, us[i], k)
  }

  lemma {:induction false} LiftSeq(g: seq<Def>, ts: seq<Bnf>, j: nat, h: seq<Def>, us: seq<Bnf>, k: nat, w: Sentence)
    requires AllInto(g, ts, j, h, us, k) && DerivesSeq(g, ts, w, j)
    ensures DerivesSeq(h, us, w, k)
    decreases |ts|
  {
    if ts != [] {
      var i :| 0 <= i <= |w| && Derives(g, ts[0], w[..i], j) && DerivesSeq(g, ts[1..], w[i..], j);
      assert Into(g, ts[0], j, h, us[0], k);
      LiftSeq(g, ts[1..], j, h, us[1..], k, w[i..]);
    }
  }

  lemma {:induction false} LiftAny(g: seq<Def>, ts: seq<Bnf>, j: nat, h: seq<Def>, us: seq<Bnf>, k: nat, w: Sentence)
    requires AllInto(g, ts, j, h, us, k) && DerivesAny(g, ts, w, j)
    ensures DerivesAny(h, us, w, k)
    decreases |ts|
  {
    assert Into(g, ts[0], j, h, us[0], k);
    if !Derives(g, ts[0], w, j) {
      LiftAny(g, ts[1..], j, h, us[1..], k, w);
    }
  }

  lemma {:induction false} LiftStar(g: seq<Def>, ts: seq<Bnf>, j: nat, h: seq<Def>, us: seq<Bnf>, k: nat, w: Sentence)
    requires AllInto(g, ts, j, h, us, k) && DerivesStar(g, ts, w, j)
    ensures DerivesStar(h, us, w, k)
    decreases |w|
  {
    if w != [] {
      var i :| 0 < i <= |w| && DerivesAny(g, ts, w[..i], j) && DerivesStar(g, ts, w[i..], j);
      LiftAny(g, ts, j, h, us, k, w[..i]);
      LiftStar(g, ts, j, h, us, k, w[i..]);
    }
  }

  /** A node whose children are carried over pointwise is carried over itself. */
  lemma LiftNode(g: seq<Def>, t: Bnf, j: nat, h: seq<Def>, u: Bnf, k: nat)
    requires Composite(t) && u.id == t.id && (t.optional ==> u.optional)
    requires AllInto(g, t.kids, j, h, u.kids, k)
    ensures Into(g, t, j, h, u, k)
  {
    forall w: Sentence | Derives(g, t, w, j)
      ensures Derives(h, u, w, k)
    {
      match t.id
      case Seq => LiftSeq(g, t.kids, j, h, u.kids, k, w);
      case Or => if DerivesAny(g, t.kids, w, j) { LiftAny(g, t.kids, j, h, u.kids, k, w); }
      case Repeat => LiftStar(g, t.kids, j, h, u.kids, k, w);
    }
  }

  lemma {:induction false} Monotone(defs: seq<Def>, t: Bnf, j: nat, k: nat)
    requires j <= k
    ensures Into(defs, t, j, defs, t, k)
    decreases j, t
  {
    if Composite(t) {
      forall i | 0 <= i < |t.kids|
        ensures Into(defs, t.kids[i], j, defs, t.kids[i], k)
      {
        Monotone(defs, t.kids[i], j, k);
      }
      LiftNode(defs, t, j, defs, t, k);
    } else if t.id == Rule && Find(defs, t.name) < |defs| && j > 0 {
      Monotone(defs, defs[Find(defs, t.name)].body, j - 1, k - 1);
      assert Into(defs, defs[Find(defs, t.name)].body, j - 1, defs, defs[Find(defs, t.name)].body, k - 1);
    }
  }
}

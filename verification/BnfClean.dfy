/** The clean grammar: the grammar with the lexer's test tokens taken out.

    The token sets are built with or without the test tokens, which are those whose text
    begins with a dollar sign; the rest of the grammar is built the same way. */
module BnfClean {
  import opened BnfLanguage
  import opened BnfSimplify
  import opened BnfTermination
  import opened BnfSimplifier

  /** A token as it is listed in a token set: named classes such as ID or INT, tokens with a
      fixed text, and the newline marker, which never reaches the grammar. */
  datatype TokenId = Class(name: string) | Text(text: string) | Newline(text: string)

  predicate Dollar(text: string) {
    text != [] && text[0] == '$'
  }

  /** The reference to a token in the raw grammar. */
  function TokenNode(token: TokenId): Bnf {
    match token
    case Class(name) => Bnf(Token, name, false, [])
    case Text(text) => Bnf(QuotedToken, text, false, [])
    case Newline(text) => Bnf(Never, text, false, [])
  }

  function TokenNodes(tokens: seq<TokenId>): (r: seq<Bnf>)
    ensures |r| == |tokens|
    ensures forall i :: 0 <= i < |tokens| ==> r[i] == TokenNode(tokens[i])
  {
    seq(|tokens|, i requires 0 <= i < |tokens| => TokenNode(tokens[i]))
  }

  /** Appends a reference to each token to the children of a node; with the clean flag on
      these are the cleaned references. */
  method TokenSet(node: Bnf, tokens: seq<TokenId>, clean: bool) returns (r: Bnf)
    ensures r == node.(kids := node.kids + if clean then CleanedAll(TokenNodes(tokens)) else TokenNodes(tokens))
  {
    hide Cleaned, CleanedAll, TokenNode;
    ghost var all := if clean then CleanedAll(TokenNodes(tokens)) else TokenNodes(tokens);
    var kids := [];
    var i := 0;
    while i < |tokens|
      invariant 0 <= i <= |tokens|
      invariant kids == all[..i]
    {
      var p := TokenReference(tokens[i], clean);
      assert p == all[i];
      kids := kids + [p];
      i := i + 1;
    }
    assert all[..i] == all;
    r := node.(kids := node.kids + kids);
  }

  method TokenReference(token: TokenId, clean: bool) returns (p: Bnf)
    ensures p == if clean then Cleaned(TokenNode(token)) else TokenNode(token)
  {
    p := Bnf(Token, "", false, []);
    match token {
      case Class(name) => p := p.(name := name);
      case Text(text) =>
        p := p.(name := text, id := QuotedToken);
        if clean && Dollar(text) {
          p := p.(id := Never);
        }
      case Newline(text) =>
        p := p.(name := text, id := Never);
    }
    LeafCleaned(token);
  }

  lemma LeafCleaned(token: TokenId)
    ensures Cleaned(TokenNode(token))
         == if token.Text? && Dollar(token.text) then TokenNode(token).(id := Never) else TokenNode(token)
  {
  }

  /** The tree built with the clean flag on, from the one built with it off. */
  function Cleaned(t: Bnf): Bnf
    decreases t
  {
    if t.id == QuotedToken && Dollar(t.name) then t.(id := Never)
    else t.(kids := CleanedAll(t.kids))
  }

  function CleanedAll(ts: seq<Bnf>): (r: seq<Bnf>)
    ensures |r| == |ts|
    ensures forall i :: 0 <= i < |ts| ==> r[i] == Cleaned(ts[i])
    decreases ts
  {
    if ts == [] then [] else [Cleaned(ts[0])] + CleanedAll(ts[1..])
  }

  function CleanedDefs(defs: seq<Def>): (r: seq<Def>)
    ensures |r| == |defs|
    ensures forall i :: 0 <= i < |defs| ==> r[i] == defs[i].(body := Cleaned(defs[i].body))
  {
    seq(|defs|, i requires 0 <= i < |defs| => defs[i].(body := Cleaned(defs[i].body)))
  }

  /** A sentence without test tokens. */
  ghost predicate Clean(w: Sentence) {
    forall i :: 0 <= i < |w| ==> !(w[i].quoted && Dollar(w[i].text))
  }

  /** The cleaned tree derives exactly the clean sentences among those of the tree. */
  lemma {:induction false} CleanedExact(defs: seq<Def>, t: Bnf, w: Sentence, k: nat)
    ensures Derives(CleanedDefs(defs), Cleaned(t), w, k) <==> Derives(defs, t, w, k) && Clean(w)
    decreases k, t, 0
  {
    match t.id
    case Rule =>
      SameFind(defs, CleanedDefs(defs), t.name);
      if Find(defs, t.name) < |defs| && k > 0 {
        CleanedExact(defs, defs[Find(defs, t.name)].body, w, k - 1);
      }
    case Seq => CleanedSeq(defs, t.kids, w, k);
    case Or => CleanedAny(defs, t.kids, w, k);
    case Repeat => CleanedStar(defs, t.kids, w, k);
    case QuotedToken => if w == [Terminal(true, t.name)] { assert Clean(w) <==> !Dollar(t.name) by { assert w[0].quoted; } }
    case _ =>
  }

  lemma {:induction false} CleanedSeq(defs: seq<Def>, ts: seq<Bnf>, w: Sentence, k: nat)
    ensures DerivesSeq(CleanedDefs(defs), CleanedAll(ts), w, k) <==> DerivesSeq(defs, ts, w, k) && Clean(w)
    decreases k, ts, 0
  {
    if ts != [] {
      var us := CleanedAll(ts);
      assert us[1..] == CleanedAll(ts[1..]);
      forall i | 0 <= i <= |w|
        ensures Clean(w) <==> Clean(w[..i]) && Clean(w[i..])
        ensures Derives(CleanedDefs(defs), us[0], w[..i], k) <==> Derives(defs, ts[0], w[..i], k) && Clean(w[..i])
        ensures DerivesSeq(CleanedDefs(defs), us[1..], w[i..], k) <==> DerivesSeq(defs, ts[1..], w[i..], k) && Clean(w[i..])
      {
        CleanSplit(w, i);
        CleanedExact(defs, ts[0], w[..i], k);
        CleanedSeq(defs, ts[1..], w[i..], k);
      }
    }
  }

  lemma {:induction false} CleanedAny(defs: seq<Def>, ts: seq<Bnf>, w: Sentence, k: nat)
    ensures DerivesAny(CleanedDefs(defs), CleanedAll(ts), w, k) <==> DerivesAny(defs, ts, w, k) && Clean(w)
    decreases k, ts, 0
  {
    if ts != [] {
      assert CleanedAll(ts)[1..] == CleanedAll(ts[1..]);
      CleanedExact(defs, ts[0], w, k);
      CleanedAny(defs, ts[1..], w, k);
    }
  }

  lemma {:induction false} CleanedStar(defs: seq<Def>, ts: seq<Bnf>, w: Sentence, k: nat)
    ensures DerivesStar(CleanedDefs(defs), CleanedAll(ts), w, k) <==> DerivesStar(defs, ts, w, k) && Clean(w)
    decreases k, ts, 1, |w|
  {
    var us := CleanedAll(ts);
    forall i | 0 < i <= |w|
      ensures Clean(w) <==> Clean(w[..i]) && Clean(w[i..])
      ensures DerivesAny(CleanedDefs(defs), us, w[..i], k) <==> DerivesAny(defs, ts, w[..i], k) && Clean(w[..i])
      ensures DerivesStar(CleanedDefs(defs), us, w[i..], k) <==> DerivesStar(defs, ts, w[i..], k) && Clean(w[i..])
    {
      CleanSplit(w, i);
      CleanedAny(defs, ts, w[..i], k);
      CleanedStar(defs, ts, w[i..], k);
    }
  }

  lemma CleanSplit(w: Sentence, i: nat)
    requires i <= |w|
    ensures Clean(w) <==> Clean(w[..i]) && Clean(w[i..])
  {
    assert forall j :: i <= j < |w| ==> w[i..][j - i] == w[j];
    assert forall j :: 0 <= j < i ==> w[..i][j] == w[j];
  }

  /** Simplifying the clean grammar gives every rule its clean sentences and no others. */
  method SimplifyClean(defs: seq<Def>, ghost V: string -> nat) returns (r: seq<Def>)
    requires Closed(CleanedDefs(defs)) && Ranked(V, CleanedDefs(defs))
    ensures forall name, w :: InRule(r, name, w) <==> InRule(defs, name, w) && Clean(w)
    ensures forall d :: 0 <= d < |r| ==> Normal(r, r[d].body)
  {
    var tree := new GrammarTree(CleanedDefs(defs));
    tree.Simplify(V);
    r := tree.defs;
    forall name, w
      ensures InRule(r, name, w) <==> InRule(defs, name, w) && Clean(w)
    {
      assert InRule(r, name, w) <==> InRule(CleanedDefs(defs), name, w);
      CleanedRule(defs, name, w);
    }
  }

  lemma CleanedRule(defs: seq<Def>, name: string, w: Sentence)
    ensures InRule(CleanedDefs(defs), name, w) <==> InRule(defs, name, w) && Clean(w)
  {
    SameFind(defs, CleanedDefs(defs), name);
    var d := Find(defs, name);
    if d < |defs| {
      forall k: nat
        ensures Derives(CleanedDefs(defs), Cleaned(defs[d].body), w, k) <==> Derives(defs, defs[d].body, w, k) && Clean(w)
      {
        CleanedExact(defs, defs[d].body, w, k);
      }
    }
  }
}

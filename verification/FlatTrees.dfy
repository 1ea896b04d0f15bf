/**
 * Flatten nodes. A node with this id stands for its children, which may be such nodes
 * again; what it stands for in the end are the leaves of a finite tree.
 */
module FlatTrees {
  import opened AstLinks
  import opened AstForest

  /** The token id of nodes that stand for their children. */
  const FlattenId: nat := 1

  datatype Flat = Leaf(n: Node) | Nest(n: Node, ts: seq<Flat>)

  /** t is what the lists of children make of its top node. */
  ghost predicate IsFlat(kids: Kids, t: Flat) {
    t.n in kids &&
    match t
    case Leaf(n) => n.id != FlattenId
    case Nest(n, ts) =>
      n.id == FlattenId && |ts| == |kids[n]| &&
      forall i :: 0 <= i < |ts| ==> ts[i].n == kids[n][i] && IsFlat(kids, ts[i])
  }

  /** The nodes that t stands for, in order. */
  function Leaves(t: Flat): seq<Node> {
    match t
    case Leaf(n) => [n]
    case Nest(_, ts) => LeavesAll(ts)
  }

  function LeavesAll(ts: seq<Flat>): seq<Node> {
    if ts == [] then [] else LeavesAll(ts[..|ts| - 1]) + Leaves(ts[|ts| - 1])
  }

  /** The flatten nodes of t. */
  function Nests(t: Flat): set<Node> {
    match t
    case Leaf(_) => {}
    case Nest(n, ts) => {n} + NestsAll(ts)
  }

  function NestsAll(ts: seq<Flat>): set<Node> {
    if ts == [] then {} else NestsAll(ts[..|ts| - 1]) + Nests(ts[|ts| - 1])
  }

  function Size(t: Flat): nat {
    match t
    case Leaf(_) => 0
    case Nest(_, ts) => 1 + SizeAll(ts)
  }

  function SizeAll(ts: seq<Flat>): nat {
    if ts == [] then 0 else SizeAll(ts[..|ts| - 1]) + Size(ts[|ts| - 1])
  }

  lemma {:induction false} InNestsAll(ts: seq<Flat>, x: Node) returns (i: nat)
    requires x in NestsAll(ts)
    ensures i < |ts| && x in Nests(ts[i])
  {
    var init := ts[..|ts| - 1];
    if x in NestsAll(init) {
      i := InNestsAll(init, x);
    } else {
      i := |ts| - 1;
    }
  }

  lemma {:induction false} MemberIn(ts: seq<Flat>, i: nat)
    requires i < |ts|
    ensures Nests(ts[i]) <= NestsAll(ts) && Size(ts[i]) <= SizeAll(ts)
  {
    if i < |ts| - 1 {
      MemberIn(ts[..|ts| - 1], i);
    }
  }

  /** The lists determine the tree. */
  lemma {:induction false} FlatUnique(kids: Kids, t: Flat, u: Flat)
    requires IsFlat(kids, t) && IsFlat(kids, u) && t.n == u.n
    ensures t == u
    decreases t
  {
    if t.Nest? {
      forall i | 0 <= i < |t.ts|
        ensures t.ts[i] == u.ts[i]
      {
        FlatUnique(kids, t.ts[i], u.ts[i]);
      }
    }
  }

  /** Every flatten node of t is the top of a part of t; below the top, of a smaller part that is held in a list. */
  lemma {:induction false} PartOf(kids: Kids, t: Flat, x: Node) returns (u: Flat, p: Flat)
    requires IsFlat(kids, t) && x in Nests(t)
    ensures IsFlat(kids, u) && u.n == x && Size(u) <= Size(t)
    ensures x != t.n ==> Size(u) < Size(t) && IsFlat(kids, p) && p.n in Nests(t) && x in kids[p.n] && Size(u) < Size(p) <= Size(t)
    decreases t
  {
    if x == t.n {
      return t, t;
    }
    var i := InNestsAll(t.ts, x);
    MemberIn(t.ts, i);
    u, p := PartOf(kids, t.ts[i], x);
    if x == t.ts[i].n {
      FlatUnique(kids, u, t.ts[i]);
      p := t;
      assert kids[t.n][i] == x;
    }
  }

  /** The top does not occur below. */
  lemma TopOnce(kids: Kids, t: Flat, i: nat)
    requires IsFlat(kids, t) && t.Nest? && i < |t.ts|
    ensures t.n !in Nests(t.ts[i])
  {
    if t.n in Nests(t.ts[i]) {
      var u, _ := PartOf(kids, t.ts[i], t.n);
      FlatUnique(kids, u, t);
      MemberIn(t.ts, i);
    }
  }

  /** Trees neither of whose tops is in the other share no flatten node. */
  lemma {:induction false} Disjoint(h: Heap, kids: Kids, live: set<Node>, t: Flat, u: Flat, x: Node)
    requires Consistent(h, kids, live) && IsFlat(kids, t) && IsFlat(kids, u) && t.n !in Nests(u) && u.n !in Nests(t)
    requires x in Nests(t)
    ensures x !in Nests(u)
  {
    if x in Nests(u) {
      var v, _ := PartOf(kids, t, x);
      NotShared(h, kids, live, t, u, v);
    }
  }

  lemma {:induction false} NotShared(h: Heap, kids: Kids, live: set<Node>, t: Flat, u: Flat, v: Flat)
    requires Consistent(h, kids, live) && IsFlat(kids, t) && IsFlat(kids, u) && t.n !in Nests(u) && u.n !in Nests(t)
    requires IsFlat(kids, v) && v.n in Nests(t) && v.n in Nests(u) && Size(v) <= Size(t)
    ensures false
    decreases Size(t) - Size(v)
  {
    var x := v.n;
    var v1, p := PartOf(kids, t, x);
    var v2, q := PartOf(kids, u, x);
    FlatUnique(kids, v, v1);
    PartIn(kids, t, p.n);
    PartIn(kids, u, q.n);
    OneList(h, kids, live, p.n, q.n, x);
    NotShared(h, kids, live, t, u, p);
  }

  lemma {:induction false} PartIn(kids: Kids, t: Flat, x: Node)
    requires IsFlat(kids, t) && x in Nests(t)
    ensures x in kids
  {
    var _, _ := PartOf(kids, t, x);
  }

  /** Children of one flatten node share no flatten node. */
  lemma SiblingsApart(h: Heap, kids: Kids, live: set<Node>, t: Flat, i: nat, j: nat, x: Node)
    requires Consistent(h, kids, live) && IsFlat(kids, t) && t.Nest? && i < |t.ts| && j < |t.ts| && i != j
    requires x in Nests(t.ts[i])
    ensures x !in Nests(t.ts[j])
  {
    ChildApart(h, kids, live, t, i, j);
    ChildApart(h, kids, live, t, j, i);
    Disjoint(h, kids, live, t.ts[i], t.ts[j], x);
  }

  lemma ChildApart(h: Heap, kids: Kids, live: set<Node>, t: Flat, i: nat, j: nat)
    requires Consistent(h, kids, live) && IsFlat(kids, t) && t.Nest? && i < |t.ts| && j < |t.ts| && i != j
    ensures t.ts[i].n !in Nests(t.ts[j])
  {
    var c := t.ts[i].n;
    if c in Nests(t.ts[j]) {
      ListDistinct(h, kids, live, t.n);
      assert c == kids[t.n][i] && t.ts[j].n == kids[t.n][j];
      var _, p := PartOf(kids, t.ts[j], c);
      OneList(h, kids, live, t.n, p.n, c);
      TopOnce(kids, t, j);
    }
  }

  /** A node in no list is in no tree but its own. */
  lemma LooseApart(h: Heap, kids: Kids, live: set<Node>, t: Flat, x: Node)
    requires Consistent(h, kids, live) && IsFlat(kids, t) && Loose(h, kids, x) && x != t.n
    ensures x !in Nests(t)
  {
    if x in Nests(t) {
      var _, p := PartOf(kids, t, x);
    }
  }

  /** The tree stays while the lists of its flatten nodes do. */
  lemma {:induction false} FlatSame(kids: Kids, kids1: Kids, t: Flat)
    requires IsFlat(kids, t) && kids1.Keys == kids.Keys && forall m <- Nests(t) :: m in kids && kids1[m] == kids[m]
    ensures IsFlat(kids1, t)
    decreases t
  {
    if t.Nest? {
      forall i | 0 <= i < |t.ts|
        ensures IsFlat(kids1, t.ts[i])
      {
        MemberIn(t.ts, i);
        FlatSame(kids, kids1, t.ts[i]);
      }
    }
  }

  /** Leaves are children of flatten nodes, or the top. */
  lemma {:induction false} LeavesKnown(kids: Kids, t: Flat, x: Node)
    requires IsFlat(kids, t) && x in Leaves(t)
    ensures x == t.n || exists m :: m in kids && x in kids[m]
    decreases t
  {
    if t.Nest? {
      var i := InLeavesAll(t.ts, x);
      LeavesKnown(kids, t.ts[i], x);
      assert t.ts[i].n in kids[t.n];
    }
  }

  lemma {:induction false} InLeavesAll(ts: seq<Flat>, x: Node) returns (i: nat)
    requires x in LeavesAll(ts)
    ensures i < |ts| && x in Leaves(ts[i])
  {
    var init := ts[..|ts| - 1];
    if x in LeavesAll(init) {
      i := InLeavesAll(init, x);
    } else {
      i := |ts| - 1;
    }
  }

  // ----- Spreading a tree over a list

  /** The lists after the leaves of t have moved to a. */
  function Spread(kids: Kids, a: Node, t: Flat): (r: Kids)
    requires a in kids
    ensures r.Keys == kids.Keys
  {
    map m | m in kids :: if m == a then kids[a] + Leaves(t) else if m in Nests(t) then [] else kids[m]
  }

  /** The lists after the leaves of the first i parts of t have moved to a. */
  function Spreading(kids: Kids, a: Node, t: Flat, i: nat): (r: Kids)
    requires a in kids && t.Nest? && i <= |t.ts| && t.n in kids && i <= |kids[t.n]|
    ensures r.Keys == kids.Keys
  {
    map m | m in kids ::
      if m == a then kids[a] + LeavesAll(t.ts[..i])
      else if m == t.n then kids[t.n][i..]
      else if m in NestsAll(t.ts[..i]) then []
      else kids[m]
  }

  lemma SpreadStart(kids: Kids, a: Node, t: Flat)
    requires a in kids && t.Nest? && t.n in kids && a != t.n
    ensures Spreading(kids, a, t, 0) == kids
  {
    assert t.ts[..0] == [] && kids[t.n][0..] == kids[t.n] && kids[a] + [] == kids[a];
  }

  lemma SpreadTop(kids: Kids, a: Node, t: Flat, i: nat)
    requires a in kids && t.Nest? && t.n in kids && a != t.n && i <= |t.ts| && i <= |kids[t.n]|
    ensures Spreading(kids, a, t, i)[t.n] == kids[t.n][i..]
  {
  }

  lemma SpreadLeaf(kids: Kids, a: Node, t: Flat)
    requires a in kids && IsFlat(kids, t) && t.n.id != FlattenId
    ensures Leaves(t) == [t.n] && Nests(t) == {} && Spread(kids, a, t) == kids[a := kids[a] + [t.n]]
  {
  }

  lemma NestIs(kids: Kids, t: Flat)
    requires IsFlat(kids, t) && t.Nest?
    ensures t.n in kids && |kids[t.n]| == |t.ts| && t.n.id == FlattenId
  {
  }

  lemma NestsAre(t: Flat)
    requires t.Nest?
    ensures Leaves(t) == LeavesAll(t.ts) && Nests(t) == {t.n} + NestsAll(t.ts)
  {
  }

  lemma PartsMore(ts: seq<Flat>, i: nat)
    requires i < |ts|
    ensures LeavesAll(ts[..i + 1]) == LeavesAll(ts[..i]) + Leaves(ts[i])
    ensures NestsAll(ts[..i + 1]) == NestsAll(ts[..i]) + Nests(ts[i])
  {
    assert ts[..i + 1][..i] == ts[..i];
  }

  lemma SpreadEnd(kids: Kids, a: Node, t: Flat)
    requires a in kids && t.Nest? && t.n in kids && IsFlat(kids, t)
    ensures Spreading(kids, a, t, |t.ts|) == Spread(kids, a, t)
  {
    assert t.ts[..|t.ts|] == t.ts && kids[t.n][|t.ts|..] == [];
  }

  /** The same, with the top of the next part taken off its list. */
  function Lifted(kids: Kids, a: Node, t: Flat, i: nat): (r: Kids)
    requires a in kids && t.Nest? && i < |t.ts| && t.n in kids && |kids[t.n]| == |t.ts| && a != t.n
    ensures r.Keys == kids.Keys
  {
    Spreading(kids, a, t, i)[t.n := kids[t.n][i + 1..]]
  }

  /** The next part is still there when its turn comes. */
  lemma LiftedFlat(h: Heap, kids: Kids, live: set<Node>, a: Node, t: Flat, i: nat)
    requires Consistent(h, kids, live) && IsFlat(kids, t) && t.Nest? && i < |t.ts| && a in kids && a != t.n
    requires Loose(h, kids, a)
    ensures IsFlat(Lifted(kids, a, t, i), t.ts[i])
  {
    assert IsFlat(kids, t.ts[i]);
    LooseApart(h, kids, live, t, a);
    NestsOf(t, i);
    hide Consistent, Nests, IsFlat, Loose, Lifted;
    var u, off := t.ts[i], Lifted(kids, a, t, i);
    TopOnce(kids, t, i);
    forall m <- Nests(u)
      ensures m in kids && off[m] == kids[m]
    {
      PartIn(kids, u, m);
      EarlierApart(h, kids, live, t, i, m);
      LiftedElse(kids, a, t, i, m);
    }
    FlatSame(kids, off, u);
  }

  lemma NestsOf(t: Flat, i: nat)
    requires t.Nest? && i < |t.ts|
    ensures Nests(t.ts[i]) <= Nests(t)
  {
    MemberIn(t.ts, i);
  }

  lemma LiftedElse(kids: Kids, a: Node, t: Flat, i: nat, m: Node)
    requires a in kids && t.Nest? && i < |t.ts| && t.n in kids && |kids[t.n]| == |t.ts| && a != t.n && m in kids
    requires m != a && m != t.n && m !in NestsAll(t.ts[..i])
    ensures Lifted(kids, a, t, i)[m] == kids[m]
  {
  }

  lemma LiftedIs(kids: Kids, a: Node, t: Flat, i: nat)
    requires IsFlat(kids, t) && t.Nest? && i < |t.ts| && a in kids && a != t.n
    ensures var now := Spreading(kids, a, t, i);
            now[t.n] == kids[t.n][i..] && Lifted(kids, a, t, i) == now[t.n := now[t.n][1..]]
    ensures kids[t.n][i] == t.ts[i].n
  {
    assert kids[t.n][i..][1..] == kids[t.n][i + 1..];
  }

  /** Spreading it then is one step on. */
  lemma SpreadStep(kids: Kids, a: Node, t: Flat, i: nat)
    requires IsFlat(kids, t) && t.Nest? && i < |t.ts| && a in kids && a != t.n
    ensures Spread(Lifted(kids, a, t, i), a, t.ts[i]) == Spreading(kids, a, t, i + 1)
  {
    TopOnce(kids, t, i);
    NotEarlier(kids, t, i + 1);
    SpreadMaps(kids, a, t, i);
  }

  lemma SpreadMaps(kids: Kids, a: Node, t: Flat, i: nat)
    requires a in kids && t.Nest? && t.n in kids && |kids[t.n]| == |t.ts| && i < |t.ts| && a != t.n
    requires t.n !in NestsAll(t.ts[..i + 1]) && t.n !in Nests(t.ts[i])
    ensures Spread(Lifted(kids, a, t, i), a, t.ts[i]) == Spreading(kids, a, t, i + 1)
  {
    hide Nests, Leaves;
    assert t.ts[..i + 1][..i] == t.ts[..i];
    var l, m := LeavesAll(t.ts[..i]), Leaves(t.ts[i]);
    assert (kids[a] + l) + m == kids[a] + (l + m);
  }

  lemma EarlierApart(h: Heap, kids: Kids, live: set<Node>, t: Flat, i: nat, m: Node)
    requires Consistent(h, kids, live) && IsFlat(kids, t) && t.Nest? && i < |t.ts| && m in Nests(t.ts[i])
    ensures m !in NestsAll(t.ts[..i])
  {
    if m in NestsAll(t.ts[..i]) {
      var j := InNestsAll(t.ts[..i], m);
      SiblingsApart(h, kids, live, t, i, j, m);
    }
  }

  lemma NotEarlier(kids: Kids, t: Flat, i: nat)
    requires IsFlat(kids, t) && t.Nest? && i <= |t.ts|
    ensures t.n !in NestsAll(t.ts[..i])
  {
    if t.n in NestsAll(t.ts[..i]) {
      var j := InNestsAll(t.ts[..i], t.n);
      TopOnce(kids, t, j);
    }
  }
}

/**
 * Copying trees: every link, annotation and type of the copy is new, and the copy has
 * the shape of the original. Trees are finite values here, so that a node that stands
 * for one is the root of no cycle.
 */
module AstCopy {
  import opened AstLinks
  import opened AstForest
  import opened AstFields

  datatype Tree = Tree(id: nat, kids: seq<Tree>, annotation: Maybe, type_: Maybe)
  datatype Maybe = Absent | Present(tree: Tree)

  /** The node n stands for the tree t. */
  ghost predicate IsTree(h: Heap, kids: Kids, n: Node, t: Tree)
    decreases t, 0
  {
    n in h && n in kids && n.id == t.id && |kids[n]| == |t.kids| &&
    (forall i :: 0 <= i < |t.kids| ==> IsTree(h, kids, kids[n][i], t.kids[i])) &&
    IsMaybe(h, kids, AnnotationOf(h, n), t.annotation) &&
    IsMaybe(h, kids, TypeOf(h, n), t.type_)
  }

  ghost predicate IsMaybe(h: Heap, kids: Kids, n: Node?, t: Maybe)
    decreases t, 1
  {
    if n == null then t.Absent? else t.Present? && IsTree(h, kids, n, t.tree)
  }

  /** A forest that has only new nodes more, linked among themselves. */
  ghost predicate Grown(h: Heap, kids: Kids, h1: Heap, kids1: Kids)
    requires h.Keys == kids.Keys && h1.Keys == kids1.Keys
  {
    kids.Keys <= kids1.Keys &&
    (forall m <- kids :: h1[m] == h[m] && kids1[m] == kids[m]) &&
    (forall m <- kids1 :: m !in kids ==> (forall k <- kids1[m] :: k !in kids) && h1[m].field !in kids)
  }

  lemma GrownTwice(h: Heap, kids: Kids, h1: Heap, kids1: Kids, h2: Heap, kids2: Kids)
    requires h.Keys == kids.Keys && h1.Keys == kids1.Keys && h2.Keys == kids2.Keys
    requires Grown(h, kids, h1, kids1) && Grown(h1, kids1, h2, kids2)
    ensures Grown(h, kids, h2, kids2)
  {
  }

  /** Growing leaves old trees as they are. */
  lemma {:induction false} TreeKept(h: Heap, kids: Kids, live: set<Node>, h1: Heap, kids1: Kids, n: Node, t: Tree)
    requires Consistent(h, kids, live) && h1.Keys == kids1.Keys && Grown(h, kids, h1, kids1) && IsTree(h, kids, n, t)
    ensures IsTree(h1, kids1, n, t)
    decreases t
  {
    GettersKept(h, kids, live, h1, kids1, n);
    forall i | 0 <= i < |t.kids|
      ensures IsTree(h1, kids1, kids1[n][i], t.kids[i])
    {
      TreeKept(h, kids, live, h1, kids1, kids[n][i], t.kids[i]);
    }
    if AnnotationOf(h, n) != null {
      TreeKept(h, kids, live, h1, kids1, AnnotationOf(h, n), t.annotation.tree);
    }
    if TypeOf(h, n) != null {
      TreeKept(h, kids, live, h1, kids1, TypeOf(h, n), t.type_.tree);
    }
  }

  lemma GettersKept(h: Heap, kids: Kids, live: set<Node>, h1: Heap, kids1: Kids, n: Node)
    requires Consistent(h, kids, live) && h1.Keys == kids1.Keys && Grown(h, kids, h1, kids1) && n in kids
    ensures TypeOf(h1, n) == TypeOf(h, n) && AnnotationOf(h1, n) == AnnotationOf(h, n)
  {
    assert FieldsOf(h, kids, n);
  }

  // ----- One new node

  function Blank(parent: Node?, orphan: bool): Links {
    Links(parent, null, null, orphan, null)
  }

  lemma NewNode(h: Heap, kids: Kids, live: set<Node>, n: Node, l: Links)
    requires Consistent(h, kids, live) && n !in kids && l.child == null && l.sibling == null && l.field == null
    ensures Consistent(h[n := l], kids[n := []], live)
    ensures Loose(h[n := l], kids[n := []], n) && Grown(h, kids, h[n := l], kids[n := []])
  {
    var h1, kids1 := h[n := l], kids[n := []];
    forall m <- kids1
      ensures Chain(h1, m, kids1[m]) && FieldsOf(h1, kids1, m)
      ensures n !in kids1[m] && !InField(h1, m, n)
    {
      if m != n {
        assert Chain(h, m, kids[m]) && FieldsOf(h, kids, m);
        ChainMembers(h, m, kids[m]);
      }
    }
    forall m <- live
      ensures Placed(h1, kids1, m)
    {
      assert Placed(h, kids, m);
      if HasParent(h[m]) {
        assert FieldsOf(h, kids, h[m].parent);
      }
    }
  }

  // ----- What copying keeps

  lemma LooseKept(h: Heap, kids: Kids, live: set<Node>, h1: Heap, kids1: Kids, k: Node)
    requires Consistent(h, kids, live) && h1.Keys == kids1.Keys && Grown(h, kids, h1, kids1) && Loose(h, kids, k)
    ensures Loose(h1, kids1, k)
  {
    forall m <- kids1
      ensures k !in kids1[m] && !InField(h1, m, k)
    {
      if m in kids {
        GettersKept(h, kids, live, h1, kids1, m);
        assert !InField(h, m, k);
      }
    }
  }

  /** Trees and loose nodes depend on lists and fields only. */
  lemma {:induction false} TreeSame(h: Heap, h1: Heap, kids: Kids, n: Node, t: Tree)
    requires h1.Keys == h.Keys && (forall m <- h :: h1[m].field == h[m].field) && IsTree(h, kids, n, t)
    ensures IsTree(h1, kids, n, t)
    decreases t
  {
    FieldsSame(h, h1, n);
    forall i | 0 <= i < |t.kids|
      ensures IsTree(h1, kids, kids[n][i], t.kids[i])
    {
      TreeSame(h, h1, kids, kids[n][i], t.kids[i]);
    }
    if AnnotationOf(h, n) != null {
      TreeSame(h, h1, kids, AnnotationOf(h, n), t.annotation.tree);
    }
    if TypeOf(h, n) != null {
      TreeSame(h, h1, kids, TypeOf(h, n), t.type_.tree);
    }
  }

  lemma LooseSame(h: Heap, h1: Heap, kids: Kids, k: Node)
    requires h.Keys == kids.Keys && h1.Keys == h.Keys && forall m <- h :: h1[m].field == h[m].field
    requires Loose(h, kids, k)
    ensures Loose(h1, kids, k)
  {
    forall m <- kids
      ensures k !in kids[m] && !InField(h1, m, k)
    {
      FieldsSame(h, h1, m);
      assert !InField(h, m, k);
    }
  }

  /** The sibling of a node that is in no list does not matter. */
  lemma SiblingWritten(h: Heap, kids: Kids, live: set<Node>, n: Node, x: Node?)
    requires Consistent(h, kids, live) && Loose(h, kids, n) && n !in live
    ensures Consistent(WithSibling(h, n, x), kids, live)
  {
    var h1 := WithSibling(h, n, x);
    forall m <- kids
      ensures Chain(h1, m, kids[m]) && FieldsOf(h1, kids, m)
    {
      assert Chain(h, m, kids[m]) && FieldsOf(h, kids, m) && n !in kids[m] && !InField(h, m, n);
      ChainMembers(h, m, kids[m]);
      ChainSame(h, h1, m, kids[m]);
      FieldsSame(h, h1, m);
    }
    forall m <- live
      ensures Placed(h1, kids, m)
    {
      assert Placed(h, kids, m);
      if HasParent(h[m]) {
        FieldsSame(h, h1, h[m].parent);
      }
    }
  }

  // ----- Taking a chain of copies as children

  ghost predicate Row(h: Heap, p: Node, s: seq<Node>) {
    Distinct(s) && forall i :: 0 <= i < |s| ==>
      s[i] in h && h[s[i]].parent == p && !h[s[i]].orphan && h[s[i]].sibling == Next(s, i + 1)
  }

  lemma Adopt(h: Heap, kids: Kids, live: set<Node>, p: Node, s: seq<Node>)
    requires Consistent(h, kids, live) && p in kids && kids[p] == [] && Row(h, p, s)
    requires forall k <- s :: Loose(h, kids, k)
    ensures p in h && Consistent(WithChild(h, p, Next(s, 0)), kids[p := s], live + (set k <- s))
  {
    assert p in h;
    hide Consistent, Row, Relinked;
    var h1, kids1 := WithChild(h, p, Next(s, 0)), kids[p := s];
    AdoptRelinks(h, kids, live, p, s);
    Relink(h, kids, live, h1, p, s);
    RowSame(h, p, s);
    MoreLive(h1, kids1, live, p, s);
  }

  lemma AdoptRelinks(h: Heap, kids: Kids, live: set<Node>, p: Node, s: seq<Node>)
    requires Consistent(h, kids, live) && p in kids && kids[p] == [] && Row(h, p, s)
    requires forall k <- s :: Loose(h, kids, k)
    ensures p in h && Relinked(h, kids, WithChild(h, p, Next(s, 0)), p, s)
  {
    assert p in h && h.Keys == kids.Keys;
    RowSame(h, p, s);
    ChildFrame(h, p, Next(s, 0));
    hide Consistent, Row, Loose, Chain, WithChild;
  }

  lemma ChildFrame(h: Heap, p: Node, x: Node?)
    requires p in h
    ensures var h1 := WithChild(h, p, x);
            h1.Keys == h.Keys && OnlyLists(h, h1, p) && forall n <- h :: Same(h[n], h1[n])
  {
  }

  lemma RowSame(h: Heap, p: Node, s: seq<Node>)
    requires p in h && Row(h, p, s)
    ensures Chain(WithChild(h, p, Next(s, 0)), p, s)
  {
  }

  /** Children are placed. */
  lemma MoreLive(h: Heap, kids: Kids, live: set<Node>, p: Node, s: seq<Node>)
    requires Consistent(h, kids, live) && p in kids && p in h && kids[p] == s && Chain(h, p, s)
    ensures Consistent(h, kids, live + (set k <- s))
  {
    ChainMembers(h, p, s);
    hide Chain, FieldsOf;
    forall k <- s
      ensures k in h && Placed(h, kids, k)
    {
    }
  }

  // ----- A copy in the making

  function Size(t: Tree): nat
    decreases t, 0
  {
    1 + SizeAll(t.kids) + SizeMaybe(t.annotation) + SizeMaybe(t.type_)
  }

  function SizeMaybe(t: Maybe): nat
    decreases t, 1
  {
    if t.Absent? then 0 else Size(t.tree)
  }

  function SizeAll(ts: seq<Tree>): nat
    decreases ts, 1
  {
    if ts == [] then 0 else 1 + Size(ts[0]) + SizeAll(ts[1..])
  }

  /** n is a node that a forest has grown since it was as given, and that nothing holds yet. */
  ghost predicate Unfinished(h0: Heap, kids0: Kids, h: Heap, kids: Kids, live: set<Node>, n: Node) {
    h0.Keys == kids0.Keys && h.Keys == kids.Keys && Grown(h0, kids0, h, kids) &&
    n in kids && n !in kids0 && n !in live && Loose(h, kids, n)
  }

  /** Changing what n holds does not change trees that n is not part of, and n is part of none. */
  lemma {:induction false} TreeElsewhere(h: Heap, kids: Kids, h1: Heap, kids1: Kids, n: Node, k: Node, t: Tree)
    requires h.Keys == kids.Keys == h1.Keys == kids1.Keys && Loose(h, kids, n) && k != n && IsTree(h, kids, k, t)
    requires OnlyAt(h, kids, h1, kids1, n)
    ensures IsTree(h1, kids1, k, t)
    decreases t
  {
    assert !InField(h, k, n) && n !in kids[k];
    forall i | 0 <= i < |t.kids|
      ensures IsTree(h1, kids1, kids1[k][i], t.kids[i])
    {
      assert kids[k][i] in kids[k];
      TreeElsewhere(h, kids, h1, kids1, n, kids[k][i], t.kids[i]);
    }
    if AnnotationOf(h, k) != null {
      TreeElsewhere(h, kids, h1, kids1, n, AnnotationOf(h, k), t.annotation.tree);
    }
    if TypeOf(h, k) != null {
      TreeElsewhere(h, kids, h1, kids1, n, TypeOf(h, k), t.type_.tree);
    }
  }

  ghost predicate OnlyAt(h: Heap, kids: Kids, h1: Heap, kids1: Kids, n: Node)
    requires h.Keys == kids.Keys == h1.Keys == kids1.Keys
  {
    forall m <- kids :: m != n ==>
      kids1[m] == kids[m] && TypeOf(h1, m) == TypeOf(h, m) && AnnotationOf(h1, m) == AnnotationOf(h, m)
  }

  lemma InFieldIs(h: Heap, n: Node, k: Node)
    requires n in h
    ensures InField(h, n, k) <==> n.id != AnnotationId && (k == AnnotationOf(h, n) || k == TypeOf(h, n))
  {
  }

  method Create(f: Forest, id: nat, parent: Node?, orphan: bool) returns (n: Node)
    requires f.Valid()
    modifies f`kids
    ensures fresh(n) && n.id == id && n !in old(f.kids) && f.Valid() && f.kids == old(f.kids)[n := []]
    ensures f.Snap() == old(f.Snap())[n := Blank(parent, orphan)]
    ensures Unfinished(old(f.Snap()), old(f.kids), f.Snap(), f.kids, f.live, n)
  {
    hide Consistent, Loose, Grown;
    ghost var h, live := f.Snap(), f.live;
    LiveKnown(h, f.kids, live);
    n := new Node(id);
    n.parent := parent;
    n.orphan := orphan;
    NewNode(h, f.kids, live, n, Blank(parent, orphan));
    f.kids := f.kids[n := []];
    assert f.Snap() == h[n := Blank(parent, orphan)];
  }

  lemma LiveKnown(h: Heap, kids: Kids, live: set<Node>)
    requires Consistent(h, kids, live)
    ensures live <= kids.Keys && h.Keys == kids.Keys
  {
  }

  // ----- The stages of a copy

  /** Nodes that are live now and were not before are new. */
  ghost predicate OnlyNewLive(kids0: Kids, live0: set<Node>, live: set<Node>) {
    live0 <= live && forall m <- live :: m in live0 || m !in kids0
  }

  /** The children of n stand for the trees ts. */
  ghost predicate KidsAre(h: Heap, kids: Kids, n: Node, ts: seq<Tree>) {
    n in kids && |kids[n]| == |ts| && forall i :: 0 <= i < |ts| ==> IsTree(h, kids, kids[n][i], ts[i])
  }

  lemma KidsElsewhere(h: Heap, kids: Kids, h1: Heap, kids1: Kids, n: Node, ts: seq<Tree>)
    requires h.Keys == kids.Keys == h1.Keys == kids1.Keys && Loose(h, kids, n) && KidsAre(h, kids, n, ts)
    requires OnlyAt(h, kids, h1, kids1, n) && kids1[n] == kids[n]
    ensures KidsAre(h1, kids1, n, ts)
  {
    forall i | 0 <= i < |ts|
      ensures IsTree(h1, kids1, kids1[n][i], ts[i])
    {
      assert kids[n][i] in kids[n];
      TreeElsewhere(h, kids, h1, kids1, n, kids[n][i], ts[i]);
    }
  }

  lemma {:induction false} KidsKept(h: Heap, kids: Kids, live: set<Node>, h1: Heap, kids1: Kids, n: Node, ts: seq<Tree>)
    requires Consistent(h, kids, live) && h1.Keys == kids1.Keys && Grown(h, kids, h1, kids1) && KidsAre(h, kids, n, ts)
    ensures KidsAre(h1, kids1, n, ts)
  {
    forall i | 0 <= i < |ts|
      ensures IsTree(h1, kids1, kids1[n][i], ts[i])
    {
      TreeKept(h, kids, live, h1, kids1, kids[n][i], ts[i]);
    }
  }

  // First the children.

  lemma RowTaken(h0: Heap, kids0: Kids, h: Heap, kids: Kids, live: set<Node>, n: Node, s: seq<Node>, ts: seq<Tree>)
    requires Consistent(h, kids, live) && Unfinished(h0, kids0, h, kids, live, n) && kids[n] == []
    requires Row(h, n, s) && |s| == |ts|
    requires forall i :: 0 <= i < |s| ==> s[i] != n && Unfinished(h0, kids0, h, kids, live, s[i]) && IsTree(h, kids, s[i], ts[i])
    ensures var h1, kids1, live1 := WithChild(h, n, Next(s, 0)), kids[n := s], live + (set k <- s);
            Consistent(h1, kids1, live1) && Unfinished(h0, kids0, h1, kids1, live1, n) && KidsAre(h1, kids1, n, ts)
            && OnlyNewLive(kids0, live, live1)
  {
    hide Consistent, Row, IsTree, Unfinished, KidsAre, Loose;
    assert h.Keys == kids.Keys && n in h by { UnfinishedIs(h0, kids0, h, kids, live, n); }
    forall k <- s
      ensures Loose(h, kids, k) && k !in kids0 && k !in live
    {
      var i :| 0 <= i < |s| && s[i] == k;
      UnfinishedIs(h0, kids0, h, kids, live, s[i]);
    }
    UnfinishedIs(h0, kids0, h, kids, live, n);
    Adopt(h, kids, live, n, s);
    RowUnfinished(h0, kids0, h, kids, live, n, s);
    RowKids(h, kids, n, s, ts);
  }

  lemma UnfinishedIs(h0: Heap, kids0: Kids, h: Heap, kids: Kids, live: set<Node>, n: Node)
    requires Unfinished(h0, kids0, h, kids, live, n)
    ensures h.Keys == kids.Keys && h0.Keys == kids0.Keys && n in h && Loose(h, kids, n) && Grown(h0, kids0, h, kids)
    ensures n !in kids0 && n !in live
  {
  }

  lemma RowUnfinished(h0: Heap, kids0: Kids, h: Heap, kids: Kids, live: set<Node>, n: Node, s: seq<Node>)
    requires Unfinished(h0, kids0, h, kids, live, n) && n !in s && (forall k <- s :: k !in kids0)
    ensures Unfinished(h0, kids0, WithChild(h, n, Next(s, 0)), kids[n := s], live + (set k <- s), n)
  {
    var h1, kids1 := WithChild(h, n, Next(s, 0)), kids[n := s];
    ChildFrame(h, n, Next(s, 0));
    LooseSame(h, h1, kids, n);
    forall m <- kids1
      ensures n !in kids1[m] && !InField(h1, m, n)
    {
      assert Loose(h1, kids, n);
    }
  }

  lemma RowKids(h: Heap, kids: Kids, n: Node, s: seq<Node>, ts: seq<Tree>)
    requires h.Keys == kids.Keys && n in h && Loose(h, kids, n) && |s| == |ts|
    requires forall i :: 0 <= i < |s| ==> s[i] != n && IsTree(h, kids, s[i], ts[i])
    ensures KidsAre(WithChild(h, n, Next(s, 0)), kids[n := s], n, ts)
  {
    var h1, kids1 := WithChild(h, n, Next(s, 0)), kids[n := s];
    ChildFrame(h, n, Next(s, 0));
    hide WithChild;
    forall m <- kids
      ensures TypeOf(h1, m) == TypeOf(h, m) && AnnotationOf(h1, m) == AnnotationOf(h, m)
    {
      FieldsSame(h, h1, m);
    }
    forall i | 0 <= i < |ts|
      ensures IsTree(h1, kids1, s[i], ts[i])
    {
      TreeElsewhere(h, kids, h1, kids1, n, s[i], ts[i]);
    }
  }

  // Then the annotation and the type.

  /** A field write between new nodes. */
  ghost predicate PutAt(h: Heap, h1: Heap, n: Node, x: Node) {
    n in h && x in h && h1.Keys == h.Keys &&
    (forall m <- h :: m != n && m != x && m != h[n].field ==> h1[m] == h[m]) &&
    h1[n].field in {x, h[n].field} && h1[x].field in {null, h[x].field, h[n].field, TypeOf(h, n)} &&
    (h[n].field != null && h[n].field in h ==> h1[h[n].field].field in {x, h[h[n].field].field})
  }

  lemma PutUnfinished(h0: Heap, kids0: Kids, h: Heap, kids: Kids, live: set<Node>, h1: Heap, n: Node, x: Node)
    requires Unfinished(h0, kids0, h, kids, live, n) && x !in kids0 && x != n && PutAt(h, h1, n, x)
    requires OnlyAt(h, kids, h1, kids, n) && AnnotationOf(h1, n) != n && TypeOf(h1, n) != n
    ensures Unfinished(h0, kids0, h1, kids, live, n)
  {
    assert h[n].field !in kids0;
    assert TypeOf(h, n) !in kids0;
    forall m <- kids
      ensures n !in kids[m] && !InField(h1, m, n)
    {
      InFieldIs(h, m, n);
      InFieldIs(h1, m, n);
      assert !InField(h, m, n);
    }
    assert Grown(h0, kids0, h1, kids);
  }

  /** A finished copy that is about to be put into a field. */
  ghost predicate Whole(kids0: Kids, h: Heap, kids: Kids, live: set<Node>, n: Node, x: Node, t: Tree)
    requires h.Keys == kids.Keys
  {
    x in h && x != n && x !in kids0 && x !in live && Loose(h, kids, x) && !HasParent(h[x]) && h[x].sibling == null &&
    IsTree(h, kids, x, t)
  }

  lemma Enliven(h: Heap, kids: Kids, live: set<Node>, x: Node)
    requires Consistent(h, kids, live) && x in kids && !HasParent(h[x]) && h[x].sibling == null
    ensures Consistent(h, kids, live + {x})
  {
    hide Chain, FieldsOf;
    assert Placed(h, kids, x);
  }

  method PutAnnotation(f: Forest, n: Node, a: Node, ghost h0: Heap, ghost kids0: Kids, ghost ts: seq<Tree>, ghost ta: Tree)
    requires f.Valid() && Unfinished(h0, kids0, f.Snap(), f.kids, f.live, n) && n.id != AnnotationId && a.id == AnnotationId
    requires Whole(kids0, f.Snap(), f.kids, f.live, n, a, ta) && a.annotationType == null && n.annotationType == null
    requires KidsAre(f.Snap(), f.kids, n, ts)
    modifies f`live, n, a
    ensures f.Valid() && f.kids == old(f.kids) && f.live == old(f.live) + {a}
    ensures Unfinished(h0, kids0, f.Snap(), f.kids, f.live, n) && KidsAre(f.Snap(), f.kids, n, ts)
    ensures AnnotationOf(f.Snap(), n) == a && TypeOf(f.Snap(), n) == null && IsTree(f.Snap(), f.kids, a, ta)
    ensures Same(old(f.Snap())[n], f.Snap()[n])
  {
    hide Consistent, Unfinished, KidsAre, IsTree, f.Snap, Loose, AnnotationSet;
    ghost var h, kids, live := f.Snap(), f.kids, f.live;
    UnfinishedIs(h0, kids0, h, kids, live, n);
    f.Fields(n);
    f.Fields(a);
    Enliven(h, kids, live, a);
    f.live := f.live + {a};
    MoreUnfinished(h0, kids0, h, kids, live, n, {a});
    AnnotationPut(h0, kids0, h, kids, f.live, n, a, ts, ta);
    SetAnnotation(f, n, a);
  }

  lemma AnnotationPut(h0: Heap, kids0: Kids, h: Heap, kids: Kids, live: set<Node>, n: Node, a: Node, ts: seq<Tree>, ta: Tree)
    requires Consistent(h, kids, live) && Unfinished(h0, kids0, h, kids, live, n) && n.id != AnnotationId && IsAnnotation(a)
    requires a in h && a != n && a !in kids0 && Loose(h, kids, a) && h[a].sibling == null && IsTree(h, kids, a, ta)
    requires h[a].field == null && h[n].field == null && KidsAre(h, kids, n, ts)
    ensures var h1 := AnnotationSet(h, n, a);
            Unfinished(h0, kids0, h1, kids, live, n) && KidsAre(h1, kids, n, ts) && IsTree(h1, kids, a, ta) &&
            Same(h[n], h1[n])
  {
    hide Consistent, KidsAre, IsTree;
    UnfinishedIs(h0, kids0, h, kids, live, n);
    var h1 := AnnotationSet(h, n, a);
    AnnotationSetWrites(h, n, a);
    forall m <- h
      ensures TypeOf(h1, m) == TypeOf(h, m) && AnnotationOf(h1, m) == if m == n then a else AnnotationOf(h, m)
    {
      FieldsSeparate(h, kids, live, n, m, a);
      AnnotationSetGets(h, n, a, m);
    }
    assert PutAt(h, h1, n, a);
    hide AnnotationSet, Unfinished;
    PutUnfinished(h0, kids0, h, kids, live, h1, n, a);
    KidsElsewhere(h, kids, h1, kids, n, ts);
    TreeElsewhere(h, kids, h1, kids, n, a, ta);
  }

  lemma MoreUnfinished(h0: Heap, kids0: Kids, h: Heap, kids: Kids, live: set<Node>, n: Node, more: set<Node>)
    requires Unfinished(h0, kids0, h, kids, live, n) && n !in more
    ensures Unfinished(h0, kids0, h, kids, live + more, n)
  {
  }

  method PutType(f: Forest, n: Node, x: Node, ghost h0: Heap, ghost kids0: Kids, ghost ts: seq<Tree>, ghost tx: Tree, ghost ta: Maybe)
    requires f.Valid() && Unfinished(h0, kids0, f.Snap(), f.kids, f.live, n) && n.id != AnnotationId && x.id != AnnotationId
    requires Whole(kids0, f.Snap(), f.kids, f.live, n, x, tx) && TypeOf(f.Snap(), n) == null
    requires KidsAre(f.Snap(), f.kids, n, ts) && IsMaybe(f.Snap(), f.kids, AnnotationOf(f.Snap(), n), ta)
    modifies f`live, Touched(n, x)
    ensures f.Valid() && f.kids == old(f.kids) && f.live == old(f.live) + {x}
    ensures Unfinished(h0, kids0, f.Snap(), f.kids, f.live, n) && KidsAre(f.Snap(), f.kids, n, ts)
    ensures TypeOf(f.Snap(), n) == x && AnnotationOf(f.Snap(), n) == old(AnnotationOf(f.Snap(), n))
    ensures IsTree(f.Snap(), f.kids, x, tx) && IsMaybe(f.Snap(), f.kids, AnnotationOf(f.Snap(), n), ta)
    ensures Same(old(f.Snap())[n], f.Snap()[n])
  {
    hide Consistent, Unfinished, KidsAre, IsTree, IsMaybe, TypeOf, AnnotationOf, f.Snap, Loose, TypeSet;
    ghost var h, kids, live := f.Snap(), f.kids, f.live;
    UnfinishedIs(h0, kids0, h, kids, live, n);
    f.Fields(n);
    f.Fields(x);
    Enliven(h, kids, live, x);
    f.live := f.live + {x};
    MoreUnfinished(h0, kids0, h, kids, live, n, {x});
    TypePut(h0, kids0, h, kids, f.live, n, x, ts, tx, ta);
    SetType(f, n, x);
  }

  lemma TypePut(h0: Heap, kids0: Kids, h: Heap, kids: Kids, live: set<Node>, n: Node, x: Node, ts: seq<Tree>, tx: Tree, ta: Maybe)
    requires Consistent(h, kids, live) && Unfinished(h0, kids0, h, kids, live, n) && n.id != AnnotationId && !IsAnnotation(x)
    requires x in h && x != n && x !in kids0 && Loose(h, kids, x) && h[x].sibling == null && IsTree(h, kids, x, tx)
    requires TypeOf(h, n) == null && KidsAre(h, kids, n, ts) && IsMaybe(h, kids, AnnotationOf(h, n), ta)
    ensures IsAnnotation(h[n].field) ==> h[n].field in h
    ensures var h1 := TypeSet(h, n, x);
            Unfinished(h0, kids0, h1, kids, live, n) && KidsAre(h1, kids, n, ts) && IsTree(h1, kids, x, tx) &&
            IsMaybe(h1, kids, AnnotationOf(h1, n), ta) && Same(h[n], h1[n])
  {
    hide Consistent, KidsAre, IsTree;
    UnfinishedIs(h0, kids0, h, kids, live, n);
    FieldKnown(h, kids, live, n);
    var h1 := TypeSet(h, n, x);
    TypeSetWrites(h, n, x);
    forall m <- h
      ensures AnnotationOf(h1, m) == AnnotationOf(h, m) && TypeOf(h1, m) == if m == n then x else TypeOf(h, m)
    {
      FieldsSeparate(h, kids, live, n, m, x);
      TypeSetGets(h, n, x, m);
    }
    assert PutAt(h, h1, n, x);
    assert AnnotationOf(h, n) != n;
    hide TypeSet, Unfinished, TypeOf, AnnotationOf;
    PutUnfinished(h0, kids0, h, kids, live, h1, n, x);
    KidsElsewhere(h, kids, h1, kids, n, ts);
    TreeElsewhere(h, kids, h1, kids, n, x, tx);
    if AnnotationOf(h, n) != null {
      TreeElsewhere(h, kids, h1, kids, n, AnnotationOf(h, n), ta.tree);
    }
  }

  // ----- Copying

  /** A row of children and what they stand for. */
  ghost predicate RowOf(h: Heap, kids: Kids, s: seq<Node>, ts: seq<Tree>) {
    |s| == |ts| && forall i :: 0 <= i < |s| ==>
      s[i] in h && h[s[i]].sibling == Next(s, i + 1) && IsTree(h, kids, s[i], ts[i])
  }

  lemma RowOfKids(h: Heap, kids: Kids, live: set<Node>, n: Node, t: Tree)
    requires Consistent(h, kids, live) && IsTree(h, kids, n, t)
    ensures RowOf(h, kids, kids[n], t.kids) && h[n].child == Next(kids[n], 0)
  {
    assert Chain(h, n, kids[n]);
  }

  lemma RowKept(h: Heap, kids: Kids, live: set<Node>, h1: Heap, kids1: Kids, s: seq<Node>, ts: seq<Tree>)
    requires Consistent(h, kids, live) && h1.Keys == kids1.Keys && Grown(h, kids, h1, kids1) && RowOf(h, kids, s, ts)
    ensures RowOf(h1, kids1, s, ts)
  {
    forall i | 0 <= i < |s|
      ensures IsTree(h1, kids1, s[i], ts[i])
    {
      TreeKept(h, kids, live, h1, kids1, s[i], ts[i]);
    }
  }

  lemma RowRest(h: Heap, kids: Kids, s: seq<Node>, ts: seq<Tree>)
    requires RowOf(h, kids, s, ts) && s != []
    ensures RowOf(h, kids, s[1..], ts[1..]) && h[s[0]].sibling == Next(s[1..], 0) && IsTree(h, kids, s[0], ts[0])
  {
  }

  /** New nodes are live, or in the making. */
  ghost predicate Copied(h0: Heap, kids0: Kids, live0: set<Node>, h: Heap, kids: Kids, live: set<Node>) {
    h0.Keys == kids0.Keys && h.Keys == kids.Keys && Grown(h0, kids0, h, kids) && OnlyNewLive(kids0, live0, live)
  }

  lemma CopiedTwice(h0: Heap, kids0: Kids, live0: set<Node>, h1: Heap, kids1: Kids, live1: set<Node>,
                    h: Heap, kids: Kids, live: set<Node>)
    requires Copied(h0, kids0, live0, h1, kids1, live1) && Copied(h1, kids1, live1, h, kids, live)
    ensures Copied(h0, kids0, live0, h, kids, live)
  {
    GrownTwice(h0, kids0, h1, kids1, h, kids);
  }

  /** A node in the making stays so while others are copied. */
  lemma StillUnfinished(h0: Heap, kids0: Kids, h1: Heap, kids1: Kids, live1: set<Node>,
                        h: Heap, kids: Kids, live: set<Node>, n: Node)
    requires Unfinished(h0, kids0, h1, kids1, live1, n) && Consistent(h1, kids1, live1)
    requires Copied(h1, kids1, live1, h, kids, live)
    ensures Unfinished(h0, kids0, h, kids, live, n) && h[n] == h1[n] && kids[n] == kids1[n]
  {
    GrownTwice(h0, kids0, h1, kids1, h, kids);
    LooseKept(h1, kids1, live1, h, kids, n);
  }

  /** A row of copies of ts for the parent p, none of them held yet. */
  ghost predicate CopiesOf(h0: Heap, kids0: Kids, h: Heap, kids: Kids, live: set<Node>, p: Node, s: seq<Node>, ts: seq<Tree>) {
    Row(h, p, s) && |s| == |ts| && forall i :: 0 <= i < |s| ==>
      Unfinished(h0, kids0, h, kids, live, s[i]) && IsTree(h, kids, s[i], ts[i])
  }

  method CopyRow(f: Forest, p: Node, first: Node?, ghost src: seq<Node>, ghost ts: seq<Tree>)
      returns (c: Node?, ghost copies: seq<Node>)
    requires f.Valid() && p in f.kids && RowOf(f.Snap(), f.kids, src, ts) && first == Next(src, 0)
    modifies f
    ensures f.Valid() && Copied(old(f.Snap()), old(f.kids), old(f.live), f.Snap(), f.kids, f.live)
    ensures forall m <- f.kids :: m in old(f.kids) || fresh(m)
    ensures c == Next(copies, 0)
    ensures CopiesOf(old(f.Snap()), old(f.kids), f.Snap(), f.kids, f.live, p, copies, ts)
    decreases SizeAll(ts), 0
  {
    hide Consistent, RowOf, Copied, CopiesOf, Unfinished, IsTree, f.Snap;
    ghost var h0, kids0, live0 := f.Snap(), f.kids, f.live;
    if first == null {
      NoCopies(h0, kids0, live0, src, ts, p);
      return null, [];
    }
    RowRest(h0, kids0, src, ts);
    RowLengths(h0, kids0, src, ts);
    var n := Copy(f, first, p, ts[0]);
    ghost var h1, kids1, live1 := f.Snap(), f.kids, f.live;
    assert p in kids1 by { CopiedKeys(h0, kids0, live0, h1, kids1, live1); }
    RowStays(h0, kids0, live0, h1, kids1, live1, src, ts);
    f.Fields(first);
    var rest, others := CopyRow(f, p, first.sibling, src[1..], ts[1..]);
    ghost var h2, kids2, live2 := f.Snap(), f.kids, f.live;
    RowGrows(h0, kids0, live0, h1, kids1, live1, h2, kids2, live2, p, n, rest, others, ts);
    f.SetSibling(n, rest);
    c, copies := n, [n] + others;
  }

  lemma RowLengths(h: Heap, kids: Kids, s: seq<Node>, ts: seq<Tree>)
    requires RowOf(h, kids, s, ts)
    ensures |s| == |ts|
  {
  }

  lemma CopiedKeys(h0: Heap, kids0: Kids, live0: set<Node>, h: Heap, kids: Kids, live: set<Node>)
    requires Copied(h0, kids0, live0, h, kids, live)
    ensures kids0.Keys <= kids.Keys && h.Keys == kids.Keys && h0.Keys == kids0.Keys
    ensures Grown(h0, kids0, h, kids) && OnlyNewLive(kids0, live0, live)
  {
  }

  lemma NoCopies(h: Heap, kids: Kids, live: set<Node>, src: seq<Node>, ts: seq<Tree>, p: Node)
    requires Consistent(h, kids, live) && RowOf(h, kids, src, ts) && Next(src, 0) == null
    ensures Copied(h, kids, live, h, kids, live) && CopiesOf(h, kids, h, kids, live, p, [], ts)
  {
  }

  lemma RowStays(h0: Heap, kids0: Kids, live0: set<Node>, h1: Heap, kids1: Kids, live1: set<Node>, src: seq<Node>, ts: seq<Tree>)
    requires Consistent(h0, kids0, live0) && Copied(h0, kids0, live0, h1, kids1, live1) && RowOf(h0, kids0, src, ts) && src != []
    ensures src[0] in kids1 && src[0] in h1 && RowOf(h1, kids1, src[1..], ts[1..]) && h1[src[0]].sibling == Next(src[1..], 0)
  {
    RowKept(h0, kids0, live0, h1, kids1, src, ts);
    hide Consistent, IsTree;
    RowRest(h1, kids1, src, ts);
  }

  /** Writing the sibling of a new node leaves the older forest as it was. */
  lemma CopiedSibling(h0: Heap, kids0: Kids, live0: set<Node>, h: Heap, kids: Kids, live: set<Node>, n: Node, x: Node?)
    requires Copied(h0, kids0, live0, h, kids, live) && n in h && n !in kids0
    ensures Copied(h0, kids0, live0, WithSibling(h, n, x), kids, live)
  {
  }

  /** A copy in the row is as it was once the sibling of another is written. */
  lemma SiblingAside(h0: Heap, kids0: Kids, h: Heap, kids: Kids, live: set<Node>, n: Node, x: Node?, k: Node, t: Tree)
    requires Unfinished(h0, kids0, h, kids, live, k) && IsTree(h, kids, k, t) && n in h && n !in kids0
    ensures Unfinished(h0, kids0, WithSibling(h, n, x), kids, live, k) && IsTree(WithSibling(h, n, x), kids, k, t)
  {
    hide IsTree;
    LooseSame(h, WithSibling(h, n, x), kids, k);
    TreeSame(h, WithSibling(h, n, x), kids, k, t);
  }

  /** What is new to the later forest is new to the earlier one. */
  lemma UnfinishedEarlier(h0: Heap, kids0: Kids, live0: set<Node>, h1: Heap, kids1: Kids, live1: set<Node>,
                          h: Heap, kids: Kids, live: set<Node>, k: Node)
    requires Copied(h0, kids0, live0, h1, kids1, live1) && Copied(h0, kids0, live0, h, kids, live)
    requires Unfinished(h1, kids1, h, kids, live, k)
    ensures Unfinished(h0, kids0, h, kids, live, k)
  {
  }

  lemma RowGrows(h0: Heap, kids0: Kids, live0: set<Node>, h1: Heap, kids1: Kids, live1: set<Node>,
                 h2: Heap, kids2: Kids, live2: set<Node>, p: Node, n: Node, rest: Node?, others: seq<Node>, ts: seq<Tree>)
    requires ts != [] && Consistent(h1, kids1, live1) && Consistent(h2, kids2, live2)
    requires Copied(h0, kids0, live0, h1, kids1, live1) && Copied(h1, kids1, live1, h2, kids2, live2)
    requires Unfinished(h0, kids0, h1, kids1, live1, n) && IsTree(h1, kids1, n, ts[0])
    requires h1[n].parent == p && !h1[n].orphan && rest == Next(others, 0)
    requires CopiesOf(h1, kids1, h2, kids2, live2, p, others, ts[1..])
    ensures n in h2 && n in kids2
    ensures var h3 := WithSibling(h2, n, rest);
            Consistent(h3, kids2, live2) && Copied(h0, kids0, live0, h3, kids2, live2) &&
            CopiesOf(h0, kids0, h3, kids2, live2, p, [n] + others, ts)
  {
    hide Consistent, IsTree, Row, Unfinished, Copied, WithSibling, Grown, Loose;
    UnfinishedIs(h0, kids0, h1, kids1, live1, n);
    CopiedTwice(h0, kids0, live0, h1, kids1, live1, h2, kids2, live2);
    CopiedIs(h1, kids1, live1, h2, kids2, live2);
    StillUnfinished(h0, kids0, h1, kids1, live1, h2, kids2, live2, n);
    UnfinishedIs(h0, kids0, h2, kids2, live2, n);
    var h3, s := WithSibling(h2, n, rest), [n] + others;
    TreeKept(h1, kids1, live1, h2, kids2, n, ts[0]);
    SiblingWritten(h2, kids2, live2, n, rest);
    CopiedSibling(h0, kids0, live0, h2, kids2, live2, n, rest);
    RowCons(h1, kids1, h2, kids2, live2, p, n, rest, others, ts[1..]);
    forall i | 0 <= i < |s|
      ensures Unfinished(h0, kids0, h3, kids2, live2, s[i]) && IsTree(h3, kids2, s[i], ts[i])
    {
      if i > 0 {
        assert s[i] == others[i - 1] && ts[i] == ts[1..][i - 1];
        UnfinishedEarlier(h0, kids0, live0, h1, kids1, live1, h2, kids2, live2, s[i]);
      }
      SiblingAside(h0, kids0, h2, kids2, live2, n, rest, s[i], ts[i]);
    }
  }

  lemma CopiedIs(h0: Heap, kids0: Kids, live0: set<Node>, h: Heap, kids: Kids, live: set<Node>)
    requires Copied(h0, kids0, live0, h, kids, live)
    ensures h.Keys == kids.Keys && Grown(h0, kids0, h, kids)
  {
  }

  lemma RowCons(h1: Heap, kids1: Kids, h2: Heap, kids2: Kids, live2: set<Node>, p: Node, n: Node, rest: Node?, others: seq<Node>, ts: seq<Tree>)
    requires CopiesOf(h1, kids1, h2, kids2, live2, p, others, ts) && n in kids1 && n in h2
    requires h2[n].parent == p && !h2[n].orphan && rest == Next(others, 0)
    ensures Row(WithSibling(h2, n, rest), p, [n] + others)
  {
    var h3, s := WithSibling(h2, n, rest), [n] + others;
    forall i | 0 <= i < |others|
      ensures others[i] != n && others[i] in h2
    {
      assert Unfinished(h1, kids1, h2, kids2, live2, others[i]);
    }
    forall i | 0 <= i < |s|
      ensures s[i] in h3 && h3[s[i]].parent == p && !h3[s[i]].orphan && h3[s[i]].sibling == Next(s, i + 1)
    {
      if i > 0 {
        assert s[i] == others[i - 1];
      }
    }
  }

  /** A new tree that stands for what the old one stands for. */
  method Copy(f: Forest, ast: Node, parent: Node?, ghost t: Tree) returns (n: Node)
    requires f.Valid() && IsTree(f.Snap(), f.kids, ast, t) && (parent != null ==> parent in f.kids)
    modifies f
    ensures f.Valid() && Copied(old(f.Snap()), old(f.kids), old(f.live), f.Snap(), f.kids, f.live)
    ensures forall m <- f.kids :: m in old(f.kids) || fresh(m)
    ensures fresh(n) && Unfinished(old(f.Snap()), old(f.kids), f.Snap(), f.kids, f.live, n)
    ensures IsTree(f.Snap(), f.kids, n, t) && n in f.kids && f.Snap()[n].sibling == null
    ensures if parent == null then f.Snap()[n].orphan else f.Snap()[n].parent == parent && !f.Snap()[n].orphan
    ensures n.id == AnnotationId ==> f.Snap()[n].field == null
    decreases Size(t), 2
  {
    hide Making, Consistent, Copied, Unfinished, IsTree, KidsAre, f.Snap;
    ghost var h0, kids0, live0 := f.Snap(), f.kids, f.live;
    IsTreeNode(h0, kids0, ast, t);
    n := Create(f, ast.id, if parent == null then ast.parent else parent, parent == null);
    NowMaking(h0, kids0, live0, ast, t, f.Snap(), f.kids, f.live, n);
    CopyKids(f, n, ast, h0, kids0, live0, t);
    assert forall m <- f.kids :: m in kids0 || fresh(m);
    CopyAnnotation(f, n, ast, h0, kids0, live0, t);
    assert forall m <- f.kids :: m in kids0 || fresh(m);
    CopyType(f, n, ast, h0, kids0, live0, t);
    assert forall m <- f.kids :: m in kids0 || fresh(m);
    MadeIs(h0, kids0, live0, ast, t, f.Snap(), f.kids, f.live, n);
    WholeTree(f.Snap(), f.kids, n, t);
  }

  lemma NowMaking(h0: Heap, kids0: Kids, live0: set<Node>, ast: Node, t: Tree, h: Heap, kids: Kids, live: set<Node>, n: Node)
    requires Consistent(h0, kids0, live0) && Consistent(h, kids, live) && IsTree(h0, kids0, ast, t)
    requires Unfinished(h0, kids0, h, kids, live, n) && OnlyNewLive(kids0, live0, live) && n.id == t.id
    ensures Making(h0, kids0, live0, ast, t, h, kids, live, n)
  {
  }

  lemma MadeIs(h0: Heap, kids0: Kids, live0: set<Node>, ast: Node, t: Tree, h: Heap, kids: Kids, live: set<Node>, n: Node)
    requires Making(h0, kids0, live0, ast, t, h, kids, live, n)
    ensures Consistent(h0, kids0, live0) && Consistent(h, kids, live) && IsTree(h0, kids0, ast, t)
    ensures Copied(h0, kids0, live0, h, kids, live) && Unfinished(h0, kids0, h, kids, live, n)
    ensures n in h && n.id == t.id && OnlyNewLive(kids0, live0, live)
  {
  }

  lemma Smaller(t: Tree)
    ensures t.annotation.Present? ==> Size(t.annotation.tree) < Size(t)
    ensures t.type_.Present? ==> Size(t.type_.tree) < Size(t)
    ensures SizeAll(t.kids) < Size(t)
  {
  }

  lemma IsTreeNode(h: Heap, kids: Kids, n: Node, t: Tree)
    requires IsTree(h, kids, n, t)
    ensures n in h && n in kids && n.id == t.id
  {
  }

  lemma WholeTree(h: Heap, kids: Kids, n: Node, t: Tree)
    requires n in h && n.id == t.id && KidsAre(h, kids, n, t.kids)
    requires IsMaybe(h, kids, AnnotationOf(h, n), t.annotation) && IsMaybe(h, kids, TypeOf(h, n), t.type_)
    ensures IsTree(h, kids, n, t)
  {
  }

  ghost predicate Making(h0: Heap, kids0: Kids, live0: set<Node>, ast: Node, t: Tree, h: Heap, kids: Kids, live: set<Node>, n: Node) {
    Consistent(h0, kids0, live0) && Consistent(h, kids, live) && IsTree(h0, kids0, ast, t) &&
    Copied(h0, kids0, live0, h, kids, live) && Unfinished(h0, kids0, h, kids, live, n) && n.id == t.id
  }

  method CopyKids(f: Forest, n: Node, ast: Node, ghost h0: Heap, ghost kids0: Kids, ghost live0: set<Node>, ghost t: Tree)
    requires Making(h0, kids0, live0, ast, t, f.Snap(), f.kids, f.live, n) && n in f.kids
    requires f.kids[n] == [] && f.Snap()[n].child == null && f.Snap()[n].field == null
    modifies f, n
    ensures Making(h0, kids0, live0, ast, t, f.Snap(), f.kids, f.live, n) && n in f.kids
    ensures forall m <- f.kids :: m in old(f.kids) || fresh(m)
    ensures KidsAre(f.Snap(), f.kids, n, t.kids) && f.Snap()[n].field == null && Same(old(f.Snap())[n], f.Snap()[n])
    decreases Size(t), 1
  {
    hide Making, Consistent, Copied, CopiesOf, Unfinished, IsTree, KidsAre, RowOf, f.Snap;
    ghost var h1, kids1, live1 := f.Snap(), f.kids, f.live;
    MakingRow(h0, kids0, live0, ast, t, h1, kids1, live1, n);
    f.Fields(ast);
    var c, copies := CopyRow(f, n, ast.child, f.kids[ast], t.kids);
    ghost var h2, kids2, live2 := f.Snap(), f.kids, f.live;
    MakingKids(h0, kids0, live0, ast, t, h1, kids1, live1, n, h2, kids2, live2, copies);
    f.SetChild(n, c);
    Recorded(f, n, copies, set k <- copies);
  }

  ghost method Recorded(f: Forest, n: Node, s: seq<Node>, more: set<Node>)
    requires n in f.kids
    modifies f`kids, f`live
    ensures f.kids == old(f.kids)[n := s] && f.live == old(f.live) + more && f.Snap() == old(f.Snap())
  {
    f.kids := f.kids[n := s];
    f.live := f.live + more;
  }

  lemma MakingRow(h0: Heap, kids0: Kids, live0: set<Node>, ast: Node, t: Tree, h: Heap, kids: Kids, live: set<Node>, n: Node)
    requires Making(h0, kids0, live0, ast, t, h, kids, live, n)
    ensures Consistent(h, kids, live) && ast in kids && ast in h && n in h
    ensures IsTree(h, kids, ast, t) && RowOf(h, kids, kids[ast], t.kids) && h[ast].child == Next(kids[ast], 0)
  {
    hide Consistent, IsTree, KidsAre, RowOf;
    UnfinishedIs(h0, kids0, h, kids, live, n);
    TreeKept(h0, kids0, live0, h, kids, ast, t);
    IsTreeNode(h, kids, ast, t);
    RowOfKids(h, kids, live, ast, t);
  }

  lemma MakingKids(h0: Heap, kids0: Kids, live0: set<Node>, ast: Node, t: Tree, h1: Heap, kids1: Kids, live1: set<Node>, n: Node,
                   h: Heap, kids: Kids, live: set<Node>, s: seq<Node>)
    requires Making(h0, kids0, live0, ast, t, h1, kids1, live1, n) && Consistent(h, kids, live)
    requires n in kids1 && n in h1 && kids1[n] == [] && Copied(h1, kids1, live1, h, kids, live)
    requires CopiesOf(h1, kids1, h, kids, live, n, s, t.kids)
    ensures n in h && n in kids && kids[n] == [] && h[n] == h1[n]
    ensures var h2, kids2, live2 := WithChild(h, n, Next(s, 0)), kids[n := s], live + (set k <- s);
            Making(h0, kids0, live0, ast, t, h2, kids2, live2, n) && KidsAre(h2, kids2, n, t.kids)
  {
    hide Consistent, IsTree, KidsAre, Row, Loose;
    StillUnfinished(h0, kids0, h1, kids1, live1, h, kids, live, n);
    CopiedTwice(h0, kids0, live0, h1, kids1, live1, h, kids, live);
    forall i | 0 <= i < |s|
      ensures s[i] != n && Unfinished(h0, kids0, h, kids, live, s[i]) && IsTree(h, kids, s[i], t.kids[i])
    {
      assert Unfinished(h1, kids1, h, kids, live, s[i]);
    }
    RowTaken(h0, kids0, h, kids, live, n, s, t.kids);
  }

  /** What the field of a node without annotation or type says, and what the original has. */
  lemma MakingFields(h0: Heap, kids0: Kids, live0: set<Node>, ast: Node, t: Tree, h: Heap, kids: Kids, live: set<Node>, n: Node)
    requires Making(h0, kids0, live0, ast, t, h, kids, live, n)
    ensures Consistent(h, kids, live) && ast in kids && ast in h && n in h && ast.id == t.id == n.id
    ensures IsMaybe(h, kids, AnnotationOf(h, ast), t.annotation) && IsMaybe(h, kids, TypeOf(h, ast), t.type_)
    ensures h[n].field == null ==> AnnotationOf(h, n) == null && TypeOf(h, n) == null
    ensures !IsAnnotation(TypeOf(h, ast)) && (AnnotationOf(h, ast) != null ==> AnnotationOf(h, ast).id == AnnotationId)
    ensures n.id == AnnotationId ==> AnnotationOf(h, ast) == null && TypeOf(h, ast) == null
  {
    MakingRow(h0, kids0, live0, ast, t, h, kids, live, n);
    if ast.id != AnnotationId {
      FieldKnown(h, kids, live, ast);
    }
  }

  /** The copy of a field is complete, and the node that gets it is as it was. */
  lemma MakingOn(h0: Heap, kids0: Kids, live0: set<Node>, ast: Node, t: Tree, h1: Heap, kids1: Kids, live1: set<Node>, n: Node,
                 h: Heap, kids: Kids, live: set<Node>, x: Node, tx: Tree)
    requires Making(h0, kids0, live0, ast, t, h1, kids1, live1, n) && Consistent(h, kids, live)
    requires n in kids1 && n in h1 && KidsAre(h1, kids1, n, t.kids) && Copied(h1, kids1, live1, h, kids, live)
    requires Unfinished(h1, kids1, h, kids, live, x) && IsTree(h, kids, x, tx) && x in h && h[x].orphan && h[x].sibling == null
    ensures n in h && n in kids && kids[n] == kids1[n] && h[n] == h1[n] && x in kids && h.Keys == kids.Keys && x != n
    ensures Making(h0, kids0, live0, ast, t, h, kids, live, n) && KidsAre(h, kids, n, t.kids)
    ensures Whole(kids0, h, kids, live, n, x, tx) && Unfinished(h0, kids0, h, kids, live, n)
  {
    hide Consistent, IsTree, KidsAre, Loose;
    StillUnfinished(h0, kids0, h1, kids1, live1, h, kids, live, n);
    CopiedTwice(h0, kids0, live0, h1, kids1, live1, h, kids, live);
    KidsKept(h1, kids1, live1, h, kids, n, t.kids);
    UnfinishedIs(h1, kids1, h, kids, live, x);
  }

  method CopyAnnotation(f: Forest, n: Node, ast: Node, ghost h0: Heap, ghost kids0: Kids, ghost live0: set<Node>, ghost t: Tree)
    requires Making(h0, kids0, live0, ast, t, f.Snap(), f.kids, f.live, n) && n in f.kids
    requires KidsAre(f.Snap(), f.kids, n, t.kids) && f.Snap()[n].field == null
    modifies f, n
    ensures Making(h0, kids0, live0, ast, t, f.Snap(), f.kids, f.live, n) && n in f.kids
    ensures forall m <- f.kids :: m in old(f.kids) || fresh(m)
    ensures KidsAre(f.Snap(), f.kids, n, t.kids) && Same(old(f.Snap())[n], f.Snap()[n])
    ensures IsMaybe(f.Snap(), f.kids, AnnotationOf(f.Snap(), n), t.annotation) && TypeOf(f.Snap(), n) == null
    ensures n.id == AnnotationId ==> f.Snap()[n].field == null
    ensures n.annotationType == null || fresh(n.annotationType)
    decreases Size(t), 1
  {
    hide Making, Consistent, Copied, Unfinished, IsTree, KidsAre, IsMaybe, TypeOf, AnnotationOf, f.Snap;
    ghost var h1, kids1, live1 := f.Snap(), f.kids, f.live;
    MakingFields(h0, kids0, live0, ast, t, h1, kids1, live1, n);
    f.Fields(n);
    var a := GetAnnotation(f, ast);
    MaybeIs(h1, kids1, a, t.annotation);
    if a != null {
      Smaller(t);
      IsTreeNode(h1, kids1, a, t.annotation.tree);
      var a1 := Copy(f, a, null, t.annotation.tree);
      IsTreeNode(f.Snap(), f.kids, a1, t.annotation.tree);
      MakingOn(h0, kids0, live0, ast, t, h1, kids1, live1, n, f.Snap(), f.kids, f.live, a1, t.annotation.tree);
      HoldAnnotation(f, n, a1, ast, h0, kids0, live0, t);
    }
  }

  method HoldAnnotation(f: Forest, n: Node, a: Node, ast: Node, ghost h0: Heap, ghost kids0: Kids, ghost live0: set<Node>, ghost t: Tree)
    requires Making(h0, kids0, live0, ast, t, f.Snap(), f.kids, f.live, n) && n in f.kids && a in f.kids
    requires t.annotation.Present? && a.id == AnnotationId && n.id != AnnotationId
    requires Whole(kids0, f.Snap(), f.kids, f.live, n, a, t.annotation.tree) && f.Snap()[a].field == null
    requires KidsAre(f.Snap(), f.kids, n, t.kids) && f.Snap()[n].field == null
    modifies f`live, n, a
    ensures Making(h0, kids0, live0, ast, t, f.Snap(), f.kids, f.live, n) && f.kids == old(f.kids)
    ensures KidsAre(f.Snap(), f.kids, n, t.kids) && Same(old(f.Snap())[n], f.Snap()[n])
    ensures IsMaybe(f.Snap(), f.kids, AnnotationOf(f.Snap(), n), t.annotation) && TypeOf(f.Snap(), n) == null
    ensures n.annotationType == a
  {
    hide Making, Consistent, Copied, Unfinished, IsTree, KidsAre, IsMaybe, TypeOf, AnnotationOf, Whole, f.Snap;
    MadeIs(h0, kids0, live0, ast, t, f.Snap(), f.kids, f.live, n);
    f.Fields(n);
    f.Fields(a);
    assert a !in kids0 by { WholeIs(kids0, f.Snap(), f.kids, f.live, n, a, t.annotation.tree); }
    PutAnnotation(f, n, a, h0, kids0, t.kids, t.annotation.tree);
    NowMaking(h0, kids0, live0, ast, t, f.Snap(), f.kids, f.live, n);
    MaybeIs(f.Snap(), f.kids, a, t.annotation);
    AnnotationIsField(f.Snap(), n);
    f.Fields(n);
  }

  lemma WholeIs(kids0: Kids, h: Heap, kids: Kids, live: set<Node>, n: Node, x: Node, t: Tree)
    requires h.Keys == kids.Keys && Whole(kids0, h, kids, live, n, x, t)
    ensures x !in kids0
  {
  }

  lemma AnnotationIsField(h: Heap, n: Node)
    requires n in h && AnnotationOf(h, n) != null
    ensures h[n].field == AnnotationOf(h, n)
  {
  }

  method CopyType(f: Forest, n: Node, ast: Node, ghost h0: Heap, ghost kids0: Kids, ghost live0: set<Node>, ghost t: Tree)
    requires Making(h0, kids0, live0, ast, t, f.Snap(), f.kids, f.live, n) && n in f.kids
    requires KidsAre(f.Snap(), f.kids, n, t.kids) && TypeOf(f.Snap(), n) == null
    requires IsMaybe(f.Snap(), f.kids, AnnotationOf(f.Snap(), n), t.annotation)
    requires n.id == AnnotationId ==> f.Snap()[n].field == null
    modifies f, Touched(n, null)
    ensures Making(h0, kids0, live0, ast, t, f.Snap(), f.kids, f.live, n) && n in f.kids
    ensures forall m <- f.kids :: m in old(f.kids) || fresh(m)
    ensures KidsAre(f.Snap(), f.kids, n, t.kids) && Same(old(f.Snap())[n], f.Snap()[n])
    ensures IsMaybe(f.Snap(), f.kids, AnnotationOf(f.Snap(), n), t.annotation)
    ensures IsMaybe(f.Snap(), f.kids, TypeOf(f.Snap(), n), t.type_)
    ensures n.id == AnnotationId ==> f.Snap()[n].field == null
    decreases Size(t), 1
  {
    hide Making, Consistent, Copied, Unfinished, IsTree, KidsAre, IsMaybe, TypeOf, AnnotationOf, f.Snap;
    ghost var h1, kids1, live1 := f.Snap(), f.kids, f.live;
    MakingFields(h0, kids0, live0, ast, t, h1, kids1, live1, n);
    MadeIs(h0, kids0, live0, ast, t, h1, kids1, live1, n);
    f.Fields(n);
    var x := GetType(f, ast);
    MaybeIs(h1, kids1, x, t.type_);
    if x != null {
      Smaller(t);
      IsTreeNode(h1, kids1, x, t.type_.tree);
      var x1 := Copy(f, x, null, t.type_.tree);
      ghost var h2, kids2, live2 := f.Snap(), f.kids, f.live;
      IsTreeNode(h2, kids2, x1, t.type_.tree);
      MakingOn(h0, kids0, live0, ast, t, h1, kids1, live1, n, h2, kids2, live2, x1, t.type_.tree);
      MadeIs(h0, kids0, live0, ast, t, h2, kids2, live2, n);
      MakingSame(h1, kids1, live1, h2, kids2, live2, n, t.annotation);
      f.Fields(n);
      HoldType(f, n, x1, ast, h0, kids0, live0, t);
    }
  }

  method HoldType(f: Forest, n: Node, x: Node, ast: Node, ghost h0: Heap, ghost kids0: Kids, ghost live0: set<Node>, ghost t: Tree)
    requires Making(h0, kids0, live0, ast, t, f.Snap(), f.kids, f.live, n) && n in f.kids && x in f.kids
    requires t.type_.Present? && x.id != AnnotationId && n.id != AnnotationId
    requires Whole(kids0, f.Snap(), f.kids, f.live, n, x, t.type_.tree) && TypeOf(f.Snap(), n) == null
    requires KidsAre(f.Snap(), f.kids, n, t.kids) && IsMaybe(f.Snap(), f.kids, AnnotationOf(f.Snap(), n), t.annotation)
    modifies f`live, Touched(n, x)
    ensures Making(h0, kids0, live0, ast, t, f.Snap(), f.kids, f.live, n) && f.kids == old(f.kids)
    ensures KidsAre(f.Snap(), f.kids, n, t.kids) && Same(old(f.Snap())[n], f.Snap()[n])
    ensures IsMaybe(f.Snap(), f.kids, AnnotationOf(f.Snap(), n), t.annotation)
    ensures IsMaybe(f.Snap(), f.kids, TypeOf(f.Snap(), n), t.type_)
  {
    hide Making, Consistent, Copied, Unfinished, IsTree, KidsAre, IsMaybe, TypeOf, AnnotationOf, Whole, f.Snap;
    MadeIs(h0, kids0, live0, ast, t, f.Snap(), f.kids, f.live, n);
    assert x !in kids0 by { WholeIs(kids0, f.Snap(), f.kids, f.live, n, x, t.type_.tree); }
    PutType(f, n, x, h0, kids0, t.kids, t.type_.tree, t.annotation);
    NowMaking(h0, kids0, live0, ast, t, f.Snap(), f.kids, f.live, n);
    MaybeIs(f.Snap(), f.kids, x, t.type_);
  }

  lemma MaybeIs(h: Heap, kids: Kids, n: Node?, t: Maybe)
    ensures IsMaybe(h, kids, n, t) <==> if n == null then t.Absent? else t.Present? && IsTree(h, kids, n, t.tree)
  {
  }

  /** Copying elsewhere leaves what n holds as it is. */
  lemma MakingSame(h1: Heap, kids1: Kids, live1: set<Node>, h: Heap, kids: Kids, live: set<Node>, n: Node, ta: Maybe)
    requires Consistent(h1, kids1, live1) && Copied(h1, kids1, live1, h, kids, live) && n in kids1 && n in h1
    requires IsMaybe(h1, kids1, AnnotationOf(h1, n), ta)
    ensures n in h && TypeOf(h, n) == TypeOf(h1, n) && AnnotationOf(h, n) == AnnotationOf(h1, n)
    ensures IsMaybe(h, kids, AnnotationOf(h, n), ta)
  {
    GettersKept(h1, kids1, live1, h, kids, n);
    if AnnotationOf(h1, n) != null {
      TreeKept(h1, kids1, live1, h, kids, AnnotationOf(h1, n), ta.tree);
    }
  }

  // ----- Copies, and edits that copy

  /** A copy of a tree: a new root, and every old node as it was. */
  method Dup(f: Forest, ast: Node, ghost t: Tree) returns (n: Node)
    requires f.Valid() && IsTree(f.Snap(), f.kids, ast, t)
    modifies f
    ensures f.Valid() && fresh(n) && n in f.live && n in f.kids && !HasParent(f.Snap()[n])
    ensures IsTree(f.Snap(), f.kids, n, t)
    ensures n !in old(f.kids) && Grown(old(f.Snap()), old(f.kids), f.Snap(), f.kids)
    ensures old(f.live) <= f.live && forall m <- f.kids :: m in old(f.kids) || fresh(m)
  {
    hide Consistent, Unfinished, IsTree, Grown, f.Snap;
    n := Copy(f, ast, null, t);
    UnfinishedIs(old(f.Snap()), old(f.kids), f.Snap(), f.kids, f.live, n);
    Enliven(f.Snap(), f.kids, f.live, n);
    f.live := f.live + {n};
  }

  /** A tree of new nodes does not change when the children of an old node do. */
  lemma {:induction false} TreeOfNew(h0: Heap, kids0: Kids, h: Heap, kids: Kids, h1: Heap, kids1: Kids, n: Node, t: Tree)
    requires h0.Keys == kids0.Keys && h.Keys == kids.Keys == h1.Keys == kids1.Keys && Grown(h0, kids0, h, kids)
    requires n !in kids0 && IsTree(h, kids, n, t) && forall m <- h :: h1[m].field == h[m].field
    requires forall m <- kids :: m !in kids0 ==> kids1[m] == kids[m]
    ensures IsTree(h1, kids1, n, t)
    decreases t
  {
    FieldsSame(h, h1, n);
    forall i | 0 <= i < |t.kids|
      ensures IsTree(h1, kids1, kids1[n][i], t.kids[i])
    {
      assert kids[n][i] in kids[n];
      TreeOfNew(h0, kids0, h, kids, h1, kids1, kids[n][i], t.kids[i]);
    }
    if AnnotationOf(h, n) != null {
      TreeOfNew(h0, kids0, h, kids, h1, kids1, AnnotationOf(h, n), t.annotation.tree);
    }
    if TypeOf(h, n) != null {
      TreeOfNew(h0, kids0, h, kids, h1, kids1, TypeOf(h, n), t.type_.tree);
    }
  }

  /** A node without a parent is used as it is; of one with a parent, a copy is used. */
  method Use(f: Forest, c: Node, ghost t: Tree) returns (n: Node)
    requires f.Valid() && c in f.live && c in f.kids && IsTree(f.Snap(), f.kids, c, t)
    modifies f
    ensures f.Valid() && n in f.live && n in f.kids && !HasParent(f.Snap()[n]) && IsTree(f.Snap(), f.kids, n, t)
    ensures if HasParent(old(f.Snap())[c]) then fresh(n) && n !in old(f.kids) else n == c && f.kids == old(f.kids)
    ensures Grown(old(f.Snap()), old(f.kids), f.Snap(), f.kids) && old(f.live) <= f.live
    ensures forall m <- f.kids :: m in old(f.kids) || fresh(m)
  {
    hide Consistent, IsTree, f.Snap;
    f.Fields(c);
    n := c;
    if !c.orphan && c.parent != null {
      n := Dup(f, c, t);
    }
  }

  /** Prepends a child, or a copy of it if it has a parent already. */
  method AstAdd(f: Forest, p: Node, child: Node, ghost t: Tree) returns (c: Node)
    requires f.Valid() && p in f.kids && child in f.live && child in f.kids && p != child
    requires IsTree(f.Snap(), f.kids, child, t)
    modifies f, f.kids.Keys
    ensures f.Valid() && c in f.kids
    ensures if HasParent(old(f.Snap())[child]) then fresh(c) && IsTree(f.Snap(), f.kids, c, t) else c == child
    ensures p in f.kids && f.kids[p] == [c] + old(f.kids[p])
    ensures forall m <- old(f.kids) :: m != p ==> m in f.kids && f.kids[m] == old(f.kids[m])
  {
    hide Consistent, IsTree, f.Snap, Inserted;
    ghost var h0, kids0 := f.Snap(), f.kids;
    c := Use(f, child, t);
    ghost var h, kids := f.Snap(), f.kids;
    f.Add(p, c);
    InsertedFrame(h, p, kids[p], 0, c);
    if HasParent(h0[child]) {
      TreeOfNew(h0, kids0, h, kids, f.Snap(), f.kids, c, t);
    }
  }

  /** Appends a child, or a copy of it if it has a parent already. */
  method AstAppend(f: Forest, p: Node, child: Node, ghost t: Tree) returns (c: Node)
    requires f.Valid() && p in f.kids && child in f.live && child in f.kids && p != child
    requires IsTree(f.Snap(), f.kids, child, t)
    modifies f, f.kids.Keys
    ensures f.Valid() && c in f.kids
    ensures if HasParent(old(f.Snap())[child]) then fresh(c) && IsTree(f.Snap(), f.kids, c, t) else c == child
    ensures p in f.kids && f.kids[p] == old(f.kids[p]) + [c]
    ensures forall m <- old(f.kids) :: m != p ==> m in f.kids && f.kids[m] == old(f.kids[m])
  {
    hide Consistent, IsTree, f.Snap, Inserted;
    ghost var h0, kids0 := f.Snap(), f.kids;
    c := Use(f, child, t);
    ghost var h, kids := f.Snap(), f.kids;
    f.Append(p, c);
    InsertedFrame(h, p, kids[p], |kids[p]|, c);
    if HasParent(h0[child]) {
      TreeOfNew(h0, kids0, h, kids, f.Snap(), f.kids, c, t);
    }
  }

  /** Puts a node, or a copy of it if it has a parent already, after a child. */
  method AstAddSibling(f: Forest, older: Node, newer: Node, ghost i: nat, ghost t: Tree) returns (c: Node)
    requires f.Valid() && older in f.kids && newer in f.live && newer in f.kids && older != newer
    requires older.parent in f.kids && newer != older.parent
    requires i < |f.kids[older.parent]| && f.kids[older.parent][i] == older
    requires IsTree(f.Snap(), f.kids, newer, t)
    modifies f, f.kids.Keys
    ensures f.Valid() && c in f.kids
    ensures if HasParent(old(f.Snap())[newer]) then fresh(c) && IsTree(f.Snap(), f.kids, c, t) else c == newer
    ensures older.parent == old(older.parent) && older.parent in f.kids
    ensures f.kids[older.parent] == old(f.kids[older.parent])[..i + 1] + [c] + old(f.kids[older.parent])[i + 1..]
    ensures forall m <- old(f.kids) :: m != older.parent ==> m in f.kids && f.kids[m] == old(f.kids[m])
  {
    hide Consistent, IsTree, f.Snap, Inserted;
    ghost var h0, kids0 := f.Snap(), f.kids;
    f.Fields(older);
    c := Use(f, newer, t);
    ghost var h, kids, p := f.Snap(), f.kids, older.parent;
    f.Fields(older);
    f.AddSibling(older, c, i);
    InsertedFrame(h, p, kids[p], i + 1, c);
    if HasParent(h0[newer]) {
      TreeOfNew(h0, kids0, h, kids, f.Snap(), f.kids, c, t);
    }
  }

  /** Puts a node, or a copy of it if it has a parent already, in the place of a child. */
  method AstSwap(f: Forest, prev: Node, next: Node, ghost i: nat, ghost t: Tree) returns (c: Node)
    requires f.Valid() && prev in f.kids && next in f.live && next in f.kids && prev != next
    requires prev.parent in f.kids && next != prev.parent
    requires i < |f.kids[prev.parent]| && f.kids[prev.parent][i] == prev
    requires IsTree(f.Snap(), f.kids, next, t)
    modifies f, f.kids.Keys
    ensures f.Valid() && c in f.kids
    ensures if HasParent(old(f.Snap())[next]) then fresh(c) && IsTree(f.Snap(), f.kids, c, t) else c == next
    ensures prev.parent == old(prev.parent) && prev.orphan && prev.parent in f.kids
    ensures f.kids[prev.parent] == old(f.kids[prev.parent])[i := c]
    ensures forall m <- old(f.kids) :: m != prev.parent ==> m in f.kids && f.kids[m] == old(f.kids[m])
  {
    hide Consistent, IsTree, f.Snap;
    ghost var h0, kids0 := f.Snap(), f.kids;
    f.Fields(prev);
    c := Use(f, next, t);
    ghost var h, kids := f.Snap(), f.kids;
    f.Fields(prev);
    f.Swap(prev, c, i);
    if HasParent(h0[next]) {
      TreeOfNew(h0, kids0, h, kids, f.Snap(), f.kids, c, t);
    }
  }
}

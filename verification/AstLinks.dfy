/**
 * Syntax trees as linked nodes. Each node has its first child, its next sibling, its
 * parent and an orphan flag, and one field that holds an annotation, a type or both.
 * This module says what the links of a well-formed forest are, on snapshots of them.
 */
module AstLinks {

  /** The token id of annotations. */
  const AnnotationId: nat := 0

  class Node {
    const id: nat
    var parent: Node?
    var child: Node?
    var sibling: Node?
    var orphan: bool
    var annotationType: Node?

    constructor (id: nat)
      ensures this.id == id && parent == child == sibling == annotationType == null && !orphan
    {
      this.id := id;
      parent, child, sibling, annotationType, orphan := null, null, null, null, false;
    }
  }

  /** The fields of a node at one moment. */
  datatype Links = Links(parent: Node?, child: Node?, sibling: Node?, orphan: bool, field: Node?)

  type Heap = map<Node, Links>

  /** The children of each node, in order. */
  type Kids = map<Node, seq<Node>>

  /** An orphan keeps its parent as its scope only. */
  predicate HasParent(l: Links) {
    !l.orphan && l.parent != null
  }

  predicate IsAnnotation(n: Node?) {
    n != null && n.id == AnnotationId
  }

  /** The type of n: behind its annotation if it has one. */
  function TypeOf(h: Heap, n: Node): Node?
    requires n in h
  {
    if n.id == AnnotationId then null
    else if IsAnnotation(h[n].field) then if h[n].field in h then h[h[n].field].field else null
    else h[n].field
  }

  function AnnotationOf(h: Heap, n: Node): Node?
    requires n in h
  {
    if n.id != AnnotationId && IsAnnotation(h[n].field) then h[n].field else null
  }

  // ----- Well-formed forests

  /** The node at a place in a list, or null past its end. */
  function Next(s: seq<Node>, i: nat): Node? {
    if i < |s| then s[i] else null
  }

  /** The nodes of s, in this order and each once, are linked as the children of n. */
  ghost predicate Chain(h: Heap, n: Node, s: seq<Node>)
    requires n in h
  {
    h[n].child == Next(s, 0) && Distinct(s) &&
    (forall i :: 0 <= i < |s| ==>
      s[i] in h && h[s[i]].parent == n && !h[s[i]].orphan && h[s[i]].sibling == Next(s, i + 1))
  }

  ghost predicate Distinct(s: seq<Node>) {
    forall i, j :: 0 <= i < j < |s| ==> s[i] != s[j]
  }

  /** A node held in a field of n: not among the children, and without siblings. */
  ghost predicate Held(h: Heap, kids: Kids, n: Node, m: Node?)
    requires n in kids
  {
    m != null ==> m in h && h[m].parent == n && !h[m].orphan && h[m].sibling == null && m !in kids[n]
  }

  ghost predicate FieldsOf(h: Heap, kids: Kids, n: Node)
    requires n in h && n in kids
  {
    n.id != AnnotationId ==>
      Held(h, kids, n, h[n].field) && Held(h, kids, n, TypeOf(h, n)) && !IsAnnotation(TypeOf(h, n))
  }

  /** A node with a parent is one of its children or in its field; one without has no sibling. */
  ghost predicate Placed(h: Heap, kids: Kids, m: Node)
    requires m in h && h.Keys == kids.Keys
  {
    if HasParent(h[m]) then
      h[m].parent in kids &&
      (m in kids[h[m].parent] || m == TypeOf(h, h[m].parent) || m == AnnotationOf(h, h[m].parent))
    else h[m].sibling == null
  }

  /** Nodes that have been freed, or detached with their flags left as they were, are not live. */
  ghost predicate Consistent(h: Heap, kids: Kids, live: set<Node>) {
    h.Keys == kids.Keys && live <= kids.Keys &&
    (forall n <- kids :: Chain(h, n, kids[n])) &&
    (forall n <- kids :: FieldsOf(h, kids, n)) &&
    (forall m <- live :: Placed(h, kids, m))
  }

  /** Every node is among the children of at most one node. */
  lemma OneList(h: Heap, kids: Kids, live: set<Node>, m: Node, n: Node, k: Node)
    requires Consistent(h, kids, live) && m in kids && n in kids && k in kids[m] && k in kids[n]
    ensures m == n
  {
    assert Chain(h, m, kids[m]) && Chain(h, n, kids[n]);
  }

  // ----- One edit of a list of children

  /** A node that is in no list of children and in no field. */
  ghost predicate Loose(h: Heap, kids: Kids, k: Node)
    requires h.Keys == kids.Keys
  {
    k in h && forall n <- kids :: k !in kids[n] && !InField(h, n, k)
  }

  predicate InField(h: Heap, n: Node, k: Node)
    requires n in h
  {
    n.id != AnnotationId && (k == h[n].field || k == TypeOf(h, n))
  }

  /** Nodes without a parent are loose. */
  lemma NoParentLoose(h: Heap, kids: Kids, live: set<Node>, k: Node)
    requires Consistent(h, kids, live) && k in h && !HasParent(h[k])
    ensures Loose(h, kids, k)
  {
    forall n <- kids
      ensures k !in kids[n] && !InField(h, n, k)
    {
      assert Chain(h, n, kids[n]) && FieldsOf(h, kids, n);
    }
  }

  /** What an edit that gives p the children s may do to the links. */
  ghost predicate Relinked(h: Heap, kids: Kids, h1: Heap, p: Node, s: seq<Node>)
    requires h.Keys == kids.Keys && p in kids
  {
    h1.Keys == h.Keys && Chain(h1, p, s) &&
    (forall k <- s :: k in kids[p] || Loose(h, kids, k)) &&
    (forall k <- kids[p] :: k in h && (k in s || (!HasParent(h1[k]) && h1[k].sibling == null))) &&
    (forall n <- h :: h1[n].field == h[n].field) &&
    (forall n <- h :: n != p ==> h1[n].child == h[n].child) &&
    (forall n <- h :: n !in kids[p] && n !in s ==> Same(h[n], h1[n]))
  }

  predicate Same(a: Links, b: Links) {
    a.parent == b.parent && a.sibling == b.sibling && a.orphan == b.orphan
  }

  /** Members of a list, of a field and of other lists are all different nodes. */
  lemma Apart(h: Heap, kids: Kids, live: set<Node>, p: Node, s: seq<Node>, n: Node, k: Node)
    requires Consistent(h, kids, live) && p in kids && n in kids && k in h && h[k].parent == n
    requires (n != p && k in kids[n]) || (InField(h, n, k) && k !in kids[n])
    requires forall x <- s :: x in kids[p] || Loose(h, kids, x)
    ensures k !in kids[p] && k !in s
  {
    assert Chain(h, p, kids[p]);
  }

  lemma ChainMembers(h: Heap, n: Node, t: seq<Node>)
    requires n in h && Chain(h, n, t)
    ensures forall i :: 0 <= i < |t| ==> t[i] in h && HasParent(h[t[i]]) && h[t[i]].parent == n
  {
  }

  lemma ChainSame(h: Heap, h1: Heap, n: Node, t: seq<Node>)
    requires n in h && h1.Keys == h.Keys && Chain(h, n, t) && h1[n].child == h[n].child
    requires forall i :: 0 <= i < |t| ==> t[i] in h && Same(h[t[i]], h1[t[i]])
    ensures Chain(h1, n, t)
  {
  }

  lemma FieldsSame(h: Heap, h1: Heap, n: Node)
    requires n in h && h1.Keys == h.Keys && forall m <- h :: h1[m].field == h[m].field
    ensures TypeOf(h1, n) == TypeOf(h, n) && AnnotationOf(h1, n) == AnnotationOf(h, n)
  {
  }

  lemma RelinkChain(h: Heap, kids: Kids, live: set<Node>, h1: Heap, p: Node, s: seq<Node>, n: Node)
    requires Consistent(h, kids, live) && p in kids && Relinked(h, kids, h1, p, s) && n in kids
    ensures Chain(h1, n, kids[p := s][n])
  {
    hide Chain;
    if n == p {
      RelinkedKeys(h, kids, h1, p, s);
    } else {
      var t := kids[n];
      assert Chain(h, n, t);
      ChainMembers(h, n, t);
      forall i | 0 <= i < |t|
        ensures t[i] in h && Same(h[t[i]], h1[t[i]])
      {
        Apart(h, kids, live, p, s, n, t[i]);
      }
      ChainSame(h, h1, n, t);
    }
  }

  lemma RelinkFields(h: Heap, kids: Kids, live: set<Node>, h1: Heap, p: Node, s: seq<Node>, n: Node)
    requires Consistent(h, kids, live) && p in kids && Relinked(h, kids, h1, p, s) && n in kids
    ensures FieldsOf(h1, kids[p := s], n)
  {
    if n.id != AnnotationId {
      assert FieldsOf(h, kids, n);
      var f, t := h[n].field, TypeOf(h, n);
      if f != null {
        Apart(h, kids, live, p, s, n, f);
      }
      if t != null {
        Apart(h, kids, live, p, s, n, t);
      }
    }
  }

  lemma RelinkPlaced(h: Heap, kids: Kids, live: set<Node>, h1: Heap, p: Node, s: seq<Node>, m: Node)
    requires Consistent(h, kids, live) && p in kids && Relinked(h, kids, h1, p, s) && m in live
    ensures Placed(h1, kids[p := s], m)
  {
    hide Chain, FieldsOf, TypeOf, AnnotationOf;
    assert Placed(h, kids, m) && m in h;
    RelinkedKeys(h, kids, h1, p, s);
    if m in s {
      ChainMembers(h1, p, s);
    } else if m in kids[p] {
      assert !HasParent(h1[m]) && h1[m].sibling == null;
    } else {
      assert Same(h[m], h1[m]);
      if HasParent(h[m]) {
        FieldsSame(h, h1, h[m].parent);
      }
    }
    hide Relinked, Consistent;
  }

  /** Any such edit keeps the forest well formed. */
  lemma Relink(h: Heap, kids: Kids, live: set<Node>, h1: Heap, p: Node, s: seq<Node>)
    requires Consistent(h, kids, live) && p in kids && Relinked(h, kids, h1, p, s)
    ensures Consistent(h1, kids[p := s], live)
  {
    hide Chain, FieldsOf, Placed, Relinked;
    assert h1.Keys == h.Keys by { RelinkedKeys(h, kids, h1, p, s); }
    forall n <- kids
      ensures Chain(h1, n, kids[p := s][n])
      ensures FieldsOf(h1, kids[p := s], n)
    {
      RelinkChain(h, kids, live, h1, p, s, n);
      RelinkFields(h, kids, live, h1, p, s, n);
    }
    forall m <- live
      ensures Placed(h1, kids[p := s], m)
    {
      RelinkPlaced(h, kids, live, h1, p, s, m);
    }
  }

  lemma RelinkedKeys(h: Heap, kids: Kids, h1: Heap, p: Node, s: seq<Node>)
    requires h.Keys == kids.Keys && p in kids && Relinked(h, kids, h1, p, s)
    ensures h1.Keys == h.Keys && Chain(h1, p, s)
  {
  }
}

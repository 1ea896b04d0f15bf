/**
 * The edits of syntax trees, on linked nodes. Each edit is the edit of one list of
 * children, and keeps the forest well formed.
 */
module AstForest {
  import opened AstLinks

  // ----- Single writes, on snapshots

  function WithChild(h: Heap, n: Node, c: Node?): Heap
    requires n in h
  {
    h[n := h[n].(child := c)]
  }

  function WithSibling(h: Heap, n: Node, s: Node?): Heap
    requires n in h
  {
    h[n := h[n].(sibling := s)]
  }

  function WithParent(h: Heap, n: Node, p: Node): Heap
    requires n in h
  {
    h[n := h[n].(parent := p, orphan := false)]
  }

  function Orphaned(h: Heap, n: Node): Heap
    requires n in h
  {
    h[n := h[n].(orphan := true)]
  }

  // ----- Edits, on snapshots

  /** Makes the link to place i of the children of p point to x. */
  function Point(h: Heap, p: Node, s: seq<Node>, i: nat, x: Node?): Heap
    requires p in h && i <= |s| && (i > 0 ==> s[i - 1] in h)
  {
    if i == 0 then WithChild(h, p, x) else WithSibling(h, s[i - 1], x)
  }

  ghost predicate Listed(h: Heap, kids: Kids, live: set<Node>, p: Node) {
    Consistent(h, kids, live) && p in kids && p in h
  }

  lemma ListedChain(h: Heap, kids: Kids, live: set<Node>, p: Node)
    requires Listed(h, kids, live, p)
    ensures Chain(h, p, kids[p]) && forall k <- kids[p] :: k in h && HasParent(h[k]) && h[k].parent == p
  {
    ChainMembers(h, p, kids[p]);
  }

  function Without(s: seq<Node>, i: nat): seq<Node>
    requires i < |s|
  {
    s[..i] + s[i + 1..]
  }

  function Removed(h: Heap, p: Node, s: seq<Node>, i: nat): Heap
    requires p in h && i < |s| && forall k <- s :: k in h
  {
    Orphaned(WithSibling(Point(h, p, s, i, h[s[i]].sibling), s[i], null), s[i])
  }

  lemma OrphanSibling(h: Heap, n: Node)
    requires n in h
    ensures WithSibling(Orphaned(h, n), n, null) == Orphaned(WithSibling(h, n, null), n)
  {
  }

  lemma RemovedLinks(h: Heap, p: Node, s: seq<Node>, i: nat)
    requires p in h && i < |s| && (forall k <- s :: k in h) && Chain(h, p, s)
    ensures var h1 := Removed(h, p, s, i);
            h1.Keys == h.Keys &&
            (forall j :: 0 <= j < |s| && j != i && j != i - 1 ==> Same(h[s[j]], h1[s[j]])) &&
            (i > 0 ==> Same(h[s[i - 1]].(sibling := Next(s, i + 1)), h1[s[i - 1]])) &&
            h1[p].child == (if i == 0 then Next(s, 1) else h[p].child) &&
            h1[s[i]].orphan && h1[s[i]].sibling == null
  {
    assert s[i] in s && h[s[i]].sibling == Next(s, i + 1);
    assert i > 0 ==> s[i - 1] in s && s[i - 1] != s[i];
  }

  lemma RemovedFrame(h: Heap, p: Node, s: seq<Node>, i: nat)
    requires p in h && i < |s| && forall k <- s :: k in h
    ensures var h1 := Removed(h, p, s, i);
            h1.Keys == h.Keys && OnlyLists(h, h1, p) && forall n <- h :: n !in s ==> Same(h[n], h1[n])
  {
  }

  /** No field is changed, and no first child but that of p. */
  ghost predicate OnlyLists(h: Heap, h1: Heap, p: Node)
    requires h1.Keys == h.Keys
  {
    (forall n <- h :: h1[n].field == h[n].field) && forall n <- h :: n != p ==> h1[n].child == h[n].child
  }

  lemma WithoutIs(s: seq<Node>, i: nat)
    requires i < |s| && Distinct(s)
    ensures Distinct(Without(s, i)) && s[i] !in Without(s, i)
    ensures forall k <- s :: k == s[i] || k in Without(s, i)
    ensures forall k <- Without(s, i) :: k in s
    ensures forall j :: 0 <= j < |s| - 1 ==> Without(s, i)[j] == s[if j < i then j else j + 1]
  {
    var t := Without(s, i);
    forall j | 0 <= j < |s|
      ensures j == i || s[j] in t
    {
      assert j < i ==> t[j] == s[j];
      assert j > i ==> t[j - 1] == s[j];
    }
  }

  lemma RemoveChain(h: Heap, p: Node, s: seq<Node>, i: nat)
    requires p in h && i < |s| && (forall k <- s :: k in h) && Chain(h, p, s)
    ensures Chain(Removed(h, p, s, i), p, Without(s, i))
  {
    RemovedLinks(h, p, s, i);
    WithoutIs(s, i);
    var h1, t := Removed(h, p, s, i), Without(s, i);
    hide Removed, Without, Distinct;
    forall j | 0 <= j < |t|
      ensures t[j] in h1 && h1[t[j]].parent == p && !h1[t[j]].orphan
      ensures h1[t[j]].sibling == Next(t, j + 1)
    {
      var k := if j < i then j else j + 1;
      assert t[j] == s[k] && s[k] in s;
      assert h[s[k]].sibling == Next(s, k + 1);
    }
  }

  lemma RemoveRelinks(h: Heap, kids: Kids, live: set<Node>, p: Node, i: nat)
    requires Listed(h, kids, live, p) && i < |kids[p]|
    ensures forall k <- kids[p] :: k in h
    ensures Relinked(h, kids, Removed(h, p, kids[p], i), p, Without(kids[p], i))
  {
    var s := kids[p];
    ListedChain(h, kids, live, p);
    RemoveChain(h, p, s, i);
    RemovedLinks(h, p, s, i);
    RemovedFrame(h, p, s, i);
    WithoutIs(s, i);
    hide Chain, Without, Listed, Removed;
  }

  // Inserting

  function Inserted(h: Heap, p: Node, s: seq<Node>, i: nat, c: Node): Heap
    requires p in h && c in h && i <= |s| && forall k <- s :: k in h
  {
    Point(WithSibling(WithParent(h, c, p), c, Next(s, i)), p, s, i, c)
  }

  function With(s: seq<Node>, i: nat, c: Node): seq<Node>
    requires i <= |s|
  {
    s[..i] + [c] + s[i..]
  }

  lemma WithIs(s: seq<Node>, i: nat, c: Node)
    requires i <= |s| && Distinct(s) && c !in s
    ensures |With(s, i, c)| == |s| + 1 && Distinct(With(s, i, c))
    ensures forall k <- With(s, i, c) :: k == c || k in s
    ensures c in With(s, i, c) && forall k <- s :: k in With(s, i, c)
    ensures forall j :: 0 <= j <= |s| ==> With(s, i, c)[j] == if j < i then s[j] else if j == i then c else s[j - 1]
  {
    var t := With(s, i, c);
    assert t[i] == c;
    forall j | 0 <= j < |s|
      ensures s[j] in t
    {
      assert j < i ==> t[j] == s[j];
      assert j >= i ==> t[j + 1] == s[j];
    }
  }

  lemma InsertedLinks(h: Heap, p: Node, s: seq<Node>, i: nat, c: Node)
    requires p in h && c in h && c != p && c !in s && i <= |s| && (forall k <- s :: k in h) && Chain(h, p, s)
    ensures var h1 := Inserted(h, p, s, i, c);
            h1.Keys == h.Keys &&
            (forall j :: 0 <= j < |s| && j != i - 1 ==> Same(h[s[j]], h1[s[j]])) &&
            (i > 0 ==> Same(h[s[i - 1]].(sibling := c), h1[s[i - 1]])) &&
            h1[p].child == (if i == 0 then c else h[p].child) &&
            !h1[c].orphan && h1[c].parent == p && h1[c].sibling == Next(s, i)
  {
    assert i > 0 ==> s[i - 1] in s;
  }

  lemma InsertedFrame(h: Heap, p: Node, s: seq<Node>, i: nat, c: Node)
    requires p in h && c in h && i <= |s| && forall k <- s :: k in h
    ensures var h1 := Inserted(h, p, s, i, c);
            h1.Keys == h.Keys && OnlyLists(h, h1, p) && forall n <- h :: n !in s && n != c ==> Same(h[n], h1[n])
  {
    var hc := WithSibling(WithParent(h, c, p), c, Next(s, i));
    PointFrame(hc, p, s, i, c);
    hide Point;
  }

  lemma PointFrame(h: Heap, p: Node, s: seq<Node>, i: nat, x: Node?)
    requires p in h && i <= |s| && (forall k <- s :: k in h)
    ensures var h1 := Point(h, p, s, i, x);
            h1.Keys == h.Keys && OnlyLists(h, h1, p) && forall n <- h :: n !in s ==> Same(h[n], h1[n])
  {
  }

  lemma WithAt(s: seq<Node>, i: nat, c: Node, j: nat)
    requires i <= |s| && j <= |s|
    ensures |With(s, i, c)| == |s| + 1
    ensures With(s, i, c)[j] == if j < i then s[j] else if j == i then c else s[j - 1]
  {
  }

  lemma WithNext(s: seq<Node>, i: nat, c: Node, j: nat)
    requires i <= |s|
    ensures Next(With(s, i, c), j) == if j < i then s[j] else if j == i then c else Next(s, j - 1)
  {
    if j <= |s| {
      WithAt(s, i, c, j);
    }
  }

  lemma InsertChain(h: Heap, p: Node, s: seq<Node>, i: nat, c: Node)
    requires p in h && c in h && c != p && c !in s && i <= |s| && (forall k <- s :: k in h) && Chain(h, p, s)
    ensures Chain(Inserted(h, p, s, i, c), p, With(s, i, c))
  {
    hide Inserted, With, Distinct;
    InsertedLinks(h, p, s, i, c);
    WithIs(s, i, c);
    var h1, t := Inserted(h, p, s, i, c), With(s, i, c);
    WithNext(s, i, c, 0);
    hide Chain;
    forall j | 0 <= j < |t|
      ensures t[j] in h1 && h1[t[j]].parent == p && !h1[t[j]].orphan
      ensures h1[t[j]].sibling == Next(t, j + 1)
    {
      InsertLink(h, p, s, i, c, j);
    }
    assert h[p].child == Next(s, 0) by { ChainFirst(h, p, s); }
    ChainIs(h1, p, t);
  }

  lemma ChainFirst(h: Heap, n: Node, s: seq<Node>)
    requires n in h && Chain(h, n, s)
    ensures h[n].child == Next(s, 0)
  {
  }

  lemma ChainIs(h: Heap, n: Node, s: seq<Node>)
    requires n in h && h[n].child == Next(s, 0) && Distinct(s)
    requires forall i :: 0 <= i < |s| ==> s[i] in h && h[s[i]].parent == n && !h[s[i]].orphan && h[s[i]].sibling == Next(s, i + 1)
    ensures Chain(h, n, s)
  {
  }

  lemma InsertLink(h: Heap, p: Node, s: seq<Node>, i: nat, c: Node, j: nat)
    requires p in h && c in h && c != p && c !in s && i <= |s| && (forall k <- s :: k in h) && Chain(h, p, s) && j <= |s|
    ensures |With(s, i, c)| == |s| + 1 && Inserted(h, p, s, i, c).Keys == h.Keys
    ensures var x := With(s, i, c)[j];
            var link := Inserted(h, p, s, i, c);
            x in h && link[x].parent == p && !link[x].orphan && link[x].sibling == Next(With(s, i, c), j + 1)
  {
    hide Inserted, With, Distinct;
    InsertedLinks(h, p, s, i, c);
    WithAt(s, i, c, j);
    WithNext(s, i, c, j + 1);
    if j != i {
      var k := if j < i then j else j - 1;
      assert s[k] in s && h[s[k]].sibling == Next(s, k + 1);
    }
  }

  lemma InsertRelinks(h: Heap, kids: Kids, live: set<Node>, p: Node, i: nat, c: Node)
    requires Listed(h, kids, live, p) && i <= |kids[p]| && c != p && Loose(h, kids, c)
    ensures forall k <- kids[p] :: k in h
    ensures Relinked(h, kids, Inserted(h, p, kids[p], i, c), p, With(kids[p], i, c))
  {
    var s := kids[p];
    ListedChain(h, kids, live, p);
    InsertChain(h, p, s, i, c);
    InsertedFrame(h, p, s, i, c);
    WithIs(s, i, c);
    hide Chain, With, Listed, Loose, Inserted;
  }

  // Replacing

  function Swapped(h: Heap, p: Node, s: seq<Node>, i: nat, c: Node): Heap
    requires p in h && c in h && i < |s| && forall k <- s :: k in h
  {
    var h1 := WithSibling(Point(h, p, s, i, c), c, h[s[i]].sibling);
    Orphaned(WithSibling(WithParent(h1, c, p), s[i], null), s[i])
  }

  lemma SwappedIs(h: Heap, p: Node, s: seq<Node>, i: nat, c: Node)
    requires p in h && c in h && i < |s| && forall k <- s :: k in h
    ensures Swapped(h, p, s, i, c) ==
            Orphaned(WithSibling(WithParent(WithSibling(Point(h, p, s, i, c), c, h[s[i]].sibling), c, p), s[i], null), s[i])
  {
  }

  lemma SwappedFields(h: Heap, p: Node, s: seq<Node>, i: nat, c: Node)
    requires p in h && c in h && i < |s| && forall k <- s :: k in h
    ensures var h1 := Swapped(h, p, s, i, c);
            h1.Keys == h.Keys && forall m <- h :: h1[m].field == h[m].field
  {
  }

  /** Replacing is inserting before and removing what comes after. */
  lemma SwapSteps(h: Heap, p: Node, s: seq<Node>, i: nat, c: Node)
    requires p in h && c in h && i < |s| && (forall k <- s :: k in h) && c !in s && c != p && Distinct(s)
    ensures forall k <- With(s, i, c) :: k in h
    ensures var h1 := Inserted(h, p, s, i, c);
            Removed(h1, p, With(s, i, c), i + 1) == Swapped(h, p, s, i, c)
    ensures Without(With(s, i, c), i + 1) == s[i := c]
  {
    WithIs(s, i, c);
    var t := With(s, i, c);
    assert t[i] == c && t[i + 1] == s[i];
    assert Without(t, i + 1) == s[i := c];
    assert i > 0 ==> s[i - 1] in s && s[i - 1] != s[i];
    assert s[i] in s;
    hide With, Without, Distinct;
    var x := s[i];
    var h1 := Inserted(h, p, s, i, c);
    assert h1[x].sibling == h[x].sibling;
    var q := Removed(h1, p, t, i + 1);
    assert q == Orphaned(WithSibling(WithSibling(h1, c, h[x].sibling), x, null), x);
    if i == 0 {
      SwapFirst(h, p, x, c);
    } else {
      SwapLater(h, s[i - 1], p, x, c);
    }
  }

  lemma SwapFirst(h: Heap, p: Node, x: Node, c: Node)
    requires p in h && x in h && c in h && c != x && c != p
    ensures WithSibling(WithChild(WithSibling(WithParent(h, c, p), c, x), p, c), c, h[x].sibling) ==
            WithParent(WithSibling(WithChild(h, p, c), c, h[x].sibling), c, p)
  {
  }

  lemma SwapLater(h: Heap, y: Node, p: Node, x: Node, c: Node)
    requires y in h && x in h && c in h && c != x && c != y && x != y
    ensures WithSibling(WithSibling(WithSibling(WithParent(h, c, p), c, x), y, c), c, h[x].sibling) ==
            WithParent(WithSibling(WithSibling(h, y, c), c, h[x].sibling), c, p)
  {
  }

  lemma SwapRelinks(h: Heap, kids: Kids, live: set<Node>, p: Node, i: nat, c: Node)
    requires Listed(h, kids, live, p) && i < |kids[p]| && c != p && c in h && !HasParent(h[c])
    ensures forall k <- kids[p] :: k in h
    ensures Consistent(Swapped(h, p, kids[p], i, c), kids[p := kids[p][i := c]], live)
  {
    hide Consistent, Chain, Inserted, Removed, Swapped, With, Without, Relinked;
    var s := kids[p];
    ListedChain(h, kids, live, p);
    NoParentLoose(h, kids, live, c);
    InsertRelinks(h, kids, live, p, i, c);
    ListDistinct(h, kids, live, p);
    SwapSteps(h, p, s, i, c);
    var h1, t := Inserted(h, p, s, i, c), With(s, i, c);
    Relink(h, kids, live, h1, p, t);
    InsertedFrame(h, p, s, i, c);
    var kids1 := kids[p := t];
    assert kids1[p] == t && |t| == |s| + 1 by { WithLength(s, i, c); }
    RemoveRelinks(h1, kids1, live, p, i + 1);
    Relink(h1, kids1, live, Removed(h1, p, t, i + 1), p, Without(t, i + 1));
    assert kids1[p := s[i := c]] == kids[p := s[i := c]];
  }

  lemma WithLength(s: seq<Node>, i: nat, c: Node)
    requires i <= |s|
    ensures |With(s, i, c)| == |s| + 1
  {
  }

  lemma ListDistinct(h: Heap, kids: Kids, live: set<Node>, p: Node)
    requires Consistent(h, kids, live) && p in kids
    ensures Distinct(kids[p])
  {
    assert Chain(h, p, kids[p]);
  }

  // ----- The forest

  class Forest {
    ghost var kids: Kids
    ghost var live: set<Node>

    constructor ()
      ensures kids == map[] && live == {} && Valid()
    {
      kids, live := map[], {};
    }

    ghost function Snap(): (h: Heap)
      reads this`kids, kids.Keys
      ensures h.Keys == kids.Keys
    {
      map n | n in kids :: Links(n.parent, n.child, n.sibling, n.orphan, n.annotationType)
    }

    ghost predicate Valid()
      reads this, kids.Keys
    {
      Consistent(Snap(), kids, live)
    }

    lemma Fields(n: Node)
      requires n in kids
      ensures Snap()[n] == Links(n.parent, n.child, n.sibling, n.orphan, n.annotationType)
    {
    }

    // Single writes.

    method SetChild(n: Node, c: Node?)
      requires n in kids
      modifies n`child
      ensures Snap() == WithChild(old(Snap()), n, c) && n.child == c
    {
      n.child := c;
    }

    method SetSibling(n: Node, c: Node?)
      requires n in kids
      modifies n`sibling
      ensures Snap() == WithSibling(old(Snap()), n, c) && n.sibling == c
    {
      n.sibling := c;
    }

    method SetScopeAndParent(n: Node, parent: Node)
      requires n in kids
      modifies n`parent, n`orphan
      ensures Snap() == WithParent(old(Snap()), n, parent) && n.parent == parent && !n.orphan
    {
      n.parent := parent;
      n.orphan := false;
    }

    method MakeOrphanLeaveScope(n: Node)
      requires n in kids
      modifies n`orphan
      ensures Snap() == Orphaned(old(Snap()), n) && n.orphan
    {
      n.orphan := true;
    }

    /** Records that the links are now those of an edit that gives p the children s. */
    ghost method Edited(h: Heap, p: Node, s: seq<Node>)
      requires Consistent(h, kids, live) && p in kids && Relinked(h, kids, Snap(), p, s)
      modifies this`kids
      ensures Valid() && kids == old(kids)[p := s] && Snap() == old(Snap())
    {
      hide Consistent, Relinked;
      Relink(h, kids, live, Snap(), p, s);
      kids := kids[p := s];
      assert Snap() == old(Snap());
    }

    /** Takes the first child. */
    method Pop(parent: Node) returns (child: Node?)
      requires Valid() && parent in kids
      modifies this`kids, kids.Keys
      ensures Valid()
      ensures old(kids[parent]) == [] ==> child == null && kids == old(kids) && Snap() == old(Snap())
      ensures old(kids[parent]) != [] ==>
                child == old(kids[parent])[0] && child.orphan &&
                kids == old(kids)[parent := old(kids[parent])[1..]] &&
                (forall k <- old(kids[parent]) :: k in old(kids)) &&
                Snap() == Removed(old(Snap()), parent, old(kids[parent]), 0)
    {
      hide Consistent, Relinked, Snap;
      ghost var h, s := Snap(), kids[parent];
      FirstIs(h, kids, live, parent);
      Fields(parent);
      child := parent.child;
      if child != null {
        Fields(child);
        RemoveRelinks(h, kids, live, parent, 0);
        SetChild(parent, child.sibling);
        SetSibling(child, null);
        MakeOrphanLeaveScope(child);
        assert Without(s, 0) == s[1..];
        Edited(h, parent, s[1..]);
      }
    }

    /** Puts a node without a parent at a place among the children; the link to that place is still to be set. */
    method Join(p: Node, c: Node, ghost i: nat, next: Node?)
      requires Valid() && p in kids && c in kids && i <= |kids[p]| && next == Next(kids[p], i)
      modifies c`parent, c`orphan, c`sibling
      ensures Snap() == WithSibling(WithParent(old(Snap()), c, p), c, Next(kids[p], i))
      ensures c.parent == p && !c.orphan && c.sibling == next
    {
      hide Snap, Consistent;
      SetScopeAndParent(c, p);
      SetSibling(c, next);
    }

    /** A node without a parent becomes the first child. */
    method Add(p: Node, c: Node)
      requires Valid() && p in kids && c in kids && c != p && !HasParent(Snap()[c])
      modifies this`kids, c`parent, c`orphan, c`sibling, p`child
      ensures Valid() && kids == old(kids)[p := [c] + old(kids[p])]
      ensures (forall k <- old(kids[p]) :: k in old(kids)) && Snap() == Inserted(old(Snap()), p, old(kids[p]), 0, c)
    {
      hide Consistent, Relinked, Snap;
      ghost var h, s := Snap(), kids[p];
      FirstIs(h, kids, live, p);
      Fields(p);
      NoParentLoose(h, kids, live, c);
      InsertRelinks(h, kids, live, p, 0, c);
      Join(p, c, 0, p.child);
      SetChild(p, c);
      assert With(s, 0, c) == [c] + s;
      Edited(h, p, [c] + s);
    }

    /** A node without a parent becomes the child after another. */
    method AddSibling(older: Node, c: Node, ghost i: nat)
      requires Valid() && older in kids && c in kids && c != older && !HasParent(Snap()[c])
      requires older.parent in kids && c != older.parent && i < |kids[older.parent]| && kids[older.parent][i] == older
      modifies this`kids, c`parent, c`orphan, c`sibling, older`sibling
      ensures Valid() && older.parent == old(older.parent)
      ensures kids == old(kids)[older.parent := With(old(kids[older.parent]), i + 1, c)]
      ensures forall k <- old(kids[older.parent]) :: k in old(kids)
      ensures Snap() == Inserted(old(Snap()), older.parent, old(kids[older.parent]), i + 1, c)
    {
      hide Consistent, Relinked, Snap, With;
      var p := older.parent;
      ghost var h, s := Snap(), kids[p];
      FirstIs(h, kids, live, p);
      SiblingIs(h, kids, live, p, i);
      Fields(older);
      NoParentLoose(h, kids, live, c);
      InsertRelinks(h, kids, live, p, i + 1, c);
      Join(p, c, i + 1, older.sibling);
      SetSibling(older, c);
      Edited(h, p, With(s, i + 1, c));
    }

    /** A node without a parent becomes the last child. */
    method Append(p: Node, c: Node)
      requires Valid() && p in kids && c in kids && c != p && !HasParent(Snap()[c]) && c in live
      modifies this`kids, kids.Keys
      ensures Valid() && kids == old(kids)[p := old(kids[p]) + [c]]
      ensures forall k <- old(kids[p]) :: k in old(kids)
      ensures Snap() == Inserted(old(Snap()), p, old(kids[p]), |old(kids[p])|, c)
    {
      hide Consistent, Relinked, Snap;
      ghost var h, s := Snap(), kids[p];
      FirstIs(h, kids, live, p);
      Fields(p);
      Fields(c);
      NoParentLoose(h, kids, live, c);
      InsertRelinks(h, kids, live, p, |s|, c);
      assert With(s, |s|, c) == s + [c];
      PlacedAlone(h, kids, live, c);
      if p.child == null {
        SetScopeAndParent(c, p);
        SetChild(p, c);
        assert WithSibling(WithParent(h, c, p), c, null) == WithParent(h, c, p);
      } else {
        var last := LastChild(p);
        SetScopeAndParent(c, p);
        SetSibling(last, c);
        assert WithSibling(WithParent(h, c, p), c, null) == WithParent(h, c, p);
      }
      Edited(h, p, s + [c]);
    }

    /** The child before n, or null. */
    method Previous(n: Node, ghost i: nat) returns (last: Node?)
      requires Valid() && n in kids && n.parent in kids && i < |kids[n.parent]| && kids[n.parent][i] == n
      ensures last == if i == 0 then null else kids[n.parent][i - 1]
    {
      hide Consistent, Snap;
      var p := n.parent;
      ghost var h, s, j := Snap(), kids[p], 0;
      FirstIs(h, kids, live, p);
      ListDistinct(h, kids, live, p);
      Fields(p);
      last := null;
      var cur := p.child;
      while cur != n
        invariant j <= i && cur == s[j] && last == if j == 0 then null else s[j - 1]
        decreases i - j
      {
        SiblingIs(h, kids, live, p, j);
        Fields(cur);
        last := cur;
        cur := cur.sibling;
        j := j + 1;
      }
    }

    /** Puts a node without a parent in the place of a child, which is left without a parent. */
    method Swap(prev: Node, next: Node, ghost i: nat)
      requires Valid() && prev in kids && next in kids && prev != next && !HasParent(Snap()[next])
      requires prev.parent in kids && next != prev.parent
      requires i < |kids[prev.parent]| && kids[prev.parent][i] == prev
      modifies this`kids, kids.Keys
      ensures Valid() && prev.parent == old(prev.parent) && prev.orphan
      ensures kids == old(kids)[old(prev.parent) := old(kids[prev.parent])[i := next]]
      ensures forall m <- kids :: Snap()[m].field == old(Snap())[m].field
    {
      hide Consistent, Snap, Swapped, Point, WithSibling, WithParent, Orphaned;
      var p := prev.parent;
      ghost var h, s := Snap(), kids[p];
      FirstIs(h, kids, live, p);
      SwapRelinks(h, kids, live, p, i, next);
      ListDistinct(h, kids, live, p);
      Fields(prev);
      var last := Previous(prev, i);
      SetPoint(p, last, next, s, i);
      SetSibling(next, prev.sibling);
      SetScopeAndParent(next, p);
      SetSibling(prev, null);
      MakeOrphanLeaveScope(prev);
      SwappedIs(h, p, s, i, next);
      Replaced(h, p, i, next);
      SwappedFields(h, p, s, i, next);
    }

    /** Sets the link to a place, which is in the child before it or in the parent. */
    method SetPoint(p: Node, last: Node?, x: Node?, ghost s: seq<Node>, ghost i: nat)
      requires p in kids && i <= |s| && (forall k <- s :: k in kids) && last == if i == 0 then null else s[i - 1]
      modifies p`child, if last == null then {} else {last}
      ensures Snap() == Point(old(Snap()), p, s, i, x)
      ensures last != null ==> last.parent == old(last.parent) && last.orphan == old(last.orphan)
    {
      hide Snap;
      if last != null {
        SetSibling(last, x);
      } else {
        SetChild(p, x);
      }
    }

    /** Records a replacement, which is an insertion and a removal. */
    ghost method Replaced(h: Heap, p: Node, i: nat, c: Node)
      requires Consistent(h, kids, live) && p in kids && i < |kids[p]| && c in h
      requires (forall k <- kids[p] :: k in h) && h.Keys == kids.Keys
      requires Consistent(Swapped(h, p, kids[p], i, c), kids[p := kids[p][i := c]], live)
      requires Snap() == Swapped(h, p, kids[p], i, c)
      modifies this`kids
      ensures Valid() && kids == old(kids)[p := old(kids[p])[i := c]] && Snap() == old(Snap())
    {
      hide Consistent;
      kids := kids[p := kids[p][i := c]];
      assert Snap() == old(Snap());
    }

    method ChildCount(p: Node) returns (count: nat)
      requires Valid() && p in kids
      ensures count == |kids[p]|
    {
      hide Consistent, Snap;
      ghost var h, s := Snap(), kids[p];
      FirstIs(h, kids, live, p);
      Fields(p);
      var child := p.child;
      count := 0;
      while child != null
        invariant count <= |s| && child == Next(s, count)
        decreases |s| - count
      {
        SiblingIs(h, kids, live, p, count);
        Fields(child);
        count := count + 1;
        child := child.sibling;
      }
    }

    /** Gives the children a new order, by taking them all off and appending them again. */
    method Reorder(p: Node, order: seq<nat>)
      requires Valid() && p in kids && p !in kids[p] && (forall k <- kids[p] :: k in live)
      requires IsOrder(order, |kids[p]|)
      modifies this`kids, kids.Keys
      ensures Valid() && kids == old(kids)[p := Ordered(old(kids[p]), order)]
      ensures Elsewhere(old(Snap()), Snap(), old(kids[p]))
    {
      hide Consistent, Snap, Elsewhere;
      ListDistinct(Snap(), kids, live, p);
      var count := ChildCount(p);
      var shuffle := PopAll(p, count);
      ghost var h := Snap();
      AppendAll(p, order, shuffle);
      ElsewhereTwice(old(Snap()), h, Snap(), shuffle);
    }

    /** Takes off all the children. */
    method PopAll(p: Node, count: nat) returns (shuffle: seq<Node>)
      requires Valid() && p in kids && count == |kids[p]|
      modifies this`kids, kids.Keys
      ensures Valid() && kids == old(kids)[p := []] && shuffle == old(kids[p])
      ensures OrphansTo(Snap(), shuffle, count) && Elsewhere(old(Snap()), Snap(), shuffle)
    {
      hide Consistent, Snap, Elsewhere, OrphansTo, Distinct;
      ghost var s := kids[p];
      ListDistinct(Snap(), kids, live, p);
      ElsewhereNot(Snap(), s);
      NoOrphans(Snap(), s);
      assert s[0..] == s && kids[p := s] == kids;
      shuffle := [];
      for i := 0 to count
        invariant Valid() && kids == old(kids)[p := s[i..]] && shuffle == s[..i]
        invariant OrphansTo(Snap(), s, i) && Elsewhere(old(Snap()), Snap(), s)
      {
        var c := PopNext(p, s, i, old(Snap()));
        shuffle := shuffle + [c];
      }
    }

    /** Takes off one of the children of a list that is being taken off. */
    method PopNext(p: Node, ghost s: seq<Node>, ghost i: nat, ghost h0: Heap) returns (c: Node)
      requires Valid() && p in kids && i < |s| && Distinct(s) && kids[p] == s[i..]
      requires OrphansTo(Snap(), s, i) && Elsewhere(h0, Snap(), s)
      modifies this`kids, kids.Keys
      ensures Valid() && kids == old(kids)[p := s[i + 1..]] && c == s[i]
      ensures OrphansTo(Snap(), s, i + 1) && Elsewhere(h0, Snap(), s)
    {
      hide Consistent, Snap, Removed, Elsewhere, OrphansTo, Distinct;
      ghost var h := Snap();
      PopLeavesOrphans(h, kids, live, p, s, i);
      var first := Pop(p);
      c := first;
      ElsewhereTwice(h0, h, Snap(), s);
      assert s[i..][1..] == s[i + 1..];
    }

    /** Appends nodes without a parent in the given order. */
    method AppendAll(p: Node, order: seq<nat>, s: seq<Node>)
      requires Valid() && p in kids && kids[p] == [] && p !in s && Distinct(s) && IsOrder(order, |s|)
      requires OrphansTo(Snap(), s, |s|) && forall k <- s :: k in live && k in kids
      modifies this`kids, kids.Keys
      ensures Valid() && kids == old(kids)[p := Ordered(s, order)]
      ensures Elsewhere(old(Snap()), Snap(), s)
    {
      hide Consistent, Snap, Inserted, Elsewhere;
      ElsewhereNot(Snap(), s);
      for i := 0 to |order|
        invariant Valid() && kids == old(kids)[p := Ordered(s, order)[..i]]
        invariant forall j :: i <= j < |s| ==> s[order[j]] in kids && Snap()[s[order[j]]].orphan
        invariant Elsewhere(old(Snap()), Snap(), s)
      {
        ghost var h := Snap();
        AppendLeavesOrphans(h, kids, live, p, s, order, i);
        Append(p, s[order[i]]);
        ElsewhereTwice(old(Snap()), h, Snap(), s);
      }
      assert Ordered(s, order)[..|order|] == Ordered(s, order);
    }

    /** Takes off the children at the places that are wanted; the others stay in order. */
    method Extract(p: Node, wanted: seq<bool>) returns (out: seq<Node?>)
      requires Valid() && p in kids && p !in kids[p] && |wanted| <= |kids[p]|
      modifies this`kids, kids.Keys
      ensures Valid() && |out| == |wanted|
      ensures forall i :: 0 <= i < |wanted| ==> out[i] == if wanted[i] then old(kids[p])[i] else null
      ensures kids == old(kids)[p := Kept(old(kids[p]), wanted) + old(kids[p])[|wanted|..]]
    {
      hide Consistent, Snap, Removed, Kept, Relinked, Before;
      ghost var s := kids[p];
      FirstIs(Snap(), kids, live, p);
      Fields(p);
      NoneKept(s, wanted);
      var c, last := p.child, null;
      out := [];
      for i := 0 to |wanted|
        invariant Valid() && |out| == i && c == Next(s, i)
        invariant forall j :: 0 <= j < i ==> out[j] == if wanted[j] then s[j] else null
        invariant kids == old(kids)[p := Kept(s, wanted[..i]) + s[i..]]
        invariant last == Before(Kept(s, wanted[..i]))
      {
        out := out + [if wanted[i] then c else null];
        c, last := Visit(p, last, c, wanted, i, s);
      }
      assert wanted[..|wanted|] == wanted;
    }

    /** Takes off the child at place i if it is wanted, and steps to the next one. */
    method Visit(p: Node, last: Node?, c: Node, wanted: seq<bool>, i: nat, ghost s: seq<Node>)
        returns (next: Node?, last1: Node?)
      requires Valid() && p in kids && i < |wanted| <= |s| && c == s[i]
      requires kids[p] == Kept(s, wanted[..i]) + s[i..] && last == Before(Kept(s, wanted[..i]))
      modifies this`kids, kids.Keys
      ensures Valid() && kids == old(kids)[p := Kept(s, wanted[..i + 1]) + s[i + 1..]]
      ensures next == Next(s, i + 1) && last1 == Before(Kept(s, wanted[..i + 1]))
    {
      hide Consistent, Snap, Removed, Kept, Relinked;
      KeptNext(s, wanted, i);
      ghost var at := |Kept(s, wanted[..i])|;
      SiblingIs(Snap(), kids, live, p, at);
      Fields(c);
      next, last1 := c.sibling, last;
      if wanted[i] {
        TakeOff(p, last, c, at);
      } else {
        last1 := c;
      }
    }

    /** Takes off the child at one place, given the child before it. */
    method TakeOff(p: Node, last: Node?, c: Node, ghost at: nat)
      requires Valid() && p in kids && at < |kids[p]| && kids[p][at] == c && last == Before(kids[p][..at])
      modifies this`kids, kids.Keys
      ensures Valid() && kids == old(kids)[p := Without(old(kids[p]), at)]
    {
      hide Consistent, Snap, Relinked, Point, WithSibling, Orphaned;
      ghost var h, s := Snap(), kids[p];
      FirstIs(h, kids, live, p);
      RemoveRelinks(h, kids, live, p, at);
      Fields(c);
      SetPoint(p, last, c.sibling, s, at);
      MakeOrphanLeaveScope(c);
      SetSibling(c, null);
      OrphanSibling(Point(h, p, s, at, h[c].sibling), c);
      assert Snap() == Removed(h, p, s, at);
      Edited(h, p, Without(s, at));
    }

    method LastChild(p: Node) returns (last: Node)
      requires Valid() && p in kids && p.child != null
      ensures kids[p] != [] && last == kids[p][|kids[p]| - 1]
    {
      hide Consistent, Snap;
      ghost var h, s, i := Snap(), kids[p], 0;
      FirstIs(h, kids, live, p);
      Fields(p);
      last := p.child;
      SiblingIs(h, kids, live, p, 0);
      Fields(last);
      while last.sibling != null
        invariant i < |s| && last == s[i] && last in kids && h[last].sibling == Next(s, i + 1) && h[last].sibling == last.sibling
        decreases |s| - i
      {
        last := last.sibling;
        i := i + 1;
        SiblingIs(h, kids, live, p, i);
        Fields(last);
      }
    }
  }

  /** Each of the numbers below n, once. */
  ghost predicate IsOrder(order: seq<nat>, n: nat) {
    |order| == n && (forall i :: 0 <= i < n ==> order[i] < n) &&
    forall i, j :: 0 <= i < j < n ==> order[i] != order[j]
  }

  ghost function Ordered(s: seq<Node>, order: seq<nat>): seq<Node>
    requires IsOrder(order, |s|)
  {
    seq(|s|, i requires 0 <= i < |s| => s[order[i]])
  }

  /** The first n nodes of s have no parent. */
  ghost predicate OrphansTo(h: Heap, s: seq<Node>, n: nat)
    requires n <= |s|
  {
    forall j :: 0 <= j < n ==> s[j] in h && h[s[j]].orphan
  }

  lemma NoOrphans(h: Heap, s: seq<Node>)
    ensures OrphansTo(h, s, 0)
  {
  }

  /** Only the nodes of s may have changed their places. */
  ghost predicate Elsewhere(h: Heap, h1: Heap, s: seq<Node>) {
    h1.Keys == h.Keys && forall m <- h :: m !in s ==> Same(h[m], h1[m])
  }

  lemma ElsewhereTwice(h: Heap, h1: Heap, h2: Heap, s: seq<Node>)
    requires Elsewhere(h, h1, s) && Elsewhere(h1, h2, s)
    ensures Elsewhere(h, h2, s)
  {
  }

  lemma ElsewhereNot(h: Heap, s: seq<Node>)
    ensures Elsewhere(h, h, s)
  {
  }

  lemma PopLeavesOrphans(h: Heap, kids: Kids, live: set<Node>, p: Node, s: seq<Node>, i: nat)
    requires Consistent(h, kids, live) && p in kids && i < |s| && kids[p] == s[i..] && Distinct(s)
    requires OrphansTo(h, s, i)
    ensures forall k <- kids[p] :: k in h
    ensures var h1 := Removed(h, p, kids[p], 0);
            h1.Keys == h.Keys && OrphansTo(h1, s, i + 1) && Elsewhere(h, h1, s)
  {
    hide Consistent, Removed, Chain;
    FirstIs(h, kids, live, p);
    ListedChain(h, kids, live, p);
    var t := s[i..];
    RemovedFrame(h, p, t, 0);
    RemovedLinks(h, p, t, 0);
    assert t[0] == s[i] && forall k <- t :: k in s;
    forall j | 0 <= j < i
      ensures s[j] !in t
    {
      assert forall k :: 0 <= k < |t| ==> t[k] == s[i + k];
    }
  }

  lemma AppendLeavesOrphans(h: Heap, kids: Kids, live: set<Node>, p: Node, s: seq<Node>, order: seq<nat>, i: nat)
    requires Consistent(h, kids, live) && p in kids && IsOrder(order, |s|) && i < |s| && Distinct(s)
    requires kids[p] == Ordered(s, order)[..i]
    requires forall j :: i <= j < |s| ==> s[order[j]] in h && h[s[order[j]]].orphan
    ensures forall k <- kids[p] :: k in h
    ensures Ordered(s, order)[..i] + [s[order[i]]] == Ordered(s, order)[..i + 1]
    ensures var h1 := Inserted(h, p, kids[p], i, s[order[i]]);
            h1.Keys == h.Keys && (forall j :: i < j < |s| ==> h1[s[order[j]]].orphan) && Elsewhere(h, h1, s)
  {
    FirstIs(h, kids, live, p);
    ListedChain(h, kids, live, p);
    hide Consistent;
    OrderedPrefix(s, order, i);
    hide Ordered, Distinct, IsOrder;
    var c, t := s[order[i]], kids[p];
    InsertedFrame(h, p, t, i, c);
    assert forall m <- h :: m !in s ==> m !in t && m != c;
    hide Inserted;
  }

  lemma OrderedPrefix(s: seq<Node>, order: seq<nat>, i: nat)
    requires IsOrder(order, |s|) && i < |s| && Distinct(s)
    ensures Ordered(s, order)[..i] + [s[order[i]]] == Ordered(s, order)[..i + 1]
    ensures forall j :: i < j < |s| ==> s[order[j]] !in Ordered(s, order)[..i] && s[order[j]] != s[order[i]]
    ensures s[order[i]] in s && forall k <- Ordered(s, order)[..i] :: k in s
  {
    var t := Ordered(s, order)[..i];
    forall j | i < j < |s|
      ensures s[order[j]] !in t && s[order[j]] != s[order[i]]
    {
      assert forall k :: 0 <= k < i ==> t[k] == s[order[k]];
    }
  }

  /** The last node of a list, or null. */
  function Before(s: seq<Node>): Node? {
    if s == [] then null else s[|s| - 1]
  }

  /** The nodes at the places that are not wanted. */
  function Kept(s: seq<Node>, wanted: seq<bool>): (r: seq<Node>)
    requires |wanted| <= |s|
    ensures |r| <= |wanted|
  {
    if wanted == [] then []
    else
      var n := |wanted| - 1;
      if wanted[n] then Kept(s, wanted[..n]) else Kept(s, wanted[..n]) + [s[n]]
  }

  lemma NoneKept(s: seq<Node>, wanted: seq<bool>)
    requires |wanted| <= |s|
    ensures Kept(s, wanted[..0]) == [] && Kept(s, wanted[..0]) + s[0..] == s && Before(Kept(s, wanted[..0])) == null
  {
  }

  lemma KeptNext(s: seq<Node>, wanted: seq<bool>, i: nat)
    requires i < |wanted| <= |s|
    ensures var k, t := Kept(s, wanted[..i]), Kept(s, wanted[..i]) + s[i..];
            t[|k|] == s[i] && t[..|k|] == k && Next(t, |k| + 1) == Next(s, i + 1) &&
            if wanted[i] then Kept(s, wanted[..i + 1]) == k && Without(t, |k|) == k + s[i + 1..]
            else Kept(s, wanted[..i + 1]) == k + [s[i]] && t == (k + [s[i]]) + s[i + 1..]
  {
    assert wanted[..i + 1][..i] == wanted[..i];
    var k := Kept(s, wanted[..i]);
    hide Kept;
    var t := k + s[i..];
    assert t[|k| + 1..] == s[i + 1..];
  }

  lemma SiblingIs(h: Heap, kids: Kids, live: set<Node>, p: Node, i: nat)
    requires Consistent(h, kids, live) && p in kids && i < |kids[p]|
    ensures kids[p][i] in h && h[kids[p][i]].sibling == Next(kids[p], i + 1)
    ensures h[kids[p][i]].parent == p && !h[kids[p][i]].orphan
  {
    assert Chain(h, p, kids[p]);
  }

  lemma PlacedAlone(h: Heap, kids: Kids, live: set<Node>, c: Node)
    requires Consistent(h, kids, live) && c in live && c in h && !HasParent(h[c])
    ensures h[c].sibling == null
  {
    assert Placed(h, kids, c);
  }

  lemma FirstIs(h: Heap, kids: Kids, live: set<Node>, p: Node)
    requires Consistent(h, kids, live) && p in kids
    ensures p in h && h[p].child == Next(kids[p], 0) && Listed(h, kids, live, p)
    ensures forall k <- kids[p] :: k in kids
  {
    assert Chain(h, p, kids[p]);
  }
}

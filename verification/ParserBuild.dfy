/**
 * How the parser builds trees: each rule keeps its tree and a pointer to the last
 * child, so that it need not walk the list to append. Rules combine nodes by appending,
 * by appending the children of a flatten node, by putting a new node on top, and by
 * reordering the children.
 */
module ParserBuild {
  import opened AstLinks
  import opened AstForest
  import opened FlatTrees

  ghost predicate KidsLive(kids: Kids, live: set<Node>) {
    forall m <- kids :: forall k <- kids[m] :: k in live
  }

  /** A tree that is not part of another. */
  ghost predicate IsRoot(h: Heap, live: set<Node>, n: Node) {
    n in h && n in live && !HasParent(h[n])
  }

  class RuleState {
    var ast: Node?
    var lastChild: Node?

    constructor ()
      ensures ast == null && lastChild == null
    {
      ast, lastChild := null, null;
    }

    /** The cached pointer is null or the true last child. */
    ghost predicate Sound(f: Forest)
      reads this, f, f.kids.Keys
    {
      f.Valid() && KidsLive(f.kids, f.live) &&
      if ast == null then lastChild == null
      else
        IsRoot(f.Snap(), f.live, ast) && ast in f.kids && ast !in f.kids[ast] &&
        (lastChild == null || (f.kids[ast] != [] && lastChild == f.kids[ast][|f.kids[ast]| - 1]))
    }

    /** Appends one node. */
    method AppendOne(f: Forest, n: Node)
      requires Sound(f) && ast != null && IsRoot(f.Snap(), f.live, n) && n in f.kids && n != ast
      modifies this`lastChild, f`kids, f.kids.Keys
      ensures Sound(f) && ast != null && lastChild == n
      ensures f.kids == old(f.kids)[ast := old(f.kids[ast]) + [n]]
      ensures forall m :: OtherRoot(old(f.Snap()), old(f.live), null, n, m) ==> IsRoot(f.Snap(), f.live, m)
    {
      hide f.Snap, Inserted, Consistent, KidsLive, With;
      ghost var h, kids, s := f.Snap(), f.kids, f.kids[ast];
      if lastChild == null {
        f.Append(ast, n);
      } else {
        SiblingIs(h, kids, f.live, ast, |s| - 1);
        f.Fields(lastChild);
        WithLast(s, n);
        f.AddSibling(lastChild, n, |s| - 1);
      }
      lastChild := n;
      RootsStay(h, kids, f.live, ast, |s|, n);
      LiveAppend(kids, f.live, ast, n);
    }

    /** Appends a node, or what a flatten node stands for. */
    method DefaultBuilder(f: Forest, n: Node, ghost t: Flat)
      requires Sound(f) && ast != null && IsRoot(f.Snap(), f.live, n) && n in f.kids && n != ast
      requires IsFlat(f.kids, t) && t.n == n
      modifies this`lastChild, f`kids, f`live, f.kids.Keys
      ensures Sound(f) && ast != null
      ensures f.kids == Spread(old(f.kids), ast, t)
      ensures if Leaves(t) != [] then lastChild != null else lastChild == old(lastChild)
      ensures f.live == old(f.live) - Nests(t)
      ensures forall m :: OtherRoot(old(f.Snap()), old(f.live), null, n, m) ==> IsRoot(f.Snap(), f.live, m)
      decreases t, 1
    {
      if n.id == FlattenId {
        Splice(f, n, t);
      } else {
        SpreadLeaf(f.kids, ast, t);
        AppendOne(f, n);
      }
    }

    /** Adds the children of a flatten node, which is then freed. */
    method Splice(f: Forest, n: Node, ghost t: Flat)
      requires Sound(f) && ast != null && IsRoot(f.Snap(), f.live, n) && n in f.kids && n != ast
      requires IsFlat(f.kids, t) && t.Nest? && t.n == n
      modifies this`lastChild, f`kids, f`live, f.kids.Keys
      ensures Sound(f) && ast != null
      ensures f.kids == Spread(old(f.kids), ast, t)
      ensures if Leaves(t) != [] then lastChild != null else lastChild == old(lastChild)
      ensures f.live == old(f.live) - Nests(t)
      ensures forall m :: OtherRoot(old(f.Snap()), old(f.live), null, n, m) ==> IsRoot(f.Snap(), f.live, m)
      decreases t, 0
    {
      hide f.Snap, Consistent, KidsLive, Spreading, Spread, IsFlat, Leaves, Nests;
      SpreadEnd(f.kids, ast, t);
      NestsAre(t);
      SpliceAll(f, n, t);
      Freed(f.Snap(), f.kids, f.live, n);
      f.live := f.live - {n};
    }

    /** Adds the children of a flatten node one after the other. */
    method SpliceAll(f: Forest, n: Node, ghost t: Flat)
      requires Sound(f) && ast != null && IsRoot(f.Snap(), f.live, n) && n in f.kids && n != ast
      requires IsFlat(f.kids, t) && t.Nest? && t.n == n
      modifies this`lastChild, f`kids, f`live, f.kids.Keys
      ensures Sound(f) && ast != null && IsRoot(f.Snap(), f.live, n)
      ensures |t.ts| == |old(f.kids[n])| && f.kids == Spreading(old(f.kids), ast, t, |t.ts|)
      ensures if LeavesAll(t.ts) != [] then lastChild != null else lastChild == old(lastChild)
      ensures f.live == old(f.live) - NestsAll(t.ts)
      ensures forall m :: OtherRoot(old(f.Snap()), old(f.live), null, n, m) ==> IsRoot(f.Snap(), f.live, m)
      decreases t, 0, 1
    {
      hide f.Snap, Consistent, KidsLive, Spreading, IsFlat, Loose, Leaves, Nests;
      ghost var h0, kids0, live0, last0 := f.Snap(), f.kids, f.live, lastChild;
      ghost var i := 0;
      NoParentLoose(h0, kids0, live0, ast);
      NestIs(kids0, t);
      SpreadStart(kids0, ast, t);
      assert t.ts[..0] == [] && live0 - {} == live0;
      var more := true;
      while more
        invariant Sound(f) && ast != null && IsRoot(f.Snap(), f.live, n) && n in f.kids && i <= |t.ts|
        invariant f.live == live0 - NestsAll(t.ts[..i]) && f.kids == Spreading(kids0, ast, t, i)
        invariant if LeavesAll(t.ts[..i]) != [] then lastChild != null else lastChild == last0
        invariant !more ==> i == |t.ts|
        invariant forall m :: OtherRoot(h0, live0, null, n, m) ==> IsRoot(f.Snap(), f.live, m)
        decreases |t.ts| - i, more
      {
        more := SpliceOne(f, n, h0, kids0, live0, t, i);
        if more {
          PartsMore(t.ts, i);
          i := i + 1;
        }
      }
      assert t.ts[..|t.ts|] == t.ts;
    }

    /** Takes the next child off a flatten node, if there is one, and adds it. */
    method SpliceOne(f: Forest, n: Node, ghost h0: Heap, ghost kids0: Kids, ghost live0: set<Node>, ghost t: Flat, ghost i: nat)
        returns (more: bool)
      requires Sound(f) && ast != null && IsRoot(f.Snap(), f.live, n) && n in f.kids && n != ast
      requires Consistent(h0, kids0, live0) && IsFlat(kids0, t) && t.Nest? && t.n == n && ast in kids0 && i <= |t.ts|
      requires |kids0[n]| == |t.ts| && f.kids == Spreading(kids0, ast, t, i) && Loose(h0, kids0, ast)
      modifies this`lastChild, f`kids, f`live, f.kids.Keys
      ensures Sound(f) && ast != null && IsRoot(f.Snap(), f.live, n) && n in f.kids
      ensures more <==> i < |t.ts|
      ensures if more then f.kids == Spreading(kids0, ast, t, i + 1) && f.live == old(f.live) - Nests(t.ts[i]) &&
                (if Leaves(t.ts[i]) != [] then lastChild != null else lastChild == old(lastChild))
              else f.kids == old(f.kids) && lastChild == old(lastChild) && f.live == old(f.live)
      ensures forall m :: OtherRoot(old(f.Snap()), old(f.live), null, n, m) ==> IsRoot(f.Snap(), f.live, m)
      decreases t, 0, 0
    {
      hide f.Snap, Consistent, KidsLive, Spreading, Spread, IsFlat, Loose, Lifted, Nests, Leaves;
      PopRoots(f.Snap(), f.kids, f.live, n);
      SpreadTop(kids0, ast, t, i);
      if i < |t.ts| {
        LiftedIs(kids0, ast, t, i);
        LiftedFlat(h0, kids0, live0, ast, t, i);
        SpreadStep(kids0, ast, t, i);
      }
      var c := TakeFirst(f, n);
      more := c != null;
      if more {
        DefaultBuilder(f, c, t.ts[i]);
      }
    }

    /** Takes the first child off a node that is not the tree of the rule. */
    method TakeFirst(f: Forest, n: Node) returns (c: Node?)
      requires Sound(f) && ast != null && IsRoot(f.Snap(), f.live, n) && n in f.kids && n != ast
      modifies f`kids, f.kids.Keys
      ensures Sound(f) && ast != null
      ensures old(f.kids[n]) == [] ==> c == null && f.kids == old(f.kids)
      ensures old(f.kids[n]) != [] ==>
                c != null && c == old(f.kids[n])[0] && c in f.kids && IsRoot(f.Snap(), f.live, c) &&
                c != ast && c != n && f.kids == old(f.kids)[n := old(f.kids[n])[1..]]
      ensures forall m :: IsRoot(old(f.Snap()), old(f.live), m) ==> IsRoot(f.Snap(), f.live, m)
    {
      hide f.Snap, Consistent, Removed;
      ghost var h, kids := f.Snap(), f.kids;
      PopRoots(h, kids, f.live, n);
      LivePop(kids, f.live, n);
      hide KidsLive;
      c := f.Pop(n);
    }

    /** Puts a node on top: the tree so far becomes its first child. */
    method InfixBuilder(f: Forest, n: Node)
      requires Sound(f) && ast != null && IsRoot(f.Snap(), f.live, n) && n in f.kids && n != ast
      modifies this, f`kids, f.kids.Keys
      ensures Sound(f) && ast == n && lastChild == null
      ensures f.kids == old(f.kids)[n := [old(ast)] + old(f.kids[n])]
      ensures forall m :: OtherRoot(old(f.Snap()), old(f.live), old(ast), n, m) ==> IsRoot(f.Snap(), f.live, m)
    {
      hide f.Snap, Inserted, Consistent, KidsLive;
      ghost var h, kids, top := f.Snap(), f.kids, ast;
      NoParentLoose(h, kids, f.live, n);
      LivePrepend(kids, f.live, n, top);
      f.Add(n, ast);
      ast := n;
      lastChild := null;
      RootsStay(h, kids, f.live, n, 0, top);
    }

    /** The first node of a rule is its tree; later ones are added to it. */
    method AddAst(f: Forest, n: Node, ghost t: Flat)
      requires Sound(f) && IsRoot(f.Snap(), f.live, n) && n in f.kids && n != ast
      requires IsFlat(f.kids, t) && t.n == n
      modifies this, f`kids, f`live, f.kids.Keys
      ensures Sound(f) && ast == if old(ast) == null then n else old(ast)
      ensures old(ast) == null ==> f.kids == old(f.kids) && f.live == old(f.live)
      ensures old(ast) != null ==>
                f.kids == Spread(old(f.kids), ast, t) && f.live == old(f.live) - Nests(t) &&
                (if Leaves(t) != [] then lastChild != null else lastChild == old(lastChild))
      ensures forall m :: OtherRoot(old(f.Snap()), old(f.live), null, n, m) ==> IsRoot(f.Snap(), f.live, m)
    {
      if ast == null {
        NoParentLoose(f.Snap(), f.kids, f.live, n);
        ast := n;
        lastChild := null;
      } else {
        DefaultBuilder(f, n, t);
      }
    }

    /** Gives the children another order; the last child has to be found again. */
    method ReorderChildren(f: Forest, order: seq<nat>)
      requires Sound(f) && ast != null && IsOrder(order, |f.kids[ast]|)
      modifies this`lastChild, f`kids, f.kids.Keys
      ensures Sound(f) && ast != null && lastChild == null
      ensures f.kids == old(f.kids)[ast := Ordered(old(f.kids[ast]), order)]
      ensures forall m :: IsRoot(old(f.Snap()), old(f.live), m) ==> IsRoot(f.Snap(), f.live, m)
    {
      hide f.Snap, Consistent;
      ghost var h, kids := f.Snap(), f.kids;
      NoParentLoose(h, kids, f.live, ast);
      lastChild := null;
      ListsNoRoots(h, kids, f.live, ast);
      f.Reorder(ast, order);
      LiveReorder(kids, f.live, ast, order);
    }
  }

  /** A root that is neither the tree of the rule nor the node being added. */
  ghost predicate OtherRoot(h: Heap, live: set<Node>, a: Node?, n: Node, m: Node) {
    IsRoot(h, live, m) && m != a && m != n
  }

  lemma PopRoots(h: Heap, kids: Kids, live: set<Node>, n: Node)
    requires Consistent(h, kids, live) && n in kids
    ensures n in h && forall k <- kids[n] :: k in h && HasParent(h[k])
    ensures kids[n] != [] ==>
              var h1 := Removed(h, n, kids[n], 0);
              h1.Keys == h.Keys && !HasParent(h1[kids[n][0]]) &&
              forall m :: IsRoot(h, live, m) ==> IsRoot(h1, live, m)
  {
    FirstIs(h, kids, live, n);
    ListedChain(h, kids, live, n);
    if kids[n] != [] {
      RemovedFrame(h, n, kids[n], 0);
      RemovedLinks(h, n, kids[n], 0);
      hide Removed;
      forall m | IsRoot(h, live, m)
        ensures IsRoot(Removed(h, n, kids[n], 0), live, m)
      {
        assert m !in kids[n];
      }
    }
  }

  lemma LivePop(kids: Kids, live: set<Node>, n: Node)
    requires KidsLive(kids, live) && n in kids
    ensures kids[n] != [] ==> KidsLive(kids[n := kids[n][1..]], live) && kids[n][0] in live
  {
  }

  /** A root can be given up. */
  lemma Freed(h: Heap, kids: Kids, live: set<Node>, n: Node)
    requires Consistent(h, kids, live) && KidsLive(kids, live) && n in h && !HasParent(h[n])
    ensures Consistent(h, kids, live - {n}) && KidsLive(kids, live - {n})
  {
    NoParentLoose(h, kids, live, n);
  }

  lemma ListsNoRoots(h: Heap, kids: Kids, live: set<Node>, p: Node)
    requires Consistent(h, kids, live) && p in kids
    ensures forall m :: IsRoot(h, live, m) ==> m !in kids[p]
  {
    FirstIs(h, kids, live, p);
    ListedChain(h, kids, live, p);
  }

  lemma LiveReorder(kids: Kids, live: set<Node>, p: Node, order: seq<nat>)
    requires KidsLive(kids, live) && p in kids && IsOrder(order, |kids[p]|)
    ensures KidsLive(kids[p := Ordered(kids[p], order)], live)
    ensures p !in kids[p] ==> p !in Ordered(kids[p], order)
  {
  }

  lemma LivePrepend(kids: Kids, live: set<Node>, p: Node, n: Node)
    requires KidsLive(kids, live) && p in kids && n in live
    ensures KidsLive(kids[p := [n] + kids[p]], live)
  {
  }

  lemma RootsStay(h: Heap, kids: Kids, live: set<Node>, p: Node, i: nat, c: Node)
    requires Consistent(h, kids, live) && p in kids && c in h && i <= |kids[p]|
    ensures (forall k <- kids[p] :: k in h) && p in h
    ensures forall m :: IsRoot(h, live, m) && m != c ==> IsRoot(Inserted(h, p, kids[p], i, c), live, m)
  {
    FirstIs(h, kids, live, p);
    InsertedFrame(h, p, kids[p], i, c);
    forall m | IsRoot(h, live, m) && m != c
      ensures IsRoot(Inserted(h, p, kids[p], i, c), live, m)
    {
      NoParentLoose(h, kids, live, m);
    }
  }

  lemma WithLast(s: seq<Node>, n: Node)
    ensures With(s, |s|, n) == s + [n]
  {
  }

  lemma LiveAppend(kids: Kids, live: set<Node>, p: Node, n: Node)
    requires KidsLive(kids, live) && p in kids && n in live
    ensures KidsLive(kids[p := kids[p] + [n]], live)
  {
  }

  // ----- Any mix of building

  /** A node and what it stands for is added, a node is put on top, or the children are reordered. */
  datatype Build = Add(t: Flat) | Infix(top: Node) | Shuffle(order: seq<nat>)

  /** The tree of a rule, without the cached pointer. */
  datatype Shape = Shape(kids: Kids, ast: Node?)

  ghost predicate Legal(s: Shape, b: Build) {
    (s.ast != null ==> s.ast in s.kids) &&
    match b
    case Add(t) => IsFlat(s.kids, t)
    case Infix(n) => s.ast != null && n in s.kids
    case Shuffle(order) => s.ast != null && IsOrder(order, |s.kids[s.ast]|)
  }

  /** What one building step does, as a function. */
  ghost function Built(s: Shape, b: Build): Shape
    requires Legal(s, b)
  {
    match b
    case Add(t) => if s.ast == null then Shape(s.kids, t.n) else Shape(Spread(s.kids, s.ast, t), s.ast)
    case Infix(n) => Shape(s.kids[n := [s.ast] + s.kids[n]], n)
    case Shuffle(order) => Shape(s.kids[s.ast := Ordered(s.kids[s.ast], order)], s.ast)
  }

  ghost predicate AllLegal(s: Shape, bs: seq<Build>)
    decreases |bs|
  {
    bs == [] || (Legal(s, bs[0]) && AllLegal(Built(s, bs[0]), bs[1..]))
  }

  ghost function BuiltAll(s: Shape, bs: seq<Build>): Shape
    requires AllLegal(s, bs)
    decreases |bs|
  {
    if bs == [] then s else BuiltAll(Built(s, bs[0]), bs[1..])
  }

  /** The node that a step brings, if any. */
  function Brought(b: Build): Node? {
    match b
    case Add(t) => t.n
    case Infix(n) => n
    case Shuffle(_) => null
  }

  /** The nodes that are still to be added are roots, and each is added once. */
  ghost predicate Pending(h: Heap, live: set<Node>, ast: Node?, bs: seq<Build>) {
    (forall i :: 0 <= i < |bs| && Brought(bs[i]) != null ==> IsRoot(h, live, Brought(bs[i])) && Brought(bs[i]) != ast) &&
    (forall i, j :: 0 <= i < j < |bs| && Brought(bs[i]) != null ==> Brought(bs[i]) != Brought(bs[j]))
  }

  /** Under any mix of building steps, the cached pointer stays true and the result is the pure fold. */
  method BuildAll(f: Forest, state: RuleState, bs: seq<Build>)
    requires state.Sound(f) && AllLegal(Shape(f.kids, state.ast), bs)
    requires Pending(f.Snap(), f.live, state.ast, bs)
    modifies state, f`kids, f`live, f.kids.Keys
    ensures state.Sound(f)
    ensures Shape(f.kids, state.ast) == BuiltAll(Shape(old(f.kids), old(state.ast)), bs)
    decreases |bs|
  {
    if bs == [] {
      return;
    }
    BuildOne(f, state, bs[0], bs[1..]);
    BuildAll(f, state, bs[1..]);
  }

  method BuildOne(f: Forest, state: RuleState, b: Build, ghost rest: seq<Build>)
    requires state.Sound(f) && Legal(Shape(f.kids, state.ast), b)
    requires Pending(f.Snap(), f.live, state.ast, [b] + rest)
    modifies state, f`kids, f`live, f.kids.Keys
    ensures state.Sound(f) && f.kids.Keys == old(f.kids.Keys)
    ensures Shape(f.kids, state.ast) == Built(Shape(old(f.kids), old(state.ast)), b)
    ensures Pending(f.Snap(), f.live, state.ast, rest)
  {
    hide f.Snap, Consistent, KidsLive, Spread, IsFlat, Nests, Leaves;
    ghost var h, live, a := f.Snap(), f.live, state.ast;
    assert ([b] + rest)[0] == b;
    assert forall i :: 0 <= i < |rest| ==> ([b] + rest)[i + 1] == rest[i];
    match b {
      case Add(t) => state.AddAst(f, t.n, t);
      case Infix(n) => state.InfixBuilder(f, n);
      case Shuffle(order) => state.ReorderChildren(f, order);
    }
  }

  // ----- Sequences of statements

  /** A jump can only be the last. */
  ghost predicate JumpLast(s: seq<Node>, jumps: set<nat>) {
    forall k :: 0 <= k < |s| - 1 ==> s[k].id !in jumps
  }

  /** Statements, perhaps with a semicolon before them: a jump can only be the last node. */
  ghost predicate IsItem(t: Flat, jumps: set<nat>) {
    Leaves(t) != [] && JumpLast(Leaves(t), jumps)
  }

  /** The parsed items from the i-th on are still to come. */
  ghost predicate Items(h: Heap, kids: Kids, live: set<Node>, top: Node, items: seq<Flat>, i: nat, jumps: set<nat>) {
    (forall j :: 0 <= i <= j < |items| ==>
      IsRoot(h, live, items[j].n) && items[j].n != top && IsFlat(kids, items[j]) && IsItem(items[j], jumps)) &&
    (forall j, k :: 0 <= j < k < |items| ==> items[j].n != items[k].n)
  }

  /**
   * A sequence of statements: a first one, and then more until none is found or the last
   * one is a jump. The test looks at the cached last child.
   */
  method RawSeq(f: Forest, top: Node, first: Flat, items: seq<Flat>, jumps: set<nat>) returns (used: nat)
    requires f.Valid() && KidsLive(f.kids, f.live) && IsRoot(f.Snap(), f.live, top) && top in f.kids && f.kids[top] == []
    requires Items(f.Snap(), f.kids, f.live, top, [first] + items, 0, jumps)
    modifies f`kids, f`live, f.kids.Keys
    ensures f.Valid() && top in f.kids && used <= |items|
    ensures f.kids[top] == LeavesAll([first] + items[..used])
    ensures f.kids[top] != [] && JumpLast(f.kids[top], jumps)
    ensures used == |items| || f.kids[top][|f.kids[top]| - 1].id in jumps
  {
    hide f.Snap, Consistent, KidsLive, IsFlat, Leaves;
    var state := new RuleState();
    ghost var all := [first] + items;
    state.ast := top; // the deferred node
    NoParentLoose(f.Snap(), f.kids, f.live, top);
    AddItem(f, state, top, first, all, 0, jumps);
    used := MoreItems(f, state, top, items, all, jumps);
    assert all[..used + 1] == [first] + items[..used];
  }

  /** The loop that stops after a jump. */
  method MoreItems(f: Forest, state: RuleState, top: Node, items: seq<Flat>, ghost all: seq<Flat>, jumps: set<nat>)
      returns (used: nat)
    requires state.Sound(f) && state.ast == top && state.lastChild != null && top in f.kids
    requires |all| == |items| + 1 && all[1..] == items && f.kids[top] == LeavesAll(all[..1])
    requires JumpLast(f.kids[top], jumps) && Items(f.Snap(), f.kids, f.live, top, all, 1, jumps)
    modifies state, f`kids, f`live, f.kids.Keys
    ensures state.Sound(f) && top in f.kids && used <= |items| && f.kids[top] == LeavesAll(all[..used + 1])
    ensures f.kids[top] != [] && JumpLast(f.kids[top], jumps)
    ensures used == |items| || f.kids[top][|f.kids[top]| - 1].id in jumps
  {
    hide f.Snap, Consistent, KidsLive, Items, JumpLast, LeavesAll;
    used := 0;
    var found := true;
    while found
      invariant state.Sound(f) && state.ast == top && state.lastChild != null && used <= |items| && top in f.kids
      invariant f.kids.Keys == old(f.kids.Keys) && f.kids[top] == LeavesAll(all[..used + 1])
      invariant JumpLast(f.kids[top], jumps) && Items(f.Snap(), f.kids, f.live, top, all, used + 1, jumps)
      invariant !found ==> used == |items|
      decreases |items| - used, found
    {
      if state.lastChild != null && state.lastChild.id in jumps {
        break;
      }
      if used == |items| {
        found := false;
      } else {
        AddItem(f, state, top, items[used], all, used + 1, jumps);
        used := used + 1;
      }
    }
  }

  method AddItem(f: Forest, state: RuleState, top: Node, t: Flat, ghost all: seq<Flat>, ghost i: nat, ghost jumps: set<nat>)
    requires state.Sound(f) && state.ast == top && i < |all| && all[i] == t && top in f.kids
    requires f.kids[top] == LeavesAll(all[..i]) && JumpLast(f.kids[top], jumps)
    requires f.kids[top] != [] ==> f.kids[top][|f.kids[top]| - 1].id !in jumps
    requires Items(f.Snap(), f.kids, f.live, top, all, i, jumps)
    modifies state, f`kids, f`live, f.kids.Keys
    ensures state.Sound(f) && state.ast == top && state.lastChild != null && f.kids.Keys == old(f.kids.Keys)
    ensures f.kids[top] == LeavesAll(all[..i + 1]) && JumpLast(f.kids[top], jumps)
    ensures Items(f.Snap(), f.kids, f.live, top, all, i + 1, jumps)
  {
    hide f.Snap, Consistent, KidsLive, IsFlat, Leaves, Nests, Spread;
    ghost var h, kids, live := f.Snap(), f.kids, f.live;
    PartsMore(all, i);
    SpreadAt(kids, top, t);
    forall j | i < j < |all|
      ensures IsFlat(Spread(kids, top, t), all[j])
    {
      ItemKept(h, kids, live, top, t, all[j]);
    }
    JumpAppend(kids[top], Leaves(t), jumps);
    state.AddAst(f, t.n, t);
  }

  lemma SpreadAt(kids: Kids, a: Node, t: Flat)
    requires a in kids
    ensures Spread(kids, a, t)[a] == kids[a] + Leaves(t)
  {
  }

  lemma JumpAppend(s: seq<Node>, r: seq<Node>, jumps: set<nat>)
    requires JumpLast(s, jumps) && JumpLast(r, jumps) && (s != [] ==> s[|s| - 1].id !in jumps)
    ensures JumpLast(s + r, jumps)
  {
  }

  /** Adding one tree leaves the others that are still to come as they are. */
  lemma ItemKept(h: Heap, kids: Kids, live: set<Node>, top: Node, t: Flat, u: Flat)
    requires Consistent(h, kids, live) && IsFlat(kids, t) && IsFlat(kids, u) && t.n != u.n && top != u.n && top in kids
    requires t.n in h && u.n in h && top in h && !HasParent(h[t.n]) && !HasParent(h[u.n]) && !HasParent(h[top])
    ensures IsFlat(Spread(kids, top, t), u)
  {
    NoParentLoose(h, kids, live, t.n);
    NoParentLoose(h, kids, live, u.n);
    NoParentLoose(h, kids, live, top);
    hide Consistent, IsFlat, Nests, Loose;
    LooseApart(h, kids, live, u, t.n);
    LooseApart(h, kids, live, t, u.n);
    LooseApart(h, kids, live, u, top);
    forall m <- Nests(u)
      ensures m in kids && Spread(kids, top, t)[m] == kids[m]
    {
      PartIn(kids, u, m);
      Disjoint(h, kids, live, u, t, m);
    }
    FlatSame(kids, Spread(kids, top, t), u);
  }
}

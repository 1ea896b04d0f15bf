/** The check as it is made without deep recursion: children are only matched by id, and
    checking them is put off on a worklist.  It finds an error exactly when the direct check
    does. */
module TreeWorklist {
  import opened TreeRules

  /** A node still to be checked, and the function to check it with. */
  datatype Work = Work(fn: nat, node: Ast)

  // ----- matching by id -----

  ghost predicate Matches(table: seq<Fn>, rank: seq<nat>, f: nat, a: Ast)
    requires WellFormed(table, rank) && f < |table|
    decreases rank[f], 1
  {
    assert WellFormedFn(table, rank, f);
    match table[f]
    case Rule(ids, _) => a.id in ids
    case Group(members) => FirstMatch(table, rank, members, rank[f], a).Some?
  }

  /** The first function in a list that matches the node. */
  ghost function FirstMatch(table: seq<Fn>, rank: seq<nat>, fs: seq<nat>, bound: nat, a: Ast): (r: Option<nat>)
    requires WellFormed(table, rank) && Below(table, rank, fs, bound)
    ensures r.Some? ==> r.value < |table|
    decreases bound, 0, |fs|
  {
    if fs == [] then None
    else if Matches(table, rank, fs[0], a) then Some(fs[0])
    else FirstMatch(table, rank, fs[1..], bound, a)
  }

  lemma {:induction false} MatchIsFound(table: seq<Fn>, rank: seq<nat>, f: nat, a: Ast)
    requires WellFormed(table, rank) && f < |table|
    ensures Matches(table, rank, f, a) <==> Check(table, rank, f, a) != NotFound
    decreases rank[f], 1
  {
    assert WellFormedFn(table, rank, f);
    if table[f].Group? {
      FirstMatchDecides(table, rank, table[f].members, rank[f], a);
    }
  }

  /** The first match decides what a list says about a node. */
  lemma {:induction false} FirstMatchDecides(table: seq<Fn>, rank: seq<nat>, fs: seq<nat>, bound: nat, a: Ast)
    requires WellFormed(table, rank) && Below(table, rank, fs, bound)
    ensures var m := FirstMatch(table, rank, fs, bound, a);
            && (m.None? ==> CheckList(table, rank, fs, bound, a) == NotFound)
            && (m.Some? ==> CheckList(table, rank, fs, bound, a) == Check(table, rank, m.value, a) != NotFound)
    decreases bound, 0, |fs|
  {
    if fs != [] {
      MatchIsFound(table, rank, fs[0], a);
      if !Matches(table, rank, fs[0], a) {
        FirstMatchDecides(table, rank, fs[1..], bound, a);
      }
    }
  }

  // ----- checking a node without looking into its children -----

  /** What checking a node says, and the work it leaves. */
  ghost function Local(table: seq<Fn>, rank: seq<nat>, f: nat, a: Ast): (Res, seq<Work>)
    requires WellFormed(table, rank) && f < |table|
    decreases a, rank[f] + 2, 1
  {
    assert WellFormedFn(table, rank, f);
    match table[f]
    case Group(members) => LocalList(table, rank, members, rank[f], a)
    case Rule(ids, items) =>
      if a.id !in ids then (NotFound, [])
      else
        var (p, ws) := LocalItems(table, rank, items, START, a);
        if p.Failed? then (Error, ws)
        else
          var (r, vs) := LocalExtras(table, rank, p.s, a);
          (r, ws + vs)
  }

  ghost function LocalList(table: seq<Fn>, rank: seq<nat>, fs: seq<nat>, bound: nat, a: Ast): (Res, seq<Work>)
    requires WellFormed(table, rank) && Below(table, rank, fs, bound)
    decreases a, bound + 2, 0, |fs|
  {
    if fs == [] then (NotFound, [])
    else
      var r := Local(table, rank, fs[0], a);
      if r.0 != NotFound then r else
        var q := LocalList(table, rank, fs[1..], bound, a);
        (q.0, r.1 + q.1)
  }

  ghost function LocalItems(table: seq<Fn>, rank: seq<nat>, items: seq<Item>, s: CheckState, a: Ast): (Progress, seq<Work>)
    requires WellFormed(table, rank) && ItemsKnown(table, items)
    decreases items
  {
    if items == [] then (Going(s), [])
    else
      var (p, ws) := LocalItem(table, rank, items[0], s, a);
      if p.Failed? then (Failed, ws)
      else
        var (q, vs) := LocalItems(table, rank, items[1..], p.s, a);
        (q, ws + vs)
  }

  ghost function LocalItem(table: seq<Fn>, rank: seq<nat>, item: Item, s: CheckState, a: Ast): (Progress, seq<Work>)
    requires WellFormed(table, rank) && ItemKnown(table, item)
    decreases item
  {
    match item
    case IsScope => (Going(s.(scope := ScopeYes)), [])
    case MaybeScope => (Going(s.(scope := ScopeMaybe)), [])
    case HasData => (Going(s.(hasData := true)), [])
    case HasType(fn) => (Going(s.(ty := Some(fn))), [])
    case When(index, id, body) => if ChildIs(a, index, id) then LocalItems(table, rank, body, s, a) else (Going(s), [])
    case Children(min, max, rules) => LocalChildren(table, rank, min, max, rules, 0, s, a)
  }

  ghost function LocalChildren(table: seq<Fn>, rank: seq<nat>, min: nat, max: Option<nat>, rules: seq<nat>, found: nat, s: CheckState, a: Ast)
    : (Progress, seq<Work>)
    requires WellFormed(table, rank) && AllKnown(table, rules)
    decreases |a.kids| - s.child
  {
    if (max.None? || found < max.value) && s.child < |a.kids| && FirstMatch(table, rank, rules, Top(rank), a.kids[s.child]).Some? then
      var g := FirstMatch(table, rank, rules, Top(rank), a.kids[s.child]).value;
      var (p, ws) := LocalChildren(table, rank, min, max, rules, found + 1, s.(child := s.child + 1), a);
      (p, [Work(g, a.kids[s.child])] + ws)
    else (if found >= min then Going(s) else Failed, [])
  }

  lemma ItemsStep(table: seq<Fn>, rank: seq<nat>, items: seq<Item>, s: CheckState, a: Ast)
    requires WellFormed(table, rank) && ItemsKnown(table, items)
    ensures items == [] ==> LocalItems(table, rank, items, s, a) == (Going(s), [])
    ensures items != [] ==>
              var (p, ws) := LocalItem(table, rank, items[0], s, a);
              if p.Failed? then LocalItems(table, rank, items, s, a) == (Failed, ws)
              else
                var (q, vs) := LocalItems(table, rank, items[1..], p.s, a);
                LocalItems(table, rank, items, s, a) == (q, ws + vs)
  {
    hide LocalItem, WellFormed;
  }

  lemma ChildrenStep(table: seq<Fn>, rank: seq<nat>, min: nat, max: Option<nat>, rules: seq<nat>, found: nat, s: CheckState, a: Ast)
    requires WellFormed(table, rank) && AllKnown(table, rules)
    ensures var here := LocalChildren(table, rank, min, max, rules, found, s, a);
            var next := LocalChildren(table, rank, min, max, rules, found + 1, s.(child := s.child + 1), a);
            if (max.None? || found < max.value) && s.child < |a.kids| && FirstMatch(table, rank, rules, Top(rank), a.kids[s.child]).Some?
            then here == (next.0, [Work(FirstMatch(table, rank, rules, Top(rank), a.kids[s.child]).value, a.kids[s.child])] + next.1)
            else here == (if found >= min then Going(s) else Failed, [])
  {
    hide FirstMatch;
  }

  ghost function LocalExtras(table: seq<Fn>, rank: seq<nat>, s: CheckState, a: Ast): (Res, seq<Work>)
    requires WellFormed(table, rank)
    decreases a, 0
  {
    var (r, ws) :=
      if a.ty.None? then (Ok, [])
      else if s.ty.None? || s.ty.value >= |table| then (Error, [])
      else Local(table, rank, s.ty.value, a.ty.value);
    (if r != Ok || s.child < |a.kids| || (a.hasData && !s.hasData) || (a.hasScope && s.scope == ScopeNo)
        || (!a.hasScope && s.scope == ScopeYes)
     then Error else Ok, ws)
  }

  // ----- putting children off changes nothing -----

  /** Some of the work leads to an error. */
  ghost predicate Bad(table: seq<Fn>, rank: seq<nat>, ws: seq<Work>)
    requires WellFormed(table, rank)
  {
    exists i :: 0 <= i < |ws| && ws[i].fn < |table| && Check(table, rank, ws[i].fn, ws[i].node) == Error
  }

  lemma BadSum(table: seq<Fn>, rank: seq<nat>, ws: seq<Work>, vs: seq<Work>)
    requires WellFormed(table, rank)
    ensures Bad(table, rank, ws + vs) <==> Bad(table, rank, ws) || Bad(table, rank, vs)
  {
    assert forall i :: 0 <= i < |ws| ==> (ws + vs)[i] == ws[i];
    assert forall i :: 0 <= i < |vs| ==> (ws + vs)[|ws| + i] == vs[i];
    if Bad(table, rank, ws + vs) {
      var i :| 0 <= i < |ws + vs| && (ws + vs)[i].fn < |table| && Check(table, rank, (ws + vs)[i].fn, (ws + vs)[i].node) == Error;
      assert i >= |ws| ==> vs[i - |ws|] == (ws + vs)[i];
    }
  }

  /** The direct check finds an error in a node exactly when the check of the node alone
      does or the work it leaves leads to one. */
  lemma {:induction false} LocalExact(table: seq<Fn>, rank: seq<nat>, f: nat, a: Ast)
    requires WellFormed(table, rank) && f < |table|
    ensures var (r, ws) := Local(table, rank, f, a);
            && (Check(table, rank, f, a) == NotFound <==> r == NotFound)
            && (Check(table, rank, f, a) == Error <==> r == Error || Bad(table, rank, ws))
            && (r == NotFound ==> ws == [])
    decreases a, rank[f] + 2, 1
  {
    assert WellFormedFn(table, rank, f);
    match table[f]
    case Group(members) => LocalListExact(table, rank, members, rank[f], a);
    case Rule(ids, items) =>
      if a.id in ids {
        var (p, ws) := LocalItems(table, rank, items, START, a);
        ItemsExact(table, rank, items, START, a);
        if p.Going? {
          ExtrasExact(table, rank, p.s, a);
          BadSum(table, rank, ws, LocalExtras(table, rank, p.s, a).1);
        }
      }
  }

  lemma {:induction false} LocalListExact(table: seq<Fn>, rank: seq<nat>, fs: seq<nat>, bound: nat, a: Ast)
    requires WellFormed(table, rank) && Below(table, rank, fs, bound)
    ensures var (r, ws) := LocalList(table, rank, fs, bound, a);
            && (CheckList(table, rank, fs, bound, a) == NotFound <==> r == NotFound)
            && (CheckList(table, rank, fs, bound, a) == Error <==> r == Error || Bad(table, rank, ws))
            && (r == NotFound ==> ws == [])
    decreases a, bound + 2, 0, |fs|
  {
    if fs != [] {
      LocalExact(table, rank, fs[0], a);
      LocalListExact(table, rank, fs[1..], bound, a);
      var q := LocalList(table, rank, fs[1..], bound, a);
      assert [] + q.1 == q.1;
    }
  }

  lemma {:induction false} ExtrasExact(table: seq<Fn>, rank: seq<nat>, s: CheckState, a: Ast)
    requires WellFormed(table, rank)
    ensures var (r, ws) := LocalExtras(table, rank, s, a);
            && r != NotFound && CheckExtras(table, rank, s, a) != NotFound
            && (CheckExtras(table, rank, s, a) == Error <==> r == Error || Bad(table, rank, ws))
    decreases a, 0
  {
    if a.ty.Some? && s.ty.Some? && s.ty.value < |table| {
      LocalExact(table, rank, s.ty.value, a.ty.value);
    }
  }

  /** The same for the parts of a rule: either the direct check fails, and so does the node
      alone or something put off, or both have come equally far. */
  ghost predicate SameProgress(table: seq<Fn>, rank: seq<nat>, direct: Progress, p: Progress, ws: seq<Work>)
    requires WellFormed(table, rank)
  {
    && (direct.Failed? <==> p.Failed? || Bad(table, rank, ws))
    && (direct.Going? ==> p == direct)
  }

  lemma {:induction false} ItemsExact(table: seq<Fn>, rank: seq<nat>, items: seq<Item>, s: CheckState, a: Ast)
    requires WellFormed(table, rank) && ItemsKnown(table, items)
    ensures var (p, ws) := LocalItems(table, rank, items, s, a);
            SameProgress(table, rank, CheckItems(table, rank, items, s, a), p, ws)
    decreases items
  {
    if items != [] {
      var (p, ws) := LocalItem(table, rank, items[0], s, a);
      ItemExact(table, rank, items[0], s, a);
      if p.Going? {
        ItemsExact(table, rank, items[1..], p.s, a);
        BadSum(table, rank, ws, LocalItems(table, rank, items[1..], p.s, a).1);
      }
    }
  }

  lemma {:induction false} ItemExact(table: seq<Fn>, rank: seq<nat>, item: Item, s: CheckState, a: Ast)
    requires WellFormed(table, rank) && ItemKnown(table, item)
    ensures var (p, ws) := LocalItem(table, rank, item, s, a);
            SameProgress(table, rank, CheckItem(table, rank, item, s, a), p, ws)
    decreases item
  {
    match item
    case When(index, id, body) => if ChildIs(a, index, id) { ItemsExact(table, rank, body, s, a); }
    case Children(min, max, rules) => ChildrenExact(table, rank, min, max, rules, 0, s, a);
    case _ =>
  }

  lemma {:induction false} ChildrenExact(table: seq<Fn>, rank: seq<nat>, min: nat, max: Option<nat>, rules: seq<nat>, found: nat, s: CheckState, a: Ast)
    requires WellFormed(table, rank) && AllKnown(table, rules)
    ensures var (p, ws) := LocalChildren(table, rank, min, max, rules, found, s, a);
            SameProgress(table, rank, CheckChildren(table, rank, min, max, rules, found, s, a), p, ws)
    decreases |a.kids| - s.child
  {
    if (max.None? || found < max.value) && s.child < |a.kids| {
      var c := a.kids[s.child];
      FirstMatchDecides(table, rank, rules, Top(rank), c);
      if FirstMatch(table, rank, rules, Top(rank), c).Some? {
        var g := FirstMatch(table, rank, rules, Top(rank), c).value;
        var (p, ws) := LocalChildren(table, rank, min, max, rules, found + 1, s.(child := s.child + 1), a);
        ChildrenExact(table, rank, min, max, rules, found + 1, s.(child := s.child + 1), a);
        BadSum(table, rank, [Work(g, c)], ws);
        assert Bad(table, rank, [Work(g, c)]) <==> Check(table, rank, g, c) == Error by {
          assert [Work(g, c)][0] == Work(g, c);
        }
      }
    }
  }

  // ----- the work gets less -----

  ghost function Size(a: Ast): nat
    decreases a, 0
  {
    1 + KidsSize(a.kids) + if a.ty.Some? then Size(a.ty.value) else 0
  }

  ghost function KidsSize(kids: seq<Ast>): nat
    decreases kids, 0
  {
    if kids == [] then 0 else Size(kids[0]) + KidsSize(kids[1..])
  }

  ghost function WorkSize(ws: seq<Work>): nat {
    if ws == [] then 0 else Size(ws[0].node) + WorkSize(ws[1..])
  }

  lemma {:induction false} WorkSizeSum(ws: seq<Work>, vs: seq<Work>)
    ensures WorkSize(ws + vs) == WorkSize(ws) + WorkSize(vs)
  {
    if ws == [] {
      assert ws + vs == vs;
    } else {
      assert (ws + vs)[1..] == ws[1..] + vs;
      WorkSizeSum(ws[1..], vs);
    }
  }

  /** The work a node leaves is less than the node, and names functions that exist. */
  ghost predicate Lighter(table: seq<Fn>, ws: seq<Work>, size: nat) {
    WorkSize(ws) <= size && forall i :: 0 <= i < |ws| ==> ws[i].fn < |table|
  }

  lemma {:induction false} LocalLighter(table: seq<Fn>, rank: seq<nat>, f: nat, a: Ast)
    requires WellFormed(table, rank) && f < |table|
    ensures Lighter(table, Local(table, rank, f, a).1, Size(a) - 1)
    decreases a, rank[f] + 2, 1
  {
    assert WellFormedFn(table, rank, f);
    match table[f]
    case Group(members) => LocalListLighter(table, rank, members, rank[f], a);
    case Rule(ids, items) =>
      if a.id in ids {
        var (p, ws) := LocalItems(table, rank, items, START, a);
        ItemsLighter(table, rank, items, START, a);
        if p.Going? {
          assert a.kids[0..] == a.kids;
          if a.ty.Some? && p.s.ty.Some? && p.s.ty.value < |table| {
            LocalLighter(table, rank, p.s.ty.value, a.ty.value);
          }
          WorkSizeSum(ws, LocalExtras(table, rank, p.s, a).1);
        }
      }
  }

  lemma {:induction false} LocalListLighter(table: seq<Fn>, rank: seq<nat>, fs: seq<nat>, bound: nat, a: Ast)
    requires WellFormed(table, rank) && Below(table, rank, fs, bound)
    ensures Lighter(table, LocalList(table, rank, fs, bound, a).1, Size(a) - 1)
    decreases a, bound + 2, 0, |fs|
  {
    if fs != [] {
      LocalLighter(table, rank, fs[0], a);
      LocalExact(table, rank, fs[0], a);
      LocalListLighter(table, rank, fs[1..], bound, a);
      var q := LocalList(table, rank, fs[1..], bound, a);
      assert [] + q.1 == q.1;
    }
  }

  /** The size of the children a state has not come to. */
  ghost function Rest(a: Ast, s: CheckState): nat {
    if s.child <= |a.kids| then KidsSize(a.kids[s.child..]) else 0
  }

  ghost function RestOf(a: Ast, p: Progress): nat {
    if p.Going? then Rest(a, p.s) else 0
  }

  lemma {:induction false} ItemsLighter(table: seq<Fn>, rank: seq<nat>, items: seq<Item>, s: CheckState, a: Ast)
    requires WellFormed(table, rank) && ItemsKnown(table, items)
    ensures var (p, ws) := LocalItems(table, rank, items, s, a);
            RestOf(a, p) <= Rest(a, s) && Lighter(table, ws, Rest(a, s) - RestOf(a, p))
    decreases items
  {
    if items != [] {
      var (p, ws) := LocalItem(table, rank, items[0], s, a);
      ItemLighter(table, rank, items[0], s, a);
      if p.Going? {
        ItemsLighter(table, rank, items[1..], p.s, a);
        WorkSizeSum(ws, LocalItems(table, rank, items[1..], p.s, a).1);
      }
    }
  }

  lemma {:induction false} ItemLighter(table: seq<Fn>, rank: seq<nat>, item: Item, s: CheckState, a: Ast)
    requires WellFormed(table, rank) && ItemKnown(table, item)
    ensures var (p, ws) := LocalItem(table, rank, item, s, a);
            RestOf(a, p) <= Rest(a, s) && Lighter(table, ws, Rest(a, s) - RestOf(a, p))
    decreases item
  {
    match item
    case When(index, id, body) => if ChildIs(a, index, id) { ItemsLighter(table, rank, body, s, a); }
    case Children(min, max, rules) => ChildrenLighter(table, rank, min, max, rules, 0, s, a);
    case _ =>
  }

  lemma {:induction false} ChildrenLighter(table: seq<Fn>, rank: seq<nat>, min: nat, max: Option<nat>, rules: seq<nat>, found: nat, s: CheckState, a: Ast)
    requires WellFormed(table, rank) && AllKnown(table, rules)
    ensures var (p, ws) := LocalChildren(table, rank, min, max, rules, found, s, a);
            RestOf(a, p) <= Rest(a, s) && Lighter(table, ws, Rest(a, s) - RestOf(a, p))
    decreases |a.kids| - s.child
  {
    if s.child < |a.kids| {
      assert a.kids[s.child..][1..] == a.kids[s.child + 1..];
      var s1 := s.(child := s.child + 1);
      ChildrenLighter(table, rank, min, max, rules, found + 1, s1, a);
      if FirstMatch(table, rank, rules, Top(rank), a.kids[s.child]).Some? {
        var g := FirstMatch(table, rank, rules, Top(rank), a.kids[s.child]).value;
        WorkSizeSum([Work(g, a.kids[s.child])], LocalChildren(table, rank, min, max, rules, found + 1, s1, a).1);
      }
    }
  }

  // ----- the worklist as a whole -----

  ghost predicate Known(table: seq<Fn>, ws: seq<Work>) {
    forall i :: 0 <= i < |ws| ==> ws[i].fn < |table|
  }

  lemma NoWork(table: seq<Fn>, rank: seq<nat>)
    requires WellFormed(table, rank)
    ensures !Bad(table, rank, [])
  {
  }

  /** The work a tree leaves stands for the rest of its check. */
  lemma RootWork(table: seq<Fn>, rank: seq<nat>, root: seq<nat>, tree: Ast)
    requires WellFormed(table, rank) && AllKnown(table, root)
    ensures var (r, ws) := LocalList(table, rank, root, Top(rank), tree);
            Known(table, ws) && (CheckList(table, rank, root, Top(rank), tree) == Error <==> r == Error || Bad(table, rank, ws))
  {
    hide LocalList, CheckList, Bad;
    LocalListExact(table, rank, root, Top(rank), tree);
    LocalListLighter(table, rank, root, Top(rank), tree);
  }

  lemma OneWork(table: seq<Fn>, rank: seq<nat>, w: Work)
    requires WellFormed(table, rank) && w.fn < |table|
    ensures Bad(table, rank, [w]) <==> Check(table, rank, w.fn, w.node) == Error
    ensures WorkSize([w]) == Size(w.node)
  {
    assert [w][0] == w && [w][1..] == [];
  }

  lemma KnownBelow(table: seq<Fn>, rank: seq<nat>, fs: seq<nat>)
    requires WellFormed(table, rank) && AllKnown(table, fs)
    ensures Below(table, rank, fs, Top(rank))
  {
  }

  lemma Regroup(x: seq<Work>, y: seq<Work>, z: seq<Work>)
    ensures x + (y + z) == x + y + z
  {
  }

  /** Replacing the last piece of work by what it leaves keeps the verdict and makes the
      worklist lighter. */
  lemma TakeWork(table: seq<Fn>, rank: seq<nat>, ws: seq<Work>)
    requires WellFormed(table, rank) && ws != [] && Known(table, ws)
    ensures ws[|ws| - 1].fn < |table|
    ensures var w, rest := ws[|ws| - 1], ws[..|ws| - 1];
            var (r, more) := Local(table, rank, w.fn, w.node);
            && Known(table, rest + more) && WorkSize(rest + more) < WorkSize(ws)
            && (Bad(table, rank, ws) <==> r == Error || Bad(table, rank, rest + more))
  {
    var w, rest := ws[|ws| - 1], ws[..|ws| - 1];
    var (r, more) := Local(table, rank, w.fn, w.node);
    hide WellFormed, Local, Check, Bad, WorkSize;
    LocalExact(table, rank, w.fn, w.node);
    LocalLighter(table, rank, w.fn, w.node);
    OneWork(table, rank, w);
    BadSum(table, rank, rest, [w]);
    BadSum(table, rank, rest, more);
    WorkSizeSum(rest, [w]);
    WorkSizeSum(rest, more);
    assert ws == rest + [w];
  }
}

/** The tree checker as it runs, with its worklist, its id-only flag and the function the last
    id-only match went to. */
module TreeChecker {
  import opened TreeRules
  import opened TreeWorklist

  class Checker {
    const table: seq<Fn>
    ghost const rank: seq<nat>

    /** A stack: pushed and popped at the end. */
    var worklist: seq<Work>
    var checkIdOnly: bool
    var matchedFn: nat
    var hasError: bool

    constructor (table: seq<Fn>, ghost rank: seq<nat>)
      requires WellFormed(table, rank)
      ensures this.table == table && this.rank == rank
      ensures worklist == [] && !checkIdOnly && !hasError
    {
      this.table, this.rank := table, rank;
      worklist, checkIdOnly, matchedFn, hasError := [], false, 0, false;
    }

    /** Calls a check function.  In id-only mode it only says whether the id matches; else it
        checks the node and puts its children on the worklist. */
    method Call(f: nat, a: Ast) returns (r: Res)
      requires WellFormed(table, rank) && f < |table|
      modifies this`worklist, this`checkIdOnly, this`matchedFn
      ensures checkIdOnly == old(checkIdOnly)
      ensures checkIdOnly ==> worklist == old(worklist) && r == if Matches(table, rank, f, a) then Ok else NotFound
      ensures !checkIdOnly ==> r == Local(table, rank, f, a).0 && worklist == old(worklist) + Local(table, rank, f, a).1
      decreases a, rank[f] + 2, 1
    {
      assert WellFormedFn(table, rank, f);
      match table[f] {
        case Group(members) =>
          r := CheckFromList(a, members, rank[f]);
        case Rule(ids, items) =>
          if a.id !in ids {
            r := NotFound;
          } else if checkIdOnly {
            r := Ok;
          } else {
            ghost var was := worklist;
            var p := RunItems(items, START, a);
            if p.Failed? {
              r := Error;
            } else {
              r := Extras(p.s, a);
              ghost var ws, vs := LocalItems(table, rank, items, START, a).1, LocalExtras(table, rank, p.s, a).1;
              assert was + ws + vs == was + (ws + vs);
            }
          }
      }
    }

    /** Tries functions in order until one does not pass the node on. */
    method CheckFromList(a: Ast, rules: seq<nat>, ghost bound: nat) returns (r: Res)
      requires WellFormed(table, rank) && Below(table, rank, rules, bound)
      modifies this`worklist, this`checkIdOnly, this`matchedFn
      ensures checkIdOnly == old(checkIdOnly)
      ensures checkIdOnly ==>
                && worklist == old(worklist)
                && r == (if FirstMatch(table, rank, rules, bound, a).Some? then Ok else NotFound)
                && (r == Ok ==> Some(matchedFn) == FirstMatch(table, rank, rules, bound, a))
      ensures !checkIdOnly ==>
                && r == LocalList(table, rank, rules, bound, a).0
                && worklist == old(worklist) + LocalList(table, rank, rules, bound, a).1
      decreases a, bound + 2, 0
    {
      var i := 0;
      assert rules[0..] == rules;
      while i < |rules|
        invariant 0 <= i <= |rules|
        invariant checkIdOnly == old(checkIdOnly) && worklist == old(worklist)
        invariant checkIdOnly ==> FirstMatch(table, rank, rules, bound, a) == FirstMatch(table, rank, rules[i..], bound, a)
        invariant !checkIdOnly ==> LocalList(table, rank, rules, bound, a) == LocalList(table, rank, rules[i..], bound, a)
      {
        assert rules[i..][0] == rules[i] && rules[i..][1..] == rules[i + 1..];
        LocalExact(table, rank, rules[i], a);
        r := Call(rules[i], a);
        if r != NotFound {
          if checkIdOnly {
            matchedFn := rules[i];
          }
          return;
        }
        ghost var q := LocalList(table, rank, rules[i + 1..], bound, a);
        assert [] + q.1 == q.1;
        i := i + 1;
      }
      r := NotFound;
    }

    /** Matches children by id and puts checking them off. */
    method TakeChildren(a: Ast, s0: CheckState, rules: seq<nat>, min: nat, max: Option<nat>) returns (p: Progress)
      requires WellFormed(table, rank) && AllKnown(table, rules) && !checkIdOnly
      modifies this`worklist, this`checkIdOnly, this`matchedFn
      ensures !checkIdOnly
      ensures p == LocalChildren(table, rank, min, max, rules, 0, s0, a).0
      ensures worklist == old(worklist) + LocalChildren(table, rank, min, max, rules, 0, s0, a).1
      decreases a, 0
    {
      hide FirstMatch, WellFormed, LocalChildren, Below;
      KnownBelow(table, rank, rules);
      var s, found := s0, 0;
      ghost var taken: seq<Work> := [];
      ghost var all := LocalChildren(table, rank, min, max, rules, 0, s0, a);
      assert all.1 == taken + all.1;
      while (max.None? || found < max.value) && s.child < |a.kids|
        invariant !checkIdOnly && worklist == old(worklist) + taken
        invariant all.0 == LocalChildren(table, rank, min, max, rules, found, s, a).0
        invariant all.1 == taken + LocalChildren(table, rank, min, max, rules, found, s, a).1
        decreases |a.kids| - s.child
      {
        var child := a.kids[s.child];
        ChildrenStep(table, rank, min, max, rules, found, s, a);
        checkIdOnly := true;
        var r := CheckFromList(child, rules, Top(rank));
        checkIdOnly := false;
        if r == NotFound {
          break;
        }
        ghost var rest := LocalChildren(table, rank, min, max, rules, found + 1, s.(child := s.child + 1), a).1;
        worklist := worklist + [Work(matchedFn, child)];
        assert taken + ([Work(matchedFn, child)] + rest) == taken + [Work(matchedFn, child)] + rest;
        taken := taken + [Work(matchedFn, child)];
        s := s.(child := s.child + 1);
        found := found + 1;
      }
      ChildrenStep(table, rank, min, max, rules, found, s, a);
      assert taken + [] == taken;
      p := if found >= min then Going(s) else Failed;
    }

    /** Runs the parts of a rule in order, until one fails. */
    method RunItems(items: seq<Item>, s0: CheckState, a: Ast) returns (p: Progress)
      requires WellFormed(table, rank) && ItemsKnown(table, items) && !checkIdOnly
      modifies this`worklist, this`checkIdOnly, this`matchedFn
      ensures !checkIdOnly
      ensures p == LocalItems(table, rank, items, s0, a).0
      ensures worklist == old(worklist) + LocalItems(table, rank, items, s0, a).1
      decreases a, 1, items
    {
      hide LocalItems, LocalItem, WellFormed;
      p := Going(s0);
      ghost var done: seq<Work> := [];
      ghost var all := LocalItems(table, rank, items, s0, a);
      var i := 0;
      assert items[0..] == items && all.1 == done + all.1;
      while i < |items|
        invariant 0 <= i <= |items| && p.Going? && !checkIdOnly && worklist == old(worklist) + done
        invariant all.0 == LocalItems(table, rank, items[i..], p.s, a).0
        invariant all.1 == done + LocalItems(table, rank, items[i..], p.s, a).1
      {
        ItemsStep(table, rank, items[i..], p.s, a);
        assert items[i..][0] == items[i] && items[i..][1..] == items[i + 1..];
        ghost var ws := LocalItem(table, rank, items[i], p.s, a).1;
        p := RunItem(items[i], p.s, a);
        Regroup(old(worklist), done, ws);
        if p.Failed? {
          return;
        }
        Regroup(done, ws, LocalItems(table, rank, items[i + 1..], p.s, a).1);
        done := done + ws;
        i := i + 1;
      }
      ItemsStep(table, rank, items[i..], p.s, a);
      assert done + [] == done;
    }

    method RunItem(item: Item, s: CheckState, a: Ast) returns (p: Progress)
      requires WellFormed(table, rank) && ItemKnown(table, item) && !checkIdOnly
      modifies this`worklist, this`checkIdOnly, this`matchedFn
      ensures !checkIdOnly
      ensures p == LocalItem(table, rank, item, s, a).0
      ensures worklist == old(worklist) + LocalItem(table, rank, item, s, a).1
      decreases a, 1, item
    {
      hide LocalItems, WellFormed, LocalChildren;
      p := Going(s);
      match item {
        case IsScope => p := Going(s.(scope := ScopeYes));
        case MaybeScope => p := Going(s.(scope := ScopeMaybe));
        case HasData => p := Going(s.(hasData := true));
        case HasType(fn) => p := Going(s.(ty := Some(fn)));
        case When(index, id, body) =>
          if ChildIs(a, index, id) {
            p := RunItems(body, s, a);
          }
        case Children(min, max, rules) =>
          p := TakeChildren(a, s, rules, min, max);
      }
    }

    /** Checks the type, leftover children, data and scope of a node. */
    method Extras(s: CheckState, a: Ast) returns (r: Res)
      requires WellFormed(table, rank) && !checkIdOnly
      modifies this`worklist, this`checkIdOnly, this`matchedFn
      ensures !checkIdOnly
      ensures r == LocalExtras(table, rank, s, a).0 && worklist == old(worklist) + LocalExtras(table, rank, s, a).1
      decreases a, 0
    {
      if a.ty.Some? {
        if s.ty.None? || s.ty.value >= |table| {
          return Error;
        }
        r := Call(s.ty.value, a.ty.value);
        if r == Error {
          return Error;
        }
        if r == NotFound {
          return Error;
        }
      }
      if s.child < |a.kids| {
        return Error;
      }
      if a.hasData && !s.hasData {
        return Error;
      }
      if a.hasScope && s.scope == ScopeNo {
        return Error;
      }
      if !a.hasScope && s.scope == ScopeYes {
        return Error;
      }
      return Ok;
    }

    /** Checks a whole tree against the root rules: there is an error exactly when the direct
        check finds one. */
    method CheckTree(tree: Ast, root: seq<nat>)
      requires WellFormed(table, rank) && AllKnown(table, root) && !checkIdOnly
      modifies this
      ensures hasError <==> CheckList(table, rank, root, Top(rank), tree) == Error
    {
      hide WellFormed, Local, LocalList, Check, CheckList, Bad, WorkSize, Known, Below, AllKnown, FirstMatch, Matches;
      worklist, hasError := [], false;
      RootWork(table, rank, root, tree);
      KnownBelow(table, rank, root);
      var r := CheckFromList(tree, root, Top(rank));
      assert worklist == LocalList(table, rank, root, Top(rank), tree).1;
      if r == Error {
        hasError := true;
      }
      while worklist != []
        invariant !checkIdOnly && Known(table, worklist)
        invariant hasError || Bad(table, rank, worklist) <==> CheckList(table, rank, root, Top(rank), tree) == Error
        decreases WorkSize(worklist)
      {
        TakeWork(table, rank, worklist);
        var w := worklist[|worklist| - 1];
        worklist := worklist[..|worklist| - 1];
        r := Call(w.fn, w.node);
        if r == Error {
          hasError := true;
        }
      }
      NoWork(table, rank);
    }
  }
}

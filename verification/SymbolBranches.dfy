/**
 * Definite assignment: what the branches of a control structure do to variables of
 * the enclosing scopes. Each branch leaves the statuses it gave them in its own table;
 * the tables are folded into that of the structure, and the counts are then settled.
 */
module SymbolBranches {
  import opened SymbolTable

  // ----- Inheriting from one branch

  /** The branch gives a status to a variable declared outside it. */
  predicate Mentions(b: Table, x: string) {
    x in b && b[x].def == Nowhere
  }

  function Inherit(dst: Table, src: Table, x: string): Symbol
    requires x in dst || Mentions(src, x)
  {
    if !Mentions(src, x) then dst[x]
    else if x !in dst then
      if src[x].status == Defined then src[x].(status := Undefined, branches := 1) else src[x]
    else
      match src[x].status
      case Defined => if dst[x].status == Undefined then dst[x].(branches := dst[x].branches + 1) else dst[x]
      case Consumed => dst[x].(status := Consumed, branches := 0)
      case ConsumedSameExpr => dst[x].(status := ConsumedSameExpr, branches := 0)
      case _ => dst[x]
  }

  function Inherited(dst: Table, src: Table): Table {
    map x | x in dst.Keys + src.Keys && (x in dst || Mentions(src, x)) :: Inherit(dst, src, x)
  }

  method InheritBranch(dst: Symtab, src: Symtab)
    requires dst != src
    modifies dst
    ensures dst.table == Inherited(old(dst.table), src.table)
  {
    hide Halfway;
    var todo := src.table.Keys;
    ghost var d := dst.table;
    HalfwayStart(d, src.table);
    while todo != {}
      invariant todo <= src.table.Keys && Halfway(d, src.table, todo, dst.table)
      decreases |todo|
    {
      var x :| x in todo;
      HalfwayStep(d, src.table, todo, dst.table, x);
      todo := todo - {x};
      var sym := src.table[x];
      if sym.def.Node? {
        continue;
      }
      if x in dst.table {
        var dsym := dst.table[x];
        if sym.status == Defined {
          if dsym.status == Undefined {
            dsym := dsym.(branches := dsym.branches + 1);
          }
        } else if sym.status == Consumed {
          dsym := dsym.(status := Consumed, branches := 0);
        } else if sym.status == ConsumedSameExpr {
          dsym := dsym.(status := ConsumedSameExpr, branches := 0);
        }
        dst.table := dst.table[x := dsym];
      } else {
        if sym.status == Defined {
          sym := sym.(status := Undefined, branches := 1);
        }
        dst.table := dst.table[x := sym];
      }
    }
    HalfwayEnd(d, src.table, dst.table);
  }

  /** All names but those still to do have been inherited. */
  ghost predicate Halfway(dst: Table, src: Table, todo: set<string>, t: Table) {
    (forall x :: x in t <==> x in dst || (x !in todo && Mentions(src, x))) &&
    (forall x <- t :: t[x] == if x in todo then dst[x] else Inherit(dst, src, x))
  }

  lemma HalfwayStart(dst: Table, src: Table)
    ensures Halfway(dst, src, src.Keys, dst)
  {
  }

  lemma HalfwayStep(dst: Table, src: Table, todo: set<string>, t: Table, x: string)
    requires x in todo && todo <= src.Keys && Halfway(dst, src, todo, t)
    ensures Halfway(dst, src, todo - {x}, if Mentions(src, x) then t[x := Inherit(t, src, x)] else t)
  {
  }

  lemma HalfwayEnd(dst: Table, src: Table, t: Table)
    requires Halfway(dst, src, {}, t)
    ensures t == Inherited(dst, src)
  {
    assert t.Keys == Inherited(dst, src).Keys;
  }

  // ----- Setting a status, and inheriting statuses

  /** Only the status of an entry that is there is changed; its count stays. */
  function WithStatus(t: Table, x: string, status: Status): Table {
    t[x := if x in t then t[x].(status := status) else Symbol(Nowhere, status, 0)]
  }

  method SetStatus(dst: Symtab, x: string, status: Status)
    modifies dst
    ensures dst.table == WithStatus(old(dst.table), x, status)
  {
    if x in dst.table {
      dst.table := dst.table[x := dst.table[x].(status := status)];
    } else {
      dst.table := dst.table[x := Symbol(Nowhere, status, 0)];
    }
  }

  function TakeStatus(dst: Table, src: Table, x: string): Symbol
    requires x in dst || Mentions(src, x)
  {
    if !Mentions(src, x) then dst[x]
    else if x in dst then dst[x].(status := src[x].status)
    else src[x]
  }

  function StatusInherited(dst: Table, src: Table): Table {
    map x | x in dst.Keys + src.Keys && (x in dst || Mentions(src, x)) :: TakeStatus(dst, src, x)
  }

  method InheritStatus(dst: Symtab, src: Symtab)
    requires dst != src
    modifies dst
    ensures dst.table == StatusInherited(old(dst.table), src.table)
  {
    hide Taken;
    var todo := src.table.Keys;
    ghost var d := dst.table;
    TakenStart(d, src.table);
    while todo != {}
      invariant todo <= src.table.Keys && Taken(d, src.table, todo, dst.table)
      decreases |todo|
    {
      var x :| x in todo;
      TakenStep(d, src.table, todo, dst.table, x);
      todo := todo - {x};
      var sym := src.table[x];
      if sym.def.Node? {
        continue;
      }
      if x in dst.table {
        dst.table := dst.table[x := dst.table[x].(status := sym.status)];
      } else {
        dst.table := dst.table[x := sym];
      }
    }
    TakenEnd(d, src.table, dst.table);
  }

  ghost predicate Taken(dst: Table, src: Table, todo: set<string>, t: Table) {
    (forall x :: x in t <==> x in dst || (x !in todo && Mentions(src, x))) &&
    (forall x <- t :: t[x] == if x in todo then dst[x] else TakeStatus(dst, src, x))
  }

  lemma TakenStart(dst: Table, src: Table)
    ensures Taken(dst, src, src.Keys, dst)
  {
  }

  lemma TakenStep(dst: Table, src: Table, todo: set<string>, t: Table, x: string)
    requires x in todo && todo <= src.Keys && Taken(dst, src, todo, t)
    ensures Taken(dst, src, todo - {x}, if Mentions(src, x) then t[x := TakeStatus(t, src, x)] else t)
  {
  }

  lemma TakenEnd(dst: Table, src: Table, t: Table)
    requires Taken(dst, src, {}, t)
    ensures t == StatusInherited(dst, src)
  {
    assert t.Keys == StatusInherited(dst, src).Keys;
  }

  // ----- Looking outwards

  /** The status of a name as seen from a list of scopes, innermost first. */
  function StatusFrom(scopes: seq<Table>, name: string): Status {
    if scopes == [] then NoStatus
    else
      var (def, status) := Find(scopes[0], name);
      if status != NoStatus then status
      else if def.Node? then NoStatus
      else StatusFrom(scopes[1..], name)
  }

  method Get(scopes: seq<Table>, name: string) returns (def: Def, status: Status)
    ensures status == StatusFrom(scopes, name)
    ensures def.Node? ==>
              exists k :: 0 <= k < |scopes| && Find(scopes[k], name).0 == def &&
                forall j :: 0 <= j < k ==> Find(scopes[j], name).0.Nowhere?
    ensures def.Nowhere? ==> forall k :: 0 <= k < |scopes| ==> Find(scopes[k], name).0.Nowhere?
  {
    status := NoStatus;
    var i := 0;
    while i < |scopes|
      invariant i <= |scopes|
      invariant StatusFrom(scopes, name) == if status == NoStatus then StatusFrom(scopes[i..], name) else status
      invariant forall k :: 0 <= k < i ==> Find(scopes[k], name).0.Nowhere?
    {
      var (value, status2) := Find(scopes[i], name);
      assert scopes[i..][1..] == scopes[i + 1..];
      if status == NoStatus {
        status := status2;
      }
      if value.Node? {
        return value, status;
      }
      i := i + 1;
    }
    def := Nowhere;
  }

  // ----- Settling the counts

  function Settle(t: Table, x: string, scopes: seq<Table>, count: nat): Symbol
    requires x in t
  {
    var sym := t[x];
    if sym.status != Undefined then sym
    else if StatusFrom(scopes, x) == Defined || sym.branches == count then sym.(status := Defined)
    else sym.(branches := 0)
  }

  function Settled(t: Table, scopes: seq<Table>, count: nat): Table {
    map x | x in t :: Settle(t, x, scopes, count)
  }

  /** The compiler's assertion: no count exceeds the number of branches. */
  predicate Asserted(t: Table, count: nat) {
    forall x <- t :: t[x].status == Undefined ==> t[x].branches <= count
  }

  /** Settles all counts, or fails the assertion. */
  method ConsolidateBranches(dst: Symtab, scopes: seq<Table>, count: nat) returns (ok: bool)
    modifies dst
    ensures ok <==> Asserted(old(dst.table), count)
    ensures ok ==> dst.table == Settled(old(dst.table), scopes, count)
  {
    hide StatusFrom;
    var todo := dst.table.Keys;
    ghost var d := dst.table;
    while todo != {}
      invariant todo <= d.Keys == dst.table.Keys
      invariant forall x <- d :: dst.table[x] == if x in todo then d[x] else Settle(d, x, scopes, count)
      invariant forall x <- d :: x !in todo && d[x].status == Undefined ==> d[x].branches <= count
      decreases |todo|
    {
      var x :| x in todo;
      todo := todo - {x};
      var sym := dst.table[x];
      var _, status := Get(scopes, x);
      if sym.status == Undefined {
        if sym.branches > count {
          return false;
        }
        if status == Defined || sym.branches == count {
          sym := sym.(status := Defined);
        } else {
          sym := sym.(branches := 0);
        }
        dst.table := dst.table[x := sym];
      }
    }
    return true;
  }

  // ----- All the branches

  /** The branches folded, in order, into the table that the structure starts with. */
  function AllBranches(start: Table, bs: seq<Table>): Table {
    if bs == [] then start else Inherited(AllBranches(start, bs[..|bs| - 1]), bs[|bs| - 1])
  }

  predicate Gives(b: Table, x: string, statuses: set<Status>) {
    Mentions(b, x) && b[x].status in statuses
  }

  const Gone: set<Status> := {Consumed, ConsumedSameExpr}

  predicate SomeGone(bs: seq<Table>, x: string) {
    exists b <- bs :: Gives(b, x, Gone)
  }

  predicate Known(start: Table, bs: seq<Table>, x: string) {
    x in start || exists b <- bs :: Mentions(b, x)
  }

  lemma KnownLast(start: Table, bs: seq<Table>, x: string)
    requires bs != []
    ensures Known(start, bs, x) <==> Known(start, bs[..|bs| - 1], x) || Mentions(bs[|bs| - 1], x)
    ensures SomeGone(bs, x) <==> SomeGone(bs[..|bs| - 1], x) || Gives(bs[|bs| - 1], x, Gone)
    ensures SomeGone(bs, x) ==> Known(start, bs, x)
  {
    assert bs == bs[..|bs| - 1] + [bs[|bs| - 1]];
  }

  /** The status that the first entry for x has: in the starting table, or as the first branch to mention it brings it. */
  function FirstStatus(start: Table, bs: seq<Table>, x: string): Status
    requires Known(start, bs, x)
  {
    if x in start then start[x].status
    else
      KnownLast(start, bs, x);
      var init, last := bs[..|bs| - 1], bs[|bs| - 1];
      if Known(start, init, x) then FirstStatus(start, init, x)
      else if last[x].status == Defined then Undefined
      else last[x].status
  }

  /** The count that this entry brings along. */
  function Carried(start: Table, bs: seq<Table>, x: string): nat
    requires Known(start, bs, x)
  {
    if x in start then start[x].branches
    else
      KnownLast(start, bs, x);
      var init, last := bs[..|bs| - 1], bs[|bs| - 1];
      if Known(start, init, x) then Carried(start, init, x)
      else if last[x].status == Defined then 0
      else last[x].branches
  }

  function CountDefined(bs: seq<Table>, x: string): nat {
    if bs == [] then 0
    else CountDefined(bs[..|bs| - 1], x) + (if Gives(bs[|bs| - 1], x, {Defined}) then 1 else 0)
  }

  predicate AllDefine(bs: seq<Table>, x: string) {
    forall b <- bs :: Gives(b, x, {Defined})
  }

  lemma {:induction false} CountDefinedExact(bs: seq<Table>, x: string)
    ensures CountDefined(bs, x) <= |bs|
    ensures CountDefined(bs, x) == |bs| <==> AllDefine(bs, x)
  {
    if bs != [] {
      var init, last := bs[..|bs| - 1], bs[|bs| - 1];
      CountDefinedExact(init, x);
      assert bs == init + [last];
    }
  }

  /** What a fold of branches says of one variable. */
  ghost predicate Says(t: Table, start: Table, bs: seq<Table>, x: string) {
    (x in t <==> Known(start, bs, x)) &&
    (x in t ==>
      if SomeGone(bs, x) || FirstStatus(start, bs, x) in Gone then t[x].status in Gone
      else
        t[x].status == FirstStatus(start, bs, x) &&
        (t[x].status == Undefined ==> t[x].branches == Carried(start, bs, x) + CountDefined(bs, x)))
  }

  /** The folded table, whatever the starting table and the branches are. */
  lemma {:induction false} AllBranchesExact(start: Table, bs: seq<Table>, x: string)
    ensures Says(AllBranches(start, bs), start, bs, x)
    ensures !Known(start, bs, x) ==> CountDefined(bs, x) == 0
  {
    if bs != [] {
      AllBranchesExact(start, bs[..|bs| - 1], x);
      OneMore(AllBranches(start, bs[..|bs| - 1]), start, bs, x);
    }
  }

  lemma OneMore(t: Table, start: Table, bs: seq<Table>, x: string)
    requires bs != [] && Says(t, start, bs[..|bs| - 1], x)
    requires !Known(start, bs[..|bs| - 1], x) ==> CountDefined(bs[..|bs| - 1], x) == 0
    ensures Says(Inherited(t, bs[|bs| - 1]), start, bs, x)
    ensures !Known(start, bs, x) ==> CountDefined(bs, x) == 0
  {
    KnownLast(start, bs, x);
    InheritedAt(t, bs[|bs| - 1], x);
    hide Inherited, Known, SomeGone;
  }

  lemma InheritedAt(t: Table, b: Table, x: string)
    ensures x in Inherited(t, b) <==> x in t || Mentions(b, x)
    ensures x in Inherited(t, b) ==> Inherited(t, b)[x] == Inherit(t, b, x)
  {
  }

  /** The count that settling compares with the number of branches. */
  function Counted(start: Table, bs: seq<Table>, x: string): nat
    requires Known(start, bs, x)
  {
    Carried(start, bs, x) + CountDefined(bs, x)
  }

  /** Nothing has consumed x, and whether it is defined is still to be decided. */
  predicate Open(start: Table, bs: seq<Table>, x: string) {
    Known(start, bs, x) && !SomeGone(bs, x) && FirstStatus(start, bs, x) == Undefined
  }

  /**
   * What settling makes of any branches and any starting table: x is consumed if anything
   * consumed it; an open x is defined exactly when the enclosing scopes define it or its
   * count is the number of branches; any other x keeps the status it came with.
   */
  lemma SettledExact(start: Table, bs: seq<Table>, scopes: seq<Table>, count: nat, x: string)
    ensures var r := Settled(AllBranches(start, bs), scopes, count);
            (x in r <==> Known(start, bs, x)) &&
            (x in r ==>
              if SomeGone(bs, x) || FirstStatus(start, bs, x) in Gone then r[x].status in Gone
              else if !Open(start, bs, x) then r[x].status == FirstStatus(start, bs, x)
              else if StatusFrom(scopes, x) == Defined || Counted(start, bs, x) == count then r[x].status == Defined
              else r[x].status == Undefined && r[x].branches == 0)
  {
    AllBranchesExact(start, bs, x);
    hide AllBranches, Known, SomeGone, FirstStatus, Carried, CountDefined, StatusFrom;
  }

  /** The assertion on counts holds exactly when no open variable has counted more than there are branches. */
  lemma AssertedExact(start: Table, bs: seq<Table>, count: nat)
    ensures Asserted(AllBranches(start, bs), count)
            <==> forall x :: Open(start, bs, x) ==> Counted(start, bs, x) <= count
  {
    hide AllBranches, Known, SomeGone, FirstStatus, Carried, CountDefined;
    forall x
      ensures Says(AllBranches(start, bs), start, bs, x)
    {
      AllBranchesExact(start, bs, x);
    }
    var t := AllBranches(start, bs);
    if Asserted(t, count) {
      forall x | Open(start, bs, x)
        ensures Counted(start, bs, x) <= count
      {
        assert Says(t, start, bs, x);
      }
    } else {
      var x :| x in t && t[x].status == Undefined && t[x].branches > count;
      assert Says(t, start, bs, x);
      assert Open(start, bs, x) && Counted(start, bs, x) > count;
    }
  }

  // ----- The intended reading

  /**
   * An open variable is to be defined exactly when every branch that is counted defines
   * it, or the enclosing scopes do.
   */
  ghost predicate AsIntended(start: Table, bs: seq<Table>, scopes: seq<Table>, count: nat, x: string) {
    var r := Settled(AllBranches(start, bs), scopes, count);
    x in r &&
    (r[x].status == Defined <==> (|bs| == count && AllDefine(bs, x)) || StatusFrom(scopes, x) == Defined)
  }

  /**
   * Definite assignment, exactly: an open variable is read as intended if the enclosing
   * scopes define it or the entry it started from brought no count; otherwise exactly when
   * that count neither makes up the number of branches nor comes on top of it.
   */
  lemma DefiniteAssignment(start: Table, bs: seq<Table>, scopes: seq<Table>, count: nat, x: string)
    requires |bs| <= count && Open(start, bs, x)
    ensures AsIntended(start, bs, scopes, count, x) <==>
            StatusFrom(scopes, x) == Defined || Carried(start, bs, x) == 0 ||
            (Counted(start, bs, x) != count && !(|bs| == count && AllDefine(bs, x)))
  {
    SettledExact(start, bs, scopes, count, x);
    CountDefinedExact(bs, x);
    hide AllBranches, Settled, Known, SomeGone, FirstStatus, Carried, CountDefined, StatusFrom, AllDefine;
  }

  /** With no count brought along, the reading is always as intended and the assertion holds. */
  lemma FreshCounts(start: Table, bs: seq<Table>, scopes: seq<Table>, count: nat, x: string)
    requires |bs| <= count && Open(start, bs, x) && Carried(start, bs, x) == 0
    ensures AsIntended(start, bs, scopes, count, x) && Counted(start, bs, x) <= count
  {
    DefiniteAssignment(start, bs, scopes, count, x);
    CountDefinedExact(bs, x);
  }

  // ----- A count that stays behind

  const Local: Table := map["x" := Symbol(Node(0), Undefined, 0)]

  function Outer(status: Status, branches: nat): Table {
    map["x" := Symbol(Nowhere, status, branches)]
  }

  lemma TwoBranches(start: Table, b: Table, c: Table)
    ensures AllBranches(start, [b, c]) == Inherited(Inherited(start, b), c)
  {
    assert [b, c][..1] == [b] && [b][..0] == [];
    assert AllBranches(start, [b]) == Inherited(AllBranches(start, []), b);
  }

  lemma OuterFirst(src: Status, m: nat)
    ensures Inherited(map[], Outer(src, m)) == if src == Defined then Outer(Undefined, 1) else Outer(src, m)
    ensures StatusInherited(map[], Outer(src, m)) == Outer(src, m)
  {
  }

  lemma OuterNothing(status: Status, n: nat)
    ensures Inherited(Outer(status, n), map[]) == Outer(status, n)
  {
  }

  lemma OuterTakes(status: Status, n: nat, src: Status, m: nat)
    ensures StatusInherited(Outer(status, n), Outer(src, m)) == Outer(src, n)
    ensures WithStatus(Outer(status, n), "x", src) == Outer(src, n)
  {
  }

  lemma OuterSettles(n: nat, scopes: seq<Table>, count: nat)
    requires StatusFrom(scopes, "x") != Defined
    ensures Settled(Outer(Undefined, n), scopes, count) == if n == count then Outer(Defined, n) else Outer(Undefined, 0)
  {
  }

  lemma LocalStatus()
    ensures StatusFrom([Local], "x") == Undefined
    ensures StatusFrom([map[], Local], "x") == Undefined
    ensures StatusFrom([Outer(Consumed, 2), Local], "x") == Consumed
  {
    assert [map[], Local][1..] == [Local];
  }

  /**
   * One branch of a conditional holds a conditional that defines x on both sides, then
   * consumes x, then holds one that defines it on one side. Statuses are passed outwards
   * but the count of the first stays, and the outer conditional takes x for defined
   * although neither of its branches leaves it so.
   */
  lemma StaleCount()
    ensures var first := Settled(AllBranches(map[], [Outer(Defined, 0), Outer(Defined, 0)]), [map[], Local], 2);
            var second := Settled(AllBranches(map[], [Outer(Defined, 0), map[]]), [Outer(Consumed, 2), Local], 2);
            var branch := StatusInherited(WithStatus(StatusInherited(map[], first), "x", Consumed), second);
            branch == Outer(Undefined, 2) &&
            Settled(AllBranches(map[], [branch, map[]]), [Local], 2) == Outer(Defined, 2)
  {
    hide Inherited, Settled, AllBranches, StatusFrom, Outer, StatusInherited, WithStatus;
    LocalStatus();
    TwoBranches(map[], Outer(Defined, 0), Outer(Defined, 0));
    OuterFirst(Defined, 0);
    OuterDefines(1);
    OuterSettles(2, [map[], Local], 2);
    TwoBranches(map[], Outer(Defined, 0), map[]);
    OuterNothing(Undefined, 1);
    OuterSettles(1, [Outer(Consumed, 2), Local], 2);
    OuterFirst(Defined, 2);
    OuterTakes(Defined, 2, Consumed, 0);
    OuterTakes(Consumed, 2, Undefined, 0);
    TwoBranches(map[], Outer(Undefined, 2), map[]);
    OuterFirst(Undefined, 2);
    OuterNothing(Undefined, 2);
    OuterSettles(2, [Local], 2);
  }

  lemma OuterDefines(n: nat)
    ensures Inherited(Outer(Undefined, n), Outer(Defined, 0)) == Outer(Undefined, n + 1)
  {
  }

  /** With such a branch the assertion can fail, and the order of the branches can matter. */
  lemma StaleCountOrder()
    ensures !Asserted(AllBranches(map[], [Outer(Undefined, 2), Outer(Defined, 0)]), 2)
    ensures Settled(AllBranches(map[], [Outer(Undefined, 2), Outer(Defined, 0)]), [Local], 3) == Outer(Defined, 3)
    ensures Settled(AllBranches(map[], [Outer(Defined, 0), Outer(Undefined, 2)]), [Local], 3) == Outer(Undefined, 0)
  {
    LocalStatus();
    OuterIs(3);
    hide Inherited, Settled, AllBranches, StatusFrom, Outer;
    TwoBranches(map[], Outer(Undefined, 2), Outer(Defined, 0));
    TwoBranches(map[], Outer(Defined, 0), Outer(Undefined, 2));
    OuterFirst(Undefined, 2);
    OuterFirst(Defined, 0);
    OuterDefines(2);
    OuterKeeps(1, 2);
    OuterSettles(3, [Local], 3);
    OuterSettles(1, [Local], 3);
  }

  lemma OuterIs(n: nat)
    ensures "x" in Outer(Undefined, n) && Outer(Undefined, n)["x"] == Symbol(Nowhere, Undefined, n)
  {
  }

  lemma OuterKeeps(n: nat, m: nat)
    ensures Inherited(Outer(Undefined, n), Outer(Undefined, m)) == Outer(Undefined, n)
  {
  }

  // ----- The order of the branches

  /** Two results agree, up to which kind of consumption is recorded. */
  predicate Agree(r: Table, q: Table, x: string) {
    (x in r <==> x in q) &&
    (x in r ==> r[x].status == q[x].status || (r[x].status in Gone && q[x].status in Gone))
  }

  /** The branch leaves x undefined but with a count. */
  predicate BringsCount(b: Table, x: string) {
    Gives(b, x, {Undefined}) && b[x].branches > 0
  }

  /** Branches give variables of enclosing scopes no other statuses than these. */
  predicate Tracked(bs: seq<Table>, x: string) {
    forall b <- bs :: Mentions(b, x) ==> Gives(b, x, Gone + {Defined, Undefined})
  }

  lemma {:induction false} TrackedFirst(start: Table, bs: seq<Table>, x: string)
    requires Tracked(bs, x) && Known(start, bs, x) && x !in start
    ensures FirstStatus(start, bs, x) in Gone + {Undefined}
    ensures FirstStatus(start, bs, x) in Gone ==> SomeGone(bs, x)
  {
    KnownLast(start, bs, x);
    var init, last := bs[..|bs| - 1], bs[|bs| - 1];
    assert last in bs && forall b <- init :: b in bs;
    if Known(start, init, x) {
      TrackedFirst(start, init, x);
    }
  }

  lemma {:induction false} CountOne(a: seq<Table>, b: Table, c: seq<Table>, x: string)
    ensures CountDefined(a + [b] + c, x) == CountDefined(a + c, x) + (if Gives(b, x, {Defined}) then 1 else 0)
  {
    if c == [] {
      assert a + [b] + c == a + [b] && (a + [b])[..|a|] == a && a + c == a;
    } else {
      var init, last := c[..|c| - 1], c[|c| - 1];
      CountOne(a, b, init, x);
      assert (a + [b] + c)[..|a| + |c|] == a + [b] + init;
      assert (a + c)[..|a + c| - 1] == a + init;
    }
  }

  lemma {:induction false} CountPermuted(bs: seq<Table>, cs: seq<Table>, x: string)
    requires multiset(bs) == multiset(cs)
    ensures CountDefined(bs, x) == CountDefined(cs, x)
  {
    hide CountDefined;
    SameMembers(bs, cs);
    if bs == [] {
      assert cs == bs;
    } else {
      var init, last := bs[..|bs| - 1], bs[|bs| - 1];
      assert bs == init + [last] + [] && init + [] == init;
      var a, c := Around(cs, last);
      TakenOut(init, last, []);
      TakenOut(a, last, c);
      CountPermuted(init, a + c, x);
      CountOne(a, last, c, x);
      CountOne(init, last, [], x);
    }
  }

  lemma Around(cs: seq<Table>, b: Table) returns (a: seq<Table>, c: seq<Table>)
    requires b in cs
    ensures cs == a + [b] + c
  {
    var i :| 0 <= i < |cs| && cs[i] == b;
    a, c := cs[..i], cs[i + 1..];
  }

  lemma TakenOut(a: seq<Table>, b: Table, c: seq<Table>)
    ensures multiset(a + c) == multiset(a + [b] + c) - multiset{b}
  {
  }

  /**
   * Two orders of the same branches agree on x exactly when x is decided otherwise, or the
   * counts that the two first entries bring lead to the same verdict.
   */
  lemma OrderExact(start: Table, bs: seq<Table>, cs: seq<Table>, scopes: seq<Table>, count: nat, x: string)
    requires multiset(bs) == multiset(cs) && Tracked(bs, x)
    ensures Known(start, bs, x) <==> Known(start, cs, x)
    ensures Agree(Settled(AllBranches(start, bs), scopes, count), Settled(AllBranches(start, cs), scopes, count), x)
            <==> (Open(start, bs, x) && StatusFrom(scopes, x) != Defined ==>
                   (Counted(start, bs, x) == count <==> Counted(start, cs, x) == count))
  {
    SameMembers(bs, cs);
    SettledExact(start, bs, scopes, count, x);
    SettledExact(start, cs, scopes, count, x);
    CountPermuted(bs, cs, x);
    if Known(start, bs, x) && x !in start {
      TrackedFirst(start, bs, x);
      TrackedFirst(start, cs, x);
    }
    assert SomeGone(bs, x) <==> SomeGone(cs, x);
    hide AllBranches, Settled, Carried, CountDefined, StatusFrom, Known, SomeGone;
  }

  /** Where the starting table knows x, or no branch brings a count, the order does not matter. */
  lemma OrderIrrelevant(start: Table, bs: seq<Table>, cs: seq<Table>, scopes: seq<Table>, count: nat, x: string)
    requires multiset(bs) == multiset(cs) && Tracked(bs, x)
    requires x in start || forall b <- bs :: !BringsCount(b, x)
    ensures Agree(Settled(AllBranches(start, bs), scopes, count), Settled(AllBranches(start, cs), scopes, count), x)
  {
    OrderExact(start, bs, cs, scopes, count, x);
    SameMembers(bs, cs);
    CountPermuted(bs, cs, x);
    if Open(start, bs, x) && x !in start {
      NothingCarried(start, bs, x);
      TrackedFirst(start, cs, x);
      NothingCarried(start, cs, x);
    }
    hide AllBranches, Settled, CountDefined, StatusFrom;
  }

  lemma {:induction false} NothingCarried(start: Table, bs: seq<Table>, x: string)
    requires x !in start && Known(start, bs, x) && FirstStatus(start, bs, x) == Undefined
    requires forall b <- bs :: !BringsCount(b, x)
    ensures Carried(start, bs, x) == 0
  {
    KnownLast(start, bs, x);
    var init, last := bs[..|bs| - 1], bs[|bs| - 1];
    assert last in bs && forall b <- init :: b in bs;
    if Known(start, init, x) {
      NothingCarried(start, init, x);
    }
  }

  lemma SameMembers(bs: seq<Table>, cs: seq<Table>)
    requires multiset(bs) == multiset(cs)
    ensures |bs| == |cs| && forall b :: b in bs <==> b in cs
  {
    assert |multiset(bs)| == |bs| && |multiset(cs)| == |cs|;
    assert forall b :: b in bs <==> b in multiset(bs);
    assert forall b :: b in cs <==> b in multiset(cs);
  }

  // ----- A control structure

  ghost function Tables(ts: seq<Symtab>): seq<Table>
    reads ts
  {
    if ts == [] then [] else Tables(ts[..|ts| - 1]) + [ts[|ts| - 1].table]
  }

  /**
   * A control structure folds its branches into its own table, which its condition may have
   * filled, and settles the counts, or fails the assertion on them.
   */
  method JoinBranches(dst: Symtab, branches: seq<Symtab>, scopes: seq<Table>, count: nat) returns (ok: bool)
    requires dst !in branches
    modifies dst
    ensures ok <==> forall x :: Open(old(dst.table), old(Tables(branches)), x) ==>
                      Counted(old(dst.table), old(Tables(branches)), x) <= count
    ensures ok ==> dst.table == Settled(AllBranches(old(dst.table), old(Tables(branches))), scopes, count)
  {
    hide Inherited, Settled, AllBranches, Open, Counted, Asserted;
    ghost var start := dst.table;
    InheritAll(dst, branches);
    AssertedExact(start, Tables(branches), count);
    ok := ConsolidateBranches(dst, scopes, count);
  }

  method InheritAll(dst: Symtab, branches: seq<Symtab>)
    requires dst !in branches
    modifies dst
    ensures dst.table == AllBranches(old(dst.table), old(Tables(branches)))
    ensures Tables(branches) == old(Tables(branches))
  {
    ghost var start := dst.table;
    hide Inherited, AllBranches, Tables;
    NoBranches(start, branches);
    for i := 0 to |branches|
      invariant dst.table == AllBranches(start, Tables(branches[..i]))
      invariant Tables(branches) == old(Tables(branches))
    {
      InheritNext(dst, branches, i, start);
    }
    assert branches[..|branches|] == branches;
  }

  method InheritNext(dst: Symtab, branches: seq<Symtab>, i: nat, ghost start: Table)
    requires dst !in branches && i < |branches| && dst.table == AllBranches(start, Tables(branches[..i]))
    modifies dst
    ensures dst.table == AllBranches(start, Tables(branches[..i + 1])) && Tables(branches) == old(Tables(branches))
  {
    hide Inherited, AllBranches, Tables;
    OneMoreBranch(start, branches, i);
    InheritBranch(dst, branches[i]);
  }

  lemma NoBranches(start: Table, ts: seq<Symtab>)
    ensures AllBranches(start, Tables(ts[..0])) == start
  {
  }

  lemma OneMoreBranch(start: Table, ts: seq<Symtab>, i: nat)
    requires i < |ts|
    ensures AllBranches(start, Tables(ts[..i + 1])) == Inherited(AllBranches(start, Tables(ts[..i])), ts[i].table)
  {
    var before, after := Tables(ts[..i]), Tables(ts[..i + 1]);
    assert ts[..i + 1][..i] == ts[..i];
    assert after == before + [ts[i].table] && after[..|after| - 1] == before;
  }
}

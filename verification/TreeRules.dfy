/** The rules an abstract syntax tree is checked against, and what checking means.

    A rule table holds rules, which match nodes by id and then check a node's children,
    type, data and scope, and groups, which try their members in order.  The direct check
    is recursive: it looks into every child as it is met. */
module TreeRules {

  datatype Option<+T> = None | Some(value: T)

  /** A node; its type, if any, is a tree of its own. */
  datatype Ast = Ast(id: nat, kids: seq<Ast>, ty: Option<Ast>, hasData: bool, hasScope: bool)

  datatype Scope = ScopeNo | ScopeYes | ScopeMaybe

  /** The parts of a rule: what scope, data and type the node may have, groups of children
      with a least and, perhaps, a greatest number, and parts that apply only when a child
      has a given id. */
  datatype Item =
    | IsScope
    | MaybeScope
    | HasData
    | HasType(fn: nat)
    | Children(min: nat, max: Option<nat>, rules: seq<nat>)
    | When(index: nat, id: nat, body: seq<Item>)

  datatype Fn = Rule(ids: seq<nat>, items: seq<Item>) | Group(members: seq<nat>)

  datatype Res = Ok | NotFound | Error

  // ----- well-formed tables -----

  /** Every function named exists, and no group is a member of itself, however indirectly:
      the members of a group rank below it. */
  ghost predicate WellFormed(table: seq<Fn>, rank: seq<nat>) {
    && |rank| == |table|
    && forall f :: 0 <= f < |table| ==> WellFormedFn(table, rank, f)
  }

  ghost predicate WellFormedFn(table: seq<Fn>, rank: seq<nat>, f: nat)
    requires |rank| == |table| && f < |table|
  {
    match table[f]
    case Rule(_, items) => ItemsKnown(table, items)
    case Group(members) => forall i :: 0 <= i < |members| ==> members[i] < |table| && rank[members[i]] < rank[f]
  }

  predicate ItemsKnown(table: seq<Fn>, items: seq<Item>) {
    forall i :: 0 <= i < |items| ==> ItemKnown(table, items[i])
  }

  predicate ItemKnown(table: seq<Fn>, item: Item) {
    match item
    case HasType(fn) => fn < |table|
    case Children(_, _, rules) => AllKnown(table, rules)
    case When(_, _, body) => forall i :: 0 <= i < |body| ==> ItemKnown(table, body[i])
    case _ => true
  }

  predicate AllKnown(table: seq<Fn>, fs: seq<nat>) {
    forall i :: 0 <= i < |fs| ==> fs[i] < |table|
  }

  /** Ranks of a list of functions all lie below the bound. */
  ghost predicate Below(table: seq<Fn>, rank: seq<nat>, fs: seq<nat>, bound: nat)
    requires |rank| == |table|
  {
    forall i :: 0 <= i < |fs| ==> fs[i] < |table| && rank[fs[i]] < bound
  }

  ghost function Top(rank: seq<nat>): (r: nat)
    ensures forall i :: 0 <= i < |rank| ==> rank[i] < r
  {
    if rank == [] then 0
    else
      var t := Top(rank[1..]);
      assert forall i :: 1 <= i < |rank| ==> rank[i] == rank[1..][i - 1];
      if rank[0] < t then t else rank[0] + 1
  }

  // ----- the direct check -----

  /** What a rule has established so far about a node: the fields of check_state_t. */
  datatype CheckState = CheckState(scope: Scope, hasData: bool, ty: Option<nat>, child: nat)

  const START := CheckState(ScopeNo, false, None, 0)

  datatype Progress = Failed | Going(s: CheckState)

  function ChildIs(a: Ast, index: nat, id: nat): bool {
    index < |a.kids| && a.kids[index].id == id
  }

  ghost function Check(table: seq<Fn>, rank: seq<nat>, f: nat, a: Ast): Res
    requires WellFormed(table, rank) && f < |table|
    decreases a, rank[f] + 2, 1
  {
    assert WellFormedFn(table, rank, f);
    match table[f]
    case Group(members) => CheckList(table, rank, members, rank[f], a)
    case Rule(ids, items) =>
      if a.id !in ids then NotFound
      else match CheckItems(table, rank, items, START, a)
        case Failed => Error
        case Going(s) => CheckExtras(table, rank, s, a)
  }

  /** The first function that does not pass the node on decides. */
  ghost function CheckList(table: seq<Fn>, rank: seq<nat>, fs: seq<nat>, bound: nat, a: Ast): Res
    requires WellFormed(table, rank) && Below(table, rank, fs, bound)
    decreases a, bound + 2, 0, |fs|
  {
    if fs == [] then NotFound
    else
      var r := Check(table, rank, fs[0], a);
      if r != NotFound then r else CheckList(table, rank, fs[1..], bound, a)
  }

  ghost function CheckItems(table: seq<Fn>, rank: seq<nat>, items: seq<Item>, s: CheckState, a: Ast): Progress
    requires WellFormed(table, rank) && ItemsKnown(table, items)
    decreases a, 1, items
  {
    if items == [] then Going(s)
    else
      var p := CheckItem(table, rank, items[0], s, a);
      if p.Failed? then Failed else CheckItems(table, rank, items[1..], p.s, a)
  }

  ghost function CheckItem(table: seq<Fn>, rank: seq<nat>, item: Item, s: CheckState, a: Ast): Progress
    requires WellFormed(table, rank) && ItemKnown(table, item)
    decreases a, 1, item
  {
    match item
    case IsScope => Going(s.(scope := ScopeYes))
    case MaybeScope => Going(s.(scope := ScopeMaybe))
    case HasData => Going(s.(hasData := true))
    case HasType(fn) => Going(s.(ty := Some(fn)))
    case When(index, id, body) => if ChildIs(a, index, id) then CheckItems(table, rank, body, s, a) else Going(s)
    case Children(min, max, rules) => CheckChildren(table, rank, min, max, rules, 0, s, a)
  }

  /** Takes children as long as they match, up to the greatest number, and wants the least. */
  ghost function CheckChildren(table: seq<Fn>, rank: seq<nat>, min: nat, max: Option<nat>, rules: seq<nat>, found: nat, s: CheckState, a: Ast)
    : Progress
    requires WellFormed(table, rank) && AllKnown(table, rules)
    decreases a, 0, |a.kids| - s.child
  {
    if (max.None? || found < max.value) && s.child < |a.kids| then
      var r := CheckList(table, rank, rules, Top(rank), a.kids[s.child]);
      match r
      case Error => Failed
      case NotFound => if found >= min then Going(s) else Failed
      case Ok => CheckChildren(table, rank, min, max, rules, found + 1, s.(child := s.child + 1), a)
    else if found >= min then Going(s) else Failed
  }

  ghost function CheckExtras(table: seq<Fn>, rank: seq<nat>, s: CheckState, a: Ast): Res
    requires WellFormed(table, rank)
    decreases a, 0
  {
    if a.ty.Some? && (s.ty.None? || s.ty.value >= |table| || Check(table, rank, s.ty.value, a.ty.value) != Ok) then Error
    else if s.child < |a.kids| then Error
    else if a.hasData && !s.hasData then Error
    else if a.hasScope && s.scope == ScopeNo then Error
    else if !a.hasScope && s.scope == ScopeYes then Error
    else Ok
  }
}

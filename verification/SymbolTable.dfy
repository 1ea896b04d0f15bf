/**
 * Symbol tables: declaring names so that no two differ only in case, and merging
 * the public symbols of one table into another. The hash map is a map from names,
 * visited in no particular order.
 */
module SymbolTable {
  import opened SymbolNames

  datatype Status =
    | NoStatus | NoCase | Defined | Undefined | Consumed | ConsumedSameExpr | FfiDecl | Error

  /** The node that declares a symbol, if it is declared in this scope. */
  datatype Def = Nowhere | Node(id: nat)

  datatype Symbol = Symbol(def: Def, status: Status, branches: nat)

  type Table = map<string, Symbol>

  // ----- Adding

  predicate CanAdd(t: Table, name: string) {
    name !in t && Fold(name) !in t
  }

  /** A table with one more name, and its folded form if that is another name. */
  function WithName(t: Table, name: string, def: Def, status: Status): Table {
    var t1 := if Fold(name) == name then t else t[Fold(name) := Symbol(def, NoCase, 0)];
    t1[name := Symbol(def, status, 0)]
  }

  /** The table after an attempt to add a name. */
  function AfterAdd(t: Table, name: string, def: Def, status: Status): Table {
    if CanAdd(t, name) then WithName(t, name, def, status)
    else if Fold(name) == name || Fold(name) in t then t
    else t[Fold(name) := Symbol(def, NoCase, 0)]
  }

  predicate Declared(t: Table, name: string) {
    name in t && t[name].status != NoCase
  }

  /**
   * What tables filled by adding look like: declared names have their folded form in
   * the table, no two share it, and every other entry is such a folded form.
   */
  ghost predicate Proper(t: Table) {
    (forall n <- t :: t[n].def.Node?) &&
    (forall n :: Declared(t, n) ==> Fold(n) in t) &&
    (forall m, n :: Declared(t, m) && Declared(t, n) && Fold(m) == Fold(n) ==> m == n) &&
    (forall n <- t :: t[n].status == NoCase ==> Fold(n) == n && !Declared(t, n) && HasVariant(t, n))
  }

  /** Some declared name has n as its folded form. */
  ghost predicate HasVariant(t: Table, n: string) {
    exists m :: Declared(t, m) && Fold(m) == n
  }

  // ----- Finding

  function Find(t: Table, name: string): (Def, Status) {
    if name !in t then (Nowhere, NoStatus)
    else if t[name].status == NoCase then (Nowhere, NoCase)
    else (t[name].def, t[name].status)
  }

  /** The search that ignores case; a folded name is its own folded form, so it ends. */
  function FindCase(t: Table, name: string): (Def, Status)
    decreases if Fold(name) == name then 0 else 1
  {
    FoldIdempotent(name);
    if name in t then (t[name].def, t[name].status)
    else if Fold(name) != name then FindCase(t, Fold(name))
    else (Nowhere, NoStatus)
  }

  lemma FindCaseIs(t: Table, name: string)
    ensures FindCase(t, name) ==
            if name in t then (t[name].def, t[name].status)
            else if Fold(name) in t then (t[Fold(name)].def, t[Fold(name)].status)
            else (Nowhere, NoStatus)
  {
    FoldIdempotent(name);
  }

  /** In a table filled by adding, it finds a node exactly when a name with this folded form is declared. */
  lemma FindCaseExact(t: Table, name: string)
    requires Proper(t)
    ensures FindCase(t, name).0.Node? <==> exists m :: Declared(t, m) && Fold(m) == Fold(name)
    ensures FindCase(t, name).0.Node? <==> !CanAdd(t, name)
  {
    FindCaseIs(t, name);
    FoldIdempotent(name);
    if name in t {
      if t[name].status == NoCase {
        assert HasVariant(t, name);
      } else {
        assert Declared(t, name);
      }
    } else if Fold(name) in t {
      if t[Fold(name)].status == NoCase {
        assert HasVariant(t, Fold(name));
      } else {
        assert Declared(t, Fold(name));
      }
    }
  }

  // ----- What adding keeps

  lemma AddKeepsProper(t: Table, name: string, def: Def, status: Status)
    requires Proper(t) && CanAdd(t, name) && def.Node? && status != NoCase
    ensures Proper(WithName(t, name, def, status))
  {
    var r := WithName(t, name, def, status);
    FoldIdempotent(name);
    forall n | Declared(r, n)
      ensures Fold(n) in r
      ensures n == name || (Declared(t, n) && Fold(n) != Fold(name))
    {
      if n != name {
        assert Declared(t, n);
      }
    }
    forall n <- r | r[n].status == NoCase
      ensures Fold(n) == n && HasVariant(r, n)
    {
      if n == Fold(name) {
        assert Declared(r, name);
      } else {
        var m :| Declared(t, m) && Fold(m) == n;
        assert Declared(r, m);
      }
    }
  }

  /** A failing add of a proper table changes nothing. */
  lemma FailedAddChangesNothing(t: Table, name: string, def: Def, status: Status)
    requires Proper(t) && !CanAdd(t, name)
    ensures AfterAdd(t, name, def, status) == t
  {
    if name in t && t[name].status != NoCase {
      assert Declared(t, name);
    }
  }

  /** Over all tables, a failing add leaves an entry behind exactly when only the name itself is there. */
  lemma FailedAddExact(t: Table, name: string, def: Def, status: Status)
    requires !CanAdd(t, name)
    ensures AfterAdd(t, name, def, status) != t <==> name in t && Fold(name) !in t
  {
  }

  /** A status recorded for a name of an outer scope lets a failing add leave its folded form. */
  lemma FailedAddLeavesEntry()
    ensures var t := map["fooBar" := Symbol(Nowhere, Defined, 0)];
            !CanAdd(t, "fooBar") && Find(AfterAdd(t, "fooBar", Node(1), Defined), "foobar").1 == NoCase
            && "foobar" !in t
  {
    assert Fold("fooBar") == "foobar";
    assert "fooBar"[3] != "foobar"[3];
  }

  // ----- Merging public symbols

  predicate IsPublic(t: Table, name: string) {
    Declared(t, name) && !IsPrivate(name) && name != "Main"
  }

  /** Names that are not merged. */
  predicate Skipped(name: string, status: Status) {
    IsPrivate(name) || status == NoCase || name == "Main"
  }

  ghost function Publics(t: Table): (r: set<string>)
    ensures r <= t.Keys
  {
    set n <- t.Keys | IsPublic(t, n)
  }

  ghost predicate Mergeable(dst: Table, src: Table) {
    forall n <- Publics(src) :: CanAdd(dst, n)
  }

  ghost function Folds(names: set<string>): set<string> {
    set n <- names :: Fold(n)
  }

  lemma FoldsAre(names: set<string>, n: string)
    ensures Folds(names + {n}) == Folds(names) + {Fold(n)}
    ensures forall m <- names :: Fold(m) in Folds(names)
    ensures Folds({}) == {}
  {
  }

  /** r is dst together with the given names of src and their folded forms. */
  ghost predicate IsUnion(dst: Table, src: Table, names: set<string>, r: Table)
    requires names <= src.Keys
  {
    r.Keys == dst.Keys + names + Folds(names) &&
    (forall n <- dst.Keys :: r[n] == dst[n]) &&
    (forall n <- names :: r[n] == Symbol(src[n].def, src[n].status, 0)) &&
    (forall n <- names :: Fold(n) != n ==> r[Fold(n)] == Symbol(src[n].def, NoCase, 0))
  }

  /** Names of a proper table never get in each other's way. */
  lemma StillAddable(dst: Table, src: Table, names: set<string>, r: Table, n: string)
    requires Proper(src) && names <= Publics(src) && n in Publics(src) && n !in names
    requires IsUnion(dst, src, names, r)
    ensures CanAdd(r, n) <==> CanAdd(dst, n)
  {
    forall m <- names
      ensures n != m && n != Fold(m) && Fold(n) != m && Fold(n) != Fold(m)
    {
      assert Declared(src, m) && Declared(src, n);
      FoldIdempotent(m);
      FoldIdempotent(n);
    }
  }

  lemma UnionGrows(dst: Table, src: Table, names: set<string>, r: Table, n: string)
    requires n in src && n !in names && names <= src.Keys
    requires IsUnion(dst, src, names, r) && CanAdd(r, n)
    ensures IsUnion(dst, src, names + {n}, WithName(r, n, src[n].def, src[n].status))
  {
    UnionKeys(dst, src, names, r, n);
    FoldsAre(names, n);
    hide Fold, Folds;
    var r1 := WithName(r, n, src[n].def, src[n].status);
    assert forall m <- r.Keys :: r1[m] == r[m];
    forall m <- names + {n}
      ensures r1[m] == Symbol(src[m].def, src[m].status, 0)
      ensures Fold(m) != m ==> r1[Fold(m)] == Symbol(src[m].def, NoCase, 0)
    {
      if m in names {
        assert Fold(m) in r;
      }
    }
  }

  lemma UnionKeys(dst: Table, src: Table, names: set<string>, r: Table, n: string)
    requires n in src && names <= src.Keys && IsUnion(dst, src, names, r)
    ensures WithName(r, n, src[n].def, src[n].status).Keys == dst.Keys + (names + {n}) + Folds(names + {n})
  {
    FoldsAre(names, n);
    hide Fold, Folds;
    assert WithName(r, n, src[n].def, src[n].status).Keys == r.Keys + {n, Fold(n)};
  }

  // ----- The table

  class Symtab {
    var table: Table

    constructor ()
      ensures table == map[] && Proper(table)
    {
      table := map[];
    }

    method Add(name: string, def: Def, status: Status) returns (ok: bool)
      modifies this
      ensures ok <==> CanAdd(old(table), name)
      ensures table == AfterAdd(old(table), name, def, status)
      ensures old(Proper(table)) && def.Node? && status != NoCase ==> Proper(table)
      ensures old(Proper(table)) && !ok ==> table == old(table)
    {
      hide Proper, Fold;
      if CanAdd(table, name) && def.Node? && status != NoCase && Proper(table) {
        AddKeepsProper(table, name, def, status);
      } else if !CanAdd(table, name) && Proper(table) {
        FailedAddChangesNothing(table, name, def, status);
      }
      var noCase := NameWithoutCase(name);
      if noCase != name {
        if noCase in table {
          return false;
        }
        table := table[noCase := Symbol(def, NoCase, 0)];
      }
      if name in table {
        return false;
      }
      table := table[name := Symbol(def, status, 0)];
      return true;
    }

    method CanMergePublic(src: Symtab) returns (ok: bool)
      requires Proper(table) && Proper(src.table)
      ensures ok <==> Mergeable(table, src.table)
    {
      hide Proper, IsPrivate, Fold, CanAdd;
      var todo := src.table.Keys;
      while todo != {}
        invariant todo <= src.table.Keys
        invariant forall n <- Publics(src.table) :: n in todo || CanAdd(table, n)
        decreases |todo|
      {
        var n :| n in todo;
        todo := todo - {n};
        if Skipped(n, src.table[n].status) {
          continue;
        }
        FindCaseExact(table, n);
        if FindCase(table, n).0.Node? {
          assert n in Publics(src.table);
          return false;
        }
      }
      return true;
    }

    method MergePublic(src: Symtab) returns (ok: bool)
      requires src != this && Proper(table) && Proper(src.table)
      modifies this
      ensures ok <==> Mergeable(old(table), src.table)
      ensures ok ==> IsUnion(old(table), src.table, Publics(src.table), table)
      ensures Proper(table)
    {
      hide Proper, IsPrivate, Fold, CanAdd, IsUnion, IsPublic, Publics, Mergeable, Skipped, AllAddable;
      var todo := src.table.Keys;
      ghost var all := Publics(src.table);
      assert all - todo == {};
      NothingMerged(table, src.table);
      while todo != {}
        invariant todo <= src.table.Keys && Proper(table)
        invariant IsUnion(old(table), src.table, all - todo, table) && AllAddable(old(table), all - todo)
        decreases |todo|
      {
        var n :| n in todo;
        ghost var done := all - todo;
        LessToDo(all, todo, n);
        todo := todo - {n};
        var sym := src.table[n];
        PublicIs(src.table, n);
        if Skipped(n, sym.status) {
          continue;
        }
        var added := MergeOne(src, n, old(table), done);
        if !added {
          NotMergeable(old(table), src.table, n);
          return false;
        }
        OneMoreAddable(old(table), done, n);
      }
      assert all - todo == all;
      MergeableIs(old(table), src.table);
      return true;
    }

    method MergeOne(src: Symtab, n: string, ghost dst: Table, ghost done: set<string>) returns (ok: bool)
      requires src != this && Proper(table) && Proper(src.table)
      requires n in Publics(src.table) - done && done <= Publics(src.table) && IsUnion(dst, src.table, done, table)
      modifies this
      ensures Proper(table) && (ok <==> CanAdd(dst, n))
      ensures ok ==> IsUnion(dst, src.table, done + {n}, table)
    {
      hide IsPrivate, Fold, CanAdd, IsUnion, WithName, Proper;
      var sym := src.table[n];
      NodeOf(src.table, n);
      StillAddable(dst, src.table, done, table, n);
      if CanAdd(table, n) {
        UnionGrows(dst, src.table, done, table, n);
      }
      ok := Add(n, sym.def, sym.status);
    }
  }

  lemma LessToDo(all: set<string>, todo: set<string>, n: string)
    requires n in todo
    ensures all - (todo - {n}) == if n in all then (all - todo) + {n} else all - todo
  {
  }

  lemma NotMergeable(dst: Table, src: Table, n: string)
    requires n in Publics(src) && !CanAdd(dst, n)
    ensures !Mergeable(dst, src)
  {
  }

  lemma MergeableIs(dst: Table, src: Table)
    requires AllAddable(dst, Publics(src))
    ensures Mergeable(dst, src)
  {
  }

  ghost predicate AllAddable(dst: Table, names: set<string>) {
    forall n <- names :: CanAdd(dst, n)
  }

  lemma OneMoreAddable(dst: Table, names: set<string>, n: string)
    requires AllAddable(dst, names) && CanAdd(dst, n)
    ensures AllAddable(dst, names + {n})
  {
  }

  lemma PublicIs(t: Table, n: string)
    requires n in t
    ensures n in Publics(t) <==> !Skipped(n, t[n].status)
  {
  }

  lemma NothingMerged(dst: Table, src: Table)
    ensures IsUnion(dst, src, {}, dst) && AllAddable(dst, {})
  {
    FoldsAre({}, "");
  }

  lemma NodeOf(t: Table, n: string)
    requires Proper(t) && n in t
    ensures t[n].def.Node?
  {
  }
}

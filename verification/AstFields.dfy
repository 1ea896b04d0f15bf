/**
 * The one field for annotations and types. An annotation sits in it directly, and then
 * holds the type in its own field; without one, the type sits there itself.
 */
module AstFields {
  import opened AstLinks
  import opened AstForest

  // ----- The writes, on snapshots

  function WithField(h: Heap, n: Node, x: Node?): Heap
    requires n in h
  {
    h[n := h[n].(field := x)]
  }

  /** A node, if there is one, gets n as its parent. */
  function Attached(h: Heap, n: Node, x: Node?): Heap
    requires x != null ==> x in h
  {
    if x == null then h else WithParent(h, x, n)
  }

  function TypeSet(h: Heap, n: Node, t: Node?): Heap
    requires n in h && (IsAnnotation(h[n].field) ==> h[n].field in h) && (t != null ==> t in h)
  {
    var h1 := Attached(h, n, t);
    if IsAnnotation(h[n].field) then WithField(h1, h[n].field, t) else WithField(h1, n, t)
  }

  function AnnotationSet(h: Heap, n: Node, a: Node?): Heap
    requires n in h && (AnnotationOf(h, n) != null ==> h[n].field in h) && (a != null ==> a in h)
  {
    var prev := AnnotationOf(h, n);
    var t := TypeOf(h, n);
    if a == prev then h
    else
      var h1 := if prev != null then WithField(h, prev, null) else h;
      if a == null then WithField(h1, n, t)
      else WithParent(WithField(WithField(h1, a, t), n, a), a, n)
  }

  /** A node that may be put into a field. */
  ghost predicate Usable(h: Heap, kids: Kids, n: Node, x: Node?)
    requires h.Keys == kids.Keys
  {
    x != null ==> x in h && x != n && Loose(h, kids, x) && h[x].sibling == null
  }

  /** What is in the field of n, or is to be put there, is in the field of no other node. */
  ghost predicate Separate(h: Heap, n: Node, m: Node, x: Node?)
    requires n in h && m in h
  {
    (IsAnnotation(h[n].field) ==> h[n].field in h) &&
    (m != n && m.id != AnnotationId && h[m].field != null ==> h[m].field != h[n].field && h[m].field != x)
  }

  lemma FieldsSeparate(h: Heap, kids: Kids, live: set<Node>, n: Node, m: Node, x: Node?)
    requires Consistent(h, kids, live) && n in kids && m in kids && n.id != AnnotationId && Usable(h, kids, n, x)
    ensures Separate(h, n, m, x)
  {
    hide Chain;
    assert FieldsOf(h, kids, n) && FieldsOf(h, kids, m);
  }

  // ----- Getters after setters

  lemma TypeSetGets(h: Heap, n: Node, t: Node?, m: Node)
    requires n in h && m in h && n.id != AnnotationId && Separate(h, n, m, t)
    requires t != n && !IsAnnotation(t) && (t != null ==> t in h)
    ensures var h1 := TypeSet(h, n, t);
            h1.Keys == h.Keys && AnnotationOf(h1, m) == AnnotationOf(h, m) &&
            TypeOf(h1, m) == if m == n then t else TypeOf(h, m)
  {
  }

  lemma AnnotationSetGets(h: Heap, n: Node, a: Node?, m: Node)
    requires n in h && m in h && n.id != AnnotationId && Separate(h, n, m, a)
    requires (a == null || IsAnnotation(a)) && (a != null ==> a in h) && !IsAnnotation(TypeOf(h, n))
    ensures var h1 := AnnotationSet(h, n, a);
            h1.Keys == h.Keys && TypeOf(h1, m) == TypeOf(h, m) &&
            AnnotationOf(h1, m) == if m == n then a else AnnotationOf(h, m)
  {
  }

  // ----- Well-formedness

  ghost predicate FieldWrites(h: Heap, h1: Heap, n: Node, x: Node?)
    requires h1.Keys == h.Keys && (x != null ==> x in h)
  {
    (forall m <- h :: h1[m].child == h[m].child && h1[m].sibling == h[m].sibling) &&
    (forall m <- h :: m != x ==> Same(h[m], h1[m])) &&
    (x != null ==> h1[x].parent == n && !h1[x].orphan) &&
    (forall m <- h :: m != n && m.id != AnnotationId ==> h1[m].field == h[m].field)
  }

  lemma TypeSetWrites(h: Heap, n: Node, t: Node?)
    requires n in h && (IsAnnotation(h[n].field) ==> h[n].field in h) && (t != null ==> t in h)
    ensures var h1 := TypeSet(h, n, t);
            h1.Keys == h.Keys && FieldWrites(h, h1, n, t) &&
            (n != t ==> h1[n].field == if IsAnnotation(h[n].field) && h[n].field != n then h[n].field else t)
  {
  }

  lemma AnnotationSetWrites(h: Heap, n: Node, a: Node?)
    requires n in h && n.id != AnnotationId && (IsAnnotation(h[n].field) ==> h[n].field in h) && (a != null ==> a in h)
    requires a != AnnotationOf(h, n) && (a == null || IsAnnotation(a))
    ensures var h1 := AnnotationSet(h, n, a);
            h1.Keys == h.Keys && FieldWrites(h, h1, n, a) && h1[n].field == if a == null then TypeOf(h, n) else a
  {
  }

  /** What setting a field may do to the links: one node may be attached, and another is given up. */
  ghost predicate Refielded(h: Heap, kids: Kids, h1: Heap, n: Node, x: Node?)
    requires h.Keys == kids.Keys && n in h
  {
    h1.Keys == h.Keys && Usable(h, kids, n, x) && FieldWrites(h, h1, n, x) &&
    (forall m <- h :: m != n ==> TypeOf(h1, m) == TypeOf(h, m) && AnnotationOf(h1, m) == AnnotationOf(h, m)) &&
    (h1[n].field == null || h1[n].field in {x, h[n].field, TypeOf(h, n)}) &&
    TypeOf(h1, n) in {null, x, TypeOf(h, n)} && !IsAnnotation(TypeOf(h1, n)) &&
    (IsAnnotation(h1[n].field) ==> h1[n].field in {x, AnnotationOf(h, n)})
  }

  lemma RefieldChain(h: Heap, kids: Kids, live: set<Node>, h1: Heap, n: Node, x: Node?, m: Node)
    requires Consistent(h, kids, live) && n in kids && n.id != AnnotationId && Refielded(h, kids, h1, n, x) && m in kids
    ensures Chain(h1, m, kids[m])
  {
    hide FieldsOf, Placed;
    assert Chain(h, m, kids[m]);
    var t := kids[m];
    forall i | 0 <= i < |t|
      ensures t[i] in h && Same(h[t[i]], h1[t[i]])
    {
      assert t[i] in t;
    }
    ChainSame(h, h1, m, t);
  }

  lemma RefieldFields(h: Heap, kids: Kids, live: set<Node>, h1: Heap, n: Node, x: Node?, m: Node)
    requires Consistent(h, kids, live) && n in kids && n.id != AnnotationId && Refielded(h, kids, h1, n, x) && m in kids
    ensures FieldsOf(h1, kids, m)
  {
    hide Chain, Placed;
    assert FieldsOf(h, kids, m) && FieldsOf(h, kids, n);
    if m.id != AnnotationId && m != n && x != null {
      assert !InField(h, m, x);
    }
  }

  lemma RefieldPlaced(h: Heap, kids: Kids, live: set<Node>, h1: Heap, n: Node, x: Node?, m: Node)
    requires Consistent(h, kids, live) && n in kids && n.id != AnnotationId && Refielded(h, kids, h1, n, x) && m in live
    requires m == x || m == TypeOf(h, n) || m == AnnotationOf(h, n) ==> m == TypeOf(h1, n) || m == AnnotationOf(h1, n)
    ensures Placed(h1, kids, m)
  {
    hide Chain, FieldsOf, TypeOf, AnnotationOf;
    assert Placed(h, kids, m);
  }

  lemma Refield(h: Heap, kids: Kids, live: set<Node>, h1: Heap, n: Node, x: Node?, live1: set<Node>)
    requires Consistent(h, kids, live) && n in kids && n.id != AnnotationId && Refielded(h, kids, h1, n, x)
    requires live1 <= live
    requires forall m <- live1 :: m == x || m == TypeOf(h, n) || m == AnnotationOf(h, n) ==>
               m == TypeOf(h1, n) || m == AnnotationOf(h1, n)
    ensures Consistent(h1, kids, live1)
  {
    hide Chain, FieldsOf, Placed, TypeOf, AnnotationOf;
    assert h1.Keys == h.Keys;
    forall m <- kids
      ensures Chain(h1, m, kids[m]) && FieldsOf(h1, kids, m)
    {
      RefieldChain(h, kids, live, h1, n, x, m);
      RefieldFields(h, kids, live, h1, n, x, m);
    }
    forall m <- live1
      ensures Placed(h1, kids, m)
    {
      RefieldPlaced(h, kids, live, h1, n, x, m);
    }
  }

  lemma TypeSetRefields(h: Heap, kids: Kids, live: set<Node>, n: Node, t: Node?)
    requires Consistent(h, kids, live) && n in kids && n.id != AnnotationId
    requires Usable(h, kids, n, t) && !IsAnnotation(t)
    ensures IsAnnotation(h[n].field) ==> h[n].field in h
    ensures Refielded(h, kids, TypeSet(h, n, t), n, t)
    ensures TypeOf(TypeSet(h, n, t), n) == t && AnnotationOf(TypeSet(h, n, t), n) == AnnotationOf(h, n)
  {
    FieldsSeparate(h, kids, live, n, n, t);
    var h1 := TypeSet(h, n, t);
    forall m <- h
      ensures AnnotationOf(h1, m) == AnnotationOf(h, m) && TypeOf(h1, m) == if m == n then t else TypeOf(h, m)
    {
      FieldsSeparate(h, kids, live, n, m, t);
      TypeSetGets(h, n, t, m);
    }
    TypeSetWrites(h, n, t);
    hide Consistent, TypeSet, FieldWrites;
  }

  lemma AnnotationSetRefields(h: Heap, kids: Kids, live: set<Node>, n: Node, a: Node?)
    requires Consistent(h, kids, live) && n in kids && n.id != AnnotationId && a != AnnotationOf(h, n)
    requires Usable(h, kids, n, a) && (a == null || IsAnnotation(a))
    ensures IsAnnotation(h[n].field) ==> h[n].field in h
    ensures Refielded(h, kids, AnnotationSet(h, n, a), n, a)
    ensures TypeOf(AnnotationSet(h, n, a), n) == TypeOf(h, n) && AnnotationOf(AnnotationSet(h, n, a), n) == a
  {
    FieldsSeparate(h, kids, live, n, n, a);
    assert FieldsOf(h, kids, n);
    var h1 := AnnotationSet(h, n, a);
    forall m <- h
      ensures TypeOf(h1, m) == TypeOf(h, m) && AnnotationOf(h1, m) == if m == n then a else AnnotationOf(h, m)
    {
      FieldsSeparate(h, kids, live, n, m, a);
      AnnotationSetGets(h, n, a, m);
    }
    AnnotationSetWrites(h, n, a);
    hide Consistent, AnnotationSet, FieldWrites;
  }

  // ----- The setters

  method GetType(f: Forest, n: Node) returns (t: Node?)
    requires f.Valid() && n in f.kids
    ensures t == TypeOf(f.Snap(), n)
  {
    f.Fields(n);
    if n.id == AnnotationId {
      return null;
    }
    FieldKnown(f.Snap(), f.kids, f.live, n);
    t := n.annotationType;
    if t != null && t.id == AnnotationId {
      f.Fields(t);
      t := t.annotationType;
    }
  }

  method GetAnnotation(f: Forest, n: Node) returns (a: Node?)
    requires f.Valid() && n in f.kids
    ensures a == AnnotationOf(f.Snap(), n)
  {
    f.Fields(n);
    if n.id == AnnotationId {
      return null;
    }
    a := n.annotationType;
    if a == null || a.id != AnnotationId {
      a := null;
    }
  }

  lemma FieldKnown(h: Heap, kids: Kids, live: set<Node>, n: Node)
    requires Consistent(h, kids, live) && n in kids && n.id != AnnotationId
    ensures n in h && (h[n].field != null ==> h[n].field in h) && !IsAnnotation(TypeOf(h, n))
  {
    assert FieldsOf(h, kids, n);
  }

  /** The nodes that setting a field of n to x can write to. */
  function Touched(n: Node, x: Node?): set<Node>
    reads n
  {
    {n} + (if x == null then {} else {x}) + (if n.annotationType == null then {} else {n.annotationType})
  }

  method WriteField(f: Forest, n: Node, x: Node?)
    requires n in f.kids
    modifies n`annotationType
    ensures f.Snap() == WithField(old(f.Snap()), n, x) && n.annotationType == x
  {
    n.annotationType := x;
  }

  /**
   * Gives n a type, or none. The type it had is given up: it is freed, or the caller
   * marks it as an orphan.
   */
  method SetType(f: Forest, n: Node, t: Node?)
    requires f.Valid() && n in f.kids && (n.id == AnnotationId ==> t == null)
    requires t != null ==> t.id != AnnotationId
    requires t == TypeOf(f.Snap(), n) || Usable(f.Snap(), f.kids, n, t)
    modifies f`live, Touched(n, t)
    ensures f.Valid() && f.kids == old(f.kids)
    ensures TypeOf(f.Snap(), n) == t && AnnotationOf(f.Snap(), n) == old(AnnotationOf(f.Snap(), n))
    ensures f.Snap() == if t == old(TypeOf(f.Snap(), n)) then old(f.Snap()) else TypeSet(old(f.Snap()), n, t)
    ensures f.live == if t == old(TypeOf(f.Snap(), n)) then old(f.live) else old(f.live) - {old(TypeOf(f.Snap(), n))}
  {
    hide Consistent, Refielded, Usable, TypeOf, AnnotationOf, TypeSet, f.Snap;
    var prev := GetType(f, n);
    if prev == t {
      return;
    }
    ghost var h := f.Snap();
    assert n.id != AnnotationId by { NoTypeOn(h, n); }
    f.Fields(n);
    TypeSetRefields(h, f.kids, f.live, n, t);
    FieldKnown(h, f.kids, f.live, n);
    UsableIn(h, f.kids, n, t);
    WriteType(f, n, t);
    Refield(h, f.kids, f.live, f.Snap(), n, t, f.live - {prev});
    f.live := f.live - {prev};
  }

  method WriteType(f: Forest, n: Node, t: Node?)
    requires n in f.kids && (t != null ==> t in f.kids && t != n) && n.id != AnnotationId
    requires n.annotationType != null ==> n.annotationType in f.kids
    modifies Touched(n, t)
    ensures f.Snap() == TypeSet(old(f.Snap()), n, t)
  {
    if t != null {
      f.SetScopeAndParent(t, n);
    }
    var a := n.annotationType;
    if a != null && a.id == AnnotationId {
      WriteField(f, a, t);
    } else {
      WriteField(f, n, t);
    }
  }

  lemma NoTypeOn(h: Heap, n: Node)
    requires n in h
    ensures n.id == AnnotationId ==> TypeOf(h, n) == null && AnnotationOf(h, n) == null
  {
  }

  lemma UsableIn(h: Heap, kids: Kids, n: Node, x: Node?)
    requires h.Keys == kids.Keys && Usable(h, kids, n, x)
    ensures x != null ==> x in kids && x != n
  {
  }

  /** Gives n an annotation, or none, and keeps its type. The annotation it had is given up. */
  method SetAnnotation(f: Forest, n: Node, a: Node?)
    requires f.Valid() && n in f.kids && (n.id == AnnotationId ==> a == null)
    requires a != null ==> a.id == AnnotationId
    requires a == AnnotationOf(f.Snap(), n) || (Usable(f.Snap(), f.kids, n, a) && (a != null ==> a.annotationType == null))
    modifies f`live, Touched(n, a)
    ensures f.Valid() && f.kids == old(f.kids)
    ensures TypeOf(f.Snap(), n) == old(TypeOf(f.Snap(), n)) && AnnotationOf(f.Snap(), n) == a
    ensures a != null ==> a in f.kids
    ensures f.Snap() == AnnotationSet(old(f.Snap()), n, a)
    ensures f.live == if a == old(AnnotationOf(f.Snap(), n)) then old(f.live) else old(f.live) - {old(AnnotationOf(f.Snap(), n))}
  {
    hide Consistent, Refielded, Usable, TypeOf, AnnotationOf, AnnotationSet, f.Snap;
    var prev := GetAnnotation(f, n);
    ghost var h := f.Snap();
    AnnotationKnown(h, f.kids, f.live, n);
    if prev == a {
      AnnotationSame(h, n, a);
      return;
    }
    assert n.id != AnnotationId by { NoTypeOn(h, n); }
    f.Fields(n);
    AnnotationSetRefields(h, f.kids, f.live, n, a);
    FieldKnown(h, f.kids, f.live, n);
    UsableIn(h, f.kids, n, a);
    WriteAnnotation(f, n, a, prev);
    Refield(h, f.kids, f.live, f.Snap(), n, a, f.live - {prev});
    f.live := f.live - {prev};
  }

  method WriteAnnotation(f: Forest, n: Node, a: Node?, prev: Node?)
    requires n in f.kids && (a != null ==> a in f.kids && a != n && IsAnnotation(a)) && n.id != AnnotationId
    requires n.annotationType != null ==> n.annotationType in f.kids
    requires prev == AnnotationOf(f.Snap(), n) && a != prev
    modifies Touched(n, a)
    ensures f.Snap() == AnnotationSet(old(f.Snap()), n, a)
  {
    ghost var h := f.Snap();
    f.Fields(n);
    if prev != null {
      f.Fields(prev);
    }
    SetSteps(h, n, a);
    hide f.Snap, AnnotationSet, WithField, AnnotationOf;
    if a != null {
      if prev != null {
        WriteField(f, a, prev.annotationType);
        WriteField(f, prev, null);
      } else {
        WriteField(f, a, n.annotationType);
      }
      WriteField(f, n, a);
      f.SetScopeAndParent(a, n);
    } else {
      WriteField(f, n, prev.annotationType);
      WriteField(f, prev, null);
    }
  }

  /** The writes in the order in which the compiler makes them. */
  lemma SetSteps(h: Heap, n: Node, a: Node?)
    requires n in h && n.id != AnnotationId && (AnnotationOf(h, n) != null ==> h[n].field in h)
    requires (a != null ==> a in h && IsAnnotation(a)) && a != AnnotationOf(h, n)
    ensures var prev := AnnotationOf(h, n);
            AnnotationSet(h, n, a) ==
            if a == null then WithField(WithField(h, n, h[prev].field), prev, null)
            else if prev == null then WithParent(WithField(WithField(h, a, h[n].field), n, a), a, n)
            else WithParent(WithField(WithField(WithField(h, a, h[prev].field), prev, null), n, a), a, n)
  {
  }

  lemma AnnotationKnown(h: Heap, kids: Kids, live: set<Node>, n: Node)
    requires Consistent(h, kids, live) && n in kids
    ensures n in h && (AnnotationOf(h, n) != null ==> AnnotationOf(h, n) in h && h[n].field in h)
    ensures n.id != AnnotationId && IsAnnotation(h[n].field) ==> h[n].field in h
  {
    assert FieldsOf(h, kids, n);
  }

  lemma AnnotationSame(h: Heap, n: Node, a: Node?)
    requires n in h && (AnnotationOf(h, n) != null ==> h[n].field in h)
    requires a == AnnotationOf(h, n)
    ensures AnnotationSet(h, n, a) == h
  {
  }

  // ----- Any run of settings

  datatype Setting = ToType(n: Node, t: Node?) | ToAnnotation(n: Node, a: Node?)

  /** The argument of a setting is a node that may be put into the field, or null, or what is there already. */
  ghost predicate Allowed(h: Heap, kids: Kids, op: Setting)
    requires h.Keys == kids.Keys
  {
    op.n in h && op.n.id != AnnotationId &&
    match op
    case ToType(n, t) => t == TypeOf(h, n) || (Usable(h, kids, n, t) && !IsAnnotation(t))
    case ToAnnotation(n, a) => a == AnnotationOf(h, n) || (Usable(h, kids, n, a) && (a == null || IsAnnotation(a)))
  }

  ghost function Set(h: Heap, op: Setting): Heap
    requires op.n in h && (IsAnnotation(h[op.n].field) ==> h[op.n].field in h)
    requires op.ToType? && op.t != null ==> op.t in h
    requires op.ToAnnotation? && op.a != null ==> op.a in h
  {
    match op
    case ToType(n, t) => if t == TypeOf(h, n) then h else TypeSet(h, n, t)
    case ToAnnotation(n, a) => AnnotationSet(h, n, a)
  }

  ghost function GivenUp(h: Heap, op: Setting): set<Node?>
    requires op.n in h
  {
    match op
    case ToType(n, t) => if t == TypeOf(h, n) then {} else {TypeOf(h, n)}
    case ToAnnotation(n, a) => if a == AnnotationOf(h, n) then {} else {AnnotationOf(h, n)}
  }

  /** One setting changes what its own getter returns for its own node, and nothing else. */
  lemma OneSetting(h: Heap, kids: Kids, live: set<Node>, op: Setting, m: Node)
    requires Consistent(h, kids, live) && m in kids && Allowed(h, kids, op)
    ensures IsAnnotation(h[op.n].field) ==> h[op.n].field in h
    ensures op.ToType? && op.t != null ==> op.t in h
    ensures op.ToAnnotation? && op.a != null ==> op.a in h
    ensures var h1 := Set(h, op);
            Consistent(h1, kids, live - GivenUp(h, op)) && h1.Keys == h.Keys &&
            TypeOf(h1, m) == (if op.ToType? && op.n == m then op.t else TypeOf(h, m)) &&
            AnnotationOf(h1, m) == if op.ToAnnotation? && op.n == m then op.a else AnnotationOf(h, m)
  {
    assert h.Keys == kids.Keys && live - {} == live;
    hide Consistent, Refielded, TypeSet, AnnotationSet;
    FieldKnown(h, kids, live, op.n);
    TypeKnown(h, kids, live, op.n);
    match op {
      case ToType(n, t) => {
        if t != TypeOf(h, n) {
          TypeSetRefields(h, kids, live, n, t);
          Refield(h, kids, live, TypeSet(h, n, t), n, t, live - {TypeOf(h, n)});
          FieldsSeparate(h, kids, live, n, m, t);
          TypeSetGets(h, n, t, m);
        }
      }
      case ToAnnotation(n, a) => {
        if a == AnnotationOf(h, n) {
          AnnotationSame(h, n, a);
        } else {
          AnnotationSetRefields(h, kids, live, n, a);
          Refield(h, kids, live, AnnotationSet(h, n, a), n, a, live - {AnnotationOf(h, n)});
          FieldsSeparate(h, kids, live, n, m, a);
          AnnotationSetGets(h, n, a, m);
        }
      }
    }
  }

  lemma TypeKnown(h: Heap, kids: Kids, live: set<Node>, n: Node)
    requires Consistent(h, kids, live) && n in kids
    ensures n in h && (TypeOf(h, n) != null ==> TypeOf(h, n) in h)
  {
    assert FieldsOf(h, kids, n);
  }

  /** Every setting of a run is allowed when it is made. */
  ghost predicate RunAllowed(h: Heap, kids: Kids, ops: seq<Setting>)
    requires h.Keys == kids.Keys
  {
    ops == [] || (
      Allowed(h, kids, ops[0]) && Ready(h, ops[0]) && Set(h, ops[0]).Keys == h.Keys &&
      RunAllowed(Set(h, ops[0]), kids, ops[1..]))
  }

  ghost predicate Ready(h: Heap, op: Setting)
  {
    op.n in h && (IsAnnotation(h[op.n].field) ==> h[op.n].field in h) &&
    (op.ToType? && op.t != null ==> op.t in h) && (op.ToAnnotation? && op.a != null ==> op.a in h)
  }

  ghost function Run(h: Heap, kids: Kids, ops: seq<Setting>): (r: Heap)
    requires h.Keys == kids.Keys && RunAllowed(h, kids, ops)
    ensures r.Keys == h.Keys
  {
    if ops == [] then h else Run(Set(h, ops[0]), kids, ops[1..])
  }

  /** What a run last stored as the type of m. */
  function LastType(ops: seq<Setting>, m: Node, initial: Node?): Node? {
    if ops == [] then initial
    else LastType(ops[1..], m, if ops[0].ToType? && ops[0].n == m then ops[0].t else initial)
  }

  function LastAnnotation(ops: seq<Setting>, m: Node, initial: Node?): Node? {
    if ops == [] then initial
    else LastAnnotation(ops[1..], m, if ops[0].ToAnnotation? && ops[0].n == m then ops[0].a else initial)
  }

  /** The one field behaves as two: after any run, each getter returns what its own setter stored last. */
  lemma {:induction false} FieldsIndependent(h: Heap, kids: Kids, live: set<Node>, ops: seq<Setting>, m: Node)
    requires Consistent(h, kids, live) && m in kids && RunAllowed(h, kids, ops)
    ensures TypeOf(Run(h, kids, ops), m) == LastType(ops, m, TypeOf(h, m))
    ensures AnnotationOf(Run(h, kids, ops), m) == LastAnnotation(ops, m, AnnotationOf(h, m))
    decreases |ops|
  {
    if ops != [] {
      hide Consistent, TypeOf, AnnotationOf, Set;
      OneSetting(h, kids, live, ops[0], m);
      FieldsIndependent(Set(h, ops[0]), kids, live - GivenUp(h, ops[0]), ops[1..], m);
    }
  }
}

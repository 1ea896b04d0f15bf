/** The code generator for control flow, as a function on the blocks built so far.

    A loop is lowered without a flag saying whether there is a value to yield: its condition
    is generated twice, once on the way in and after a continue, where the else clause
    follows a false condition, and once after the body, where control leaves with the value
    of the body. */
module Lowering {
  import opened ControlFlow
  import opened BasicBlocks

  /** The blocks so far and the one code is being added to. */
  datatype State = State(blocks: seq<Block>, cur: nat)

  /** Where continue, break with a value and break without one go in the loop frame. */
  datatype Targets = Targets(cont: nat, brk: nat, brkNone: nat)

  /** The value of generated code: none because control does not get there, none because
      nobody wants it, or an operand. */
  datatype GenValue = NoValue | NotNeeded | Val(op: Operand) {
    function Op(): Operand {
      if Val? then op else Const(0)
    }
  }

  // ----- building blocks -----

  function BlockAt(s: State, b: nat): Block {
    if b < |s.blocks| then s.blocks[b] else EMPTY
  }

  function Cur(s: State): Block {
    BlockAt(s, s.cur)
  }

  function SetBlock(s: State, b: nat, block: Block): State {
    if b < |s.blocks| then s.(blocks := s.blocks[b := block]) else s
  }

  function NewBlocks(s: State, n: nat): State {
    s.(blocks := s.blocks + seq(n, _ => EMPTY))
  }

  function Emit(s: State, op: nat): State {
    SetBlock(s, s.cur, Cur(s).(instrs := Cur(s).instrs + [op]))
  }

  function Close(s: State, t: Terminator): State {
    SetBlock(s, s.cur, Cur(s).(term := Some(t)))
  }

  /** Closes the block unless control cannot get to its end. */
  function CloseIf(s: State, v: GenValue, t: Terminator): State {
    if v.NoValue? then s else Close(s, t)
  }

  function StartPhi(s: State, b: nat): State {
    SetBlock(s, b, BlockAt(s, b).(phi := Some(map[])))
  }

  /** Adds an incoming value to the phi node of a block, if there is a value and a node. */
  function Incoming(s: State, b: nat, from: nat, v: GenValue): State {
    var phi := BlockAt(s, b).phi;
    if v.Val? && phi.Some? then SetBlock(s, b, BlockAt(s, b).(phi := Some(phi.value[from := v.op]))) else s
  }

  // ----- the generator -----

  function Gen(s: State, tg: Option<Targets>, e: Expr, needed: bool): (State, GenValue)
    decreases e, 1
  {
    match e
    case Lit(v) => (s, Val(Const(v)))
    case Prim(op) => (Emit(s, op), Val(Use(Instr(s.cur, |Cur(s).instrs|))))
    case Seq(es) => GenSeq(s, tg, es, needed)
    case If(_, _, _) => var t := GenIf(s, tg, e, needed); (t.end, t.v)
    case While(_, _, _) => var t := GenWhile(s, tg, e, needed); (t.end, t.v)
    case Repeat(_, _, _) => var t := GenRepeat(s, tg, e, needed); (t.end, t.v)
    case Break(None) => (Close(s, Br(if tg.Some? then tg.value.brkNone else 0)), NoValue)
    case Break(Some(value)) =>
      var target := if tg.Some? then tg.value.brk else 0;
      var (s1, v) := Gen(s, tg, value, true);
      (Close(Incoming(s1, target, s1.cur, v), Br(target)), NoValue)
    case Continue => (Close(s, Br(if tg.Some? then tg.value.cont else 0)), NoValue)
  }

  function GenSeq(s: State, tg: Option<Targets>, es: seq<Expr>, needed: bool): (State, GenValue)
    decreases es, 0
  {
    if es == [] then (s, NotNeeded)
    else if |es| == 1 then Gen(s, tg, es[0], needed)
    else GenSeq(Gen(s, tg, es[0], false).0, tg, es[1..], needed)
  }

  /** A branch of a conditional; the branch a constant condition rules out is not generated. */
  function GenBranch(s: State, tg: Option<Targets>, e: Expr, needed: bool, skip: bool, zero: bool): (State, GenValue)
    decreases e, 2
  {
    if !skip then Gen(s, tg, e, needed)
    else if zero then (s, Val(Const(0)))
    else (Close(s, Unreachable), NoValue)
  }

  /** The states a conditional goes through: after the condition, before and after each
      branch, and at the end. */
  datatype IfSteps = IfSteps(cond: State, c: GenValue, left0: State, left: State, l: GenValue,
                             right0: State, right: State, r: GenValue, end: State, v: GenValue)

  function GenIf(s: State, tg: Option<Targets>, e: Expr, needed: bool): IfSteps
    requires e.If?
    decreases e, 0
  {
    var (cond, c) := Gen(s, tg, e.cond, true);
    var jumps := JumpsAway(e);
    var n := |cond.blocks|;
    var s0 := NewBlocks(cond, if jumps then 2 else 3);
    var left0 := Close(s0, CondBr(c.Op(), n, n + 1)).(cur := n);
    var (left, l) := GenBranch(left0, tg, e.left, needed, c == Val(Const(0)), needed && !jumps);
    var right0 := CloseIf(left, l, Br(n + 2)).(cur := n + 1);
    var (right, r) := GenBranch(right0, tg, e.right, needed, c.Val? && c.op.Const? && c.op.v != 0, needed && !jumps);
    var done := CloseIf(right, r, Br(n + 2));
    if jumps then
      IfSteps(cond, c, left0, left, l, right0, right, r, done, NoValue)
    else if needed then
      var post := StartPhi(done.(cur := n + 2), n + 2);
      var end := Incoming(Incoming(post, n + 2, left.cur, l), n + 2, right.cur, r);
      IfSteps(cond, c, left0, left, l, right0, right, r, end, Val(Use(Phi(n + 2))))
    else
      IfSteps(cond, c, left0, left, l, right0, right, r, done.(cur := n + 2), NotNeeded)
  }

  /** The states a loop goes through: before and after the condition reached on the way in or
      from a continue, before and after the body, after the condition that follows the body,
      before and after the else clause, and at the end. */
  datatype LoopSteps = LoopSteps(cond0: State, cond: State, i: GenValue, body0: State, body: State, l: GenValue,
                                 again: State, c: GenValue, els0: State, els: State, r: GenValue, end: State, v: GenValue)

  /** Four new blocks, the last of them for after the loop, and a branch to the first. */
  function LoopStart(s: State, phi: bool): State {
    var n := |s.blocks|;
    var s1 := Close(NewBlocks(s, 4), Br(n));
    (if phi then StartPhi(s1, n + 3) else s1).(cur := n)
  }

  /** The end of a loop, in the block after it. */
  function LoopEnd(s: State, post: nat, jumps: bool, needed: bool, bodyFrom: nat, l: GenValue, elsFrom: nat, r: GenValue)
    : (State, GenValue)
  {
    var done := CloseIf(s, r, Br(post)).(cur := post);
    if jumps then (Close(done, Unreachable), NoValue)
    else if needed then (Incoming(Incoming(done, post, bodyFrom, l), post, elsFrom, r), Val(Use(Phi(post))))
    else (done, NotNeeded)
  }

  function GenWhile(s: State, tg: Option<Targets>, e: Expr, needed: bool): LoopSteps
    requires e.While?
    decreases e, 0
  {
    var n := |s.blocks|;
    var jumps := JumpsAway(e);
    var inner := Some(Targets(n, n + 3, n + 2));
    var cond0 := LoopStart(s, needed && !jumps);
    var (cond, i) := Gen(cond0, inner, e.cond, true);
    var body0 := Close(cond, CondBr(i.Op(), n + 1, n + 2)).(cur := n + 1);
    var (body, l) := Gen(body0, inner, e.body, needed);
    var (again, c) := if l.NoValue? then (body, NoValue) else Gen(body, inner, e.cond, true);
    var els0 := CloseIf(again, c, CondBr(c.Op(), n + 1, n + 3)).(cur := n + 2);
    var (els, r) := Gen(els0, tg, e.els, needed);
    var (end, v) := LoopEnd(els, n + 3, jumps, needed, again.cur, l, els.cur, r);
    LoopSteps(cond0, cond, i, body0, body, l, again, c, els0, els, r, end, v)
  }

  function GenRepeat(s: State, tg: Option<Targets>, e: Expr, needed: bool): LoopSteps
    requires e.Repeat?
    decreases e, 0
  {
    var n := |s.blocks|;
    var jumps := JumpsAway(e);
    var inner := Some(Targets(n + 1, n + 3, n + 2));
    var body0 := LoopStart(s, needed && !jumps);
    var (body, l) := Gen(body0, inner, e.body, needed);
    var (again, c) := if l.NoValue? then (body, NoValue) else Gen(body, inner, e.cond, true);
    var cond0 := CloseIf(again, c, CondBr(c.Op(), n + 3, n)).(cur := n + 1);
    var (cond, i) := Gen(cond0, inner, e.cond, true);
    var els0 := Close(cond, CondBr(i.Op(), n + 2, n)).(cur := n + 2);
    var (els, r) := Gen(els0, tg, e.els, needed);
    var (end, v) := LoopEnd(els, n + 3, jumps, needed, again.cur, l, els.cur, r);
    LoopSteps(cond0, cond, i, body0, body, l, again, c, els0, els, r, end, v)
  }

  // ----- what generating code does to the blocks there were -----

  /** q is p with code added at its end, and with phi entries added if it has a phi node. */
  ghost predicate Agrees(p: Block, q: Block) {
    && p.instrs <= q.instrs
    && (p.term.Some? ==> q.term == p.term && q.instrs == p.instrs)
    && p.phi.Some? == q.phi.Some?
    && (p.phi.Some? ==> forall b :: b in p.phi.value ==> b in q.phi.value && q.phi.value[b] == p.phi.value[b])
  }

  ghost predicate Grows(p: seq<Block>, q: seq<Block>) {
    |p| <= |q| && forall b :: 0 <= b < |p| ==> Agrees(p[b], q[b])
  }

  predicate Open(s: State) {
    s.cur < |s.blocks| && s.blocks[s.cur].term.None?
  }

  /** What the generator is called with: an open block, and the targets of the loop around, if
      any, whose phi node knows nothing yet about that block or blocks to come. */
  ghost predicate Ready(s: State, tg: Option<Targets>) {
    && Open(s)
    && (tg.Some? ==>
          && tg.value.cont < |s.blocks| && tg.value.brk < |s.blocks| && tg.value.brkNone < |s.blocks|
          && tg.value.brk != s.cur
          && (s.blocks[tg.value.brk].phi.Some? ==>
                forall b :: b in s.blocks[tg.value.brk].phi.value ==> b < |s.blocks| && b != s.cur))
  }

  predicate IsBreakTarget(tg: Option<Targets>, b: nat) {
    tg.Some? && tg.value.brk == b
  }

  /** Other blocks than the open one stay as they are, except that the phi node of the break
      target may gain entries for the open block and the new ones. */
  ghost predicate Leaves(s: State, t: State, tg: Option<Targets>) {
    && Grows(s.blocks, t.blocks)
    && s.cur < |s.blocks|
    && t.blocks[s.cur].phi == s.blocks[s.cur].phi
    && (forall b :: 0 <= b < |s.blocks| && b != s.cur ==>
          t.blocks[b] == s.blocks[b].(phi := t.blocks[b].phi))
    && (forall b :: 0 <= b < |s.blocks| && b != s.cur && !IsBreakTarget(tg, b) ==>
          t.blocks[b] == s.blocks[b])
    && (tg.Some? && tg.value.brk < |s.blocks| && s.blocks[tg.value.brk].phi.Some? ==>
          forall b :: b in t.blocks[tg.value.brk].phi.value ==>
            b in s.blocks[tg.value.brk].phi.value || b == s.cur || |s.blocks| <= b < |t.blocks|)
  }

  /** The operand's register was written before the end of the open block. */
  predicate Older(o: Operand, s: State) {
    o.Use? ==> o.r.block < |s.blocks| && (o.r.Instr? && o.r.block == s.cur ==> o.r.index < |Cur(s).instrs|)
  }

  /** The state and value that generating some code may leave. */
  ghost predicate Built(s: State, tg: Option<Targets>, needed: bool, t: State, v: GenValue) {
    && Leaves(s, t, tg) && |s.blocks| <= |t.blocks|
    && (t.cur == s.cur || |s.blocks| <= t.cur) && t.cur < |t.blocks|
    && (!v.NoValue? ==> Ready(t, tg))
    && (needed && !v.NoValue? ==> v.Val?)
    && (v.Val? ==> Older(v.op, t))
  }

  ghost predicate Generated(s: State, tg: Option<Targets>, e: Expr, needed: bool, t: State, v: GenValue) {
    Built(s, tg, needed, t, v) && (v.NoValue? <==> JumpsAway(e))
  }

  lemma GrowsTrans(p: seq<Block>, q: seq<Block>, r: seq<Block>)
    requires Grows(p, q) && Grows(q, r)
    ensures Grows(p, r)
  {
    forall b | 0 <= b < |p|
      ensures Agrees(p[b], r[b])
    {
      assert Agrees(p[b], q[b]) && Agrees(q[b], r[b]);
    }
  }

  /** Code for the same loop, or for a loop whose break target is new, adds up. */
  lemma LeavesTrans(s: State, t: State, u: State, tg: Option<Targets>, tg': Option<Targets>)
    requires Leaves(s, t, tg) && Leaves(t, u, tg')
    requires tg.Some? ==> tg.value.brk < |s.blocks| && tg.value.brk != s.cur
    requires t.cur == s.cur || |s.blocks| <= t.cur
    requires tg' == tg || (tg'.Some? && tg'.value.brk >= |s.blocks|)
    ensures Leaves(s, u, tg) && |s.blocks| <= |t.blocks| <= |u.blocks|
  {
    GrowsTrans(s.blocks, t.blocks, u.blocks);
  }

  // ----- blocks made ahead of their use -----

  /** A new block not yet started, which nothing has branched from. */
  ghost predicate Spare(s: State, tg: Option<Targets>, b: nat) {
    && b < |s.blocks| && b != s.cur && s.blocks[b] == EMPTY
    && !IsBreakTarget(tg, b)
    && NoEntry(s, tg, b)
  }

  /** The phi node of the break target has no entry for the block. */
  ghost predicate NoEntry(s: State, tg: Option<Targets>, b: nat) {
    tg.Some? && tg.value.brk < |s.blocks| && s.blocks[tg.value.brk].phi.Some? ==> b !in s.blocks[tg.value.brk].phi.value
  }

  /** Targets that exist, with a phi node that speaks of blocks that exist. */
  ghost predicate Sound(s: State, tg: Option<Targets>) {
    tg.Some? ==>
      && tg.value.cont < |s.blocks| && tg.value.brk < |s.blocks| && tg.value.brkNone < |s.blocks|
      && (s.blocks[tg.value.brk].phi.Some? ==>
            forall b :: b in s.blocks[tg.value.brk].phi.value ==> b < |s.blocks|)
  }

  lemma SpareKept(s: State, tg: Option<Targets>, needed: bool, t: State, v: GenValue, b: nat)
    requires Ready(s, tg) && Built(s, tg, needed, t, v) && Spare(s, tg, b)
    ensures Spare(t, tg, b) && Sound(t, tg)
  {
  }

  /** Closing the open block, if control gets there, and going on in a spare one. */
  lemma MoveToSpare(s: State, tg: Option<Targets>, v: GenValue, term: Terminator, b: nat)
    requires s.cur < |s.blocks| && (!v.NoValue? ==> Open(s)) && Sound(s, tg) && Spare(s, tg, b)
    ensures Leaves(s, CloseIf(s, v, term).(cur := b), tg) && Grows(s.blocks, CloseIf(s, v, term).blocks)
    ensures Ready(CloseIf(s, v, term).(cur := b), tg) && Cur(CloseIf(s, v, term).(cur := b)) == EMPTY
    ensures forall c :: c != b && Spare(s, tg, c) ==> Spare(CloseIf(s, v, term).(cur := b), tg, c)
  {
  }

  /** Code in one block, and then on to a spare one. */
  lemma Turn(s: State, tg: Option<Targets>, needed: bool, t: State, v: GenValue, term: Terminator, b: nat)
    requires Ready(s, tg) && Built(s, tg, needed, t, v) && Spare(s, tg, b)
    ensures var u := CloseIf(t, v, term).(cur := b);
            && Leaves(s, u, tg) && Ready(u, tg) && Grows(t.blocks, u.blocks) && |u.blocks| == |t.blocks| && Cur(u) == EMPTY
            && forall c :: c != b && Spare(s, tg, c) ==> Spare(u, tg, c)
  {
    hide Leaves, Grows, Agrees, NoEntry, Sound;
    SpareKept(s, tg, needed, t, v, b);
    MoveToSpare(t, tg, v, term, b);
    LeavesTrans(s, t, CloseIf(t, v, term).(cur := b), tg, tg);
    forall c | c != b && Spare(s, tg, c)
      ensures Spare(CloseIf(t, v, term).(cur := b), tg, c)
    {
      SpareKept(s, tg, needed, t, v, c);
    }
  }

  /** Making k blocks, closing the open block and going on in the first of the new ones. */
  lemma Fork(s: State, tg: Option<Targets>, k: nat, term: Terminator)
    requires Ready(s, tg) && k > 0
    ensures var t := Close(NewBlocks(s, k), term).(cur := |s.blocks|);
            && Leaves(s, t, tg) && Ready(t, tg) && |t.blocks| == |s.blocks| + k
            && forall b :: |s.blocks| < b < |s.blocks| + k ==> Spare(t, tg, b)
  {
  }

  lemma {:induction false} GenBuilds(s: State, tg: Option<Targets>, e: Expr, needed: bool)
    requires Ready(s, tg) && Checked(e, tg.Some?)
    ensures var (t, v) := Gen(s, tg, e, needed); Generated(s, tg, e, needed, t, v)
    decreases e, 1
  {
    hide Built, Leaves, Grows, Agrees, GenIf, GenWhile, GenRepeat, GenSeq, IfShape, WhileShape, RepeatShape;
    match e
    case Seq(es) => GenSeqBuilds(s, tg, es, needed);
    case If(_, _, _) =>
      GenIfShape(s, tg, e, needed);
      GenIfBuilds(s, tg, e, needed, GenIf(s, tg, e, needed));
    case While(_, _, _) =>
      GenWhileShape(s, tg, e, needed);
      GenWhileBuilds(s, tg, e, needed, GenWhile(s, tg, e, needed));
    case Repeat(_, _, _) =>
      GenRepeatShape(s, tg, e, needed);
      GenRepeatBuilds(s, tg, e, needed, GenRepeat(s, tg, e, needed));
    case Break(Some(value)) =>
      GenBuilds(s, tg, value, true);
      BreakBuilds(s, tg, e, needed);
    case _ =>
      LeafBuilds(s, tg, e, needed);
  }

  lemma LeafBuilds(s: State, tg: Option<Targets>, e: Expr, needed: bool)
    requires e.Lit? || e.Prim? || e.Continue? || e == Break(None)
    requires Ready(s, tg) && Checked(e, tg.Some?)
    ensures var (t, v) := Gen(s, tg, e, needed); Generated(s, tg, e, needed, t, v)
  {
    hide Ready, Built;
    match e
    case Lit(_) => SameBuilds(s, tg, needed, Val(Const(e.v)));
    case Prim(op) => EmitBuilds(s, tg, needed, op);
    case Break(_) => JumpBuilds(s, tg, needed, tg.value.brkNone);
    case Continue => JumpBuilds(s, tg, needed, tg.value.cont);
  }

  lemma SameBuilds(s: State, tg: Option<Targets>, needed: bool, v: GenValue)
    requires Ready(s, tg) && v.Val? && v.op.Const?
    ensures Built(s, tg, needed, s, v)
  {
  }

  lemma EmitBuilds(s: State, tg: Option<Targets>, needed: bool, op: nat)
    requires Ready(s, tg)
    ensures Built(s, tg, needed, Emit(s, op), Val(Use(Instr(s.cur, |Cur(s).instrs|))))
  {
  }

  lemma JumpBuilds(s: State, tg: Option<Targets>, needed: bool, target: nat)
    requires Ready(s, tg)
    ensures Built(s, tg, needed, Close(s, Br(target)), NoValue)
  {
  }

  /** A break with a value enters it in the phi node and ends the block. */
  lemma BreakBuilds(s: State, tg: Option<Targets>, e: Expr, needed: bool)
    requires e.Break? && e.value.Some? && Ready(s, tg) && Checked(e, tg.Some?)
    requires var (t, v) := Gen(s, tg, e.value.value, true); Generated(s, tg, e.value.value, true, t, v)
    ensures var (t, v) := Gen(s, tg, e, needed); Generated(s, tg, e, needed, t, v)
    ensures var (t, v) := Gen(s, tg, e.value.value, true); Grows(t.blocks, Gen(s, tg, e, needed).0.blocks)
  {
    var (t, v) := Gen(s, tg, e.value.value, true);
    var u := Incoming(t, tg.value.brk, t.cur, v);
    BreakEntry(s, tg, t, v);
    assert Gen(s, tg, e, needed) == (Close(u, Br(tg.value.brk)), NoValue);
  }

  lemma BreakEntry(s: State, tg: Option<Targets>, t: State, v: GenValue)
    requires tg.Some? && Ready(s, tg) && Built(s, tg, true, t, v) && !v.NoValue?
    ensures var u := Close(Incoming(t, tg.value.brk, t.cur, v), Br(tg.value.brk));
            && Leaves(s, u, tg) && Grows(t.blocks, u.blocks) && u.cur == t.cur && |u.blocks| == |t.blocks|
  {
    hide Leaves;
    EntryLeaves(t, tg, v);
    LeavesTrans(s, t, Close(Incoming(t, tg.value.brk, t.cur, v), Br(tg.value.brk)), tg, tg);
  }

  lemma EntryLeaves(t: State, tg: Option<Targets>, v: GenValue)
    requires tg.Some? && Ready(t, tg)
    ensures var u := Close(Incoming(t, tg.value.brk, t.cur, v), Br(tg.value.brk));
            && Leaves(t, u, tg) && Grows(t.blocks, u.blocks) && u.cur == t.cur && |u.blocks| == |t.blocks|
  {
  }

  lemma {:induction false} GenSeqBuilds(s: State, tg: Option<Targets>, es: seq<Expr>, needed: bool)
    requires Ready(s, tg) && Checked(Seq(es), tg.Some?)
    ensures var (t, v) := GenSeq(s, tg, es, needed); Generated(s, tg, Seq(es), needed, t, v)
    decreases es, 0
  {
    if |es| == 1 {
      GenBuilds(s, tg, es[0], needed);
    } else {
      var s1 := Gen(s, tg, es[0], false).0;
      var rest := es[1..];
      assert forall i :: 0 <= i < |rest| ==> rest[i] == es[i + 1];
      GenBuilds(s, tg, es[0], false);
      GenSeqBuilds(s1, tg, rest, needed);
      var (t, v) := GenSeq(s1, tg, rest, needed);
      LeavesTrans(s, s1, t, tg, tg);
    }
  }

  lemma {:induction false} GenBranchBuilds(s: State, tg: Option<Targets>, e: Expr, needed: bool, skip: bool, zero: bool)
    requires Ready(s, tg) && Checked(e, tg.Some?)
    ensures var (t, v) := GenBranch(s, tg, e, needed, skip, zero);
            Built(s, tg, needed, t, v) && (JumpsAway(e) && !zero ==> v.NoValue?)
    decreases e, 2
  {
    if !skip {
      GenBuilds(s, tg, e, needed);
    }
  }

  /** How the states of a conditional follow from each other. */
  ghost predicate IfShape(s: State, tg: Option<Targets>, e: Expr, needed: bool, t: IfSteps)
    requires e.If?
  {
    var n := |t.cond.blocks|;
    var jumps := JumpsAway(e);
    var done := CloseIf(t.right, t.r, Br(n + 2));
    && (t.cond, t.c) == Gen(s, tg, e.cond, true)
    && t.left0 == Close(NewBlocks(t.cond, if jumps then 2 else 3), CondBr(t.c.Op(), n, n + 1)).(cur := n)
    && (t.left, t.l) == GenBranch(t.left0, tg, e.left, needed, t.c == Val(Const(0)), needed && !jumps)
    && t.right0 == CloseIf(t.left, t.l, Br(n + 2)).(cur := n + 1)
    && (t.right, t.r) == GenBranch(t.right0, tg, e.right, needed, t.c.Val? && t.c.op.Const? && t.c.op.v != 0, needed && !jumps)
    && t.v == (if jumps then NoValue else if needed then Val(Use(Phi(n + 2))) else NotNeeded)
    && t.end == if jumps then done else IfEnd(done.(cur := n + 2), n + 2, needed, t)
  }

  /** The phi node of the block after a conditional. */
  function IfEnd(done: State, post: nat, needed: bool, t: IfSteps): State {
    if needed then Incoming(Incoming(StartPhi(done, post), post, t.left.cur, t.l), post, t.right.cur, t.r) else done
  }

  lemma GenIfShape(s: State, tg: Option<Targets>, e: Expr, needed: bool)
    requires e.If?
    ensures IfShape(s, tg, e, needed, GenIf(s, tg, e, needed))
    ensures Gen(s, tg, e, needed) == (GenIf(s, tg, e, needed).end, GenIf(s, tg, e, needed).v)
  {
    hide GenBranch, Close, CloseIf, NewBlocks, Incoming, StartPhi;
  }

  lemma IfEndLeaves(s: State, tg: Option<Targets>, done: State, needed: bool, t: IfSteps)
    requires Leaves(s, done, tg) && Ready(done, tg) && |s.blocks| <= done.cur
    ensures Leaves(s, IfEnd(done, done.cur, needed, t), tg) && Ready(IfEnd(done, done.cur, needed, t), tg)
    ensures IfEnd(done, done.cur, needed, t).cur == done.cur
  {
    NewPhiLeaves(s, tg, done, IfEnd(done, done.cur, needed, t));
  }

  lemma {:induction false} GenIfBuilds(s: State, tg: Option<Targets>, e: Expr, needed: bool, t: IfSteps)
    requires e.If? && Ready(s, tg) && Checked(e, tg.Some?) && IfShape(s, tg, e, needed, t)
    ensures Generated(s, tg, e.cond, true, t.cond, t.c)
    ensures Ready(t.left0, tg) && Built(t.left0, tg, needed, t.left, t.l)
    ensures Ready(t.right0, tg) && Built(t.right0, tg, needed, t.right, t.r)
    ensures Generated(s, tg, e, needed, t.end, t.v)
    decreases e, 0
  {
    hide Leaves, Grows, Agrees, Spare, NoEntry, Sound, Gen, GenBranch, Close, CloseIf, NewBlocks, IfEnd;
    var n := |t.cond.blocks|;
    var jumps := JumpsAway(e);
    GenBuilds(s, tg, e.cond, true);
    Fork(t.cond, tg, if jumps then 2 else 3, CondBr(t.c.Op(), n, n + 1));
    GenBranchBuilds(t.left0, tg, e.left, needed, t.c == Val(Const(0)), needed && !jumps);
    Turn(t.left0, tg, needed, t.left, t.l, Br(n + 2), n + 1);
    GenBranchBuilds(t.right0, tg, e.right, needed, t.c.Val? && t.c.op.Const? && t.c.op.v != 0, needed && !jumps);
    LeavesTrans(s, t.cond, t.left0, tg, tg);
    LeavesTrans(s, t.left0, t.right0, tg, tg);
    if jumps {
      LeavesTrans(s, t.right0, t.right, tg, tg);
      assert CloseIf(t.right, t.r, Br(n + 2)) == t.right by { CloseIfNoValue(t.right, t.r, Br(n + 2)); }
    } else {
      var done := CloseIf(t.right, t.r, Br(n + 2)).(cur := n + 2);
      Turn(t.right0, tg, needed, t.right, t.r, Br(n + 2), n + 2);
      LeavesTrans(s, t.right0, done, tg, tg);
      IfEndLeaves(s, tg, done, needed, t);
    }
  }

  lemma CloseIfNoValue(s: State, v: GenValue, term: Terminator)
    ensures v.NoValue? ==> CloseIf(s, v, term) == s
  {
  }

  /** Filling in the phi node of a new block does not touch the old ones. */
  lemma NewPhiLeaves(s: State, tg: Option<Targets>, t: State, u: State)
    requires Leaves(s, t, tg) && Ready(t, tg) && |s.blocks| <= t.cur && u.cur == t.cur
    requires |u.blocks| == |t.blocks| && u.blocks[t.cur] == t.blocks[t.cur].(phi := u.blocks[t.cur].phi)
    requires forall b :: 0 <= b < |t.blocks| && b != t.cur ==> u.blocks[b] == t.blocks[b]
    ensures Leaves(s, u, tg) && Ready(u, tg)
  {
  }

  // ----- loops -----

  lemma BuiltThen(s: State, tg: Option<Targets>, t: State, v: GenValue, n: bool, u: State, x: GenValue, m: bool)
    requires Ready(s, tg) && Built(s, tg, n, t, v) && !v.NoValue? && Built(t, tg, m, u, x)
    ensures Built(s, tg, m, u, x)
  {
    hide Grows, Agrees;
    LeavesTrans(s, t, u, tg, tg);
  }

  /** The body of a loop and, if control gets to its end, the condition again. */
  ghost predicate AgainShape(inner: Option<Targets>, cond: Expr, t: LoopSteps) {
    (t.again, t.c) == if t.l.NoValue? then (t.body, NoValue) else Gen(t.body, inner, cond, true)
  }

  ghost predicate WhileShape(s: State, tg: Option<Targets>, e: Expr, needed: bool, t: LoopSteps)
    requires e.While?
  {
    var n := |s.blocks|;
    var jumps := JumpsAway(e);
    var inner := Some(Targets(n, n + 3, n + 2));
    && t.cond0 == LoopStart(s, needed && !jumps)
    && (t.cond, t.i) == Gen(t.cond0, inner, e.cond, true)
    && t.body0 == Close(t.cond, CondBr(t.i.Op(), n + 1, n + 2)).(cur := n + 1)
    && (t.body, t.l) == Gen(t.body0, inner, e.body, needed)
    && AgainShape(inner, e.cond, t)
    && t.els0 == CloseIf(t.again, t.c, CondBr(t.c.Op(), n + 1, n + 3)).(cur := n + 2)
    && (t.els, t.r) == Gen(t.els0, tg, e.els, needed)
    && (t.end, t.v) == LoopEnd(t.els, n + 3, jumps, needed, t.again.cur, t.l, t.els.cur, t.r)
  }

  lemma GenWhileShape(s: State, tg: Option<Targets>, e: Expr, needed: bool)
    requires e.While?
    ensures WhileShape(s, tg, e, needed, GenWhile(s, tg, e, needed))
    ensures Gen(s, tg, e, needed) == (GenWhile(s, tg, e, needed).end, GenWhile(s, tg, e, needed).v)
  {
    hide LoopStart, Close, CloseIf, LoopEnd;
  }

  ghost predicate RepeatShape(s: State, tg: Option<Targets>, e: Expr, needed: bool, t: LoopSteps)
    requires e.Repeat?
  {
    var n := |s.blocks|;
    var jumps := JumpsAway(e);
    var inner := Some(Targets(n + 1, n + 3, n + 2));
    && t.body0 == LoopStart(s, needed && !jumps)
    && (t.body, t.l) == Gen(t.body0, inner, e.body, needed)
    && AgainShape(inner, e.cond, t)
    && t.cond0 == CloseIf(t.again, t.c, CondBr(t.c.Op(), n + 3, n)).(cur := n + 1)
    && (t.cond, t.i) == Gen(t.cond0, inner, e.cond, true)
    && t.els0 == Close(t.cond, CondBr(t.i.Op(), n + 2, n)).(cur := n + 2)
    && (t.els, t.r) == Gen(t.els0, tg, e.els, needed)
    && (t.end, t.v) == LoopEnd(t.els, n + 3, jumps, needed, t.again.cur, t.l, t.els.cur, t.r)
  }

  lemma GenRepeatShape(s: State, tg: Option<Targets>, e: Expr, needed: bool)
    requires e.Repeat?
    ensures RepeatShape(s, tg, e, needed, GenRepeat(s, tg, e, needed))
    ensures Gen(s, tg, e, needed) == (GenRepeat(s, tg, e, needed).end, GenRepeat(s, tg, e, needed).v)
  {
    hide LoopStart, Close, CloseIf, LoopEnd;
  }

  /** The frame of a loop whose blocks are n to n + 3. */
  predicate LoopFrame(inner: Option<Targets>, n: nat) {
    inner.Some? && n <= inner.value.cont < n + 3 && inner.value.brk == n + 3 && inner.value.brkNone == n + 2
  }

  lemma LoopStarts(s: State, tg: Option<Targets>, phi: bool, inner: Option<Targets>)
    requires Ready(s, tg) && LoopFrame(inner, |s.blocks|)
    ensures var n, t := |s.blocks|, LoopStart(s, phi);
            && Leaves(s, t, tg) && |t.blocks| == n + 4 && t.cur == n
            && Ready(t, inner) && Spare(t, inner, n + 1) && Spare(t, inner, n + 2) && Cur(t) == EMPTY
            && t.blocks[n + 3] == EMPTY.(phi := if phi then Some(map[]) else None)
            && (forall b :: 0 <= b < n && b != s.cur ==> t.blocks[b] == s.blocks[b])
  {
  }

  /** A state inside a loop begun in s: the blocks from before are as the start of the loop
      left them, and the one for after the loop has at most gained phi entries. */
  ghost predicate Inside(s: State, phi: bool, inner: Option<Targets>, u: State) {
    var n := |s.blocks|;
    && LoopFrame(inner, n)
    && n + 4 <= |u.blocks| && n <= u.cur && u.cur != n + 3
    && Grows(LoopStart(s, phi).blocks, u.blocks)
    && (forall b :: 0 <= b < n ==> u.blocks[b] == LoopStart(s, phi).blocks[b])
    && u.blocks[n + 3] == EMPTY.(phi := u.blocks[n + 3].phi) && u.blocks[n + 3].phi.Some? == phi
  }

  lemma InsideStart(s: State, tg: Option<Targets>, phi: bool, inner: Option<Targets>)
    requires Ready(s, tg) && LoopFrame(inner, |s.blocks|)
    ensures Inside(s, phi, inner, LoopStart(s, phi))
  {
  }

  lemma InsideStep(s: State, phi: bool, inner: Option<Targets>, t: State, u: State)
    requires Inside(s, phi, inner, t) && Leaves(t, u, inner) && |s.blocks| <= u.cur && u.cur != |s.blocks| + 3
    ensures Inside(s, phi, inner, u)
  {
    GrowsTrans(LoopStart(s, phi).blocks, t.blocks, u.blocks);
  }

  /** The else clause starts in the frame of the loop around. */
  lemma ElseReady(s: State, tg: Option<Targets>, phi: bool, inner: Option<Targets>, u: State)
    requires Ready(s, tg) && Inside(s, phi, inner, u) && Ready(u, inner) && u.cur == |s.blocks| + 2
    ensures Ready(u, tg) && Leaves(s, u, tg)
    ensures PostBlock(u, tg, |s.blocks| + 3, phi)
  {
    LoopStarts(s, tg, phi, inner);
    GrowsTrans(s.blocks, LoopStart(s, phi).blocks, u.blocks);
  }

  /** A block after the loop that is still untouched, but for its phi node. */
  ghost predicate PostBlock(u: State, tg: Option<Targets>, post: nat, phi: bool) {
    && post < |u.blocks| && post != u.cur && !IsBreakTarget(tg, post) && NoEntry(u, tg, post)
    && u.blocks[post] == EMPTY.(phi := u.blocks[post].phi)
    && u.blocks[post].phi.Some? == phi
  }

  lemma PostKept(u: State, tg: Option<Targets>, needed: bool, els: State, r: GenValue, post: nat, phi: bool)
    requires Ready(u, tg) && Built(u, tg, needed, els, r) && PostBlock(u, tg, post, phi)
    ensures var done := CloseIf(els, r, Br(post)).(cur := post);
            && Leaves(u, done, tg) && Ready(done, tg) && Grows(els.blocks, done.blocks) && |done.blocks| == |els.blocks|
            && done.blocks[post] == u.blocks[post] && els.cur != post
  {
  }

  lemma IncomingGrows(s: State, b: nat, from: nat, v: GenValue)
    requires b < |s.blocks| && (v.Val? && s.blocks[b].phi.Some? ==> from !in s.blocks[b].phi.value)
    ensures var t := Incoming(s, b, from, v);
            && Grows(s.blocks, t.blocks) && |t.blocks| == |s.blocks| && t.cur == s.cur
            && t.blocks[b] == s.blocks[b].(phi := t.blocks[b].phi) && t.blocks[b].phi.Some? == s.blocks[b].phi.Some?
            && (t.blocks[b].phi.Some? ==> forall x :: x in t.blocks[b].phi.value ==> x == from || x in s.blocks[b].phi.value)
            && (forall c :: 0 <= c < |s.blocks| && c != b ==> t.blocks[c] == s.blocks[c])
            && (!v.Val? ==> t == s)
            && (v.Val? && s.blocks[b].phi.Some? ==> from in t.blocks[b].phi.value && t.blocks[b].phi.value[from] == v.op)
  {
  }

  /** The phi node of a block has no entry for the given block. */
  ghost predicate Unlisted(s: State, post: nat, b: nat) {
    post < |s.blocks| && s.blocks[post].phi.Some? ==> b !in s.blocks[post].phi.value
  }

  /** Control leaves the loop through the block after it, whose phi node then knows the
      value of the body and of the else clause. */
  lemma LoopEnds(s: State, tg: Option<Targets>, u: State, els: State, r: GenValue, post: nat, jumps: bool, needed: bool,
                 from: nat, l: GenValue)
    requires Leaves(s, u, tg) && Ready(s, tg) && Ready(u, tg) && Built(u, tg, needed, els, r)
    requires |s.blocks| <= post && |s.blocks| <= u.cur && |s.blocks| <= |u.blocks| && PostBlock(u, tg, post, needed && !jumps)
    requires Unlisted(u, post, els.cur) && (!l.NoValue? ==> Unlisted(u, post, from) && from != els.cur)
    ensures var (end, v) := LoopEnd(els, post, jumps, needed, from, l, els.cur, r);
            && Leaves(s, end, tg) && |s.blocks| <= |end.blocks| && end.cur == post
            && Grows(CloseIf(els, r, Br(post)).blocks, end.blocks)
            && Grows(els.blocks, end.blocks)
            && (!jumps ==> Ready(end, tg) && end.blocks[post] == EMPTY.(phi := end.blocks[post].phi))
            && (!jumps ==> end.blocks[post].phi.Some? == needed)
            && (jumps ==> end.blocks[post] == EMPTY.(term := Some(Unreachable)))
            && (!jumps && needed ==>
                  && (l.Val? ==> from in end.blocks[post].phi.value && end.blocks[post].phi.value[from] == l.op)
                  && (r.Val? ==> els.cur in end.blocks[post].phi.value && end.blocks[post].phi.value[els.cur] == r.op))
  {
    hide Leaves, Grows, Agrees, CloseIf, Incoming;
    var done := CloseIf(els, r, Br(post)).(cur := post);
    PostKept(u, tg, needed, els, r, post, needed && !jumps);
    LeavesTrans(s, u, done, tg, tg);
    if jumps {
      assert Leaves(s, Close(done, Unreachable), tg) && Grows(done.blocks, Close(done, Unreachable).blocks) by {
        CloseNew(s, tg, done);
      }
      GrowsTrans(els.blocks, done.blocks, Close(done, Unreachable).blocks);
    } else if needed {
      var mid := Incoming(done, post, from, l);
      var end := Incoming(mid, post, els.cur, r);
      IncomingGrows(done, post, from, l);
      IncomingGrows(mid, post, els.cur, r);
      assert end == LoopEnd(els, post, jumps, needed, from, l, els.cur, r).0;
      GrowsTrans(done.blocks, mid.blocks, end.blocks);
      GrowsTrans(els.blocks, done.blocks, end.blocks);
      NewPhiLeaves(s, tg, done, end);
      PhiKeeps(mid, end, post, from);
    } else {
      GrowsRefl(done.blocks);
    }
  }

  lemma GrowsRefl(p: seq<Block>)
    ensures Grows(p, p)
  {
  }

  lemma PhiKeeps(s: State, t: State, post: nat, from: nat)
    requires Grows(s.blocks, t.blocks) && post < |s.blocks| && s.blocks[post].phi.Some?
    ensures t.blocks[post].phi.Some?
    ensures from in s.blocks[post].phi.value ==>
              from in t.blocks[post].phi.value && t.blocks[post].phi.value[from] == s.blocks[post].phi.value[from]
  {
    assert Agrees(s.blocks[post], t.blocks[post]);
  }

  lemma CloseNew(s: State, tg: Option<Targets>, t: State)
    requires Leaves(s, t, tg) && Ready(t, tg) && |s.blocks| <= t.cur
    ensures Leaves(s, Close(t, Unreachable), tg) && Grows(t.blocks, Close(t, Unreachable).blocks)
  {
  }

  lemma {:induction false} CheckedAnywhere(e: Expr, inLoop: bool)
    requires Checked(e, inLoop)
    ensures Checked(e, true)
  {
    match e
    case Seq(es) =>
      forall i | 0 <= i < |es|
        ensures Checked(es[i], true)
      {
        CheckedAnywhere(es[i], inLoop);
      }
    case If(c, l, r) => CheckedAnywhere(c, inLoop); CheckedAnywhere(l, inLoop); CheckedAnywhere(r, inLoop);
    case While(c, _, els) => CheckedAnywhere(c, inLoop); CheckedAnywhere(els, inLoop);
    case Repeat(_, c, els) => CheckedAnywhere(c, inLoop); CheckedAnywhere(els, inLoop);
    case Break(Some(v)) => CheckedAnywhere(v, inLoop);
    case _ =>
  }

  /** The condition and the body of a loop are checked as parts of that loop. */
  lemma LoopChecked(e: Expr, inLoop: bool)
    requires (e.While? || e.Repeat?) && Checked(e, inLoop)
    ensures Checked(e.cond, true) && !JumpsAway(e.cond) && Checked(e.body, true) && Checked(e.els, inLoop)
  {
    CheckedAnywhere(e.cond, inLoop);
  }

  lemma BuiltReady(s: State, tg: Option<Targets>, needed: bool, t: State, v: GenValue)
    requires Built(s, tg, needed, t, v) && !v.NoValue?
    ensures Ready(t, tg)
  {
  }

  lemma BuiltGrows(s: State, tg: Option<Targets>, needed: bool, t: State, v: GenValue)
    requires Built(s, tg, needed, t, v)
    ensures Grows(s.blocks, t.blocks) && |s.blocks| <= |t.blocks|
  {
  }

  /** A state at the start of one of the blocks of a loop, which are n to n + 3. */
  ghost predicate Starts(n: nat, tg: Option<Targets>, x: State) {
    Ready(x, tg) && n <= x.cur && n + 4 <= |x.blocks| && Cur(x) == EMPTY
  }

  /** Control comes out of the loop in the block after it, whose phi node, if the value is
      needed, has an entry for the value of the body and of the else clause.  If the loop is
      held to jump away, the block is there to say that control does not get to it. */
  ghost predicate EndsIn(t: LoopSteps, post: nat, jumps: bool, needed: bool) {
    && t.end.cur == post < |t.end.blocks|
    && (jumps ==> t.end.blocks[post] == EMPTY.(term := Some(Unreachable)))
    && (!jumps ==>
          var phi := t.end.blocks[post].phi;
          && t.end.blocks[post] == EMPTY.(phi := phi) && phi.Some? == needed
          && (needed && t.l.Val? ==> t.again.cur in phi.value && phi.value[t.again.cur] == t.l.op)
          && (needed && t.r.Val? ==> t.els.cur in phi.value && phi.value[t.els.cur] == t.r.op))
  }

  /** What holds of the states of a loop with the given parts and blocks n to n + 3. */
  ghost predicate LoopBuilt(s: State, tg: Option<Targets>, inner: Option<Targets>, e: Expr, cond: Expr, body: Expr, els: Expr,
                            needed: bool, t: LoopSteps)
  {
    var n, jumps := |s.blocks|, JumpsAway(e);
    && LoopFrame(inner, n)
    && Starts(n, inner, t.cond0) && Generated(t.cond0, inner, cond, true, t.cond, t.i)
    && Starts(n, inner, t.body0) && Generated(t.body0, inner, body, needed, t.body, t.l)
    && (!t.l.NoValue? ==> Generated(t.body, inner, cond, true, t.again, t.c))
    && Starts(n, tg, t.els0) && t.els0.cur == n + 2 && Generated(t.els0, tg, els, needed, t.els, t.r)
    && Generated(s, tg, e, needed, t.end, t.v)
    && (!jumps ==> t.v == if needed then Val(Use(Phi(n + 3))) else NotNeeded)
    && Grows(LoopStart(s, needed && !jumps).blocks, t.end.blocks)
    && Grows(t.cond.blocks, t.end.blocks) && Grows(t.body.blocks, t.end.blocks)
    && Grows(t.again.blocks, t.end.blocks) && Grows(t.els.blocks, t.end.blocks)
    && Grows(t.cond0.blocks, t.end.blocks) && Grows(t.body0.blocks, t.end.blocks) && Grows(t.els0.blocks, t.end.blocks)
    && Grows(CloseIf(t.els, t.r, Br(n + 3)).blocks, t.end.blocks)
    && EndsIn(t, n + 3, jumps, needed)
  }

  lemma AgainBuilds(inner: Option<Targets>, cond: Expr, body: Expr, needed: bool, t: LoopSteps)
    requires Ready(t.body0, inner) && Generated(t.body0, inner, body, needed, t.body, t.l) && AgainShape(inner, cond, t)
    requires !t.l.NoValue? ==> Generated(t.body, inner, cond, true, t.again, t.c)
    requires !JumpsAway(cond)
    ensures Built(t.body0, inner, true, t.again, t.c) && t.c.NoValue? == t.l.NoValue?
    ensures Grows(t.body.blocks, t.again.blocks)
  {
    hide Grows, Agrees, Gen;
    if !t.l.NoValue? {
      BuiltThen(t.body0, inner, t.body, t.l, needed, t.again, t.c, true);
    } else {
      GrowsRefl(t.body.blocks);
    }
  }

  lemma LeavesGrows(s: State, t: State, tg: Option<Targets>)
    requires Leaves(s, t, tg)
    ensures Grows(s.blocks, t.blocks)
  {
  }

  /** The end of either loop, once the else clause has been generated. */
  lemma LoopFinish(s: State, tg: Option<Targets>, inner: Option<Targets>, e: Expr, needed: bool, t: LoopSteps)
    requires Ready(s, tg) && LoopFrame(inner, |s.blocks|)
    requires Inside(s, needed && !JumpsAway(e), inner, t.els0) && Ready(t.els0, inner) && t.els0.cur == |s.blocks| + 2
    requires Ready(t.els0, tg) && Built(t.els0, tg, needed, t.els, t.r)
    requires !t.l.NoValue? ==> Unlisted(t.els0, |s.blocks| + 3, t.again.cur) && t.again.cur < |t.els0.blocks| && t.again.cur != |s.blocks| + 2
    requires (t.end, t.v) == LoopEnd(t.els, |s.blocks| + 3, JumpsAway(e), needed, t.again.cur, t.l, t.els.cur, t.r)
    ensures Generated(s, tg, e, needed, t.end, t.v)
    ensures !JumpsAway(e) ==> t.v == if needed then Val(Use(Phi(|s.blocks| + 3))) else NotNeeded
    ensures var n, jumps := |s.blocks|, JumpsAway(e);
            && Grows(LoopStart(s, needed && !jumps).blocks, t.end.blocks)
            && Grows(t.els0.blocks, t.end.blocks) && Grows(t.els.blocks, t.end.blocks)
            && Grows(CloseIf(t.els, t.r, Br(n + 3)).blocks, t.end.blocks)
            && EndsIn(t, n + 3, jumps, needed)
  {
    hide Leaves, Grows, Agrees, CloseIf, LoopStart, NoEntry, Sound, PostBlock;
    var n, jumps := |s.blocks|, JumpsAway(e);
    ElseReady(s, tg, needed && !jumps, inner, t.els0);
    LoopEnds(s, tg, t.els0, t.els, t.r, n + 3, jumps, needed, t.again.cur, t.l);
    LeavesGrows(t.els0, t.els, tg);
    GrowsTrans(t.els0.blocks, t.els.blocks, t.end.blocks);
    GrowsTrans(LoopStart(s, needed && !jumps).blocks, t.els0.blocks, t.end.blocks);
  }

  /** After the body and the condition that follows it, on to a spare block. */
  lemma AgainTurn(inner: Option<Targets>, n: nat, cond: Expr, body: Expr, needed: bool, t: LoopSteps, term: Terminator, b: nat)
    requires LoopFrame(inner, n) && n < b < n + 3 && n + 4 <= |t.body0.blocks|
    requires Ready(t.body0, inner) && Generated(t.body0, inner, body, needed, t.body, t.l) && AgainShape(inner, cond, t)
    requires !t.l.NoValue? ==> Generated(t.body, inner, cond, true, t.again, t.c)
    requires !JumpsAway(cond) && Spare(t.body0, inner, b)
    ensures var u := CloseIf(t.again, t.c, term).(cur := b);
            && Leaves(t.body0, u, inner) && Ready(u, inner) && |t.body0.blocks| <= |u.blocks| == |t.again.blocks|
            && Grows(t.body.blocks, u.blocks) && Grows(t.again.blocks, u.blocks) && Cur(u) == EMPTY
            && (forall c :: c != b && Spare(t.body0, inner, c) ==> Spare(u, inner, c))
            && (!t.l.NoValue? ==> Unlisted(u, n + 3, t.again.cur))
            && t.again.cur < |t.again.blocks| && (forall c :: Spare(t.body0, inner, c) ==> t.again.cur != c)
  {
    hide Leaves, Grows, Agrees;
    var u := CloseIf(t.again, t.c, term).(cur := b);
    AgainBuilds(inner, cond, body, needed, t);
    Turn(t.body0, inner, true, t.again, t.c, term, b);
    GrowsTrans(t.body.blocks, t.again.blocks, u.blocks);
  }

  lemma {:induction false} GenWhileBuilds(s: State, tg: Option<Targets>, e: Expr, needed: bool, t: LoopSteps)
    requires e.While? && Ready(s, tg) && Checked(e, tg.Some?) && WhileShape(s, tg, e, needed, t)
    ensures LoopBuilt(s, tg, Some(Targets(|s.blocks|, |s.blocks| + 3, |s.blocks| + 2)), e, e.cond, e.body, e.els, needed, t)
    decreases e, 0
  {
    hide Leaves, Grows, Agrees, Spare, NoEntry, Sound, Gen, LoopStart, LoopEnd, Unlisted, Inside, PostBlock, Ready, Built, Checked;
    var n := |s.blocks|;
    var inner := Some(Targets(n, n + 3, n + 2));
    LoopStarts(s, tg, needed && !JumpsAway(e), inner);
    LoopChecked(e, tg.Some?);
    GenBuilds(t.cond0, inner, e.cond, true);
    Turn(t.cond0, inner, true, t.cond, t.i, CondBr(t.i.Op(), n + 1, n + 2), n + 1);
    BuiltGrows(t.cond0, inner, true, t.cond, t.i);
    GenBuilds(t.body0, inner, e.body, needed);
    if !t.l.NoValue? {
      BuiltReady(t.body0, inner, needed, t.body, t.l);
      GenBuilds(t.body, inner, e.cond, true);
    }
    AgainTurn(inner, n, e.cond, e.body, needed, t, CondBr(t.c.Op(), n + 1, n + 3), n + 2);
    InsideStart(s, tg, needed && !JumpsAway(e), inner);
    InsideStep(s, needed && !JumpsAway(e), inner, t.cond0, t.body0);
    InsideStep(s, needed && !JumpsAway(e), inner, t.body0, t.els0);
    ElseReady(s, tg, needed && !JumpsAway(e), inner, t.els0);
    GenBuilds(t.els0, tg, e.els, needed);
    LoopFinish(s, tg, inner, e, needed, t);
    BuiltGrows(t.body0, inner, needed, t.body, t.l);
    WhileGrows(t);
  }

  lemma WhileGrows(t: LoopSteps)
    requires Grows(t.cond0.blocks, t.cond.blocks) && Grows(t.cond.blocks, t.body0.blocks) && Grows(t.body0.blocks, t.body.blocks)
    requires Grows(t.body.blocks, t.els0.blocks) && Grows(t.again.blocks, t.els0.blocks) && Grows(t.els0.blocks, t.end.blocks)
    ensures Grows(t.cond0.blocks, t.end.blocks) && Grows(t.cond.blocks, t.end.blocks) && Grows(t.body0.blocks, t.end.blocks)
    ensures Grows(t.body.blocks, t.end.blocks) && Grows(t.again.blocks, t.end.blocks)
  {
    hide Grows;
    LoopGrows(t.body.blocks, t.els0.blocks, t.end.blocks);
    LoopGrows(t.again.blocks, t.els0.blocks, t.end.blocks);
    LoopGrows(t.body0.blocks, t.body.blocks, t.end.blocks);
    LoopGrows(t.cond.blocks, t.body0.blocks, t.end.blocks);
    LoopGrows(t.cond0.blocks, t.cond.blocks, t.end.blocks);
  }

  lemma LoopGrows(p: seq<Block>, q: seq<Block>, r: seq<Block>)
    requires Grows(p, q) && Grows(q, r)
    ensures Grows(p, r)
  {
    GrowsTrans(p, q, r);
  }

  lemma {:induction false} GenRepeatBuilds(s: State, tg: Option<Targets>, e: Expr, needed: bool, t: LoopSteps)
    requires e.Repeat? && Ready(s, tg) && Checked(e, tg.Some?) && RepeatShape(s, tg, e, needed, t)
    ensures LoopBuilt(s, tg, Some(Targets(|s.blocks| + 1, |s.blocks| + 3, |s.blocks| + 2)), e, e.cond, e.body, e.els, needed, t)
    decreases e, 0
  {
    hide Leaves, Grows, Agrees, Spare, NoEntry, Sound, Gen, LoopStart, LoopEnd, Unlisted, Inside, PostBlock, Ready, Built, Checked, JumpsAway;
    var n := |s.blocks|;
    var inner := Some(Targets(n + 1, n + 3, n + 2));
    LoopStarts(s, tg, needed && !JumpsAway(e), inner);
    LoopChecked(e, tg.Some?);
    GenBuilds(t.body0, inner, e.body, needed);
    if !t.l.NoValue? {
      BuiltReady(t.body0, inner, needed, t.body, t.l);
      GenBuilds(t.body, inner, e.cond, true);
    }
    AgainTurn(inner, n, e.cond, e.body, needed, t, CondBr(t.c.Op(), n + 3, n), n + 1);
    GenBuilds(t.cond0, inner, e.cond, true);
    Turn(t.cond0, inner, true, t.cond, t.i, CondBr(t.i.Op(), n + 2, n), n + 2);
    BuiltGrows(t.cond0, inner, true, t.cond, t.i);
    InsideStart(s, tg, needed && !JumpsAway(e), inner);
    InsideStep(s, needed && !JumpsAway(e), inner, t.body0, t.cond0);
    InsideStep(s, needed && !JumpsAway(e), inner, t.cond0, t.els0);
    ElseReady(s, tg, needed && !JumpsAway(e), inner, t.els0);
    GenBuilds(t.els0, tg, e.els, needed);
    if !t.l.NoValue? {
      UnlistedKept(t.cond0, inner, t.els0, n + 3, t.again.cur);
    }
    LoopFinish(s, tg, inner, e, needed, t);
    LoopGrows(t.cond.blocks, t.els0.blocks, t.end.blocks);
    LoopGrows(t.cond0.blocks, t.cond.blocks, t.end.blocks);
    LoopGrows(t.body.blocks, t.cond0.blocks, t.end.blocks);
    LoopGrows(t.again.blocks, t.cond0.blocks, t.end.blocks);
  }

  /** Code that starts elsewhere adds no entry for an old block. */
  lemma UnlistedKept(s: State, tg: Option<Targets>, t: State, post: nat, b: nat)
    requires Ready(s, tg) && Leaves(s, t, tg) && IsBreakTarget(tg, post)
    requires Unlisted(s, post, b) && b < |s.blocks| && b != s.cur
    ensures Unlisted(t, post, b)
  {
  }
}

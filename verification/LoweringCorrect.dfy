/** The lowering is correct: running the generated blocks does what the structured program
    does, to the world and to the value, whether it ends or not. */
module LoweringCorrect {
  import opened ControlFlow
  import opened BasicBlocks
  import opened Lowering

  // ----- generated code inside a whole program -----

  /** The program has the code generated between two states, and the targets of the loop
      around it. */
  ghost predicate Embeds(p: seq<Block>, s: State, t: State, tg: Option<Targets>) {
    && s.cur < |t.blocks| <= |p|
    && Agrees(t.blocks[s.cur], p[s.cur])
    && (forall b :: |s.blocks| <= b < |t.blocks| ==> Agrees(t.blocks[b], p[b]))
    && (tg.Some? ==>
          && tg.value.cont < |p| && p[tg.value.cont].phi.None?
          && tg.value.brkNone < |p| && p[tg.value.brkNone].phi.None?
          && tg.value.brk < |t.blocks| && Agrees(t.blocks[tg.value.brk], p[tg.value.brk]))
  }

  /** The program's block ends where the state's open block does, with the terminator. */
  ghost predicate Ends(p: seq<Block>, s: State, term: Terminator) {
    s.cur < |p| && p[s.cur].instrs == Cur(s).instrs && p[s.cur].term == Some(term)
  }

  lemma AgreesTrans(p: Block, q: Block, r: Block)
    requires Agrees(p, q) && Agrees(q, r)
    ensures Agrees(p, r)
  {
  }

  /** Whether a block is among those made between two states, or the open one. */
  predicate Own(s: State, b: nat) {
    b == s.cur || |s.blocks| <= b
  }

  /** A piece of the code, generated on the way from s to t. */
  lemma Piece(p: seq<Block>, s: State, t: State, tg: Option<Targets>, x: State, y: State)
    requires Embeds(p, s, t, tg) && |s.blocks| <= |x.blocks| <= |y.blocks| <= |t.blocks| && x.cur < |y.blocks| && Own(s, x.cur)
    requires forall b :: 0 <= b < |y.blocks| && (Own(x, b) || IsBreakTarget(tg, b)) ==> Agrees(y.blocks[b], t.blocks[b])
    requires tg.Some? ==> tg.value.brk < |y.blocks|
    ensures Embeds(p, x, y, tg)
  {
    forall b | 0 <= b < |y.blocks| && (Own(x, b) || IsBreakTarget(tg, b))
      ensures Agrees(y.blocks[b], p[b])
    {
      AgreesTrans(y.blocks[b], t.blocks[b], p[b]);
    }
  }

  lemma EndsAt(p: seq<Block>, s: State, t: State, tg: Option<Targets>, x: State, term: Terminator, c: State)
    requires Embeds(p, s, t, tg) && Own(s, x.cur) && x.cur < |c.blocks| <= |t.blocks| && x.cur < |x.blocks|
    requires c.blocks[x.cur] == Cur(x).(term := Some(term)) && Agrees(c.blocks[x.cur], t.blocks[x.cur])
    ensures Ends(p, x, term)
  {
    AgreesTrans(c.blocks[x.cur], t.blocks[x.cur], p[x.cur]);
  }

  // ----- where the machine gets -----

  function At(s: State, regs: Regs, w: World): Conf {
    Conf(s.cur, |Cur(s).instrs|, regs, w)
  }

  /** Registers written before the state keep their values, but for one. */
  ghost predicate KeptBut(s: State, regs: Regs, regs': Regs, but: Option<Reg>) {
    forall r :: Older(Use(r), s) && but != Some(r) ==> Read(Use(r), regs') == Read(Use(r), regs)
  }

  ghost predicate Kept(s: State, regs: Regs, regs': Regs) {
    KeptBut(s, regs, regs', None)
  }

  /** The machine, started in state s, has got in n steps to where the outcome says: to the
      end of the code with the value, to a target of the loop around, or just far enough. */
  ghost predicate Arrives(p: seq<Block>, tg: Option<Targets>, s: State, t: State, v: GenValue, needed: bool,
                          regs: Regs, k: nat, out: Outcome, n: nat, d: Conf)
  {
    match out
    case Timeout => n >= k
    case Normal(x, w) =>
      && !v.NoValue? && d == At(t, d.regs, w) && Kept(s, regs, d.regs)
      && (needed ==> v.Val? && Read(v.op, d.regs) == x)
    case Broke(Some(x), w) =>
      && tg.Some? && d == Conf(tg.value.brk, 0, d.regs, w)
      && KeptBut(s, regs, d.regs, Some(Phi(tg.value.brk)))
      && (tg.value.brk < |p| && p[tg.value.brk].phi.Some? ==> Read(Use(Phi(tg.value.brk)), d.regs) == x)
    case Broke(None, w) => tg.Some? && d == Conf(tg.value.brkNone, 0, d.regs, w) && Kept(s, regs, d.regs)
    case Continued(w) => tg.Some? && d == Conf(tg.value.cont, 0, d.regs, w) && Kept(s, regs, d.regs) && n > 0
    case Lost => DeadEnd(p, d)
  }

  /** Control has got to where it was said not to get. */
  predicate DeadEnd(p: seq<Block>, d: Conf) {
    d.block < |p| && |p[d.block].instrs| <= d.index && p[d.block].term == Some(Unreachable)
  }

  lemma KeptTrans(s: State, t: State, a: Regs, b: Regs, c: Regs, but: Option<Reg>)
    requires Kept(s, a, b) && KeptBut(t, b, c, but)
    requires |s.blocks| <= |t.blocks| && s.cur < |s.blocks|
    requires |s.blocks| <= t.cur || (t.cur == s.cur && |Cur(s).instrs| <= |Cur(t).instrs|)
    ensures KeptBut(s, a, c, but)
  {
    forall r | Older(Use(r), s) && but != Some(r)
      ensures Read(Use(r), c) == Read(Use(r), a)
    {
      assert Older(Use(r), t);
    }
  }

  // ----- single branches -----

  lemma TakeBr(p: seq<Block>, ev: Primitives, s: State, target: nat, regs: Regs, w: World)
    requires Ends(p, s, Br(target)) && target < |p| && p[target].phi.None?
    ensures Reaches(p, ev, At(s, regs, w), 1, Conf(target, 0, regs, w))
  {
    assert Step(p, ev, At(s, regs, w)) == Next(Conf(target, 0, regs, w));
    assert Reaches(p, ev, Conf(target, 0, regs, w), 0, Conf(target, 0, regs, w));
  }

  lemma TakeCondBr(p: seq<Block>, ev: Primitives, s: State, c: Operand, yes: nat, no: nat, regs: Regs, w: World, target: nat)
    requires Ends(p, s, CondBr(c, yes, no)) && target == (if Read(c, regs) != 0 then yes else no)
    requires target < |p| && p[target].phi.None?
    ensures Reaches(p, ev, At(s, regs, w), 1, Conf(target, 0, regs, w))
  {
    assert Step(p, ev, At(s, regs, w)) == Next(Conf(target, 0, regs, w));
    assert Reaches(p, ev, Conf(target, 0, regs, w), 0, Conf(target, 0, regs, w));
  }

  /** A branch into a block that may have a phi node, with an entry for the value. */
  lemma TakeIntoPost(p: seq<Block>, ev: Primitives, s: State, term: Terminator, target: nat, v: GenValue, regs: Regs, w: World)
    returns (regs': Regs)
    requires Ends(p, s, term) && target < |p|
    requires term == Br(target) || (term.CondBr? && target == if Read(term.c, regs) != 0 then term.yes else term.no)
    requires p[target].phi.Some? ==> v.Val? && s.cur in p[target].phi.value && p[target].phi.value[s.cur] == v.op
    ensures regs' == if p[target].phi.Some? then regs[Phi(target) := Read(v.op, regs)] else regs
    ensures Reaches(p, ev, At(s, regs, w), 1, Conf(target, 0, regs', w))
  {
    regs' := if p[target].phi.Some? then regs[Phi(target) := Read(v.op, regs)] else regs;
    assert Step(p, ev, At(s, regs, w)) == Next(Conf(target, 0, regs', w));
    assert Reaches(p, ev, Conf(target, 0, regs', w), 0, Conf(target, 0, regs', w));
  }

  // ----- leaves and sequences -----

  lemma SimPrim(p: seq<Block>, ev: Primitives, s: State, tg: Option<Targets>, op: nat, needed: bool, regs: Regs, w: World, k: nat)
    returns (n: nat, d: Conf)
    requires Ready(s, tg) && Embeds(p, s, Emit(s, op), tg)
    ensures Reaches(p, ev, At(s, regs, w), n, d)
    ensures var (t, v) := Gen(s, tg, Prim(op), needed);
            Arrives(p, tg, s, t, v, needed, regs, k, Eval(Itself, ev, Prim(op), w, k), n, d)
  {
    var i := |Cur(s).instrs|;
    var r := ev(op, w);
    n, d := 1, Conf(s.cur, i + 1, regs[Instr(s.cur, i) := r.1], r.0);
    assert Cur(Emit(s, op)).instrs[i] == op;
    assert p[s.cur].instrs[i] == op;
    assert Step(p, ev, At(s, regs, w)) == Next(d);
    assert Reaches(p, ev, d, 0, d);
  }

  /** What follows code that ran to its end carries its outcome over. */
  lemma ArrivesLater(p: seq<Block>, tg: Option<Targets>, s: State, s1: State, t: State, v: GenValue, needed: bool,
                     regs: Regs, regs1: Regs, k: nat, out: Outcome, n: nat, m: nat, d: Conf)
    requires Kept(s, regs, regs1) && |s.blocks| <= |s1.blocks| && s.cur < |s.blocks|
    requires |s.blocks| <= s1.cur || (s1.cur == s.cur && |Cur(s).instrs| <= |Cur(s1).instrs|)
    requires Arrives(p, tg, s1, t, v, needed, regs1, k, out, m, d)
    ensures Arrives(p, tg, s, t, v, needed, regs, k, out, n + m, d)
  {
    if out.Normal? || out.Continued? || (out.Broke? && out.bv.None?) {
      KeptTrans(s, s1, regs, regs1, d.regs, None);
    } else if out.Broke? {
      KeptTrans(s, s1, regs, regs1, d.regs, Some(Phi(tg.value.brk)));
    }
  }

  /** The open block of later code of the same sequence is a new one or has grown. */
  lemma BuiltMoves(s: State, tg: Option<Targets>, needed: bool, t: State, v: GenValue)
    requires Ready(s, tg) && Built(s, tg, needed, t, v)
    ensures |s.blocks| <= |t.blocks| && s.cur < |s.blocks|
    ensures |s.blocks| <= t.cur || (t.cur == s.cur && |Cur(s).instrs| <= |Cur(t).instrs|)
  {
  }

  lemma {:induction false} Simulates(p: seq<Block>, ev: Primitives, s: State, tg: Option<Targets>, e: Expr, needed: bool,
                                     regs: Regs, w: World, k: nat)
    returns (n: nat, d: Conf)
    requires Ready(s, tg) && Checked(e, tg.Some?) && Embeds(p, s, Gen(s, tg, e, needed).0, tg)
    ensures Reaches(p, ev, At(s, regs, w), n, d)
    ensures var (t, v) := Gen(s, tg, e, needed); Arrives(p, tg, s, t, v, needed, regs, k, Eval(Itself, ev, e, w, k), n, d)
    decreases k, e, 5
  {
    hide GenIf, GenWhile, GenRepeat, GenSeq, EvalSeq, EvalWhile, EvalRepeat, EvalRepeatCond;
    match e
    case Lit(_) => n, d := 0, At(s, regs, w);
    case Prim(op) => n, d := SimPrim(p, ev, s, tg, op, needed, regs, w, k);
    case Seq(es) => n, d := SimSeq(p, ev, s, tg, es, needed, regs, w, k);
    case If(_, _, _) =>
      GenIfShape(s, tg, e, needed);
      n, d := SimIf(p, ev, s, tg, e, needed, GenIf(s, tg, e, needed), regs, w, k);
    case While(_, _, _) =>
      GenWhileShape(s, tg, e, needed);
      n, d := SimLoop(p, ev, s, tg, e, needed, GenWhile(s, tg, e, needed), regs, w, k);
    case Repeat(_, _, _) =>
      GenRepeatShape(s, tg, e, needed);
      n, d := SimLoop(p, ev, s, tg, e, needed, GenRepeat(s, tg, e, needed), regs, w, k);
    case Break(None) => n, d := SimJump(p, ev, s, tg, tg.value.brkNone, regs, w);
    case Continue => n, d := SimJump(p, ev, s, tg, tg.value.cont, regs, w);
    case Break(Some(value)) => n, d := SimBreak(p, ev, s, tg, value, needed, regs, w, k);
  }

  lemma SimJump(p: seq<Block>, ev: Primitives, s: State, tg: Option<Targets>, target: nat, regs: Regs, w: World)
    returns (n: nat, d: Conf)
    requires Ready(s, tg) && tg.Some? && (target == tg.value.cont || target == tg.value.brkNone)
    requires Embeds(p, s, Close(s, Br(target)), tg)
    ensures Reaches(p, ev, At(s, regs, w), n, d) && d == Conf(target, 0, regs, w) && n > 0
  {
    n, d := 1, Conf(target, 0, regs, w);
    TakeBr(p, ev, s, target, regs, w);
  }

  lemma {:induction false} SimSeq(p: seq<Block>, ev: Primitives, s: State, tg: Option<Targets>, es: seq<Expr>, needed: bool,
                                  regs: Regs, w: World, k: nat)
    returns (n: nat, d: Conf)
    requires Ready(s, tg) && Checked(Seq(es), tg.Some?) && Embeds(p, s, GenSeq(s, tg, es, needed).0, tg)
    ensures Reaches(p, ev, At(s, regs, w), n, d)
    ensures var (t, v) := GenSeq(s, tg, es, needed); Arrives(p, tg, s, t, v, needed, regs, k, EvalSeq(Itself, ev, es, w, k), n, d)
    decreases k, es, 0
  {
    hide Gen, Built, Ready, Embeds, Arrives, Checked, JumpsAway, KeptBut;
    SeqChecked(es, tg.Some?);
    if |es| == 1 {
      n, d := Simulates(p, ev, s, tg, es[0], needed, regs, w, k);
    } else {
      var (s1, v1) := Gen(s, tg, es[0], false);
      var rest := es[1..];
      var (t, v) := GenSeq(s1, tg, rest, needed);
      GenBuilds(s, tg, es[0], false);
      BuiltReady(s, tg, false, s1, v1);
      GenSeqBuilds(s1, tg, rest, needed);
      SeqPieces(p, s, s1, t, tg, false, v1, needed, v);
      n, d := Simulates(p, ev, s, tg, es[0], false, regs, w, k);
      var r := Eval(Itself, ev, es[0], w, k);
      if r.Normal? {
        assert d == At(s1, d.regs, r.w) && Kept(s, regs, d.regs) by { ArrivesNormal(p, tg, s, s1, v1, false, regs, k, r, n, d); }
        var m, f := SimSeq(p, ev, s1, tg, rest, needed, d.regs, r.w, k);
        BuiltMoves(s, tg, false, s1, v1);
        ArrivesLater(p, tg, s, s1, t, v, needed, regs, d.regs, k, EvalSeq(Itself, ev, rest, r.w, k), n, m, f);
        ReachesTrans(p, ev, At(s, regs, w), n, d, m, f);
        n, d := n + m, f;
      } else {
        ArrivesAbrupt(p, tg, s, s1, v1, false, t, v, needed, regs, k, r, n, d);
      }
    }
  }

  lemma SeqChecked(es: seq<Expr>, inLoop: bool)
    requires Checked(Seq(es), inLoop)
    ensures es != [] && Checked(es[0], inLoop)
    ensures |es| > 1 ==> !JumpsAway(es[0]) && Checked(Seq(es[1..]), inLoop)
  {
    if |es| > 1 {
      var rest := es[1..];
      assert forall i :: 0 <= i < |rest| ==> rest[i] == es[i + 1];
    }
  }

  lemma ArrivesNormal(p: seq<Block>, tg: Option<Targets>, s: State, t: State, v: GenValue, needed: bool,
                      regs: Regs, k: nat, out: Outcome, n: nat, d: Conf)
    requires Arrives(p, tg, s, t, v, needed, regs, k, out, n, d) && out.Normal?
    ensures !v.NoValue? && d == At(t, d.regs, out.w) && Kept(s, regs, d.regs)
    ensures needed ==> v.Val? && Read(v.op, d.regs) == out.v
  {
  }

  /** An outcome that leaves the code does not depend on how the code goes on. */
  lemma ArrivesAbrupt(p: seq<Block>, tg: Option<Targets>, s: State, t: State, v: GenValue, needed: bool,
                      t': State, v': GenValue, needed': bool, regs: Regs, k: nat, out: Outcome, n: nat, d: Conf)
    requires Arrives(p, tg, s, t, v, needed, regs, k, out, n, d) && !out.Normal?
    ensures Arrives(p, tg, s, t', v', needed', regs, k, out, n, d)
  {
  }

  lemma SeqPieces(p: seq<Block>, s: State, s1: State, t: State, tg: Option<Targets>, n: bool, v1: GenValue, m: bool, v: GenValue)
    requires Ready(s, tg) && Built(s, tg, n, s1, v1) && !v1.NoValue? && Built(s1, tg, m, t, v) && Embeds(p, s, t, tg)
    ensures Embeds(p, s, s1, tg) && Embeds(p, s1, t, tg)
  {
    Piece(p, s, t, tg, s, s1);
    assert forall b :: 0 <= b < |t.blocks| ==> Agrees(t.blocks[b], t.blocks[b]);
    Piece(p, s, t, tg, s1, t);
  }

  lemma {:induction false} SimBreak(p: seq<Block>, ev: Primitives, s: State, tg: Option<Targets>, value: Expr, needed: bool,
                                    regs: Regs, w: World, k: nat)
    returns (n: nat, d: Conf)
    requires Ready(s, tg) && Checked(Break(Some(value)), tg.Some?) && Embeds(p, s, Gen(s, tg, Break(Some(value)), needed).0, tg)
    ensures Reaches(p, ev, At(s, regs, w), n, d)
    ensures var (t, v) := Gen(s, tg, Break(Some(value)), needed);
            Arrives(p, tg, s, t, v, needed, regs, k, Eval(Itself, ev, Break(Some(value)), w, k), n, d)
    decreases k, value, 6
  {
    hide Arrives, Kept, KeptBut, Ends, Embeds, Leaves, Grows, Agrees;
    var brk := tg.value.brk;
    var (t, v) := Gen(s, tg, value, true);
    GenBuilds(s, tg, value, true);
    assert Gen(s, tg, Break(Some(value)), needed) == (Close(Incoming(t, brk, t.cur, v), Br(brk)), NoValue);
    BreakPieces(p, s, t, tg, v);
    n, d := Simulates(p, ev, s, tg, value, true, regs, w, k);
    var r := Eval(Itself, ev, value, w, k);
    var end := Close(Incoming(t, brk, t.cur, v), Br(brk));
    if r.Normal? {
      ArrivesNormal(p, tg, s, t, v, true, regs, k, r, n, d);
      var regs1 := d.regs;
      var regs' := TakeIntoPost(p, ev, t, Br(brk), brk, v, regs1, r.w);
      ReachesTrans(p, ev, At(s, regs, w), n, d, 1, Conf(brk, 0, regs', r.w));
      AtBreak(p, tg, s, end, needed, regs, regs1, regs', k, r.v, r.w, n + 1);
      n, d := n + 1, Conf(brk, 0, regs', r.w);
    } else {
      ArrivesAbrupt(p, tg, s, t, v, true, end, NoValue, needed, regs, k, r, n, d);
    }
  }

  /** Arrival at the break target, with the value in its phi node if it has one. */
  lemma AtBreak(p: seq<Block>, tg: Option<Targets>, s: State, end: State, needed: bool,
                regs: Regs, regs1: Regs, regs2: Regs, k: nat, v: Value, w: World, n: nat)
    requires tg.Some? && tg.value.brk < |p| && Kept(s, regs, regs1)
    requires regs2 == if p[tg.value.brk].phi.Some? then regs1[Phi(tg.value.brk) := v] else regs1
    ensures Arrives(p, tg, s, end, NoValue, needed, regs, k, Broke(Some(v), w), n, Conf(tg.value.brk, 0, regs2, w))
  {
    forall x | Older(Use(x), s) && x != Phi(tg.value.brk)
      ensures Read(Use(x), regs2) == Read(Use(x), regs)
    {
      assert Read(Use(x), regs1) == Read(Use(x), regs);
    }
  }

  lemma BreakPieces(p: seq<Block>, s: State, t: State, tg: Option<Targets>, v: GenValue)
    requires tg.Some? && Ready(s, tg) && Built(s, tg, true, t, v) && v.Val?
    requires Embeds(p, s, Close(Incoming(t, tg.value.brk, t.cur, v), Br(tg.value.brk)), tg)
    ensures Embeds(p, s, t, tg) && Ends(p, t, Br(tg.value.brk)) && tg.value.brk < |p|
    ensures var phi := p[tg.value.brk].phi; phi.Some? ==> t.cur in phi.value && phi.value[t.cur] == v.op
  {
    var end := Close(Incoming(t, tg.value.brk, t.cur, v), Br(tg.value.brk));
    BreakEntry(s, tg, t, v);
    Piece(p, s, end, tg, s, t);
    assert end.blocks[t.cur] == Cur(t).(term := Some(Br(tg.value.brk)));
    assert Agrees(end.blocks[t.cur], p[t.cur]);
    assert Agrees(end.blocks[tg.value.brk], p[tg.value.brk]);
  }

  // ----- conditionals -----

  /** Every block but one agrees. */
  ghost predicate GrowsBut(p: seq<Block>, q: seq<Block>, x: nat) {
    |p| <= |q| && forall b :: 0 <= b < |p| && b != x ==> Agrees(p[b], q[b])
  }

  lemma GrowsButTrans(p: seq<Block>, q: seq<Block>, r: seq<Block>, x: nat)
    requires Grows(p, q) && GrowsBut(q, r, x)
    ensures GrowsBut(p, r, x)
  {
    forall b | 0 <= b < |p| && b != x
      ensures Agrees(p[b], r[b])
    {
      AgreesTrans(p[b], q[b], r[b]);
    }
  }

  /** The code of a conditional in the program. */
  ghost predicate IfCode(p: seq<Block>, s: State, tg: Option<Targets>, e: Expr, needed: bool, t: IfSteps) {
    var n := |t.cond.blocks|;
    && n + 1 < |p| && p[n].phi.None? && p[n + 1].phi.None?
    && Embeds(p, s, t.cond, tg) && Ends(p, t.cond, CondBr(t.c.Op(), n, n + 1))
    && Embeds(p, t.left0, t.left, tg) && (!t.l.NoValue? ==> Ends(p, t.left, Br(n + 2)))
    && Embeds(p, t.right0, t.right, tg) && (!t.r.NoValue? ==> Ends(p, t.right, Br(n + 2)))
    && (!JumpsAway(e) ==>
          && n + 2 < |p| && p[n + 2].phi.Some? == needed && t.end.cur == n + 2 && Cur(t.end).instrs == []
          && (needed && t.l.Val? ==> t.left.cur in p[n + 2].phi.value && p[n + 2].phi.value[t.left.cur] == t.l.op)
          && (needed && t.r.Val? ==> t.right.cur in p[n + 2].phi.value && p[n + 2].phi.value[t.right.cur] == t.r.op))
  }

  /** The block after a conditional; a conditional that jumps away has none. */
  function PostOf(e: Expr, t: IfSteps): nat {
    if JumpsAway(e) then |t.end.blocks| else |t.cond.blocks| + 2
  }

  lemma IfGrows(s: State, tg: Option<Targets>, e: Expr, needed: bool, t: IfSteps)
    requires e.If? && Ready(s, tg) && Checked(e, tg.Some?) && IfShape(s, tg, e, needed, t)
    ensures var n, x := |t.cond.blocks|, PostOf(e, t);
            && GrowsBut(t.cond.blocks, t.end.blocks, x)
            && GrowsBut(t.left0.blocks, t.end.blocks, x) && GrowsBut(t.left.blocks, t.end.blocks, x)
            && GrowsBut(t.right0.blocks, t.end.blocks, x) && GrowsBut(t.right.blocks, t.end.blocks, x)
            && GrowsBut(CloseIf(t.right, t.r, Br(n + 2)).blocks, t.end.blocks, x)
            && |t.left.blocks| <= |t.end.blocks| && |t.right.blocks| <= |t.end.blocks|
            && (!JumpsAway(e) ==> n + 2 < |t.left0.blocks| <= |t.right0.blocks| <= |t.right.blocks| && CloseIf(t.right, t.r, Br(n + 2)).blocks[n + 2] == EMPTY && t.left.cur != t.right.cur)
            && (!JumpsAway(e) ==> t.left.cur != n + 2 && t.right.cur != n + 2)
  {
    hide Leaves, Grows, Agrees, NoEntry, Sound, Gen, GenBranch, Close, CloseIf, NewBlocks, IfEnd, GrowsBut;
    var n := |t.cond.blocks|;
    var jumps := JumpsAway(e);
    var done := CloseIf(t.right, t.r, Br(n + 2));
    GenIfBuilds(s, tg, e, needed, t);
    Fork(t.cond, tg, if jumps then 2 else 3, CondBr(t.c.Op(), n, n + 1));
    Turn(t.left0, tg, needed, t.left, t.l, Br(n + 2), n + 1);
    LeavesGrows(t.cond, t.left0, tg);
    LeavesGrows(t.left0, t.left, tg);
    LeavesGrows(t.right0, t.right, tg);
    if jumps {
      assert done == t.right by { GenBranchBuilds(t.right0, tg, e.right, needed, t.c.Val? && t.c.op.Const? && t.c.op.v != 0, needed && !jumps); CloseIfNoValue(t.right, t.r, Br(n + 2)); }
      GrowsRefl(t.right.blocks);
      IfEndGrows(done, |t.end.blocks|, false, t);
    } else {
      Turn(t.right0, tg, needed, t.right, t.r, Br(n + 2), n + 2);
      IfEndGrows(done, n + 2, needed, t);
      SpareKept(t.right0, tg, needed, t.right, t.r, n + 2);
      SpareKept(t.left0, tg, needed, t.left, t.l, n + 2);
      SpareStays(t.right, tg, t.r, Br(n + 2), n + 2);
    }
    var x := PostOf(e, t);
    assert GrowsBut(done.blocks, t.end.blocks, x);
    GrowsButTrans(t.right.blocks, done.blocks, t.end.blocks, x);
    GrowsButTrans(t.right0.blocks, t.right.blocks, t.end.blocks, x);
    GrowsButTrans(t.left.blocks, t.right0.blocks, t.end.blocks, x);
    GrowsButTrans(t.left0.blocks, t.left.blocks, t.end.blocks, x);
    GrowsButTrans(t.cond.blocks, t.left0.blocks, t.end.blocks, x);
  }

  lemma SpareStays(s: State, tg: Option<Targets>, v: GenValue, term: Terminator, b: nat)
    requires Spare(s, tg, b)
    ensures CloseIf(s, v, term).blocks[b] == EMPTY
  {
  }

  lemma IfEndGrows(done: State, post: nat, needed: bool, t: IfSteps)
    ensures GrowsBut(done.blocks, done.blocks, post)
    ensures GrowsBut(done.blocks, IfEnd(done.(cur := post), post, needed, t).blocks, post)
  {
  }

  lemma PieceBut(p: seq<Block>, s: State, t: State, tg: Option<Targets>, x: State, y: State, post: nat)
    requires Embeds(p, s, t, tg) && |s.blocks| <= |x.blocks| <= |y.blocks| && x.cur < |y.blocks| && Own(s, x.cur)
    requires GrowsBut(y.blocks, t.blocks, post) && x.cur != post && (|s.blocks| <= post < |x.blocks| || |y.blocks| <= post)
    requires tg.Some? ==> tg.value.brk < |s.blocks|
    ensures Embeds(p, x, y, tg)
  {
    hide Agrees, Embeds;
    Piece(p, s, t, tg, x, y);
  }

  lemma EndsBut(p: seq<Block>, s: State, t: State, tg: Option<Targets>, x: State, term: Terminator, c: State, post: nat)
    requires Embeds(p, s, t, tg) && Own(s, x.cur) && x.cur < |x.blocks| && x.cur < |c.blocks| && x.cur != post
    requires c.blocks[x.cur] == Cur(x).(term := Some(term)) && GrowsBut(c.blocks, t.blocks, post)
    ensures Ends(p, x, term)
  {
    EndsAt(p, s, t, tg, x, term, c);
  }

  lemma Closes(x: State, v: GenValue, term: Terminator)
    requires x.cur < |x.blocks| && !v.NoValue?
    ensures x.cur < |CloseIf(x, v, term).blocks| && CloseIf(x, v, term).blocks[x.cur] == Cur(x).(term := Some(term))
  {
  }

  lemma ForkCloses(x: State, k: nat, term: Terminator)
    requires x.cur < |x.blocks|
    ensures var y := Close(NewBlocks(x, k), term);
            && |y.blocks| == |x.blocks| + k && y.blocks[x.cur] == Cur(x).(term := Some(term))
            && forall b :: |x.blocks| <= b < |y.blocks| ==> y.blocks[b] == EMPTY
  {
  }

  lemma NoPhi(p: seq<Block>, s: State, t: State, tg: Option<Targets>, c: State, post: nat, b: nat)
    requires Embeds(p, s, t, tg) && Own(s, b) && b < |c.blocks| && b != post && GrowsBut(c.blocks, t.blocks, post)
    requires c.blocks[b].phi.None?
    ensures b < |p| && p[b].phi.None?
  {
    AgreesTrans(c.blocks[b], t.blocks[b], p[b]);
  }

  /** A branch of a conditional. */
  lemma ArmPieces(p: seq<Block>, s: State, t: State, tg: Option<Targets>, x0: State, x: State, v: GenValue, needed: bool,
                  post: nat, term: Terminator)
    requires Embeds(p, s, t, tg) && Built(x0, tg, needed, x, v) && (tg.Some? ==> tg.value.brk < |s.blocks|)
    requires |s.blocks| <= x0.cur < |x0.blocks| && |s.blocks| <= |x0.blocks|
    requires GrowsBut(x.blocks, t.blocks, post) && GrowsBut(CloseIf(x, v, term).blocks, t.blocks, post)
    requires x0.cur != post && x.cur != post && (|s.blocks| <= post < |x0.blocks| || |x.blocks| <= post)
    ensures Embeds(p, x0, x, tg) && (!v.NoValue? ==> Ends(p, x, term))
  {
    hide Leaves, Grows, Agrees, GrowsBut, Embeds, Ends, CloseIf;
    PieceBut(p, s, t, tg, x0, x, post);
    if !v.NoValue? {
      Closes(x, v, term);
      EndsBut(p, s, t, tg, x, term, CloseIf(x, v, term), post);
    }
  }

  lemma IfPieces(p: seq<Block>, s: State, tg: Option<Targets>, e: Expr, needed: bool, t: IfSteps)
    requires e.If? && Ready(s, tg) && Checked(e, tg.Some?) && IfShape(s, tg, e, needed, t) && Embeds(p, s, t.end, tg)
    ensures IfCode(p, s, tg, e, needed, t)
  {
    hide Leaves, Grows, Agrees, NoEntry, Sound, Gen, GenBranch, IfEnd, GrowsBut, Embeds, Ends, Close, CloseIf, NewBlocks, Spare;
    var n, x := |t.cond.blocks|, PostOf(e, t);
    var k := if JumpsAway(e) then 2 else 3;
    var jumps := JumpsAway(e);
    GenIfBuilds(s, tg, e, needed, t);
    IfGrows(s, tg, e, needed, t);
    ForkCloses(t.cond, k, CondBr(t.c.Op(), n, n + 1));
    assert Embeds(p, s, t.cond, tg) by { PieceBut(p, s, t.end, tg, s, t.cond, x); }
    assert Ends(p, t.cond, CondBr(t.c.Op(), n, n + 1)) by { EndsBut(p, s, t.end, tg, t.cond, CondBr(t.c.Op(), n, n + 1), t.left0, x); }
    ReadyOpen(s, tg);
    ArmPieces(p, s, t.end, tg, t.left0, t.left, t.l, needed, x, Br(n + 2));
    ArmPieces(p, s, t.end, tg, t.right0, t.right, t.r, needed, x, Br(n + 2));
    NoPhi(p, s, t.end, tg, t.left0, x, n);
    NoPhi(p, s, t.end, tg, t.left0, x, n + 1);
    if !jumps {
      IfPost(p, s, tg, needed, t);
    }
  }

  lemma IfPost(p: seq<Block>, s: State, tg: Option<Targets>, needed: bool, t: IfSteps)
    requires Embeds(p, s, t.end, tg) && |s.blocks| <= |t.cond.blocks| && t.left.cur != t.right.cur
    requires var n := |t.cond.blocks|;
             var done := CloseIf(t.right, t.r, Br(n + 2));
             && n + 2 < |t.right.blocks| && done.blocks[n + 2] == EMPTY
             && t.end == IfEnd(done.(cur := n + 2), n + 2, needed, t)
    ensures var n := |t.cond.blocks|;
            && n + 2 < |p| && p[n + 2].phi.Some? == needed && t.end.cur == n + 2 && Cur(t.end).instrs == []
            && (needed && t.l.Val? ==> t.left.cur in p[n + 2].phi.value && p[n + 2].phi.value[t.left.cur] == t.l.op)
            && (needed && t.r.Val? ==> t.right.cur in p[n + 2].phi.value && p[n + 2].phi.value[t.right.cur] == t.r.op)
  {
    assert Agrees(t.end.blocks[t.end.cur], p[t.end.cur]);
  }

  /** Code that goes on, at its end, in the block after a conditional or a loop. */
  ghost predicate ToPost(p: seq<Block>, s: State, x0: State, x: State, v: GenValue, needed: bool, post: nat, end: State, endv: GenValue) {
    && |s.blocks| <= x0.cur && |s.blocks| <= |x0.blocks| && s.cur < |s.blocks| && Cur(x0).instrs == []
    && (!v.NoValue? ==>
          && Ends(p, x, Br(post)) && |s.blocks| <= post < |p| && p[post].phi.Some? == needed
          && (needed && v.Val? ==> x.cur in p[post].phi.value && p[post].phi.value[x.cur] == v.op)
          && end.cur == post && Cur(end).instrs == []
          && endv == if needed then Val(Use(Phi(post))) else NotNeeded)
  }

  lemma {:induction false} SimToPost(p: seq<Block>, ev: Primitives, s: State, tg: Option<Targets>, e: Expr, needed: bool,
                                     x0: State, x: State, v: GenValue, post: nat, end: State, endv: GenValue,
                                     regs: Regs, regs1: Regs, w: World, k: nat)
    returns (n: nat, d: Conf)
    requires Ready(x0, tg) && Checked(e, tg.Some?) && Gen(x0, tg, e, needed) == (x, v) && Embeds(p, x0, x, tg)
    requires ToPost(p, s, x0, x, v, needed, post, end, endv) && Kept(s, regs, regs1)
    ensures Reaches(p, ev, Conf(x0.cur, 0, regs1, w), n, d)
    ensures Arrives(p, tg, s, end, endv, needed, regs, k, Eval(Itself, ev, e, w, k), n, d)
    decreases k, e, 6
  {
    hide Gen, Embeds, Arrives, Kept, Ends;
    n, d := Simulates(p, ev, x0, tg, e, needed, regs1, w, k);
    var r := Eval(Itself, ev, e, w, k);
    if r.Normal? {
      ArrivesNormal(p, tg, x0, x, v, needed, regs1, k, r, n, d);
      var regs' := TakeIntoPost(p, ev, x, Br(post), post, v, d.regs, r.w);
      ReachesTrans(p, ev, At(x0, regs1, w), n, d, 1, Conf(post, 0, regs', r.w));
      AtPost(p, tg, s, x0, end, endv, needed, post, regs, regs1, d.regs, regs', k, r, n + 1);
      n, d := n + 1, Conf(post, 0, regs', r.w);
    } else {
      ArrivesLater(p, tg, s, x0, x, v, needed, regs, regs1, k, r, 0, n, d);
      ArrivesAbrupt(p, tg, s, x, v, needed, end, endv, needed, regs, k, r, n, d);
    }
  }

  /** Arrival in the block after, with the value in its phi node. */
  lemma AtPost(p: seq<Block>, tg: Option<Targets>, s: State, x0: State, end: State, endv: GenValue, needed: bool, post: nat,
               regs: Regs, regs1: Regs, regs2: Regs, regs3: Regs, k: nat, r: Outcome, n: nat)
    requires r.Normal? && |s.blocks| <= post && |s.blocks| <= x0.cur && |s.blocks| <= |x0.blocks| && s.cur < |s.blocks|
    requires Kept(s, regs, regs1) && Kept(x0, regs1, regs2)
    requires regs3 == regs2 || (Phi(post) in regs3 && regs3 == regs2[Phi(post) := regs3[Phi(post)]])
    requires needed ==> Phi(post) in regs3 && regs3[Phi(post)] == r.v
    requires end.cur == post && Cur(end).instrs == [] && endv == if needed then Val(Use(Phi(post))) else NotNeeded
    ensures Arrives(p, tg, s, end, endv, needed, regs, k, r, n, Conf(post, 0, regs3, r.w))
  {
    KeptTrans(s, x0, regs, regs1, regs2, None);
    forall x | Older(Use(x), s)
      ensures Read(Use(x), regs3) == Read(Use(x), regs)
    {
      assert Read(Use(x), regs2) == Read(Use(x), regs);
    }
  }

  /** The branch a condition leads to has been generated and leads to the block after. */
  lemma IfBranchFacts(s: State, tg: Option<Targets>, e: Expr, needed: bool, t: IfSteps, left: bool)
    requires e.If? && Ready(s, tg) && Checked(e, tg.Some?) && IfShape(s, tg, e, needed, t)
    requires t.c.Val? && (t.c.op.Const? ==> (t.c.op.v != 0) == left)
    ensures var n := |t.cond.blocks|;
            && |s.blocks| <= n && s.cur < |s.blocks|
            && t.left0.cur == n && t.right0.cur == n + 1
            && (left ==> Ready(t.left0, tg) && Gen(t.left0, tg, e.left, needed) == (t.left, t.l) && Cur(t.left0).instrs == [] && n < |t.left0.blocks|
                         && (needed && !t.l.NoValue? ==> t.l.Val?) && (t.l.NoValue? <==> JumpsAway(e.left)))
            && (!left ==> Ready(t.right0, tg) && Gen(t.right0, tg, e.right, needed) == (t.right, t.r) && Cur(t.right0).instrs == [] && n < |t.right0.blocks|
                          && (needed && !t.r.NoValue? ==> t.r.Val?) && (t.r.NoValue? <==> JumpsAway(e.right)))
            && (!JumpsAway(e) ==> t.v == if needed then Val(Use(Phi(n + 2))) else NotNeeded)
  {
    hide Gen, Leaves, Grows, Agrees, CloseIf, Close, NewBlocks, IfEnd, Spare;
    GenIfBuilds(s, tg, e, needed, t);
    var n := |t.cond.blocks|;
    Fork(t.cond, tg, if JumpsAway(e) then 2 else 3, CondBr(t.c.Op(), n, n + 1));
    if left {
      GenBuilds(t.left0, tg, e.left, needed);
      ForkEmpty(t.cond, if JumpsAway(e) then 2 else 3, CondBr(t.c.Op(), n, n + 1));
    } else {
      Turn(t.left0, tg, needed, t.left, t.l, Br(n + 2), n + 1);
      GenBuilds(t.right0, tg, e.right, needed);
      SpareKept(t.left0, tg, needed, t.left, t.l, n + 1);
      SpareStays(t.left, tg, t.l, Br(n + 2), n + 1);
    }
  }

  lemma ForkEmpty(s: State, k: nat, term: Terminator)
    requires s.cur < |s.blocks| && k > 0
    ensures Close(NewBlocks(s, k), term).blocks[|s.blocks|] == EMPTY
  {
  }

  lemma {:induction false} SimIf(p: seq<Block>, ev: Primitives, s: State, tg: Option<Targets>, e: Expr, needed: bool, t: IfSteps,
                                 regs: Regs, w: World, k: nat)
    returns (n: nat, d: Conf)
    requires e.If? && Ready(s, tg) && Checked(e, tg.Some?) && IfShape(s, tg, e, needed, t) && Embeds(p, s, t.end, tg)
    ensures Reaches(p, ev, At(s, regs, w), n, d)
    ensures Arrives(p, tg, s, t.end, t.v, needed, regs, k, Eval(Itself, ev, e, w, k), n, d)
    decreases k, e, 1
  {
    hide Gen, Embeds, Arrives, Kept, Ends, Built, Leaves, Grows, Agrees, IfShape;
    var b := |t.cond.blocks|;
    assert IfCode(p, s, tg, e, needed, t) by { IfPieces(p, s, tg, e, needed, t); }
    IfConditionFacts(s, tg, e, needed, t);
    n, d := Simulates(p, ev, s, tg, e.cond, true, regs, w, k);
    var c := Eval(Itself, ev, e.cond, w, k);
    if c.Normal? {
      ArrivesNormal(p, tg, s, t.cond, t.c, true, regs, k, c, n, d);
      var target := if c.v != 0 then b else b + 1;
      TakeCondBr(p, ev, t.cond, t.c.op, b, b + 1, d.regs, c.w, target);
      ReachesTrans(p, ev, At(s, regs, w), n, d, 1, Conf(target, 0, d.regs, c.w));
      var m: nat, f: Conf;
      if c.v != 0 {
        IfBranchFacts(s, tg, e, needed, t, true);
        m, f := SimToPost(p, ev, s, tg, e.left, needed, t.left0, t.left, t.l, b + 2, t.end, t.v, regs, d.regs, c.w, k);
      } else {
        IfBranchFacts(s, tg, e, needed, t, false);
        m, f := SimToPost(p, ev, s, tg, e.right, needed, t.right0, t.right, t.r, b + 2, t.end, t.v, regs, d.regs, c.w, k);
      }
      ReachesTrans(p, ev, At(s, regs, w), n + 1, Conf(target, 0, d.regs, c.w), m, f);
      ArrivesAfter(p, tg, s, t.end, t.v, needed, regs, k, Eval(Itself, ev, e, w, k), n + 1, m, f);
      n, d := n + 1 + m, f;
    } else {
      ArrivesAbrupt(p, tg, s, t.cond, t.c, true, t.end, t.v, needed, regs, k, c, n, d);
    }
  }

  lemma ArrivesAfter(p: seq<Block>, tg: Option<Targets>, s: State, t: State, v: GenValue, needed: bool,
                     regs: Regs, k: nat, out: Outcome, n: nat, m: nat, d: Conf)
    requires Arrives(p, tg, s, t, v, needed, regs, k, out, m, d)
    ensures Arrives(p, tg, s, t, v, needed, regs, k, out, n + m, d)
  {
  }

  lemma IfConditionFacts(s: State, tg: Option<Targets>, e: Expr, needed: bool, t: IfSteps)
    requires e.If? && Ready(s, tg) && Checked(e, tg.Some?) && IfShape(s, tg, e, needed, t)
    ensures Gen(s, tg, e.cond, true) == (t.cond, t.c) && t.c.Val?
  {
    hide Gen, Leaves, GenBranch;
    GenIfBuilds(s, tg, e, needed, t);
  }

  // ----- loops -----

  /** The code of a loop in the program, but for the branches after its conditions. */
  ghost predicate LoopCode(p: seq<Block>, s: State, tg: Option<Targets>, inner: Option<Targets>, jumps: bool, needed: bool, t: LoopSteps) {
    var n := |s.blocks|;
    && n + 3 < |p| && p[n].phi.None? && p[n + 1].phi.None? && p[n + 2].phi.None?
    && Ends(p, s, Br(n))
    && Embeds(p, t.cond0, t.cond, inner)
    && Embeds(p, t.body0, t.body, inner)
    && (!t.l.NoValue? ==> Embeds(p, t.body, t.again, inner))
    && Embeds(p, t.els0, t.els, tg) && (!t.r.NoValue? ==> Ends(p, t.els, Br(n + 3)))
    && (!jumps ==> p[n + 3].phi.Some? == needed)
    && (jumps ==> p[n + 3].instrs == [] && p[n + 3].term == Some(Unreachable))
    && (!jumps && needed ==>
          && (t.l.Val? ==> t.again.cur in p[n + 3].phi.value && p[n + 3].phi.value[t.again.cur] == t.l.op)
          && (t.r.Val? ==> t.els.cur in p[n + 3].phi.value && p[n + 3].phi.value[t.els.cur] == t.r.op))
  }

  lemma InnerPiece(p: seq<Block>, s: State, t: State, tg: Option<Targets>, x: State, y: State, inner: Option<Targets>)
    requires Embeds(p, s, t, tg) && LoopFrame(inner, |s.blocks|)
    requires |s.blocks| + 4 <= |x.blocks| <= |y.blocks| && x.cur < |y.blocks| && Own(s, x.cur)
    requires Grows(y.blocks, t.blocks)
    requires |s.blocks| + 3 < |p| && forall b :: |s.blocks| <= b < |s.blocks| + 3 ==> p[b].phi.None?
    ensures Embeds(p, x, y, inner)
  {
    forall b | 0 <= b < |y.blocks| && Own(s, b)
      ensures Agrees(y.blocks[b], p[b])
    {
      AgreesTrans(y.blocks[b], t.blocks[b], p[b]);
    }
  }

  /** The code of the parts of a loop that run in its own frame. */
  lemma InnerPieces(p: seq<Block>, s: State, tg: Option<Targets>, inner: Option<Targets>, e: Expr, cond: Expr, body: Expr, els: Expr,
                    needed: bool, t: LoopSteps)
    requires LoopBuilt(s, tg, inner, e, cond, body, els, needed, t) && Embeds(p, s, t.end, tg)
    requires |s.blocks| + 3 < |p| && forall b :: |s.blocks| <= b < |s.blocks| + 3 ==> p[b].phi.None?
    ensures Embeds(p, t.cond0, t.cond, inner) && Embeds(p, t.body0, t.body, inner)
    ensures !t.l.NoValue? ==> Embeds(p, t.body, t.again, inner)
  {
    hide Leaves, Grows, Agrees, Embeds, LoopStart, Older, EndsIn, JumpsAway;
    InnerPiece(p, s, t.end, tg, t.cond0, t.cond, inner);
    InnerPiece(p, s, t.end, tg, t.body0, t.body, inner);
    if !t.l.NoValue? {
      InnerPiece(p, s, t.end, tg, t.body, t.again, inner);
    }
  }

  /** What the block after a loop is in the program. */
  lemma PostPiece(p: seq<Block>, s: State, tg: Option<Targets>, jumps: bool, needed: bool, t: LoopSteps)
    requires Embeds(p, s, t.end, tg) && EndsIn(t, |s.blocks| + 3, jumps, needed)
    ensures var n := |s.blocks|;
            && n + 3 < |p|
            && (!jumps ==> p[n + 3].phi.Some? == needed)
            && (jumps ==> p[n + 3].instrs == [] && p[n + 3].term == Some(Unreachable))
            && (!jumps && needed ==>
                  && (t.l.Val? ==> t.again.cur in p[n + 3].phi.value && p[n + 3].phi.value[t.again.cur] == t.l.op)
                  && (t.r.Val? ==> t.els.cur in p[n + 3].phi.value && p[n + 3].phi.value[t.els.cur] == t.r.op))
  {
    hide Embeds;
    LoopPost(p, s, t.end, tg);
  }

  lemma LoopPieces(p: seq<Block>, s: State, tg: Option<Targets>, inner: Option<Targets>, e: Expr, cond: Expr, body: Expr, els: Expr,
                   needed: bool, t: LoopSteps)
    requires Ready(s, tg) && LoopBuilt(s, tg, inner, e, cond, body, els, needed, t) && Embeds(p, s, t.end, tg)
    ensures LoopCode(p, s, tg, inner, JumpsAway(e), needed, t)
  {
    hide Leaves, Grows, Agrees, Embeds, Ends, CloseIf, LoopStart, Older, Ready, JumpsAway, EndsIn, Built;
    var n := |s.blocks|;
    PostPiece(p, s, tg, JumpsAway(e), needed, t);
    ReadyOpen(s, tg);
    StartPieces(p, s, t.end, tg, needed && !JumpsAway(e));
    InnerPieces(p, s, tg, inner, e, cond, body, els, needed, t);
    ReadyOpen(t.els0, tg);
    ElsePieces(p, s, tg, needed, t);
  }

  lemma ReadyOpen(s: State, tg: Option<Targets>)
    requires Ready(s, tg)
    ensures s.cur < |s.blocks| && (tg.Some? ==> tg.value.brk < |s.blocks|)
  {
  }

  lemma ElsePieces(p: seq<Block>, s: State, tg: Option<Targets>, needed: bool, t: LoopSteps)
    requires Ready(s, tg) && Embeds(p, s, t.end, tg) && Built(t.els0, tg, needed, t.els, t.r) && t.els0.cur < |t.els0.blocks|
    requires |s.blocks| <= t.els0.cur && |s.blocks| <= |t.els0.blocks|
    requires Grows(t.els.blocks, t.end.blocks) && Grows(CloseIf(t.els, t.r, Br(|s.blocks| + 3)).blocks, t.end.blocks)
    ensures Embeds(p, t.els0, t.els, tg) && (!t.r.NoValue? ==> Ends(p, t.els, Br(|s.blocks| + 3)))
  {
    hide Leaves, Grows, Agrees, Embeds, Ends, CloseIf, GrowsBut;
    GrowsIsBut(t.els.blocks, t.end.blocks);
    PieceBut(p, s, t.end, tg, t.els0, t.els, |t.els.blocks|);
    if !t.r.NoValue? {
      var done := CloseIf(t.els, t.r, Br(|s.blocks| + 3));
      Closes(t.els, t.r, Br(|s.blocks| + 3));
      GrowsIsBut(done.blocks, t.end.blocks);
      EndsBut(p, s, t.end, tg, t.els, Br(|s.blocks| + 3), done, |done.blocks|);
    }
  }

  lemma StartPieces(p: seq<Block>, s: State, t: State, tg: Option<Targets>, phi: bool)
    requires Embeds(p, s, t, tg) && s.cur < |s.blocks| && Grows(LoopStart(s, phi).blocks, t.blocks) && |s.blocks| + 3 < |p|
    ensures var n := |s.blocks|; p[n].phi.None? && p[n + 1].phi.None? && p[n + 2].phi.None? && Ends(p, s, Br(n))
  {
    hide Grows, Agrees, Embeds, Ends, GrowsBut, LoopStart;
    var n, start := |s.blocks|, LoopStart(s, phi);
    StartCloses(s, phi);
    GrowsIsBut(start.blocks, t.blocks);
    NoPhi(p, s, t, tg, start, |start.blocks|, n);
    NoPhi(p, s, t, tg, start, |start.blocks|, n + 1);
    NoPhi(p, s, t, tg, start, |start.blocks|, n + 2);
    EndsBut(p, s, t, tg, s, Br(n), start, |start.blocks|);
  }

  lemma StartCloses(s: State, phi: bool)
    requires s.cur < |s.blocks|
    ensures var n, y := |s.blocks|, LoopStart(s, phi);
            && y.cur == n && |y.blocks| == n + 4 && y.blocks[s.cur] == Cur(s).(term := Some(Br(n)))
            && y.blocks[n] == EMPTY && y.blocks[n + 1] == EMPTY && y.blocks[n + 2] == EMPTY
  {
  }

  lemma GrowsIsBut(p: seq<Block>, q: seq<Block>)
    requires Grows(p, q)
    ensures GrowsBut(p, q, |p|)
  {
  }

  lemma LoopPost(p: seq<Block>, s: State, t: State, tg: Option<Targets>)
    requires Embeds(p, s, t, tg) && |s.blocks| <= t.cur < |t.blocks|
    ensures t.cur < |p| && p[t.cur].phi.Some? == t.blocks[t.cur].phi.Some?
    ensures t.blocks[t.cur].term.Some? ==> p[t.cur].term == t.blocks[t.cur].term && p[t.cur].instrs == t.blocks[t.cur].instrs
    ensures p[t.cur].phi.Some? ==> forall b :: b in t.blocks[t.cur].phi.value ==>
              b in p[t.cur].phi.value && p[t.cur].phi.value[b] == t.blocks[t.cur].phi.value[b]
  {
    assert Agrees(t.blocks[t.cur], p[t.cur]);
  }

  /** What the simulation of a loop rests on. */
  ghost predicate LoopReady(p: seq<Block>, s: State, tg: Option<Targets>, inner: Option<Targets>, e: Expr, cond: Expr, body: Expr, els: Expr,
                            needed: bool, t: LoopSteps)
  {
    var n, jumps := |s.blocks|, JumpsAway(e);
    && s.cur < n && LoopFrame(inner, n) && LoopCode(p, s, tg, inner, jumps, needed, t)
    && Checked(cond, true) && !JumpsAway(cond) && Checked(body, true) && Checked(els, tg.Some?)
    && Starts(n, inner, t.cond0) && Gen(t.cond0, inner, cond, true) == (t.cond, t.i) && t.i.Val?
    && Starts(n, inner, t.body0) && Gen(t.body0, inner, body, needed) == (t.body, t.l)
    && (t.l.NoValue? <==> JumpsAway(body)) && (needed && !t.l.NoValue? ==> t.l.Val?)
    && (!t.l.NoValue? ==>
          && Ready(t.body, inner) && Gen(t.body, inner, cond, true) == (t.again, t.c) && t.c.Val?
          && n <= t.body.cur && n <= |t.body.blocks|
          && (t.l.Val? ==> Older(t.l.op, t.body)))
    && Starts(n, tg, t.els0) && t.els0.cur == n + 2 && Gen(t.els0, tg, els, needed) == (t.els, t.r)
    && (t.r.NoValue? <==> JumpsAway(els)) && (needed && !t.r.NoValue? ==> t.r.Val?)
    && t.end.cur == n + 3
    && (!jumps ==> Cur(t.end).instrs == [] && t.v == if needed then Val(Use(Phi(n + 3))) else NotNeeded)
  }

  ghost predicate WhileReady(p: seq<Block>, s: State, tg: Option<Targets>, e: Expr, needed: bool, t: LoopSteps)
    requires e.While?
  {
    var n := |s.blocks|;
    && LoopReady(p, s, tg, Some(Targets(n, n + 3, n + 2)), e, e.cond, e.body, e.els, needed, t)
    && t.cond0.cur == n && t.body0.cur == n + 1
    && Ends(p, t.cond, CondBr(t.i.Op(), n + 1, n + 2))
    && (!t.l.NoValue? ==> Ends(p, t.again, CondBr(t.c.Op(), n + 1, n + 3)))
  }

  ghost predicate RepeatReady(p: seq<Block>, s: State, tg: Option<Targets>, e: Expr, needed: bool, t: LoopSteps)
    requires e.Repeat?
  {
    var n := |s.blocks|;
    && LoopReady(p, s, tg, Some(Targets(n + 1, n + 3, n + 2)), e, e.cond, e.body, e.els, needed, t)
    && t.cond0.cur == n + 1 && t.body0.cur == n
    && Ends(p, t.cond, CondBr(t.i.Op(), n + 2, n))
    && (!t.l.NoValue? ==> Ends(p, t.again, CondBr(t.c.Op(), n + 3, n)))
  }

  /** From the start of the else clause. */
  lemma {:induction false} SimElse(p: seq<Block>, ev: Primitives, s: State, tg: Option<Targets>, inner: Option<Targets>,
                                   e: Expr, cond: Expr, body: Expr, els: Expr, needed: bool, t: LoopSteps,
                                   regs: Regs, regs1: Regs, w: World, k: nat)
    returns (n: nat, d: Conf)
    requires LoopReady(p, s, tg, inner, e, cond, body, els, needed, t) && Kept(s, regs, regs1)
    requires JumpsAway(e) ==> JumpsAway(els)
    ensures Reaches(p, ev, Conf(|s.blocks| + 2, 0, regs1, w), n, d)
    ensures Arrives(p, tg, s, t.end, t.v, needed, regs, k, Eval(Itself, ev, els, w, k), n, d)
    decreases k, els, 7
  {
    hide Gen, Embeds, Arrives, Kept, Ends;
    n, d := SimToPost(p, ev, s, tg, els, needed, t.els0, t.els, t.r, |s.blocks| + 3, t.end, t.v, regs, regs1, w, k);
  }

  /** What simulating a condition of the loop needs: the one that follows the body, or the
      other. */
  lemma ConditionFacts(p: seq<Block>, s: State, tg: Option<Targets>, inner: Option<Targets>, e: Expr, cond: Expr, body: Expr, els: Expr,
                       needed: bool, t: LoopSteps, again: bool)
    requires LoopReady(p, s, tg, inner, e, cond, body, els, needed, t) && (again ==> !t.l.NoValue?)
    ensures var x0, x, xv := if again then t.body else t.cond0, if again then t.again else t.cond, if again then t.c else t.i;
            && LoopFrame(inner, |s.blocks|) && s.cur < |s.blocks| <= x0.cur && |s.blocks| <= |x0.blocks|
            && Ready(x0, inner) && Checked(cond, true) && Gen(x0, inner, cond, true) == (x, xv) && Embeds(p, x0, x, inner) && xv.Val?
            && (again && needed ==> t.l.Val? && Older(t.l.op, t.body))
            && (!again ==> Cur(x0).instrs == [])
  {
    hide Gen, Embeds;
  }

  /** What simulating the body needs. */
  lemma BodyFacts(p: seq<Block>, s: State, tg: Option<Targets>, inner: Option<Targets>, e: Expr, cond: Expr, body: Expr, els: Expr,
                  needed: bool, t: LoopSteps)
    requires LoopReady(p, s, tg, inner, e, cond, body, els, needed, t)
    ensures LoopFrame(inner, |s.blocks|) && s.cur < |s.blocks| <= t.body0.cur && |s.blocks| <= |t.body0.blocks|
    ensures Ready(t.body0, inner) && Checked(body, true) && Gen(t.body0, inner, body, needed) == (t.body, t.l)
    ensures Embeds(p, t.body0, t.body, inner) && Cur(t.body0).instrs == []
    ensures !JumpsAway(e) ==>
              && |s.blocks| + 3 < |p| && p[|s.blocks| + 3].phi.Some? == needed && t.end.cur == |s.blocks| + 3 && Cur(t.end).instrs == []
              && t.v == if needed then Val(Use(Phi(|s.blocks| + 3))) else NotNeeded
  {
    hide Gen, Embeds;
  }

  /** The outcome of a loop left by a break in its condition, or that its condition keeps
      from going on. */
  function LeftBy(ev: Primitives, loop: Expr, els: Expr, c: Outcome, k: nat): Outcome
    requires !c.Normal? && !c.Continued?
  {
    if !c.Broke? then c else if c.bv.Some? then Yield(loop, c.bv.value, c.w) else Eval(Itself, ev, els, c.w, k)
  }

  lemma {:induction false} SimLeft(p: seq<Block>, ev: Primitives, s: State, tg: Option<Targets>, inner: Option<Targets>,
                                   e: Expr, cond: Expr, body: Expr, els: Expr, needed: bool, t: LoopSteps,
                                   x0: State, x: State, xv: GenValue, regs: Regs, regs1: Regs, k: nat, c: Outcome, c0: Conf, n0: nat, d0: Conf)
    returns (n: nat, d: Conf)
    requires LoopReady(p, s, tg, inner, e, cond, body, els, needed, t) && Kept(s, regs, regs1)
    requires JumpsAway(e) ==> JumpsAway(els)
    requires |s.blocks| <= x0.cur && |s.blocks| <= |x0.blocks|
    requires Reaches(p, ev, c0, n0, d0) && Arrives(p, inner, x0, x, xv, true, regs1, k, c, n0, d0) && !c.Normal? && !c.Continued?
    ensures Reaches(p, ev, c0, n, d)
    ensures Arrives(p, tg, s, t.end, t.v, needed, regs, k, LeftBy(ev, e, els, c, k), n, d)
    decreases k, els, 8
  {
    hide Gen, Eval, Embeds, Arrives, KeptBut, Ends;
    n, d := n0, d0;
    if !c.Broke? {
      ArrivesNowhere(p, inner, x0, x, xv, true, regs1, k, c, n, d, tg, s, t.end, t.v, needed, regs);
    } else if c.bv.None? {
      LoopJump(p, inner, s, x0, x, xv, true, regs, regs1, k, c, n, d);
      var m, f := SimElse(p, ev, s, tg, inner, e, cond, body, els, needed, t, regs, d.regs, c.w, k);
      ReachesTrans(p, ev, c0, n, d, m, f);
      ArrivesAfter(p, tg, s, t.end, t.v, needed, regs, k, Eval(Itself, ev, els, c.w, k), n, m, f);
      n, d := n + m, f;
    } else if JumpsAway(e) {
      BreakDies(p, inner, tg, s, x0, x, xv, t.end, t.v, needed, regs, regs1, k, c.bv.value, c.w, n, d);
    } else {
      ArrivesAbrupt(p, inner, x0, x, xv, true, x, xv, needed, regs1, k, c, n, d);
      BreakOut(p, inner, tg, s, x0, x, xv, t.end, t.v, needed, regs, regs1, k, c.bv.value, c.w, n, d);
    }
  }

  /** A break with a value out of a loop held to jump away. */
  lemma BreakDies(p: seq<Block>, inner: Option<Targets>, tg: Option<Targets>, s: State, x0: State, x: State, xv: GenValue, end: State, endv: GenValue,
                  needed: bool, regs: Regs, regs1: Regs, k: nat, v: Value, w: World, n: nat, d: Conf)
    requires inner.Some? && Arrives(p, inner, x0, x, xv, true, regs1, k, Broke(Some(v), w), n, d)
    requires inner.value.brk < |p| && p[inner.value.brk].instrs == [] && p[inner.value.brk].term == Some(Unreachable)
    ensures Arrives(p, tg, s, end, endv, needed, regs, k, Lost, n, d)
  {
  }

  lemma {:induction false} SimWhile(p: seq<Block>, ev: Primitives, s: State, tg: Option<Targets>, e: Expr, needed: bool, t: LoopSteps,
                                    last: Option<Value>, regs: Regs, regs1: Regs, w: World, k: nat)
    returns (n: nat, d: Conf)
    requires e.While? && Checked(e, tg.Some?) && WhileReady(p, s, tg, e, needed, t) && Kept(s, regs, regs1)
    requires last.Some? ==> !t.l.NoValue? && (needed ==> Read(t.l.op, regs1) == last.value)
    ensures Reaches(p, ev, if last.None? then Conf(|s.blocks|, 0, regs1, w) else At(t.body, regs1, w), n, d)
    ensures Arrives(p, tg, s, t.end, t.v, needed, regs, k, EvalWhile(Itself, ev, e, last, w, k), n, d)
    decreases k, e, 2
  {
    hide Gen, Embeds, Arrives, KeptBut, Ends, LoopReady, Ready, Checked, JumpsAway, Reaches, Older, Read;
    var b := |s.blocks|;
    var inner := Some(Targets(b, b + 3, b + 2));
    var c0 := if last.None? then Conf(b, 0, regs1, w) else At(t.body, regs1, w);
    var c := Eval(Itself, ev, e.cond, w, k);
    var x0, x, xv := if last.None? then t.cond0 else t.body, if last.None? then t.cond else t.again, if last.None? then t.i else t.c;
    ConditionFacts(p, s, tg, inner, e, e.cond, e.body, e.els, needed, t, last.Some?);
    n, d := Simulates(p, ev, x0, inner, e.cond, true, regs1, w, k);
    if c.Normal? {
      ArrivesNormal(p, inner, x0, x, xv, true, regs1, k, c, n, d);
      KeptTrans(s, x0, regs, regs1, d.regs, None);
      if needed && last.Some? {
        KeptRead(t.body, regs1, d.regs, t.l.op);
      }
      var m, f := SimWhileTest(p, ev, s, tg, e, needed, t, last, regs, d.regs, c.v, c.w, k);
      ReachesTrans(p, ev, c0, n, d, m, f);
      ArrivesAfter(p, tg, s, t.end, t.v, needed, regs, k, WhileTest(ev, e, last, c.v, c.w, k), n, m, f);
      n, d := n + m, f;
    } else if c.Continued? {
      LoopJump(p, inner, s, x0, x, xv, true, regs, regs1, k, c, n, d);
      assert n > 0 by { ContinuedLater(p, inner, x0, x, xv, true, regs1, k, c, n, d); }
      if k == 0 {
        LateEnough(p, tg, s, t.end, t.v, needed, regs, k, n, d);
      } else {
        var m, f := SimWhile(p, ev, s, tg, e, needed, t, None, regs, d.regs, c.w, k - 1);
        n, d := Onward(p, ev, tg, s, t.end, t.v, needed, regs, k, EvalWhile(Itself, ev, e, None, c.w, k - 1), c0, n, d, m, f);
      }
    } else {
      ElseJumps(e);
      n, d := SimLeft(p, ev, s, tg, inner, e, e.cond, e.body, e.els, needed, t, x0, x, xv, regs, regs1, k, c, c0, n, d);
    }
  }

  lemma ContinuedLater(p: seq<Block>, tg: Option<Targets>, s: State, t: State, v: GenValue, needed: bool,
                       regs: Regs, k: nat, out: Outcome, n: nat, d: Conf)
    requires Arrives(p, tg, s, t, v, needed, regs, k, out, n, d) && out.Continued?
    ensures n > 0
  {
  }

  /** The rest of a while loop once its condition has a value. */
  function WhileTest(ev: Primitives, loop: Expr, last: Option<Value>, v: Value, w: World, k: nat): Outcome
    requires loop.While?
  {
    if v != 0 then WhileBody(ev, loop, w, k)
    else if last.Some? then Normal(last.value, w)
    else Eval(Itself, ev, loop.els, w, k)
  }

  lemma {:induction false} SimWhileTest(p: seq<Block>, ev: Primitives, s: State, tg: Option<Targets>, e: Expr, needed: bool, t: LoopSteps,
                                        last: Option<Value>, regs: Regs, regs1: Regs, v: Value, w: World, k: nat)
    returns (n: nat, d: Conf)
    requires e.While? && Checked(e, tg.Some?) && WhileReady(p, s, tg, e, needed, t) && Kept(s, regs, regs1)
    requires last.Some? ==> !t.l.NoValue? && (needed ==> Read(t.l.op, regs1) == last.value)
    requires Read(if last.None? then t.i.op else t.c.op, regs1) == v
    ensures Reaches(p, ev, At(if last.None? then t.cond else t.again, regs1, w), n, d)
    ensures Arrives(p, tg, s, t.end, t.v, needed, regs, k, WhileTest(ev, e, last, v, w, k), n, d)
    decreases k, e, 1
  {
    hide Gen, Eval, Embeds, Arrives, KeptBut, Ends;
    var b := |s.blocks|;
    var inner := Some(Targets(b, b + 3, b + 2));
    var x, xv := if last.None? then t.cond else t.again, if last.None? then t.i else t.c;
    var c0 := At(x, regs1, w);
    if v == 0 && last.Some? {
      // out with the value of the body
      var regs3 := TakeIntoPost(p, ev, t.again, CondBr(t.c.op, b + 1, b + 3), b + 3, t.l, regs1, w);
      n, d := 1, Conf(b + 3, 0, regs3, w);
      KeptSame(t.body, regs1);
      AtPost(p, tg, s, t.body, t.end, t.v, needed, b + 3, regs, regs1, regs1, regs3, k, Normal(last.value, w), n);
    } else {
      var target := if v != 0 then b + 1 else b + 2;
      TakeCondBr(p, ev, x, xv.op, b + 1, if last.None? then b + 2 else b + 3, regs1, w, target);
      var m, f;
      if v == 0 {
        m, f := SimElse(p, ev, s, tg, inner, e, e.cond, e.body, e.els, needed, t, regs, regs1, w, k);
        ArrivesAfter(p, tg, s, t.end, t.v, needed, regs, k, Eval(Itself, ev, e.els, w, k), 1, m, f);
      } else {
        m, f := SimWhileBody(p, ev, s, tg, e, needed, t, regs, regs1, w, k);
        if WhileBody(ev, e, w, k).Timeout? {
          LateEnough(p, tg, s, t.end, t.v, needed, regs, k, 1 + m, f);
        } else {
          ArrivesAfter(p, tg, s, t.end, t.v, needed, regs, k, WhileBody(ev, e, w, k), 1, m, f);
        }
      }
      ReachesTrans(p, ev, c0, 1, Conf(target, 0, regs1, w), m, f);
      n, d := 1 + m, f;
    }
  }

  lemma KeptSame(s: State, regs: Regs)
    ensures Kept(s, regs, regs)
  {
  }

  lemma LateEnough(p: seq<Block>, tg: Option<Targets>, s: State, t: State, v: GenValue, needed: bool, regs: Regs, k: nat, n: nat, d: Conf)
    ensures Arrives(p, tg, s, t, v, needed, regs, k, Timeout, n, d) <==> n >= k
  {
  }

  /** The body of a loop that jumps away does, and does not break with a value. */
  lemma BodyFlags(ev: Primitives, e: Expr, tg: Option<Targets>, w: World, k: nat)
    requires (e.While? || e.Repeat?) && Checked(e, tg.Some?)
    ensures JumpsAway(e) ==> JumpsAway(e.els)
    ensures var r := Eval(Itself, ev, e.body, w, k); JumpsAway(e) ==> !r.Normal? && !(r.Broke? && r.bv.Some?)
  {
    hide Eval;
    FlagsHold(Itself, ev, e.body, true, w, k);
    ElseJumps(e);
  }

  /** The rest of a while loop, from the body on. */
  function WhileBody(ev: Primitives, loop: Expr, w: World, k: nat): Outcome
    requires loop.While?
  {
    var b := Eval(Itself, ev, loop.body, w, k);
    match b
    case Timeout => Timeout
    case Lost => Lost
    case Normal(v, w') => if k == 0 then Timeout else EvalWhile(Itself, ev, loop, Some(v), w', k - 1)
    case Continued(w') => if k == 0 then Timeout else EvalWhile(Itself, ev, loop, None, w', k - 1)
    case Broke(Some(v), w') => Normal(v, w')
    case Broke(None, w') => Eval(Itself, ev, loop.els, w', k)
  }

  lemma {:induction false} SimWhileBody(p: seq<Block>, ev: Primitives, s: State, tg: Option<Targets>, e: Expr, needed: bool, t: LoopSteps,
                                        regs: Regs, regs1: Regs, w: World, k: nat)
    returns (n: nat, d: Conf)
    requires e.While? && Checked(e, tg.Some?) && WhileReady(p, s, tg, e, needed, t) && Kept(s, regs, regs1)
    ensures Reaches(p, ev, Conf(|s.blocks| + 1, 0, regs1, w), n, d)
    ensures n + 1 >= k || !WhileBody(ev, e, w, k).Timeout?
    ensures !WhileBody(ev, e, w, k).Timeout? ==> Arrives(p, tg, s, t.end, t.v, needed, regs, k, WhileBody(ev, e, w, k), n, d)
    decreases k, e, 0
  {
    hide Gen, Embeds, Arrives, KeptBut, EvalWhile, Ends, LoopReady, Ready, Checked, JumpsAway, Reaches, Older, Read;
    var b := |s.blocks|;
    var inner := Some(Targets(b, b + 3, b + 2));
    var r := Eval(Itself, ev, e.body, w, k);
    BodyFacts(p, s, tg, inner, e, e.cond, e.body, e.els, needed, t);
    BodyFlags(ev, e, tg, w, k);
    n, d := Simulates(p, ev, t.body0, inner, e.body, needed, regs1, w, k);
    match r
    case Timeout =>
      LateEnough(p, inner, t.body0, t.body, t.l, needed, regs1, k, n, d);
    case Lost =>
      ArrivesNowhere(p, inner, t.body0, t.body, t.l, needed, regs1, k, r, n, d, tg, s, t.end, t.v, needed, regs);
    case Normal(v, w') =>
      ArrivesNormal(p, inner, t.body0, t.body, t.l, needed, regs1, k, r, n, d);
      KeptTrans(s, t.body0, regs, regs1, d.regs, None);
      if k > 0 {
        var m, f := SimWhile(p, ev, s, tg, e, needed, t, Some(v), regs, d.regs, w', k - 1);
        n, d := Onward(p, ev, tg, s, t.end, t.v, needed, regs, k, EvalWhile(Itself, ev, e, Some(v), w', k - 1), Conf(b + 1, 0, regs1, w), n, d, m, f);
      }
    case Continued(w') =>
      LoopJump(p, inner, s, t.body0, t.body, t.l, needed, regs, regs1, k, r, n, d);
      if k > 0 {
        var m, f := SimWhile(p, ev, s, tg, e, needed, t, None, regs, d.regs, w', k - 1);
        n, d := Onward(p, ev, tg, s, t.end, t.v, needed, regs, k, EvalWhile(Itself, ev, e, None, w', k - 1), Conf(b + 1, 0, regs1, w), n, d, m, f);
      }
    case Broke(Some(v), w') =>
      BreakOut(p, inner, tg, s, t.body0, t.body, t.l, t.end, t.v, needed, regs, regs1, k, v, w', n, d);
    case Broke(None, w') =>
      LoopJump(p, inner, s, t.body0, t.body, t.l, needed, regs, regs1, k, r, n, d);
      var m, f := SimElse(p, ev, s, tg, inner, e, e.cond, e.body, e.els, needed, t, regs, d.regs, w', k);
      ReachesTrans(p, ev, Conf(b + 1, 0, regs1, w), n, d, m, f);
      ArrivesAfter(p, tg, s, t.end, t.v, needed, regs, k, Eval(Itself, ev, e.els, w', k), n, m, f);
      if Eval(Itself, ev, e.els, w', k).Timeout? {
        LateEnough(p, tg, s, t.end, t.v, needed, regs, k, n + m, f);
      }
      n, d := n + m, f;
  }

  /** One more iteration, with one less to go. */
  lemma Onward(p: seq<Block>, ev: Primitives, tg: Option<Targets>, s: State, t: State, v: GenValue, needed: bool, regs: Regs, k: nat,
               out: Outcome, c: Conf, n: nat, d: Conf, m: nat, f: Conf)
    returns (n': nat, d': Conf)
    requires k > 0 && Reaches(p, ev, c, n, d) && Reaches(p, ev, d, m, f)
    requires Arrives(p, tg, s, t, v, needed, regs, k - 1, out, m, f)
    ensures n' == n + m && d' == f && Reaches(p, ev, c, n', d')
    ensures n' + 1 >= k || !out.Timeout?
    ensures !out.Timeout? || n > 0 ==> Arrives(p, tg, s, t, v, needed, regs, k, out, n', d')
  {
    ReachesTrans(p, ev, c, n, d, m, f);
    n', d' := n + m, f;
  }

  /** A continue or a break without a value has got to its target in the loop. */
  lemma LoopJump(p: seq<Block>, inner: Option<Targets>, s: State, x0: State, x: State, v: GenValue, needed: bool,
                 regs: Regs, regs1: Regs, k: nat, r: Outcome, n: nat, d: Conf)
    requires inner.Some? && (r.Continued? || (r.Broke? && r.bv.None?))
    requires Arrives(p, inner, x0, x, v, needed, regs1, k, r, n, d)
    requires Kept(s, regs, regs1) && |s.blocks| <= x0.cur && |s.blocks| <= |x0.blocks| && s.cur < |s.blocks|
    ensures d == Conf(if r.Continued? then inner.value.cont else inner.value.brkNone, 0, d.regs, r.w) && Kept(s, regs, d.regs)
  {
    KeptTrans(s, x0, regs, regs1, d.regs, None);
  }

  /** A break with a value has got to the block after the loop. */
  lemma BreakOut(p: seq<Block>, inner: Option<Targets>, tg: Option<Targets>, s: State, x0: State, x: State, xv: GenValue, end: State, endv: GenValue,
                 needed: bool, regs: Regs, regs1: Regs, k: nat, v: Value, w: World, n: nat, d: Conf)
    requires inner.Some? && Arrives(p, inner, x0, x, xv, needed, regs1, k, Broke(Some(v), w), n, d)
    requires Kept(s, regs, regs1) && |s.blocks| <= x0.cur && |s.blocks| <= |x0.blocks| && s.cur < |s.blocks|
    requires |s.blocks| <= inner.value.brk < |p| && p[inner.value.brk].phi.Some? == needed
    requires end.cur == inner.value.brk && Cur(end).instrs == []
    requires endv == if needed then Val(Use(Phi(inner.value.brk))) else NotNeeded
    ensures Arrives(p, tg, s, end, endv, needed, regs, k, Normal(v, w), n, d)
  {
    forall x | Older(Use(x), s)
      ensures Read(Use(x), d.regs) == Read(Use(x), regs)
    {
      assert Read(Use(x), regs1) == Read(Use(x), regs);
      assert Older(Use(x), x0);
    }
  }

  /** An outcome that is the same for all code around. */
  lemma ArrivesNowhere(p: seq<Block>, tg: Option<Targets>, s: State, t: State, v: GenValue, needed: bool, regs: Regs, k: nat,
                       out: Outcome, n: nat, d: Conf,
                       tg': Option<Targets>, s': State, t': State, v': GenValue, needed': bool, regs': Regs)
    requires Arrives(p, tg, s, t, v, needed, regs, k, out, n, d) && (out.Timeout? || out.Lost?)
    ensures Arrives(p, tg', s', t', v', needed', regs', k, out, n, d)
  {
  }

  lemma KeptRead(s: State, regs: Regs, regs': Regs, o: Operand)
    requires Kept(s, regs, regs') && Older(o, s)
    ensures Read(o, regs') == Read(o, regs)
  {
    if o.Use? {
      assert Older(Use(o.r), s);
    }
  }

  lemma {:induction false} SimRepeat(p: seq<Block>, ev: Primitives, s: State, tg: Option<Targets>, e: Expr, needed: bool, t: LoopSteps,
                                     regs: Regs, regs1: Regs, w: World, k: nat)
    returns (n: nat, d: Conf)
    requires e.Repeat? && Checked(e, tg.Some?) && RepeatReady(p, s, tg, e, needed, t) && Kept(s, regs, regs1)
    ensures Reaches(p, ev, Conf(|s.blocks|, 0, regs1, w), n, d)
    ensures Arrives(p, tg, s, t.end, t.v, needed, regs, k, EvalRepeat(Itself, ev, e, w, k), n, d)
    decreases k, e, 2
  {
    hide Gen, Embeds, Arrives, KeptBut, EvalRepeatCond, Ends, LoopReady, Ready, Checked, JumpsAway, Reaches, Older, Read;
    var b := |s.blocks|;
    var inner := Some(Targets(b + 1, b + 3, b + 2));
    var r := Eval(Itself, ev, e.body, w, k);
    BodyFacts(p, s, tg, inner, e, e.cond, e.body, e.els, needed, t);
    BodyFlags(ev, e, tg, w, k);
    n, d := Simulates(p, ev, t.body0, inner, e.body, needed, regs1, w, k);
    var c0 := Conf(b, 0, regs1, w);
    match r
    case Timeout =>
      ArrivesNowhere(p, inner, t.body0, t.body, t.l, needed, regs1, k, r, n, d, tg, s, t.end, t.v, needed, regs);
    case Lost =>
      ArrivesNowhere(p, inner, t.body0, t.body, t.l, needed, regs1, k, r, n, d, tg, s, t.end, t.v, needed, regs);
    case Broke(Some(v), w') =>
      BreakOut(p, inner, tg, s, t.body0, t.body, t.l, t.end, t.v, needed, regs, regs1, k, v, w', n, d);
    case Broke(None, w') =>
      LoopJump(p, inner, s, t.body0, t.body, t.l, needed, regs, regs1, k, r, n, d);
      var m, f := SimElse(p, ev, s, tg, inner, e, e.cond, e.body, e.els, needed, t, regs, d.regs, w', k);
      ReachesTrans(p, ev, c0, n, d, m, f);
      ArrivesAfter(p, tg, s, t.end, t.v, needed, regs, k, Eval(Itself, ev, e.els, w', k), n, m, f);
      n, d := n + m, f;
    case Normal(v, w') =>
      ArrivesNormal(p, inner, t.body0, t.body, t.l, needed, regs1, k, r, n, d);
      KeptTrans(s, t.body0, regs, regs1, d.regs, None);
      var m, f := SimRepeatCond(p, ev, s, tg, e, needed, t, Some(v), regs, d.regs, w', k);
      ReachesTrans(p, ev, c0, n, d, m, f);
      ArrivesAfter(p, tg, s, t.end, t.v, needed, regs, k, EvalRepeatCond(Itself, ev, e, Some(v), w', k), n, m, f);
      n, d := n + m, f;
    case Continued(w') =>
      LoopJump(p, inner, s, t.body0, t.body, t.l, needed, regs, regs1, k, r, n, d);
      var m, f := SimRepeatCond(p, ev, s, tg, e, needed, t, None, regs, d.regs, w', k);
      ReachesTrans(p, ev, c0, n, d, m, f);
      ArrivesAfter(p, tg, s, t.end, t.v, needed, regs, k, EvalRepeatCond(Itself, ev, e, None, w', k), n, m, f);
      n, d := n + m, f;
  }

  /** From a condition of a repeat loop: the one after the body, with its value, or the one
      a continue goes to. */
  lemma {:induction false} SimRepeatCond(p: seq<Block>, ev: Primitives, s: State, tg: Option<Targets>, e: Expr, needed: bool, t: LoopSteps,
                                         last: Option<Value>, regs: Regs, regs1: Regs, w: World, k: nat)
    returns (n: nat, d: Conf)
    requires e.Repeat? && Checked(e, tg.Some?) && RepeatReady(p, s, tg, e, needed, t) && Kept(s, regs, regs1)
    requires last.Some? ==> !t.l.NoValue? && (needed ==> Read(t.l.op, regs1) == last.value)
    ensures Reaches(p, ev, if last.None? then Conf(|s.blocks| + 1, 0, regs1, w) else At(t.body, regs1, w), n, d)
    ensures Arrives(p, tg, s, t.end, t.v, needed, regs, k, EvalRepeatCond(Itself, ev, e, last, w, k), n, d)
    decreases k, e, 1
  {
    hide Gen, Embeds, Arrives, KeptBut, EvalRepeat, Ends, LoopReady, Ready, Checked, JumpsAway, Reaches, Older, Read;
    var b := |s.blocks|;
    var inner := Some(Targets(b + 1, b + 3, b + 2));
    var c0 := if last.None? then Conf(b + 1, 0, regs1, w) else At(t.body, regs1, w);
    var c := Eval(Itself, ev, e.cond, w, k);
    var x0, x, xv := if last.None? then t.cond0 else t.body, if last.None? then t.cond else t.again, if last.None? then t.i else t.c;
    ConditionFacts(p, s, tg, inner, e, e.cond, e.body, e.els, needed, t, last.Some?);
    n, d := Simulates(p, ev, x0, inner, e.cond, true, regs1, w, k);
    if c.Normal? {
      ArrivesNormal(p, inner, x0, x, xv, true, regs1, k, c, n, d);
      KeptTrans(s, x0, regs, regs1, d.regs, None);
      if needed && last.Some? {
        KeptRead(t.body, regs1, d.regs, t.l.op);
      }
      var m, f := SimRepeatTest(p, ev, s, tg, e, needed, t, last, regs, d.regs, c.v, c.w, k);
      ReachesTrans(p, ev, c0, n, d, m, f);
      ArrivesAfter(p, tg, s, t.end, t.v, needed, regs, k, RepeatTest(ev, e, last, c.v, c.w, k), n, m, f);
      n, d := n + m, f;
    } else if c.Continued? {
      LoopJump(p, inner, s, x0, x, xv, true, regs, regs1, k, c, n, d);
      assert n > 0 by { ContinuedLater(p, inner, x0, x, xv, true, regs1, k, c, n, d); }
      if k == 0 {
        LateEnough(p, tg, s, t.end, t.v, needed, regs, k, n, d);
      } else {
        var m, f := SimRepeatCond(p, ev, s, tg, e, needed, t, None, regs, d.regs, c.w, k - 1);
        n, d := Onward(p, ev, tg, s, t.end, t.v, needed, regs, k, EvalRepeatCond(Itself, ev, e, None, c.w, k - 1), c0, n, d, m, f);
      }
    } else {
      ElseJumps(e);
      n, d := SimLeft(p, ev, s, tg, inner, e, e.cond, e.body, e.els, needed, t, x0, x, xv, regs, regs1, k, c, c0, n, d);
    }
  }

  /** The rest of a repeat loop once its condition has a value. */
  function RepeatTest(ev: Primitives, loop: Expr, last: Option<Value>, v: Value, w: World, k: nat): Outcome
    requires loop.Repeat?
  {
    if v == 0 then (if k == 0 then Timeout else EvalRepeat(Itself, ev, loop, w, k - 1))
    else if last.Some? then Normal(last.value, w)
    else Eval(Itself, ev, loop.els, w, k)
  }

  lemma {:induction false} SimRepeatTest(p: seq<Block>, ev: Primitives, s: State, tg: Option<Targets>, e: Expr, needed: bool, t: LoopSteps,
                                         last: Option<Value>, regs: Regs, regs1: Regs, v: Value, w: World, k: nat)
    returns (n: nat, d: Conf)
    requires e.Repeat? && Checked(e, tg.Some?) && RepeatReady(p, s, tg, e, needed, t) && Kept(s, regs, regs1)
    requires last.Some? ==> !t.l.NoValue? && (needed ==> Read(t.l.op, regs1) == last.value)
    requires Read(if last.None? then t.i.op else t.c.op, regs1) == v
    ensures Reaches(p, ev, At(if last.None? then t.cond else t.again, regs1, w), n, d)
    ensures Arrives(p, tg, s, t.end, t.v, needed, regs, k, RepeatTest(ev, e, last, v, w, k), n, d)
    decreases k, e, 0
  {
    hide Gen, Eval, Embeds, Arrives, KeptBut, Ends, EvalRepeat;
    var b := |s.blocks|;
    var inner := Some(Targets(b + 1, b + 3, b + 2));
    var x, xv := if last.None? then t.cond else t.again, if last.None? then t.i else t.c;
    var c0 := At(x, regs1, w);
    ElseJumps(e);
    if v != 0 && last.Some? {
      // out with the value of the body
      var regs3 := TakeIntoPost(p, ev, t.again, CondBr(t.c.op, b + 3, b), b + 3, t.l, regs1, w);
      n, d := 1, Conf(b + 3, 0, regs3, w);
      KeptSame(t.body, regs1);
      AtPost(p, tg, s, t.body, t.end, t.v, needed, b + 3, regs, regs1, regs1, regs3, k, Normal(last.value, w), n);
    } else {
      var target := if v != 0 then b + 2 else b;
      TakeCondBr(p, ev, x, xv.op, if last.None? then b + 2 else b + 3, b, regs1, w, target);
      n, d := 1, Conf(target, 0, regs1, w);
      if v != 0 {
        var m, f := SimElse(p, ev, s, tg, inner, e, e.cond, e.body, e.els, needed, t, regs, regs1, w, k);
        ReachesTrans(p, ev, c0, n, d, m, f);
        ArrivesAfter(p, tg, s, t.end, t.v, needed, regs, k, Eval(Itself, ev, e.els, w, k), n, m, f);
        n, d := n + m, f;
      } else if k == 0 {
        LateEnough(p, tg, s, t.end, t.v, needed, regs, k, n, d);
      } else {
        var m, f := SimRepeat(p, ev, s, tg, e, needed, t, regs, regs1, w, k - 1);
        n, d := Onward(p, ev, tg, s, t.end, t.v, needed, regs, k, EvalRepeat(Itself, ev, e, w, k - 1), c0, n, d, m, f);
      }
    }
  }

  // ----- a loop as it is generated is ready to be run -----

  lemma LoopIsReady(p: seq<Block>, s: State, tg: Option<Targets>, inner: Option<Targets>, e: Expr, cond: Expr, body: Expr, els: Expr,
                    needed: bool, t: LoopSteps)
    requires Ready(s, tg) && LoopBuilt(s, tg, inner, e, cond, body, els, needed, t) && Embeds(p, s, t.end, tg)
    requires Checked(cond, true) && !JumpsAway(cond) && Checked(body, true) && Checked(els, tg.Some?)
    requires Gen(t.cond0, inner, cond, true) == (t.cond, t.i) && Gen(t.body0, inner, body, needed) == (t.body, t.l)
    requires !t.l.NoValue? ==> Gen(t.body, inner, cond, true) == (t.again, t.c)
    requires Gen(t.els0, tg, els, needed) == (t.els, t.r)
    ensures LoopReady(p, s, tg, inner, e, cond, body, els, needed, t)
  {
    hide Gen, Leaves, Grows, Agrees, Embeds, CloseIf, LoopStart;
    assert LoopCode(p, s, tg, inner, JumpsAway(e), needed, t) by {
      LoopPieces(p, s, tg, inner, e, cond, body, els, needed, t);
    }
  }

  lemma WhileIsReady(p: seq<Block>, s: State, tg: Option<Targets>, e: Expr, needed: bool, t: LoopSteps)
    requires e.While? && Ready(s, tg) && Checked(e, tg.Some?) && WhileShape(s, tg, e, needed, t) && Embeds(p, s, t.end, tg)
    ensures WhileReady(p, s, tg, e, needed, t)
  {
    hide Gen, Leaves, Grows, Agrees, Embeds, CloseIf, LoopStart, LoopEnd, LoopReady, GrowsBut, Ends;
    var n := |s.blocks|;
    StartCloses(s, needed && !JumpsAway(e));
    GenWhileBuilds(s, tg, e, needed, t);
    CheckedAnywhere(e.cond, tg.Some?);
    LoopIsReady(p, s, tg, Some(Targets(n, n + 3, n + 2)), e, e.cond, e.body, e.els, needed, t);
    assert Ends(p, t.cond, CondBr(t.i.Op(), n + 1, n + 2)) by {
      GrowsIsBut(t.body0.blocks, t.end.blocks);
      EndsBut(p, s, t.end, tg, t.cond, CondBr(t.i.Op(), n + 1, n + 2), t.body0, |t.body0.blocks|);
    }
    if !t.l.NoValue? {
      AgainEnds(p, s, tg, e.cond, t, CondBr(t.c.Op(), n + 1, n + 3), t.els0);
    }
  }

  lemma AgainEnds(p: seq<Block>, s: State, tg: Option<Targets>, cond: Expr, t: LoopSteps, term: Terminator, u: State)
    requires Embeds(p, s, t.end, tg) && Grows(u.blocks, t.end.blocks) && Own(s, t.again.cur) && t.again.cur < |t.again.blocks|
    requires !t.c.NoValue? && u == CloseIf(t.again, t.c, term).(cur := u.cur)
    ensures Ends(p, t.again, term)
  {
    hide Grows, Agrees, Embeds, CloseIf, GrowsBut, Ends;
    Closes(t.again, t.c, term);
    GrowsIsBut(u.blocks, t.end.blocks);
    EndsBut(p, s, t.end, tg, t.again, term, u, |u.blocks|);
  }

  lemma RepeatIsReady(p: seq<Block>, s: State, tg: Option<Targets>, e: Expr, needed: bool, t: LoopSteps)
    requires e.Repeat? && Ready(s, tg) && Checked(e, tg.Some?) && RepeatShape(s, tg, e, needed, t) && Embeds(p, s, t.end, tg)
    ensures RepeatReady(p, s, tg, e, needed, t)
  {
    hide Gen, Leaves, Grows, Agrees, Embeds, CloseIf, LoopStart, LoopEnd, LoopReady, GrowsBut, Ends;
    var n := |s.blocks|;
    StartCloses(s, needed && !JumpsAway(e));
    GenRepeatBuilds(s, tg, e, needed, t);
    CheckedAnywhere(e.cond, tg.Some?);
    LoopIsReady(p, s, tg, Some(Targets(n + 1, n + 3, n + 2)), e, e.cond, e.body, e.els, needed, t);
    assert Ends(p, t.cond, CondBr(t.i.Op(), n + 2, n)) by {
      GrowsIsBut(t.els0.blocks, t.end.blocks);
      EndsBut(p, s, t.end, tg, t.cond, CondBr(t.i.Op(), n + 2, n), t.els0, |t.els0.blocks|);
    }
    if !t.l.NoValue? {
      AgainEnds(p, s, tg, e.cond, t, CondBr(t.c.Op(), n + 3, n), t.cond0);
    }
  }

  lemma {:induction false} SimLoop(p: seq<Block>, ev: Primitives, s: State, tg: Option<Targets>, e: Expr, needed: bool, t: LoopSteps,
                                   regs: Regs, w: World, k: nat)
    returns (n: nat, d: Conf)
    requires (e.While? && WhileShape(s, tg, e, needed, t)) || (e.Repeat? && RepeatShape(s, tg, e, needed, t))
    requires Ready(s, tg) && Checked(e, tg.Some?) && Embeds(p, s, t.end, tg)
    ensures Reaches(p, ev, At(s, regs, w), n, d)
    ensures Arrives(p, tg, s, t.end, t.v, needed, regs, k, Eval(Itself, ev, e, w, k), n, d)
    decreases k, e, 3
  {
    hide Gen, Embeds, Arrives, Ends, EvalWhile, EvalRepeat, EvalRepeatCond, WhileShape, RepeatShape;
    var b := |s.blocks|;
    if e.While? {
      WhileIsReady(p, s, tg, e, needed, t);
      n, d := SimWhile(p, ev, s, tg, e, needed, t, None, regs, regs, w, k);
    } else {
      RepeatIsReady(p, s, tg, e, needed, t);
      n, d := SimRepeat(p, ev, s, tg, e, needed, t, regs, regs, w, k);
    }
    TakeBr(p, ev, s, b, regs, w);
    ReachesTrans(p, ev, At(s, regs, w), 1, Conf(b, 0, regs, w), n, d);
    ArrivesAfter(p, tg, s, t.end, t.v, needed, regs, k, Eval(Itself, ev, e, w, k), 1, n, d);
    n := 1 + n;
  }

  // ----- whole functions -----

  /** A function body: an entry block, the code of the body, and a return of its value. */
  function Lower(e: Expr): seq<Block> {
    var (t, v) := Gen(State([EMPTY], 0), None, e, true);
    CloseIf(t, v, Ret(v.Op())).blocks
  }

  ghost predicate Returns(p: seq<Block>, ev: Primitives, w: World, v: Value, w': World) {
    exists n: nat, d: Conf :: Reaches(p, ev, Conf(0, 0, map[], w), n, d) && Step(p, ev, d) == Halt(v, w')
  }

  ghost predicate RunsFor(p: seq<Block>, ev: Primitives, w: World, n: nat) {
    exists d: Conf :: Reaches(p, ev, Conf(0, 0, map[], w), n, d)
  }

  ghost predicate GetsStuck(p: seq<Block>, ev: Primitives, w: World) {
    exists n: nat, d: Conf :: Reaches(p, ev, Conf(0, 0, map[], w), n, d) && Step(p, ev, d) == Stuck
  }

  lemma Runs(ev: Primitives, e: Expr, w: World, k: nat) returns (n: nat, d: Conf)
    requires Checked(e, false)
    ensures Reaches(Lower(e), ev, Conf(0, 0, map[], w), n, d)
    ensures var r := Eval(Itself, ev, e, w, k);
            match r
            case Timeout => n >= k
            case Normal(v, w') => Step(Lower(e), ev, d) == Halt(v, w')
            case Lost => Step(Lower(e), ev, d) == Stuck
            case _ => false
  {
    hide Gen, Eval, Leaves, Grows;
    var s := State([EMPTY], 0);
    var (t, v) := Gen(s, None, e, true);
    var p := Lower(e);
    assert Stays(e) && !JumpsAway(e) by { JumpsSomewhere(e); NoEscape(e); }
    GenBuilds(s, None, e, true);
    assert Embeds(p, s, t, None);
    FlagsHold(Itself, ev, e, false, w, k);
    n, d := Simulates(p, ev, s, None, e, true, map[], w, k);
  }

  /** Code and program behave alike in a world: the code returns a value, with an effect on
      the world, exactly when the program does; it runs for ever exactly when the program
      does; it gets stuck exactly when the program is lost; and it does one of the three. */
  ghost predicate SameBehaviour(o: Owner, p: seq<Block>, ev: Primitives, e: Expr, w: World) {
    && (forall v, w' :: Returns(p, ev, w, v, w') <==> Evaluates(o, ev, e, w, v, w'))
    && ((forall n: nat :: RunsFor(p, ev, w, n)) <==> forall k: nat :: Eval(o, ev, e, w, k).Timeout?)
    && (GetsStuck(p, ev, w) <==> GetsLost(o, ev, e, w))
    && ((exists v, w' :: Returns(p, ev, w, v, w')) || (forall n: nat :: RunsFor(p, ev, w, n)) || GetsStuck(p, ev, w))
  }

  ghost predicate Evaluates(o: Owner, ev: Primitives, e: Expr, w: World, v: Value, w': World) {
    exists k: nat :: Eval(o, ev, e, w, k) == Normal(v, w')
  }

  ghost predicate GetsLost(o: Owner, ev: Primitives, e: Expr, w: World) {
    exists k: nat :: Eval(o, ev, e, w, k).Lost?
  }

  /** The code means what the program means, where conditions hold no break or continue of
      the loop outside; it does not get stuck. */
  lemma LoweringIsCorrect(ev: Primitives, e: Expr, w: World)
    requires Checked(e, false) && ConditionsStay(e)
    ensures SameBehaviour(Outside, Lower(e), ev, e, w) && !GetsStuck(Lower(e), ev, w)
  {
    hide Eval, Lower, Step, Reaches, Checked, ConditionsStay;
    LoweringIsExact(ev, e, w);
    forall k: nat
      ensures Eval(Itself, ev, e, w, k) == Eval(Outside, ev, e, w, k)
    {
      OwnersAgree(ev, e, false, w, k);
    }
    assert !GetsLost(Outside, ev, e, w) by {
      forall k: nat
        ensures !Eval(Outside, ev, e, w, k).Lost?
      {
        FlagsHold(Outside, ev, e, false, w, k);
      }
    }
    forall v, w'
      ensures Evaluates(Itself, ev, e, w, v, w') <==> Evaluates(Outside, ev, e, w, v, w')
    {
    }
  }

  /** Every function body the passes accept: the code takes a break or continue in the
      condition of a loop for one of that loop, and means what the program means then. */
  lemma LoweringIsExact(ev: Primitives, e: Expr, w: World)
    requires Checked(e, false)
    ensures SameBehaviour(Itself, Lower(e), ev, e, w)
    ensures ValuesHavePlace(e) ==> !GetsStuck(Lower(e), ev, w)
  {
    hide Eval, Lower, Step;
    if k: nat :| !Eval(Itself, ev, e, w, k).Timeout? {
      Terminating(ev, e, w, k);
    } else {
      Diverging(ev, e, w);
    }
    if ValuesHavePlace(e) {
      forall k: nat
        ensures !Eval(Itself, ev, e, w, k).Lost?
      {
        FlagsHold(Itself, ev, e, false, w, k);
      }
    }
  }

  lemma Terminating(ev: Primitives, e: Expr, w: World, k: nat)
    requires Checked(e, false) && !Eval(Itself, ev, e, w, k).Timeout?
    ensures SameBehaviour(Itself, Lower(e), ev, e, w)
  {
    hide Eval, Lower, Step;
    var p, c, r := Lower(e), Conf(0, 0, map[], w), Eval(Itself, ev, e, w, k);
    var n, d := Runs(ev, e, w, k);
    assert if r.Normal? then Returns(p, ev, w, r.v, r.w) else GetsStuck(p, ev, w);
    forall v, w'
      ensures Returns(p, ev, w, v, w') <==> Evaluates(Itself, ev, e, w, v, w')
    {
      if Returns(p, ev, w, v, w') {
        var m: nat, f: Conf :| Reaches(p, ev, c, m, f) && Step(p, ev, f) == Halt(v, w');
        EndsOnce(p, ev, c, n, d, m, f);
        assert Eval(Itself, ev, e, w, k) == Normal(v, w');
      }
      if Evaluates(Itself, ev, e, w, v, w') {
        var j: nat :| Eval(Itself, ev, e, w, j) == Normal(v, w');
        var m, f := Runs(ev, e, w, j);
      }
    }
    assert GetsStuck(p, ev, w) <==> GetsLost(Itself, ev, e, w) by {
      if GetsStuck(p, ev, w) {
        var m: nat, f: Conf :| Reaches(p, ev, c, m, f) && Step(p, ev, f) == Stuck;
        EndsOnce(p, ev, c, n, d, m, f);
        assert Eval(Itself, ev, e, w, k).Lost?;
      }
      if GetsLost(Itself, ev, e, w) {
        var j: nat :| Eval(Itself, ev, e, w, j).Lost?;
        var m, f := Runs(ev, e, w, j);
      }
    }
    assert !RunsFor(p, ev, w, n + 1) by {
      if RunsFor(p, ev, w, n + 1) {
        var f: Conf :| Reaches(p, ev, c, n + 1, f);
        NoStepFromEnd(p, ev, c, n, d, f);
      }
    }
  }

  lemma Diverging(ev: Primitives, e: Expr, w: World)
    requires Checked(e, false) && forall k: nat :: Eval(Itself, ev, e, w, k).Timeout?
    ensures SameBehaviour(Itself, Lower(e), ev, e, w)
  {
    hide Eval, Lower, Step;
    var p, c := Lower(e), Conf(0, 0, map[], w);
    forall n: nat
      ensures RunsFor(p, ev, w, n)
    {
      assert Eval(Itself, ev, e, w, n).Timeout?;
      var m, d := Runs(ev, e, w, n);
      var f := Prefix(p, ev, c, m, d, n);
    }
    forall m: nat, f: Conf | Reaches(p, ev, c, m, f)
      ensures Step(p, ev, f).Next?
    {
      assert RunsFor(p, ev, w, m + 1);
      var h: Conf :| Reaches(p, ev, c, m + 1, h);
      if !Step(p, ev, f).Next? {
        NoStepFromEnd(p, ev, c, m, f, h);
      }
    }
    forall v, w'
      ensures !Evaluates(Itself, ev, e, w, v, w')
    {
      assert forall k: nat :: Eval(Itself, ev, e, w, k) != Normal(v, w');
    }
  }

  lemma {:induction false} NoStepFromEnd(p: seq<Block>, ev: Primitives, c: Conf, n: nat, d: Conf, f: Conf)
    requires Reaches(p, ev, c, n, d) && !Step(p, ev, d).Next?
    ensures !Reaches(p, ev, c, n + 1, f)
    decreases n
  {
    if n > 0 && Reaches(p, ev, c, n + 1, f) {
      NoStepFromEnd(p, ev, Step(p, ev, c).c, n - 1, d, f);
    }
  }

  lemma {:induction false} EndsOnce(p: seq<Block>, ev: Primitives, c: Conf, n: nat, d: Conf, m: nat, f: Conf)
    requires Reaches(p, ev, c, n, d) && !Step(p, ev, d).Next?
    requires Reaches(p, ev, c, m, f) && !Step(p, ev, f).Next?
    ensures d == f
    decreases n
  {
    if n > 0 && m > 0 {
      EndsOnce(p, ev, Step(p, ev, c).c, n - 1, d, m - 1, f);
    }
  }

  lemma {:induction false} Prefix(p: seq<Block>, ev: Primitives, c: Conf, m: nat, d: Conf, n: nat) returns (f: Conf)
    requires Reaches(p, ev, c, m, d) && n <= m
    ensures Reaches(p, ev, c, n, f)
    decreases n
  {
    f := c;
    if n > 0 {
      f := Prefix(p, ev, Step(p, ev, c).c, m - 1, d, n - 1);
    }
  }
}

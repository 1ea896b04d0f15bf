/** Structured control flow: sequences, conditionals and the two loops, with break and
    continue, and what running it means.

    A loop yields the value of its last iteration if that iteration gave one and the value
    of its else clause otherwise; the reference semantics carries that "last value or none"
    explicitly. */
module ControlFlow {

  /** The state a primitive operation reads and changes; nothing here depends on it. */
  type World(!new)

  type Value = int

  /** What each primitive operation does to the world, and the value it returns. */
  type Primitives = (nat, World) -> (World, Value)

  datatype Option<+T> = None | Some(value: T)

  datatype Expr =
    | Lit(v: Value)
    | Prim(op: nat)
    | Seq(es: seq<Expr>)
    | If(cond: Expr, left: Expr, right: Expr)
    | While(cond: Expr, body: Expr, els: Expr)
    | Repeat(body: Expr, cond: Expr, els: Expr)
    | Break(value: Option<Expr>)
    | Continue

  // ----- reference semantics -----

  /** How running an expression ends.  Lost: control got to a place the code generator was
      told it cannot get to. */
  datatype Outcome =
    | Timeout
    | Normal(v: Value, w: World)
    | Broke(bv: Option<Value>, w: World)
    | Continued(w: World)
    | Lost

  /** Which loop a break or continue in the condition of a loop belongs to: the one outside,
      as the passes before code generation record it, or the loop itself, as the generator
      has it, which pushes the frame of the loop before it generates the condition. */
  datatype Owner = Outside | Itself

  /** Runs an expression; k bounds how many iterations any loop may make. */
  function Eval(o: Owner, ev: Primitives, e: Expr, w: World, k: nat): Outcome
    decreases k, e, 2
  {
    match e
    case Lit(v) => Normal(v, w)
    case Prim(op) => Normal(ev(op, w).1, ev(op, w).0)
    case Seq(es) => EvalSeq(o, ev, es, w, k)
    case If(cond, left, right) =>
      var c := Eval(o, ev, cond, w, k);
      if !c.Normal? then c
      else if c.v != 0 then Eval(o, ev, left, c.w, k) else Eval(o, ev, right, c.w, k)
    case While(_, _, _) => EvalWhile(o, ev, e, None, w, k)
    case Repeat(_, _, _) => EvalRepeat(o, ev, e, w, k)
    case Break(None) => Broke(None, w)
    case Break(Some(value)) =>
      var r := Eval(o, ev, value, w, k);
      if r.Normal? then Broke(Some(r.v), r.w) else r
    case Continue => Continued(w)
  }

  function EvalSeq(o: Owner, ev: Primitives, es: seq<Expr>, w: World, k: nat): Outcome
    decreases k, es, 0
  {
    if es == [] then Normal(0, w)
    else
      var r := Eval(o, ev, es[0], w, k);
      if |es| == 1 || !r.Normal? then r else EvalSeq(o, ev, es[1..], r.w, k)
  }

  /** A while loop about to evaluate its condition, with the value the previous iteration
      left, if any. */
  function EvalWhile(o: Owner, ev: Primitives, loop: Expr, last: Option<Value>, w: World, k: nat): Outcome
    requires loop.While?
    decreases k, loop, 0
  {
    var c := Eval(o, ev, loop.cond, w, k);
    match c
    case Timeout => Timeout
    case Lost => Lost
    case Normal(v, w') =>
      if v != 0 then
        var b := Eval(o, ev, loop.body, w', k);
        match b
        case Timeout => Timeout
        case Lost => Lost
        case Normal(x, w'') => if k == 0 then Timeout else EvalWhile(o, ev, loop, Some(x), w'', k - 1)
        case Continued(w'') => if k == 0 then Timeout else EvalWhile(o, ev, loop, None, w'', k - 1)
        case Broke(Some(x), w'') => Normal(x, w'')
        case Broke(None, w'') => Eval(o, ev, loop.els, w'', k)
      else if last.Some? then Normal(last.value, w')
      else Eval(o, ev, loop.els, w', k)
    case Continued(w') =>
      if o.Outside? then c else if k == 0 then Timeout else EvalWhile(o, ev, loop, None, w', k - 1)
    case Broke(Some(x), w') => if o.Outside? then c else Yield(loop, x, w')
    case Broke(None, w') => if o.Outside? then c else Eval(o, ev, loop.els, w', k)
  }

  /** The value of a loop that is left by a break in its own condition; a loop that is held
      to jump away has no place for a value. */
  function Yield(loop: Expr, v: Value, w: World): Outcome {
    if JumpsAway(loop) then Lost else Normal(v, w)
  }

  /** A repeat loop about to run its body. */
  function EvalRepeat(o: Owner, ev: Primitives, loop: Expr, w: World, k: nat): Outcome
    requires loop.Repeat?
    decreases k, loop, 1
  {
    var b := Eval(o, ev, loop.body, w, k);
    match b
    case Timeout => Timeout
    case Lost => Lost
    case Broke(Some(v), w') => Normal(v, w')
    case Broke(None, w') => Eval(o, ev, loop.els, w', k)
    case Normal(v, w') => EvalRepeatCond(o, ev, loop, Some(v), w', k)
    case Continued(w') => EvalRepeatCond(o, ev, loop, None, w', k)
  }

  /** A repeat loop after its body, with the value it gave, if any. */
  function EvalRepeatCond(o: Owner, ev: Primitives, loop: Expr, last: Option<Value>, w: World, k: nat): Outcome
    requires loop.Repeat?
    decreases k, loop, 0
  {
    var c := Eval(o, ev, loop.cond, w, k);
    match c
    case Timeout => Timeout
    case Lost => Lost
    case Normal(v, w') =>
      if v == 0 then (if k == 0 then Timeout else EvalRepeat(o, ev, loop, w', k - 1))
      else if last.Some? then Normal(last.value, w')
      else Eval(o, ev, loop.els, w', k)
    case Continued(w') =>
      if o.Outside? then c else if k == 0 then Timeout else EvalRepeatCond(o, ev, loop, None, w', k - 1)
    case Broke(Some(x), w') => if o.Outside? then c else Yield(loop, x, w')
    case Broke(None, w') => if o.Outside? then c else Eval(o, ev, loop.els, w', k)
  }

  // ----- what the earlier passes establish -----

  /** The expression holds a break, a break with a value, or a continue that belongs to the
      loop around it.  Breaks in a nested loop's condition or else clause are put down to the
      outer loop, whose body is the one on record there. */
  predicate MayBreak(e: Expr, valued: bool) {
    match e
    case Lit(_) => false
    case Prim(_) => false
    case Continue => false
    case Seq(es) => exists i :: 0 <= i < |es| && MayBreak(es[i], valued)
    case If(c, l, r) => MayBreak(c, valued) || MayBreak(l, valued) || MayBreak(r, valued)
    case While(c, _, els) => MayBreak(c, valued) || MayBreak(els, valued)
    case Repeat(_, c, els) => MayBreak(c, valued) || MayBreak(els, valued)
    case Break(None) => !valued
    case Break(Some(v)) => true
  }

  predicate MayContinue(e: Expr) {
    match e
    case Lit(_) => false
    case Prim(_) => false
    case Continue => true
    case Seq(es) => exists i :: 0 <= i < |es| && MayContinue(es[i])
    case If(c, l, r) => MayContinue(c) || MayContinue(l) || MayContinue(r)
    case While(c, _, els) => MayContinue(c) || MayContinue(els)
    case Repeat(_, c, els) => MayContinue(c) || MayContinue(els)
    case Break(None) => false
    case Break(Some(v)) => MayContinue(v)
  }

  /** The jumps-away flag: control never leaves the expression with a value. */
  predicate JumpsAway(e: Expr) {
    match e
    case Lit(_) => false
    case Prim(_) => false
    case Seq(es) => es != [] && JumpsAway(es[|es| - 1])
    case If(_, l, r) => JumpsAway(l) && JumpsAway(r)
    case While(_, b, els) => JumpsAway(b) && JumpsAway(els) && !MayBreak(b, true)
    case Repeat(b, _, els) =>
      && JumpsAway(b)
      && (JumpsAway(els) || !MayBreak(b, false))
      && !MayBreak(b, true)
      && !(MayContinue(b) && !JumpsAway(els))
    case Break(_) => true
    case Continue => true
  }

  /** The checks the passes before code generation make: only the last part of a sequence may
      jump away, conditions and break values do not, and a break or continue is inside a loop
      body; the condition and the else clause of a loop are inside the body of the loop
      outside. */
  predicate Checked(e: Expr, inLoop: bool) {
    match e
    case Lit(_) => true
    case Prim(_) => true
    case Seq(es) =>
      && es != []
      && forall i :: 0 <= i < |es| ==> Checked(es[i], inLoop) && (i < |es| - 1 ==> !JumpsAway(es[i]))
    case If(c, l, r) => Checked(c, inLoop) && !JumpsAway(c) && Checked(l, inLoop) && Checked(r, inLoop)
    case While(c, b, els) => Checked(c, inLoop) && !JumpsAway(c) && Checked(b, true) && Checked(els, inLoop)
    case Repeat(b, c, els) => Checked(c, inLoop) && !JumpsAway(c) && Checked(b, true) && Checked(els, inLoop)
    case Break(None) => inLoop
    case Break(Some(v)) => inLoop && Checked(v, inLoop) && !JumpsAway(v)
    case Continue => inLoop
  }

  /** No condition of a loop holds a break or continue of the loop outside.  No pass checks
      this. */
  predicate ConditionsStay(e: Expr) {
    match e
    case Lit(_) => true
    case Prim(_) => true
    case Seq(es) => forall i :: 0 <= i < |es| ==> ConditionsStay(es[i])
    case If(c, l, r) => ConditionsStay(c) && ConditionsStay(l) && ConditionsStay(r)
    case While(c, b, els) => Stays(c) && ConditionsStay(c) && ConditionsStay(b) && ConditionsStay(els)
    case Repeat(b, c, els) => Stays(c) && ConditionsStay(c) && ConditionsStay(b) && ConditionsStay(els)
    case Break(None) => true
    case Break(Some(v)) => ConditionsStay(v)
    case Continue => true
  }

  predicate Stays(e: Expr) {
    !MayBreak(e, false) && !MayBreak(e, true) && !MayContinue(e)
  }

  /** No loop held to jump away has a condition that may break with a value. */
  predicate ValuesHavePlace(e: Expr) {
    match e
    case Lit(_) => true
    case Prim(_) => true
    case Seq(es) => forall i :: 0 <= i < |es| ==> ValuesHavePlace(es[i])
    case If(c, l, r) => ValuesHavePlace(c) && ValuesHavePlace(l) && ValuesHavePlace(r)
    case While(c, b, els) =>
      (JumpsAway(e) ==> !MayBreak(c, true)) && ValuesHavePlace(c) && ValuesHavePlace(b) && ValuesHavePlace(els)
    case Repeat(b, c, els) =>
      (JumpsAway(e) ==> !MayBreak(c, true)) && ValuesHavePlace(c) && ValuesHavePlace(b) && ValuesHavePlace(els)
    case Break(None) => true
    case Break(Some(v)) => ValuesHavePlace(v)
    case Continue => true
  }

  /** The flags tell the truth about running the expression, whichever loop a break in a
      condition belongs to. */
  ghost predicate Obeys(o: Owner, e: Expr, r: Outcome) {
    && (JumpsAway(e) ==> !r.Normal?)
    && (r.Broke? ==> MayBreak(e, r.bv.Some?))
    && (r.Broke? ==> MayBreak(e, false))
    && (r.Continued? ==> MayContinue(e))
    && (r.Lost? ==> o.Itself? && !ValuesHavePlace(e))
  }

  lemma {:induction false} FlagsHold(o: Owner, ev: Primitives, e: Expr, inLoop: bool, w: World, k: nat)
    requires Checked(e, inLoop)
    ensures Obeys(o, e, Eval(o, ev, e, w, k))
    decreases k, e, 2
  {
    match e
    case Seq(es) => SeqFlagsHold(o, ev, es, inLoop, w, k);
    case If(cond, left, right) =>
      FlagsHold(o, ev, cond, inLoop, w, k);
      var c := Eval(o, ev, cond, w, k);
      if c.Normal? {
        FlagsHold(o, ev, left, inLoop, c.w, k);
        FlagsHold(o, ev, right, inLoop, c.w, k);
      }
    case While(_, _, _) => WhileFlagsHold(o, ev, e, None, inLoop, w, k);
    case Repeat(_, _, _) => RepeatFlagsHold(o, ev, e, inLoop, w, k);
    case Break(Some(value)) => FlagsHold(o, ev, value, inLoop, w, k);
    case _ =>
  }

  lemma {:induction false} SeqFlagsHold(o: Owner, ev: Primitives, es: seq<Expr>, inLoop: bool, w: World, k: nat)
    requires Checked(Seq(es), inLoop)
    ensures Obeys(o, Seq(es), EvalSeq(o, ev, es, w, k))
    decreases k, es, 0
  {
    FlagsHold(o, ev, es[0], inLoop, w, k);
    var r := Eval(o, ev, es[0], w, k);
    if |es| > 1 && r.Normal? {
      var rest := es[1..];
      assert forall i :: 0 <= i < |rest| ==> rest[i] == es[i + 1];
      SeqFlagsHold(o, ev, rest, inLoop, r.w, k);
    }
  }

  /** A loop that jumps away has an else clause that does, since its body, which does not
      break with a value, breaks or continues. */
  lemma {:induction false} ElseJumps(loop: Expr)
    requires loop.While? || loop.Repeat?
    ensures JumpsAway(loop) ==> JumpsAway(loop.els) && JumpsAway(loop.body)
  {
    JumpsSomewhere(loop.body);
  }

  /** A loop that jumps away has no last value to yield. */
  lemma {:induction false} WhileFlagsHold(o: Owner, ev: Primitives, loop: Expr, last: Option<Value>, inLoop: bool, w: World, k: nat)
    requires loop.While? && Checked(loop, inLoop) && (JumpsAway(loop.body) ==> last.None?)
    ensures Obeys(o, loop, EvalWhile(o, ev, loop, last, w, k))
    decreases k, loop, 0
  {
    FlagsHold(o, ev, loop.cond, inLoop, w, k);
    var c := Eval(o, ev, loop.cond, w, k);
    if !c.Timeout? && !c.Lost? {
      FlagsHold(o, ev, loop.els, inLoop, c.w, k);
    }
    if c.Normal? {
      FlagsHold(o, ev, loop.body, true, c.w, k);
      var b := Eval(o, ev, loop.body, c.w, k);
      if b.Normal? && k > 0 {
        WhileFlagsHold(o, ev, loop, Some(b.v), inLoop, b.w, k - 1);
      } else if b.Continued? && k > 0 {
        WhileFlagsHold(o, ev, loop, None, inLoop, b.w, k - 1);
      } else if b.Broke? && b.bv.None? {
        FlagsHold(o, ev, loop.els, inLoop, b.w, k);
      }
    } else if c.Continued? && k > 0 {
      WhileFlagsHold(o, ev, loop, None, inLoop, c.w, k - 1);
    }
  }

  lemma {:induction false} RepeatFlagsHold(o: Owner, ev: Primitives, loop: Expr, inLoop: bool, w: World, k: nat)
    requires loop.Repeat? && Checked(loop, inLoop)
    ensures Obeys(o, loop, EvalRepeat(o, ev, loop, w, k))
    decreases k, loop, 1
  {
    FlagsHold(o, ev, loop.body, true, w, k);
    var b := Eval(o, ev, loop.body, w, k);
    ElseJumps(loop);
    if b.Broke? && b.bv.None? {
      FlagsHold(o, ev, loop.els, inLoop, b.w, k);
    } else if b.Normal? {
      RepeatCondFlagsHold(o, ev, loop, Some(b.v), inLoop, b.w, k);
    } else if b.Continued? {
      RepeatCondFlagsHold(o, ev, loop, None, inLoop, b.w, k);
    }
  }

  lemma {:induction false} RepeatCondFlagsHold(o: Owner, ev: Primitives, loop: Expr, last: Option<Value>, inLoop: bool, w: World, k: nat)
    requires loop.Repeat? && Checked(loop, inLoop) && (JumpsAway(loop.body) ==> last.None?)
    ensures Obeys(o, loop, EvalRepeatCond(o, ev, loop, last, w, k))
    decreases k, loop, 0
  {
    FlagsHold(o, ev, loop.cond, inLoop, w, k);
    var c := Eval(o, ev, loop.cond, w, k);
    ElseJumps(loop);
    if !c.Timeout? && !c.Lost? {
      FlagsHold(o, ev, loop.els, inLoop, c.w, k);
    }
    if c.Normal? && k > 0 {
      RepeatFlagsHold(o, ev, loop, inLoop, c.w, k - 1);
    } else if c.Continued? && k > 0 {
      RepeatCondFlagsHold(o, ev, loop, None, inLoop, c.w, k - 1);
    }
  }

  /** An expression checked as being outside any loop has nothing that leaves one. */
  lemma {:induction false} NoEscape(e: Expr)
    requires Checked(e, false)
    ensures Stays(e)
  {
    match e
    case Seq(es) =>
      forall i | 0 <= i < |es|
        ensures Stays(es[i])
      {
        NoEscape(es[i]);
      }
    case If(c, l, r) => NoEscape(c); NoEscape(l); NoEscape(r);
    case While(c, _, els) => NoEscape(c); NoEscape(els);
    case Repeat(_, c, els) => NoEscape(c); NoEscape(els);
    case _ =>
  }

  /** What jumps away jumps to some loop. */
  lemma {:induction false} JumpsSomewhere(e: Expr)
    ensures JumpsAway(e) ==> MayBreak(e, false) || MayContinue(e)
  {
    match e
    case Seq(es) => if es != [] { JumpsSomewhere(es[|es| - 1]); }
    case If(_, l, r) => JumpsSomewhere(l);
    case While(_, _, els) => JumpsSomewhere(els);
    case Repeat(b, _, els) => JumpsSomewhere(b); JumpsSomewhere(els);
    case _ =>
  }

  // ----- conditions without breaks -----

  /** Where no condition holds a break or continue of the loop outside, it does not matter
      which loop would own it. */
  lemma {:induction false} OwnersAgree(ev: Primitives, e: Expr, inLoop: bool, w: World, k: nat)
    requires Checked(e, inLoop) && ConditionsStay(e)
    ensures Eval(Itself, ev, e, w, k) == Eval(Outside, ev, e, w, k)
    decreases k, e, 2
  {
    match e
    case Seq(es) => SeqOwnersAgree(ev, es, inLoop, w, k);
    case If(cond, left, right) =>
      OwnersAgree(ev, cond, inLoop, w, k);
      var c := Eval(Outside, ev, cond, w, k);
      if c.Normal? {
        OwnersAgree(ev, left, inLoop, c.w, k);
        OwnersAgree(ev, right, inLoop, c.w, k);
      }
    case While(_, _, _) => WhileOwnersAgree(ev, e, None, inLoop, w, k);
    case Repeat(_, _, _) => RepeatOwnersAgree(ev, e, inLoop, w, k);
    case Break(Some(value)) => OwnersAgree(ev, value, inLoop, w, k);
    case _ =>
  }

  lemma {:induction false} SeqOwnersAgree(ev: Primitives, es: seq<Expr>, inLoop: bool, w: World, k: nat)
    requires Checked(Seq(es), inLoop) && ConditionsStay(Seq(es))
    ensures EvalSeq(Itself, ev, es, w, k) == EvalSeq(Outside, ev, es, w, k)
    decreases k, es, 0
  {
    OwnersAgree(ev, es[0], inLoop, w, k);
    var r := Eval(Outside, ev, es[0], w, k);
    if |es| > 1 && r.Normal? {
      var rest := es[1..];
      assert forall i :: 0 <= i < |rest| ==> rest[i] == es[i + 1];
      SeqOwnersAgree(ev, rest, inLoop, r.w, k);
    }
  }

  lemma {:induction false} WhileOwnersAgree(ev: Primitives, loop: Expr, last: Option<Value>, inLoop: bool, w: World, k: nat)
    requires loop.While? && Checked(loop, inLoop) && ConditionsStay(loop)
    ensures EvalWhile(Itself, ev, loop, last, w, k) == EvalWhile(Outside, ev, loop, last, w, k)
    decreases k, loop, 0
  {
    OwnersAgree(ev, loop.cond, inLoop, w, k);
    FlagsHold(Outside, ev, loop.cond, inLoop, w, k);
    var c := Eval(Outside, ev, loop.cond, w, k);
    if c.Normal? {
      OwnersAgree(ev, loop.els, inLoop, c.w, k);
      OwnersAgree(ev, loop.body, true, c.w, k);
      var b := Eval(Outside, ev, loop.body, c.w, k);
      if b.Normal? && k > 0 {
        WhileOwnersAgree(ev, loop, Some(b.v), inLoop, b.w, k - 1);
      } else if b.Continued? && k > 0 {
        WhileOwnersAgree(ev, loop, None, inLoop, b.w, k - 1);
      } else if b.Broke? {
        OwnersAgree(ev, loop.els, inLoop, b.w, k);
      }
    }
  }

  lemma {:induction false} RepeatOwnersAgree(ev: Primitives, loop: Expr, inLoop: bool, w: World, k: nat)
    requires loop.Repeat? && Checked(loop, inLoop) && ConditionsStay(loop)
    ensures EvalRepeat(Itself, ev, loop, w, k) == EvalRepeat(Outside, ev, loop, w, k)
    decreases k, loop, 0
  {
    OwnersAgree(ev, loop.body, true, w, k);
    var b := Eval(Outside, ev, loop.body, w, k);
    if b.Broke? {
      OwnersAgree(ev, loop.els, inLoop, b.w, k);
    } else if b.Normal? || b.Continued? {
      OwnersAgree(ev, loop.cond, inLoop, b.w, k);
      FlagsHold(Outside, ev, loop.cond, inLoop, b.w, k);
      var c := Eval(Outside, ev, loop.cond, b.w, k);
      if c.Normal? {
        OwnersAgree(ev, loop.els, inLoop, c.w, k);
        if k > 0 {
          RepeatOwnersAgree(ev, loop, inLoop, c.w, k - 1);
        }
      }
    }
  }
}

/** The code generator as it runs: a builder that appends blocks, moves its position, fills in
    phi nodes and keeps a stack of loop frames. */
module CodeBuilder {
  import opened ControlFlow
  import opened BasicBlocks
  import opened Lowering
  import opened LoweringCorrect

  class Builder {
    var blocks: seq<Block>
    var cur: nat

    /** The loop targets of each frame; a frame outside any loop has none. */
    var frames: seq<Option<Targets>>

    /** The start of a function: one frame, and an entry block to build in. */
    constructor ()
      ensures State(blocks, cur) == Lowering.State([EMPTY], 0) && frames == [None]
    {
      blocks, cur, frames := [EMPTY], 0, [None];
    }

    ghost function Built(): State
      reads this
    {
      Lowering.State(blocks, cur)
    }

    ghost function Frame(): Option<Targets>
      reads this
      requires frames != []
    {
      frames[|frames| - 1]
    }

    // ----- the builder -----

    method NewBlock() returns (b: nat)
      modifies this`blocks
      ensures b == |old(blocks)| && blocks == old(blocks) + [EMPTY]
    {
      b := |blocks|;
      blocks := blocks + [EMPTY];
    }

    method Terminate(t: Terminator)
      modifies this`blocks
      ensures Built() == Close(old(Built()), t)
    {
      if cur < |blocks| {
        blocks := blocks[cur := blocks[cur].(term := Some(t))];
      }
    }

    method BuildPhi(b: nat)
      modifies this`blocks
      ensures Built() == StartPhi(old(Built()), b)
    {
      if b < |blocks| {
        blocks := blocks[b := blocks[b].(phi := Some(map[]))];
      }
    }

    method AddIncoming(b: nat, from: nat, v: GenValue)
      modifies this`blocks
      ensures Built() == Incoming(old(Built()), b, from, v)
    {
      if b < |blocks| && v.Val? && blocks[b].phi.Some? {
        blocks := blocks[b := blocks[b].(phi := Some(blocks[b].phi.value[from := v.op]))];
      }
    }

    method PushLoop(t: Targets)
      modifies this`frames
      ensures frames == old(frames) + [Some(t)]
    {
      frames := frames + [Some(t)];
    }

    method PopLoop()
      requires frames != []
      modifies this`frames
      ensures frames == old(frames)[..|old(frames)| - 1]
    {
      frames := frames[..|frames| - 1];
    }

    // ----- expressions -----

    method GenExpr(e: Expr, needed: bool) returns (v: GenValue)
      requires frames != []
      modifies this
      ensures frames == old(frames)
      ensures (Built(), v) == Gen(old(Built()), old(Frame()), e, needed)
      decreases e, 1
    {
      match e {
        case Lit(x) =>
          v := Val(Const(x));
        case Prim(op) =>
          v := Val(Use(Instr(cur, |Cur(Lowering.State(blocks, cur)).instrs|)));
          if cur < |blocks| {
            blocks := blocks[cur := blocks[cur].(instrs := blocks[cur].instrs + [op])];
          }
        case Seq(es) => v := GenSequence(es, needed);
        case If(_, _, _) => v := GenConditional(e, needed);
        case While(_, _, _) => v := GenWhileLoop(e, needed);
        case Repeat(_, _, _) => v := GenRepeatLoop(e, needed);
        case Break(value) => v := GenBreak(value);
        case Continue =>
          var frame := frames[|frames| - 1];
          Terminate(Br(if frame.Some? then frame.value.cont else 0));
          v := NoValue;
      }
    }

    method GenSequence(es: seq<Expr>, needed: bool) returns (v: GenValue)
      requires frames != []
      modifies this
      ensures frames == old(frames)
      ensures (Built(), v) == GenSeq(old(Built()), old(Frame()), es, needed)
      decreases es, 0
    {
      v := NotNeeded;
      var i := 0;
      while i < |es|
        invariant 0 <= i <= |es|
        invariant frames == old(frames)
        invariant i < |es| ==>
                    GenSeq(old(Built()), old(Frame()), es, needed) == GenSeq(Built(), old(Frame()), es[i..], needed)
        invariant i == |es| ==> GenSeq(old(Built()), old(Frame()), es, needed) == (Built(), v)
      {
        assert es[i..][0] == es[i] && es[i..][1..] == es[i + 1..];
        v := GenExpr(es[i], needed && i == |es| - 1);
        i := i + 1;
      }
    }

    method GenBreak(value: Option<Expr>) returns (v: GenValue)
      requires frames != []
      modifies this
      ensures frames == old(frames)
      ensures forall needed :: (Built(), v) == Gen(old(Built()), old(Frame()), Break(value), needed)
      decreases value, 0
    {
      var frame := frames[|frames| - 1];
      match value {
        case None =>
          Terminate(Br(if frame.Some? then frame.value.brkNone else 0));
        case Some(e) =>
          var target := if frame.Some? then frame.value.brk else 0;
          var x := GenExpr(e, true);
          AddIncoming(target, cur, x);
          Terminate(Br(target));
      }
      v := NoValue;
    }

    /** A branch of a conditional, left out if the condition is a constant against it. */
    method GenBranchOf(e: Expr, needed: bool, skip: bool, zero: bool) returns (v: GenValue)
      requires frames != []
      modifies this
      ensures frames == old(frames)
      ensures (Built(), v) == GenBranch(old(Built()), old(Frame()), e, needed, skip, zero)
      decreases e, 2
    {
      if !skip {
        v := GenExpr(e, needed);
      } else if zero {
        v := Val(Const(0));
      } else {
        Terminate(Unreachable);
        v := NoValue;
      }
    }

    method GenConditional(e: Expr, needed: bool) returns (v: GenValue)
      requires e.If? && frames != []
      modifies this
      ensures frames == old(frames)
      ensures (Built(), v) == Gen(old(Built()), old(Frame()), e, needed)
      decreases e, 0
    {
      hide Gen, GenIf, GenBranch, Close;
      GenIfShape(Built(), Frame(), e, needed);
      var c := GenExpr(e.cond, true);
      ghost var cond := Built();
      var jumps := JumpsAway(e);
      var thenBlock := NewBlock();
      var elseBlock := NewBlock();
      var postBlock := 0;
      if !jumps {
        postBlock := NewBlock();
      }
      assert Built() == NewBlocks(cond, if jumps then 2 else 3);
      Terminate(CondBr(c.Op(), thenBlock, elseBlock));

      // left branch
      cur := thenBlock;
      var l := GenBranchOf(e.left, needed, c == Val(Const(0)), needed && !jumps);
      var leftFrom := cur;
      if !l.NoValue? {
        Terminate(Br(thenBlock + 2));
      }

      // right branch
      cur := elseBlock;
      var r := GenBranchOf(e.right, needed, c.Val? && c.op.Const? && c.op.v != 0, needed && !jumps);
      var rightFrom := cur;
      if !r.NoValue? {
        Terminate(Br(thenBlock + 2));
      }

      if jumps {
        v := NoValue;
      } else {
        cur := postBlock;
        if needed {
          BuildPhi(postBlock);
          AddIncoming(postBlock, leftFrom, l);
          AddIncoming(postBlock, rightFrom, r);
          v := Val(Use(Phi(postBlock)));
        } else {
          v := NotNeeded;
        }
      }
    }

    /** The four blocks of a loop, a branch to the first, and a phi node in the last. */
    method StartLoop(phi: bool) returns (b: nat)
      modifies this`blocks, this`cur
      ensures b == |old(blocks)| && Built() == LoopStart(old(Built()), phi)
    {
      ghost var s := Built();
      b := NewBlock();
      var _ := NewBlock();
      var _ := NewBlock();
      var post := NewBlock();
      assert Built() == NewBlocks(s, 4);
      Terminate(Br(b));
      if phi {
        BuildPhi(post);
      }
      cur := b;
    }

    /** The end of a loop, in its last block. */
    method FinishLoop(post: nat, jumps: bool, needed: bool, bodyFrom: nat, l: GenValue, r: GenValue) returns (v: GenValue)
      modifies this`blocks, this`cur
      ensures (Built(), v) == LoopEnd(old(Built()), post, jumps, needed, bodyFrom, l, old(cur), r)
    {
      var elsFrom := cur;
      if !r.NoValue? {
        Terminate(Br(post));
      }
      cur := post;
      if jumps {
        Terminate(Unreachable);
        v := NoValue;
      } else if needed {
        AddIncoming(post, bodyFrom, l);
        AddIncoming(post, elsFrom, r);
        v := Val(Use(Phi(post)));
      } else {
        v := NotNeeded;
      }
    }

    method GenWhileLoop(e: Expr, needed: bool) returns (v: GenValue)
      requires e.While? && frames != []
      modifies this
      ensures frames == old(frames)
      ensures (Built(), v) == Gen(old(Built()), old(Frame()), e, needed)
      decreases e, 0
    {
      hide Gen, GenWhile, LoopStart, LoopEnd, Close, JumpsAway;
      GenWhileShape(Built(), Frame(), e, needed);
      var jumps := JumpsAway(e);
      var b := StartLoop(needed && !jumps);
      PushLoop(Targets(b, b + 3, b + 2));

      // init: on the first entry, or after a continue
      var i := GenExpr(e.cond, true);
      Terminate(CondBr(i.Op(), b + 1, b + 2));

      // body
      cur := b + 1;
      var l := GenExpr(e.body, needed);
      if !l.NoValue? {
        var c := GenExpr(e.cond, true);
        if !c.NoValue? {
          Terminate(CondBr(c.Op(), b + 1, b + 3));
        }
      }
      var bodyFrom := cur;
      PopLoop();

      // else, in the frame of the loop around
      cur := b + 2;
      var r := GenExpr(e.els, needed);
      v := FinishLoop(b + 3, jumps, needed, bodyFrom, l, r);
    }

    method GenRepeatLoop(e: Expr, needed: bool) returns (v: GenValue)
      requires e.Repeat? && frames != []
      modifies this
      ensures frames == old(frames)
      ensures (Built(), v) == Gen(old(Built()), old(Frame()), e, needed)
      decreases e, 0
    {
      hide Gen, GenRepeat, LoopStart, LoopEnd, Close, JumpsAway;
      GenRepeatShape(Built(), Frame(), e, needed);
      var jumps := JumpsAway(e);
      var b := StartLoop(needed && !jumps);
      PushLoop(Targets(b + 1, b + 3, b + 2));

      // body
      var l := GenExpr(e.body, needed);
      if !l.NoValue? {
        var c := GenExpr(e.cond, true);
        if !c.NoValue? {
          Terminate(CondBr(c.Op(), b + 3, b));
        }
      }
      var bodyFrom := cur;

      // condition: only after a continue
      cur := b + 1;
      var i := GenExpr(e.cond, true);
      Terminate(CondBr(i.Op(), b + 2, b));
      PopLoop();

      // else, in the frame of the loop around
      cur := b + 2;
      var r := GenExpr(e.els, needed);
      v := FinishLoop(b + 3, jumps, needed, bodyFrom, l, r);
    }
  }

  /** Generates the blocks of a function body.  Run in any world, they do what the body does
      when a break or continue in the condition of a loop is taken for one of that loop; and
      so what the body means, where there is none. */
  method GenFunction(e: Expr) returns (p: seq<Block>)
    requires Checked(e, false)
    ensures p == Lower(e)
    ensures forall ev: Primitives, w: World :: SameBehaviour(Itself, p, ev, e, w)
    ensures ConditionsStay(e) ==> forall ev: Primitives, w: World :: SameBehaviour(Outside, p, ev, e, w) && !GetsStuck(p, ev, w)
  {
    var b := new Builder();
    var v := b.GenExpr(e, true);
    if !v.NoValue? {
      b.Terminate(Ret(v.Op()));
    }
    p := b.blocks;
    forall ev: Primitives, w: World
      ensures SameBehaviour(Itself, p, ev, e, w)
      ensures ConditionsStay(e) ==> SameBehaviour(Outside, p, ev, e, w) && !GetsStuck(p, ev, w)
    {
      LoweringIsExact(ev, e, w);
      if ConditionsStay(e) {
        LoweringIsCorrect(ev, e, w);
      }
    }
  }
}

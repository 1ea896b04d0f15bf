/** The target of the lowering: numbered basic blocks with primitive instructions, branches
    and phi nodes, and a machine that runs them. */
module BasicBlocks {
  import opened ControlFlow

  /** The result of the instruction at a position of a block, or of a block's phi node. */
  datatype Reg = Instr(block: nat, index: nat) | Phi(block: nat)

  datatype Operand = Const(v: Value) | Use(r: Reg)

  datatype Terminator =
    | Br(target: nat)
    | CondBr(c: Operand, yes: nat, no: nat)
    | Ret(value: Operand)
    | Unreachable

  /** A phi node is the operand to take for each block control may come from. */
  datatype Block = Block(phi: Option<map<nat, Operand>>, instrs: seq<nat>, term: Option<Terminator>)

  const EMPTY := Block(None, [], None)

  type Regs = map<Reg, Value>

  /** About to run the instruction at the given position, or the terminator after the last. */
  datatype Conf = Conf(block: nat, index: nat, regs: Regs, w: World)

  datatype Result = Next(c: Conf) | Halt(v: Value, w: World) | Stuck

  function Read(o: Operand, regs: Regs): Value {
    match o
    case Const(v) => v
    case Use(r) => if r in regs then regs[r] else 0
  }

  /** Control passes from one block to the start of another, through its phi node if it has
      one; the phi node must know where control came from. */
  function Enter(p: seq<Block>, from: nat, to: nat, regs: Regs, w: World): Result {
    if to >= |p| then Stuck
    else match p[to].phi
      case None => Next(Conf(to, 0, regs, w))
      case Some(m) => if from in m then Next(Conf(to, 0, regs[Phi(to) := Read(m[from], regs)], w)) else Stuck
  }

  function Step(p: seq<Block>, ev: Primitives, c: Conf): Result {
    if c.block >= |p| then Stuck
    else
      var b := p[c.block];
      if c.index < |b.instrs| then
        var r := ev(b.instrs[c.index], c.w);
        Next(Conf(c.block, c.index + 1, c.regs[Instr(c.block, c.index) := r.1], r.0))
      else match b.term
        case Some(Br(t)) => Enter(p, c.block, t, c.regs, c.w)
        case Some(CondBr(o, yes, no)) => Enter(p, c.block, if Read(o, c.regs) != 0 then yes else no, c.regs, c.w)
        case Some(Ret(o)) => Halt(Read(o, c.regs), c.w)
        case Some(Unreachable) => Stuck
        case None => Stuck
  }

  /** The machine gets from c to d in n steps. */
  ghost predicate Reaches(p: seq<Block>, ev: Primitives, c: Conf, n: nat, d: Conf)
    decreases n
  {
    if n == 0 then c == d else Step(p, ev, c).Next? && Reaches(p, ev, Step(p, ev, c).c, n - 1, d)
  }

  lemma {:induction false} ReachesTrans(p: seq<Block>, ev: Primitives, c: Conf, n: nat, d: Conf, m: nat, e: Conf)
    requires Reaches(p, ev, c, n, d) && Reaches(p, ev, d, m, e)
    ensures Reaches(p, ev, c, n + m, e)
    decreases n
  {
    if n > 0 {
      ReachesTrans(p, ev, Step(p, ev, c).c, n - 1, d, m, e);
    }
  }
}

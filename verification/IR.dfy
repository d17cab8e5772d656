/**
 The part of LLVM IR that control flow is lowered to, the instruction builder, and what a graph
 of basic blocks does.
 */
module IR {
  import opened Wrappers
  import opened Semantics

  /** A constant, or the result of the instruction at an index of a block. */
  datatype Operand = Const(value: bool) | Result(block: nat, index: nat)

  datatype Instr =
    | Call(id: nat)
    | Store(slot: Slot)
    | Phi(incoming: seq<(Operand, nat)>)
    | Br(target: nat)
    | CondBr(cond: Operand, yes: nat, no: nat)
    | Ret(result: Option<Operand>)
    | RetError
    | Unreachable
  {
    predicate Terminator() {
      !Call? && !Store? && !Phi?
    }
    function Targets(): set<nat> {
      match this
      case Br(t) => {t}
      case CondBr(_, yes, no) => {yes, no}
      case _ => {}
    }
  }

  type Graph = seq<seq<Instr>>

  /**
   The basic blocks created so far, numbered in the order of their creation, those of them that
   were inserted into the function, in order, and the block the builder appends to.
   */
  datatype RawBuilder = RawBuilder(blocks: Graph, layout: seq<nat>, at: nat) {
    function Here(): seq<Instr>
      requires at < |blocks|
    {
      blocks[at]
    }
  }
  type Builder = b: RawBuilder | b.at < |b.blocks| witness RawBuilder([[]], [0], 0)

  /** c has everything that b has. */
  predicate Grows(b: Builder, c: Builder) {
    |b.blocks| <= |c.blocks| && forall k | 0 <= k < |b.blocks| :: b.blocks[k] <= c.blocks[k]
  }

  /** Creates a block that is not part of the function yet. */
  function Create(b: Builder): (r: Builder)
    ensures Grows(b, r)
  {
    b.(blocks := b.blocks + [[]])
  }

  /** Creates a block at the end of the function. */
  function CreateIn(b: Builder): (r: Builder)
    ensures Grows(b, r)
  {
    RawBuilder(b.blocks + [[]], b.layout + [|b.blocks|], b.at)
  }

  function Insert(b: Builder, k: nat): (r: Builder)
    ensures Grows(b, r)
  {
    b.(layout := b.layout + [k])
  }

  function SetInsertPoint(b: Builder, k: nat): (r: Builder)
    requires k < |b.blocks|
    ensures Grows(b, r)
  {
    b.(at := k)
  }

  function Emit(b: Builder, i: Instr): (r: Builder)
    ensures Grows(b, r)
  {
    b.(blocks := b.blocks[b.at := b.Here() + [i]])
  }

  // ----- Execution -----

  datatype Config =
    | At(block: nat, pc: nat, from: nat, env: map<(nat, nat), bool>, io: IO)
    | Halt(outcome: Outcome, io: IO)
    | Fault

  function Read(v: Operand, env: map<(nat, nat), bool>): Option<bool> {
    match v
    case Const(c) => Some(c)
    case Result(k, i) => if (k, i) in env then Some(env[(k, i)]) else None
  }

  function Incoming(incoming: seq<(Operand, nat)>, from: nat): Option<Operand> {
    if incoming == [] then None
    else if incoming[0].1 == from then Some(incoming[0].0)
    else Incoming(incoming[1..], from)
  }

  function Define(c: Config, v: bool, io: IO): Config
    requires c.At?
  {
    At(c.block, c.pc + 1, c.from, c.env[(c.block, c.pc) := v], io)
  }

  function Jump(c: Config, target: nat): Config
    requires c.At?
  {
    At(target, 0, c.block, c.env, c.io)
  }

  function Step(g: Graph, c: Config): Config {
    if !c.At? then c
    else if c.block >= |g| || c.pc >= |g[c.block]| then Fault
    else
      match g[c.block][c.pc]
      case Call(id) =>
        if c.io.answers == [] then Halt(Starved, c.io)
        else
          var a := c.io.answers[0];
          Define(c, a, IO(c.io.answers[1..], c.io.effects + [Asked(id, a)]))
      case Store(s) => At(c.block, c.pc + 1, c.from, c.env, c.io.Do(Stored(s)))
      case Phi(incoming) =>
        (match Incoming(incoming, c.from)
         case None => Fault
         case Some(v) =>
           match Read(v, c.env)
           case None => Fault
           case Some(x) => Define(c, x, c.io))
      case Br(t) => Jump(c, t)
      case CondBr(v, yes, no) =>
        (match Read(v, c.env)
         case None => Fault
         case Some(x) => Jump(c, if x then yes else no))
      case Ret(None) => Halt(Value(None), c.io)
      case Ret(Some(v)) =>
        (match Read(v, c.env)
         case None => Fault
         case Some(x) => Halt(Value(Some(x)), c.io))
      case RetError => Halt(Error, c.io)
      case Unreachable => Halt(Gone, c.io)
  }

  function Steps(g: Graph, c: Config, n: nat): Config
    decreases n
  {
    if n == 0 then c else Steps(g, Step(g, c), n - 1)
  }

  lemma {:induction false} StepsTrans(g: Graph, c: Config, n: nat, k: nat)
    ensures Steps(g, c, n + k) == Steps(g, Steps(g, c, n), k)
    decreases n
  {
    if n > 0 {
      StepsTrans(g, Step(g, c), n - 1, k);
    }
  }

  lemma {:induction false} HaltStays(g: Graph, c: Config, n: nat)
    requires !c.At?
    ensures Steps(g, c, n) == c
  {
    if n > 0 {
      HaltStays(g, c, n - 1);
    }
  }

  /** A graph has at most one result. */
  lemma HaltUnique(g: Graph, c: Config, n: nat, k: nat)
    requires !Steps(g, c, n).At? && !Steps(g, c, k).At?
    ensures Steps(g, c, n) == Steps(g, c, k)
  {
    var (lo, hi) := if n <= k then (n, k) else (k, n);
    StepsTrans(g, c, lo, hi - lo);
    HaltStays(g, Steps(g, c, lo), hi - lo);
  }
}

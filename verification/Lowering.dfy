/** The generate methods of the AST nodes in Compiler/AST, as functions on the builder. */
module Lowering {
  import opened Wrappers
  import opened Syntax
  import opened Semantics
  import opened IR

  function CreateTwo(b: Builder): (r: Builder)
    ensures |r.blocks| == |b.blocks| + 2 && Grows(b, r)
  {
    CreateIn(CreateIn(b))
  }

  /** Ends the current block and moves on to block k. */
  function EndAt(b: Builder, i: Instr, k: nat): (r: Builder)
    requires k < |b.blocks|
    ensures |r.blocks| == |b.blocks| && Grows(b, r)
  {
    SetInsertPoint(Emit(b, i), k)
  }

  function LowerExpr(b: Builder, e: Expr): (r: (Builder, Operand))
    ensures |b.blocks| <= |r.0.blocks| && Grows(b, r.0)
    decreases e
  {
    match e
    case Leaf(id, _) => (Emit(b, Call(id)), Result(b.at, |b.Here()|))
    case Logical(isAnd, left, right) =>
      var (b1, l) := LowerExpr(b, left);
      var (b2, r) := LowerExpr(Fork(b1, isAnd, l), right);
      Join(b1, isAnd, b2, r)
  }

  /** Only goes on with the right operand, in a new block, if the left one does not decide. */
  function Fork(b: Builder, isAnd: bool, l: Operand): (r: Builder)
    ensures |r.blocks| == |b.blocks| + 2 && Grows(b, r)
  {
    EndAt(CreateTwo(b), ForkBranch(b, isAnd, l), |b.blocks|)
  }

  function ForkBranch(b: Builder, isAnd: bool, l: Operand): Instr {
    var rightBlock := |b.blocks|;
    var cont := rightBlock + 1;
    CondBr(l, if isAnd then rightBlock else cont, if isAnd then cont else rightBlock)
  }

  /** b was forked, and c has evaluated the right operand. */
  function Join(b: Builder, isAnd: bool, c: Builder, r: Operand): (j: (Builder, Operand))
    requires |b.blocks| + 1 < |c.blocks|
    ensures |c.blocks| <= |j.0.blocks| && Grows(c, j.0)
  {
    var cont := |b.blocks| + 1;
    var d := EndAt(c, Br(cont), cont);
    (Emit(d, JoinPhi(b, isAnd, c, r)), Result(cont, |d.Here()|))
  }

  function JoinPhi(b: Builder, isAnd: bool, c: Builder, r: Operand): Instr {
    Phi([(Const(!isAnd), b.at), (r, c.at)])
  }

  function LowerCond(b: Builder, c: Cond): (r: (Builder, Operand))
    ensures |b.blocks| <= |r.0.blocks| && Grows(b, r.0)
  {
    match c
    case Test(e) => LowerExpr(b, e)
    case TestAndBind(id, _, v) =>
      (Emit(Emit(b, Call(id)), Store(Initialized(VariableInit(v)))), Result(b.at, |b.Here()|))
  }

  function LowerStore(b: Builder, s: Slot, e: Expr): (r: Builder)
    ensures |b.blocks| <= |r.blocks| && Grows(b, r)
  {
    Emit(LowerExpr(b, e).0, Store(s))
  }

  function LowerBlock(b: Builder, block: Block): (r: Builder)
    ensures |b.blocks| <= |r.blocks| && Grows(b, r)
    decreases block, 0
  {
    LowerAll(b, block.stmts, if block.returned then block.stop else |block.stmts|)
  }

  /** Lowers the statements before index `stop`. */
  function LowerAll(b: Builder, stmts: seq<Stmt>, stop: nat): (r: Builder)
    ensures |b.blocks| <= |r.blocks| && Grows(b, r)
    decreases stmts
  {
    if stmts == [] || stop == 0 then b else LowerAll(Lower(b, stmts[0]), stmts[1..], stop - 1)
  }

  /** A block that continues at `after` unless it returned. */
  function LowerInto(b: Builder, block: Block, after: nat): (r: Builder)
    ensures |b.blocks| <= |r.blocks| && Grows(b, r)
    decreases block, 1
  {
    var b1 := LowerBlock(b, block);
    if block.returned then b1 else Emit(b1, Br(after))
  }

  function Lower(b: Builder, s: Stmt): (r: Builder)
    ensures |b.blocks| <= |r.blocks| && Grows(b, r)
    decreases s, 1
  {
    match s
    case If(chain) => LowerIf(b, chain)
    case While(c, body) => LowerWhile(b, c, body)
    case Handle(_, _, _, _, _, _) => LowerHandle(b, s)
    case Unsafe(block) => LowerBlock(b, block)
    case _ => LowerSimple(b, s)
  }

  /** A statement without blocks. */
  function LowerSimple(b: Builder, s: Stmt): (r: Builder)
    ensures |b.blocks| <= |r.blocks| && Grows(b, r)
  {
    match s
    case ExprStmt(e, never) =>
      var b1 := LowerExpr(b, e).0;
      if never then Emit(b1, Unreachable) else b1
    case Declare(v, optional) => if optional then Emit(b, Store(Initialized(VariableInit(v)))) else b
    case DeclareAndAssign(v, e) => LowerStore(b, Initialized(VariableInit(v)), e)
    case Assign(i, e) => LowerStore(b, Initialized(i), e)
    case Return(None) => Emit(b, Ret(None))
    case Return(Some(e)) =>
      var (b1, v) := LowerExpr(b, e);
      Emit(b1, Ret(Some(v)))
    case Raise(e) => Emit(LowerStore(b, ErrorPointer, e), RetError)
    case _ => b
  }

  function LowerIf(b: Builder, chain: Chain): (r: Builder)
    ensures |b.blocks| <= |r.blocks| && Grows(b, r)
    decreases chain, 1
  {
    var after := |b.blocks|;
    var b1 := LowerChain(Create(b), chain, after);
    if ReachesEnd(chain) then SetInsertPoint(Insert(b1, after), after) else b1
  }

  function LowerWhile(b: Builder, c: Cond, body: Block): (r: Builder)
    ensures |b.blocks| <= |r.blocks| && Grows(b, r)
    decreases body, 3
  {
    var after := |b.blocks|;
    var (head, repeat) := (after + 1, after + 2);
    var (b1, v) := LowerCond(EndAt(CreateTwo(Create(b)), Br(head), head), c);
    var b2 := LowerInto(EndAt(b1, CondBr(v, repeat, after), repeat), body, head);
    SetInsertPoint(Insert(b2, after), after)
  }

  function LowerHandle(b: Builder, s: Stmt): (r: Builder)
    requires s.Handle?
    ensures |b.blocks| <= |r.blocks| && Grows(b, r)
    decreases s, 0
  {
    var after := |b.blocks|;
    var (noError, error) := (after + 1, after + 2);
    var isError := Result(b.at, |b.Here()|);
    var b1 := EndAt(Emit(CreateTwo(Create(b)), Call(s.call)), CondBr(isError, error, noError), error);
    var b2 := LowerBound(b1, Some(s.errorVar), s.errorBlock, after);
    var b3 := LowerBound(SetInsertPoint(b2, noError), s.valueVar, s.valueBlock, after);
    if !s.errorBlock.returned || !s.valueBlock.returned then SetInsertPoint(Insert(b3, after), after) else b3
  }

  function LowerBound(b: Builder, v: Option<nat>, block: Block, after: nat): (r: Builder)
    ensures |b.blocks| <= |r.blocks| && Grows(b, r)
    decreases block, 2
  {
    LowerInto(if v.Some? then Emit(b, Store(Initialized(VariableInit(v.value)))) else b, block, after)
  }

  /** Lowers the conditions and blocks of an if statement. */
  function LowerChain(b: Builder, chain: Chain, after: nat): (r: Builder)
    ensures |b.blocks| <= |r.blocks| && Grows(b, r)
    decreases chain, 0
  {
    match chain
    case NoElse => Emit(b, Br(after))
    case Else(block) => LowerInto(b, block, after)
    case Arm(c, block, rest) =>
      var yes := |b.blocks|;
      var no := yes + 1;
      var (b1, v) := LowerCond(CreateTwo(b), c);
      var b2 := LowerInto(EndAt(b1, CondBr(v, yes, no), yes), block, after);
      LowerChain(SetInsertPoint(b2, no), rest, after)
  }

  /** Whether some block of an if statement continues after it. */
  predicate ReachesEnd(chain: Chain) {
    match chain
    case NoElse => true
    case Else(block) => !block.returned
    case Arm(_, block, rest) => !block.returned || ReachesEnd(rest)
  }
}

/**
 The generate methods of the AST nodes on the object that holds the function under construction
 and the builder's insertion point. Every method is proved to do what Lowering says.
 */
module Generator {
  import opened Wrappers
  import opened Syntax
  import opened Semantics
  import opened IR
  import opened Lowering

  /** `layout` lists the blocks that were inserted into the function; `at` is the insertion point. */
  class FunctionGenerator {
    var blocks: Graph
    var layout: seq<nat>
    var at: nat

    ghost predicate Valid()
      reads this
    {
      at < |blocks|
    }

    ghost function State(): Builder
      requires Valid()
      reads this
    {
      RawBuilder(blocks, layout, at)
    }

    constructor ()
      ensures Valid() && State() == RawBuilder([[]], [0], 0)
    {
      blocks, layout, at := [[]], [0], 0;
    }

    method CreateBlock() returns (k: nat)
      requires Valid()
      modifies this
      ensures Valid() && State() == Create(old(State())) && k == |old(blocks)|
    {
      k := |blocks|;
      blocks := blocks + [[]];
    }

    method CreateBlockInFunction() returns (k: nat)
      requires Valid()
      modifies this
      ensures Valid() && State() == CreateIn(old(State())) && k == |old(blocks)|
    {
      k := |blocks|;
      blocks, layout := blocks + [[]], layout + [k];
    }

    method InsertBlock(k: nat)
      requires Valid()
      modifies this
      ensures Valid() && State() == Insert(old(State()), k)
    {
      layout := layout + [k];
    }

    method MoveTo(k: nat)
      requires Valid() && k < |blocks|
      modifies this
      ensures Valid() && State() == SetInsertPoint(old(State()), k)
    {
      at := k;
    }

    method Append(i: Instr) returns (v: Operand)
      requires Valid()
      modifies this
      ensures Valid() && State() == Emit(old(State()), i)
      ensures v == Result(old(at), |old(blocks[at])|)
    {
      v := Result(at, |blocks[at]|);
      blocks := blocks[at := blocks[at] + [i]];
    }
  }

  method GenerateExpr(fg: FunctionGenerator, e: Expr) returns (v: Operand)
    requires fg.Valid()
    modifies fg
    ensures fg.Valid() && (fg.State(), v) == LowerExpr(old(fg.State()), e)
    decreases e
  {
    match e {
      case Leaf(id, _) => v := fg.Append(Call(id));
      case Logical(_, _, _) => v := GenerateLogical(fg, e);
    }
  }

  /** The right operand has a block of its own; a phi in the last block picks the operand that decided. */
  method GenerateLogical(fg: FunctionGenerator, e: Expr) returns (v: Operand)
    requires e.Logical? && fg.Valid()
    modifies fg
    ensures fg.Valid() && (fg.State(), v) == LowerExpr(old(fg.State()), e)
    decreases e, 0
  {
    hide Grows, Fork, Join;
    var left := GenerateExpr(fg, e.left);
    ghost var b1 := fg.State();
    var insertBlock := fg.at;
    var cont := StartRight(fg, e.isAnd, left);
    var right := GenerateExpr(fg, e.right);
    v := MergeOperands(fg, b1, e.isAnd, insertBlock, cont, right);
  }

  /** Only goes on with the right operand if the left one does not decide. */
  method StartRight(fg: FunctionGenerator, isAnd: bool, left: Operand) returns (cont: nat)
    requires fg.Valid()
    modifies fg
    ensures fg.Valid() && fg.State() == Fork(old(fg.State()), isAnd, left) && cont == |old(fg.blocks)| + 1
  {
    hide Grows;
    var rightBlock := fg.CreateBlockInFunction();
    cont := fg.CreateBlockInFunction();
    var _ := fg.Append(CondBr(left, if isAnd then rightBlock else cont, if isAnd then cont else rightBlock));
    fg.MoveTo(rightBlock);
  }

  method MergeOperands(fg: FunctionGenerator, ghost b1: Builder, isAnd: bool, insertBlock: nat, cont: nat, right: Operand)
      returns (v: Operand)
    requires fg.Valid() && insertBlock == b1.at && cont == |b1.blocks| + 1 < |fg.blocks|
    modifies fg
    ensures fg.Valid() && (fg.State(), v) == Join(b1, isAnd, old(fg.State()), right)
  {
    hide Grows;
    var rightPhiBlock := fg.at;
    var _ := fg.Append(Br(cont));
    fg.MoveTo(cont);
    v := fg.Append(Phi([(Const(!isAnd), insertBlock), (right, rightPhiBlock)]));
  }

  method GenerateCondition(fg: FunctionGenerator, c: Cond) returns (v: Operand)
    requires fg.Valid()
    modifies fg
    ensures fg.Valid() && (fg.State(), v) == LowerCond(old(fg.State()), c)
  {
    match c {
      case Test(e) => v := GenerateExpr(fg, e);
      case TestAndBind(id, _, variable) =>
        v := fg.Append(Call(id));
        var _ := fg.Append(Store(Initialized(VariableInit(variable))));
    }
  }

  method GenerateStore(fg: FunctionGenerator, s: Slot, e: Expr)
    requires fg.Valid()
    modifies fg
    ensures fg.Valid() && fg.State() == LowerStore(old(fg.State()), s, e)
  {
    var _ := GenerateExpr(fg, e);
    var _ := fg.Append(Store(s));
  }

  /** Generates the statements before the point where the block certainly returned. */
  method GenerateBlock(fg: FunctionGenerator, block: Block)
    requires fg.Valid()
    modifies fg
    ensures fg.Valid() && fg.State() == LowerBlock(old(fg.State()), block)
    decreases block, 0
  {
    hide Grows, Lower;
    var stop := if !block.returned then |block.stmts| else block.stop;
    assert block.stmts[0..] == block.stmts;
    var i := 0;
    while i < stop && i < |block.stmts|
      invariant fg.Valid() && i <= |block.stmts| && i <= stop
      invariant LowerAll(old(fg.State()), block.stmts, stop) == LowerAll(fg.State(), block.stmts[i..], stop - i)
    {
      assert block.stmts[i..][1..] == block.stmts[i + 1..];
      Generate(fg, block.stmts[i]);
      i := i + 1;
    }
  }

  method Generate(fg: FunctionGenerator, s: Stmt)
    requires fg.Valid()
    modifies fg
    ensures fg.Valid() && fg.State() == Lower(old(fg.State()), s)
    decreases s, 1
  {
    hide Grows, LowerIf, LowerWhile, LowerHandle, LowerBlock, LowerSimple;
    match s {
      case If(chain) => GenerateIf(fg, chain);
      case While(c, body) => GenerateLoop(fg, c, body);
      case Handle(_, _, _, _, _, _) => GenerateErrorHandler(fg, s);
      case Unsafe(block) => GenerateBlock(fg, block);
      case _ => GenerateSimple(fg, s);
    }
  }

  /** A statement without blocks. */
  method GenerateSimple(fg: FunctionGenerator, s: Stmt)
    requires fg.Valid() && !s.If? && !s.While? && !s.Handle? && !s.Unsafe?
    modifies fg
    ensures fg.Valid() && fg.State() == LowerSimple(old(fg.State()), s)
  {
    hide Grows, LowerExpr, LowerStore;
    match s {
      case ExprStmt(e, never) =>
        var _ := GenerateExpr(fg, e);
        if never {
          var _ := fg.Append(Unreachable);
        }
      case Declare(v, optional) =>
        if optional {
          var _ := fg.Append(Store(Initialized(VariableInit(v))));
        }
      case DeclareAndAssign(v, e) => GenerateStore(fg, Initialized(VariableInit(v)), e);
      case Assign(i, e) => GenerateStore(fg, Initialized(i), e);
      case Return(None) =>
        var _ := fg.Append(Ret(None));
      case Return(Some(e)) =>
        var v := GenerateExpr(fg, e);
        var _ := fg.Append(Ret(Some(v)));
      case Raise(e) =>
        GenerateStore(fg, ErrorPointer, e);
        var _ := fg.Append(RetError);
    }
  }

  /** Generates a block that goes on at block `next` unless it returned. */
  method GenerateInto(fg: FunctionGenerator, block: Block, next: nat)
    requires fg.Valid()
    modifies fg
    ensures fg.Valid() && fg.State() == LowerInto(old(fg.State()), block, next)
    decreases block, 1
  {
    hide Grows, LowerBlock;
    GenerateBlock(fg, block);
    if !block.returned {
      var _ := fg.Append(Br(next));
    }
  }

  /** The block after the statement is only inserted if some branch to it was generated. */
  method GenerateIf(fg: FunctionGenerator, chain: Chain)
    requires fg.Valid()
    modifies fg
    ensures fg.Valid() && fg.State() == LowerIf(old(fg.State()), chain)
    decreases chain, 1
  {
    hide Grows, LowerCond, LowerInto;
    var addAfter := false;
    var after := fg.CreateBlock();
    var rest := chain;
    while rest.Arm?
      invariant fg.Valid() && (rest == chain || rest < chain)
      invariant LowerChain(Create(old(fg.State())), chain, after) == LowerChain(fg.State(), rest, after)
      invariant ReachesEnd(chain) <==> addAfter || ReachesEnd(rest)
      decreases rest
    {
      GenerateArm(fg, rest, after);
      addAfter := addAfter || !rest.body.returned;
      rest := rest.rest;
    }
    if rest.Else? {
      GenerateInto(fg, rest.last, after);
      addAfter := addAfter || !rest.last.returned;
    } else {
      var _ := fg.Append(Br(after));
      addAfter := true;
    }
    if addAfter {
      fg.InsertBlock(after);
      fg.MoveTo(after);
    }
  }

  /** A condition and its block, up to where the rest of the chain goes. */
  method GenerateArm(fg: FunctionGenerator, chain: Chain, after: nat)
    requires fg.Valid() && chain.Arm?
    modifies fg
    ensures fg.Valid() && LowerChain(old(fg.State()), chain, after) == LowerChain(fg.State(), chain.rest, after)
    decreases chain, 0
  {
    hide Grows, LowerCond, LowerInto;
    var yes := fg.CreateBlockInFunction();
    var no := fg.CreateBlockInFunction();
    var v := GenerateCondition(fg, chain.cond);
    var _ := fg.Append(CondBr(v, yes, no));
    fg.MoveTo(yes);
    GenerateInto(fg, chain.body, after);
    fg.MoveTo(no);
  }

  method GenerateLoop(fg: FunctionGenerator, c: Cond, body: Block)
    requires fg.Valid()
    modifies fg
    ensures fg.Valid() && fg.State() == LowerWhile(old(fg.State()), c, body)
    decreases body, 3
  {
    hide Grows, LowerCond, LowerInto, CreateTwo;
    var after, head, repeat := CreateThree(fg);
    var _ := fg.Append(Br(head));
    fg.MoveTo(head);
    var v := GenerateCondition(fg, c);
    var _ := fg.Append(CondBr(v, repeat, after));
    fg.MoveTo(repeat);
    GenerateInto(fg, body, head);
    fg.InsertBlock(after);
    fg.MoveTo(after);
  }

  /** The block after a statement, which is not inserted yet, and two blocks of the statement. */
  method CreateThree(fg: FunctionGenerator) returns (after: nat, first: nat, second: nat)
    requires fg.Valid()
    modifies fg
    ensures after == |old(fg.blocks)| && first == after + 1 && second == after + 2
    ensures fg.Valid() && fg.State() == CreateTwo(Create(old(fg.State())))
    ensures fg.at == old(fg.at) && fg.blocks[fg.at] == old(fg.blocks[fg.at])
  {
    after := fg.CreateBlock();
    first := fg.CreateBlockInFunction();
    second := fg.CreateBlockInFunction();
  }

  /** Generates a block after setting the variable that is bound in it, if there is one. */
  method GenerateBound(fg: FunctionGenerator, v: Option<nat>, block: Block, next: nat)
    requires fg.Valid()
    modifies fg
    ensures fg.Valid() && fg.State() == LowerBound(old(fg.State()), v, block, next)
    decreases block, 2
  {
    hide Grows, LowerInto;
    if v.Some? {
      var _ := fg.Append(Store(Initialized(VariableInit(v.value))));
    }
    GenerateInto(fg, block, next);
  }

  method GenerateErrorHandler(fg: FunctionGenerator, s: Stmt)
    requires fg.Valid() && s.Handle?
    modifies fg
    ensures fg.Valid() && fg.State() == LowerHandle(old(fg.State()), s)
    decreases s, 0
  {
    hide Grows, LowerBound, CreateTwo;
    var after, noError, error := CreateThree(fg);
    var isError := fg.Append(Call(s.call));
    var _ := fg.Append(CondBr(isError, error, noError));
    fg.MoveTo(error);
    GenerateBound(fg, Some(s.errorVar), s.errorBlock, after);
    fg.MoveTo(noError);
    GenerateBound(fg, s.valueVar, s.valueBlock, after);
    if !s.errorBlock.returned || !s.valueBlock.returned {
      fg.InsertBlock(after);
      fg.MoveTo(after);
    }
  }
}

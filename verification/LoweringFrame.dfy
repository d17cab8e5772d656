/** What lowering leaves alone: the blocks that existed before, except for the one it appends to. */
module LoweringFrame {
  import opened Wrappers
  import opened Syntax
  import opened Semantics
  import opened IR
  import opened Lowering

  predicate IsNew(b: Builder, k: nat, pc: nat) {
    k >= |b.blocks| || (k == b.at && pc >= |b.Here()|)
  }

  /** An instruction that lowering from b may append to block k. */
  predicate Allowed(b: Builder, exits: set<nat>, k: nat, i: Instr) {
    (forall t | t in i.Targets() :: t >= |b.blocks| || t in exits) && (i.Phi? ==> k >= |b.blocks|)
  }

  /**
   Lowering from b to c only appends: to the current block of b and to new blocks. It branches
   to new blocks and to the given exits only, puts phis into new blocks only, and ends in the
   current block or in a new one.
   */
  predicate Frame(b: Builder, exits: set<nat>, c: Builder) {
    && |b.blocks| <= |c.blocks| && b.layout <= c.layout
    && (forall k | 0 <= k < |b.blocks| && k != b.at :: c.blocks[k] == b.blocks[k])
    && b.Here() <= c.blocks[b.at]
    && (c.at == b.at || c.at >= |b.blocks|)
    && (forall k, pc | 0 <= k < |c.blocks| && 0 <= pc < |c.blocks[k]| && IsNew(b, k, pc) ::
          Allowed(b, exits, k, c.blocks[k][pc]))
  }

  predicate Inner(b: Builder, outer: set<nat>, inner: set<nat>) {
    forall t | t in inner :: t >= |b.blocks| || t in outer
  }

  lemma FrameRefl(b: Builder, exits: set<nat>)
    ensures Frame(b, exits, b)
  {
  }

  lemma FrameEmit(b: Builder, exits: set<nat>, c: Builder, i: Instr)
    requires Frame(b, exits, c) && Allowed(b, exits, c.at, i)
    ensures Frame(b, exits, Emit(c, i))
  {
  }

  lemma FrameKeeps(b: Builder, exits: set<nat>, c: Builder, k: nat)
    requires Frame(b, exits, c) && k < |b.blocks| && k != b.at
    ensures |b.blocks| <= |c.blocks| && c.blocks[k] == b.blocks[k]
  {
  }

  /** An instruction that goes nowhere inside the function. */
  lemma FramePlain(b: Builder, exits: set<nat>, c: Builder, i: Instr)
    requires Frame(b, exits, c) && i.Targets() == {} && !i.Phi?
    ensures Frame(b, exits, Emit(c, i))
  {
    FrameEmit(b, exits, c, i);
  }

  lemma FrameAt(b: Builder, exits: set<nat>, c: Builder, k: nat)
    requires Frame(b, exits, c) && |b.blocks| <= k < |c.blocks|
    ensures Frame(b, exits, SetInsertPoint(c, k)) && Frame(b, exits, SetInsertPoint(Insert(c, k), k))
  {
  }

  lemma FrameCreate(b: Builder, exits: set<nat>, c: Builder)
    requires Frame(b, exits, c)
    ensures Frame(b, exits, Create(c)) && Frame(b, exits, CreateIn(c))
  {
  }

  lemma FrameCreateTwo(b: Builder, exits: set<nat>, c: Builder)
    requires Frame(b, exits, c)
    ensures Frame(b, exits, CreateTwo(c))
  {
    hide Frame, Grows;
    FrameCreate(b, exits, c);
    FrameCreate(b, exits, CreateIn(c));
  }

  lemma FrameEndAt(b: Builder, exits: set<nat>, c: Builder, i: Instr, k: nat)
    requires Frame(b, exits, c) && Allowed(b, exits, c.at, i) && |b.blocks| <= k < |c.blocks|
    ensures Frame(b, exits, EndAt(c, i, k))
  {
    hide Frame, Grows;
    FrameEmit(b, exits, c, i);
    FrameAt(b, exits, Emit(c, i), k);
  }

  /** Two new blocks, one of which lowering goes on with. */
  lemma FrameFork(b: Builder, exits: set<nat>, c: Builder, i: Instr, k: nat)
    requires Frame(b, exits, c) && Allowed(b, exits, c.at, i) && |b.blocks| <= k < |c.blocks| + 2
    ensures Frame(b, exits, EndAt(CreateTwo(c), i, k))
  {
    hide Frame, Grows;
    FrameCreateTwo(b, exits, c);
    FrameEndAt(b, exits, CreateTwo(c), i, k);
  }

  lemma FrameTrans(b: Builder, outer: set<nat>, c: Builder, inner: set<nat>, d: Builder)
    requires Frame(b, outer, c) && Frame(c, inner, d) && Inner(b, outer, inner)
    ensures Frame(b, outer, d)
  {
    forall k | 0 <= k < |b.blocks| && k != b.at ensures d.blocks[k] == b.blocks[k] {
      assert c.blocks[k] == b.blocks[k];
    }
    forall k, pc | 0 <= k < |d.blocks| && 0 <= pc < |d.blocks[k]| && IsNew(b, k, pc)
      ensures Allowed(b, outer, k, d.blocks[k][pc])
    {
      if IsNew(c, k, pc) {
        assert Allowed(c, inner, k, d.blocks[k][pc]);
      } else {
        assert d.blocks[k][pc] == c.blocks[k][pc];
      }
    }
  }

  lemma {:induction false} FrameExpr(b: Builder, e: Expr)
    ensures Frame(b, {}, LowerExpr(b, e).0)
    decreases e
  {
    hide Frame, Grows;
    match e
    case Leaf(id, _) =>
      FrameRefl(b, {});
      FramePlain(b, {}, b, Call(id));
    case Logical(isAnd, left, right) =>
      var (b1, l) := LowerExpr(b, left);
      var (b2, r) := LowerExpr(Fork(b1, isAnd, l), right);
      FrameExpr(b, left);
      FrameExpr(Fork(b1, isAnd, l), right);
      FrameJoin(b, b1, isAnd, l, b2, r);
  }

  lemma FrameJoin(b: Builder, b1: Builder, isAnd: bool, l: Operand, b2: Builder, r: Operand)
    requires Frame(b, {}, b1) && Frame(Fork(b1, isAnd, l), {}, b2)
    requires |b.blocks| <= |b1.blocks| && |b1.blocks| + 1 < |b2.blocks|
    ensures Frame(b, {}, Join(b1, isAnd, b2, r).0)
  {
    hide Frame, Grows;
    var cont := |b1.blocks| + 1;
    FrameFork(b, {}, b1, ForkBranch(b1, isAnd, l), |b1.blocks|);
    FrameTrans(b, {}, Fork(b1, isAnd, l), {}, b2);
    FrameEndAt(b, {}, b2, Br(cont), cont);
    FrameEmit(b, {}, EndAt(b2, Br(cont), cont), JoinPhi(b1, isAnd, b2, r));
  }

  lemma FrameCond(b: Builder, c: Cond)
    ensures Frame(b, {}, LowerCond(b, c).0)
  {
    hide Frame, Grows;
    match c
    case Test(e) => FrameExpr(b, e);
    case TestAndBind(id, _, v) =>
      FrameRefl(b, {});
      FramePlain(b, {}, b, Call(id));
      FramePlain(b, {}, Emit(b, Call(id)), Store(Initialized(VariableInit(v))));
  }

  lemma FrameStore(b: Builder, s: Slot, e: Expr)
    ensures Frame(b, {}, LowerStore(b, s, e))
  {
    hide Frame, Grows;
    FrameExpr(b, e);
    FramePlain(b, {}, LowerExpr(b, e).0, Store(s));
  }

  lemma {:induction false} FrameBlock(b: Builder, block: Block)
    ensures Frame(b, {}, LowerBlock(b, block))
    decreases block, 0
  {
    FrameAll(b, block.stmts, if block.returned then block.stop else |block.stmts|);
  }

  lemma {:induction false} FrameAll(b: Builder, stmts: seq<Stmt>, stop: nat)
    ensures Frame(b, {}, LowerAll(b, stmts, stop))
    decreases stmts
  {
    hide Frame, Grows;
    FrameRefl(b, {});
    if stmts != [] && stop > 0 {
      FrameStmt(b, stmts[0]);
      FrameAll(Lower(b, stmts[0]), stmts[1..], stop - 1);
      FrameTrans(b, {}, Lower(b, stmts[0]), {}, LowerAll(b, stmts, stop));
    }
  }

  lemma {:induction false} FrameInto(b: Builder, block: Block, after: nat)
    ensures Frame(b, {after}, LowerInto(b, block, after))
    decreases block, 1
  {
    hide Frame, Grows;
    FrameBlock(b, block);
    FrameRefl(b, {after});
    FrameTrans(b, {after}, b, {}, LowerBlock(b, block));
    if !block.returned {
      FrameEmit(b, {after}, LowerBlock(b, block), Br(after));
    }
  }

  lemma {:induction false} FrameBound(b: Builder, v: Option<nat>, block: Block, after: nat)
    ensures Frame(b, {after}, LowerBound(b, v, block, after))
    decreases block, 2
  {
    hide Frame, Grows;
    FrameRefl(b, {after});
    if v.Some? {
      var b1 := Emit(b, Store(Initialized(VariableInit(v.value))));
      FrameEmit(b, {after}, b, Store(Initialized(VariableInit(v.value))));
      FrameInto(b1, block, after);
      FrameTrans(b, {after}, b1, {after}, LowerInto(b1, block, after));
    } else {
      FrameInto(b, block, after);
    }
  }

  /** The part of an arm before its block. */
  lemma FrameArm(b: Builder, c: Cond)
    ensures var (b1, v) := LowerCond(CreateTwo(b), c);
      Frame(b, {}, EndAt(b1, CondBr(v, |b.blocks|, |b.blocks| + 1), |b.blocks|))
  {
    hide Frame, Grows;
    var (b1, v) := LowerCond(CreateTwo(b), c);
    FrameRefl(b, {});
    FrameCreateTwo(b, {}, b);
    FrameCond(CreateTwo(b), c);
    FrameTrans(b, {}, CreateTwo(b), {}, b1);
    FrameEndAt(b, {}, b1, CondBr(v, |b.blocks|, |b.blocks| + 1), |b.blocks|);
  }

  lemma {:induction false} FrameChain(b: Builder, chain: Chain, after: nat)
    ensures Frame(b, {after}, LowerChain(b, chain, after))
    decreases chain, 0
  {
    hide Frame, Grows;
    FrameRefl(b, {after});
    match chain
    case NoElse => FrameEmit(b, {after}, b, Br(after));
    case Else(block) => FrameInto(b, block, after);
    case Arm(c, block, rest) =>
      var yes := |b.blocks|;
      var no := yes + 1;
      var (b1, v) := LowerCond(CreateTwo(b), c);
      var b2 := EndAt(b1, CondBr(v, yes, no), yes);
      FrameArm(b, c);
      FrameTrans(b, {after}, b, {}, b2);
      FrameInto(b2, block, after);
      FrameTrans(b, {after}, b2, {after}, LowerInto(b2, block, after));
      var b3 := SetInsertPoint(LowerInto(b2, block, after), no);
      FrameAt(b, {after}, LowerInto(b2, block, after), no);
      FrameChain(b3, rest, after);
      FrameTrans(b, {after}, b3, {after}, LowerChain(b3, rest, after));
  }

  lemma {:induction false} FrameStmt(b: Builder, s: Stmt)
    ensures Frame(b, {}, Lower(b, s))
    decreases s, 1
  {
    hide Frame, Grows;
    match s
    case If(chain) => FrameIf(b, chain);
    case While(c, body) => FrameWhile(b, c, body);
    case Handle(_, _, _, _, _, _) => FrameHandle(b, s);
    case Unsafe(block) => FrameBlock(b, block);
    case _ => FrameSimple(b, s);
  }

  lemma {:induction false} FrameIf(b: Builder, chain: Chain)
    ensures Frame(b, {}, LowerIf(b, chain))
    decreases chain, 1
  {
    hide Frame, Grows;
    var after := |b.blocks|;
    FrameRefl(b, {});
    FrameCreate(b, {}, b);
    FrameChain(Create(b), chain, after);
    FrameTrans(b, {}, Create(b), {after}, LowerChain(Create(b), chain, after));
    if ReachesEnd(chain) { FrameAt(b, {}, LowerChain(Create(b), chain, after), after); }
  }

  lemma {:induction false} FrameWhile(b: Builder, c: Cond, body: Block)
    ensures Frame(b, {}, LowerWhile(b, c, body))
    decreases body, 3
  {
    hide Frame, Grows;
    var after := |b.blocks|;
    var b3 := FrameLoopHead(b, c);
    FrameInto(b3, body, after + 1);
    FrameTrans(b, {}, b3, {after + 1}, LowerInto(b3, body, after + 1));
    FrameAt(b, {}, LowerInto(b3, body, after + 1), after);
  }

  lemma FrameSimple(b: Builder, s: Stmt)
    ensures Frame(b, {}, LowerSimple(b, s))
  {
    FrameRefl(b, {});
    if s.Return? || s.Raise? || s.ExprStmt? {
      FrameLeaving(b, s);
    } else {
      hide Frame;
      match s
      case Declare(v, optional) =>
        if optional { FramePlain(b, {}, b, Store(Initialized(VariableInit(v)))); }
      case DeclareAndAssign(v, e) => FrameStore(b, Initialized(VariableInit(v)), e);
      case Assign(i, e) => FrameStore(b, Initialized(i), e);
      case _ =>
    }
  }

  lemma FrameLeaving(b: Builder, s: Stmt)
    requires s.Return? || s.Raise? || s.ExprStmt?
    ensures Frame(b, {}, LowerSimple(b, s))
  {
    hide Frame, Grows, Allowed;
    FrameRefl(b, {});
    match s
    case ExprStmt(e, never) =>
      FrameExpr(b, e);
      if never { FramePlain(b, {}, LowerExpr(b, e).0, Unreachable); }
    case Return(None) => FramePlain(b, {}, b, Ret(None));
    case Return(Some(e)) =>
      FrameExpr(b, e);
      FramePlain(b, {}, LowerExpr(b, e).0, Ret(Some(LowerExpr(b, e).1)));
    case Raise(e) =>
      FrameStore(b, ErrorPointer, e);
      FramePlain(b, {}, LowerStore(b, ErrorPointer, e), RetError);
  }

  lemma FrameLoopHead(b: Builder, c: Cond) returns (b3: Builder)
    ensures var after := |b.blocks|;
      var (b2, v) := LowerCond(EndAt(CreateTwo(Create(b)), Br(after + 1), after + 1), c);
      b3 == EndAt(b2, CondBr(v, after + 2, after), after + 2)
    ensures Frame(b, {}, b3) && |b3.blocks| >= |b.blocks| + 3
  {
    hide Frame, Grows;
    FrameRefl(b, {});
    var after := |b.blocks|;
    var b1 := EndAt(CreateTwo(Create(b)), Br(after + 1), after + 1);
    FrameCreate(b, {}, b);
    FrameFork(b, {}, Create(b), Br(after + 1), after + 1);
    var (b2, v) := LowerCond(b1, c);
    FrameCond(b1, c);
    FrameTrans(b, {}, b1, {}, b2);
    FrameEndAt(b, {}, b2, CondBr(v, after + 2, after), after + 2);
    b3 := EndAt(b2, CondBr(v, after + 2, after), after + 2);
  }

  lemma {:induction false} FrameHandle(b: Builder, s: Stmt)
    requires s.Handle?
    ensures Frame(b, {}, LowerHandle(b, s))
    decreases s, 0
  {
    hide Frame, Grows;
    var after := |b.blocks|;
    var noError := after + 1;
    var b1 := HandleFork(b, s);
    FrameBound(b1, Some(s.errorVar), s.errorBlock, after);
    var b2 := LowerBound(b1, Some(s.errorVar), s.errorBlock, after);
    FrameTrans(b, {}, b1, {after}, b2);
    FrameAt(b, {}, b2, noError);
    var b3 := SetInsertPoint(b2, noError);
    FrameBound(b3, s.valueVar, s.valueBlock, after);
    var b4 := LowerBound(b3, s.valueVar, s.valueBlock, after);
    FrameTrans(b, {}, b3, {after}, b4);
    if !s.errorBlock.returned || !s.valueBlock.returned { FrameAt(b, {}, b4, after); }
  }

  lemma HandleFork(b: Builder, s: Stmt) returns (b1: Builder)
    requires s.Handle?
    ensures var after := |b.blocks|;
      b1 == EndAt(Emit(CreateTwo(Create(b)), Call(s.call)),
                  CondBr(Result(b.at, |b.Here()|), after + 2, after + 1), after + 2)
    ensures Frame(b, {}, b1) && |b1.blocks| == |b.blocks| + 3
  {
    hide Frame, Grows;
    FrameRefl(b, {});
    var after := |b.blocks|;
    var branch := CondBr(Result(b.at, |b.Here()|), after + 2, after + 1);
    var b0 := Emit(CreateTwo(Create(b)), Call(s.call));
    b1 := EndAt(b0, branch, after + 2);
    FrameCreate(b, {}, b);
    FrameCreateTwo(b, {}, Create(b));
    FrameEmit(b, {}, CreateTwo(Create(b)), Call(s.call));
    FrameEndAt(b, {}, b0, branch, after + 2);
  }
}

/** Every phi starts its block and has one entry for each predecessor of the block. */
module Predecessors {
  import opened Wrappers
  import opened Syntax
  import opened Semantics
  import opened IR
  import opened Lowering
  import opened LoweringFrame
  import opened Simulation

  ghost predicate Edge(g: Graph, j: nat, k: nat) {
    j < |g| && exists pc | 0 <= pc < |g[j]| :: k in g[j][pc].Targets()
  }

  /** The blocks a phi has entries for. */
  function Labels(incoming: seq<(Operand, nat)>): set<nat> {
    set e | e in incoming :: e.1
  }

  ghost predicate PhiAgrees(g: Graph, k: nat, phi: Instr) {
    && phi.Phi?
    && (forall j: nat :: j in Labels(phi.incoming) <==> Edge(g, j, k))
    && (forall x, y | 0 <= x < y < |phi.incoming| :: phi.incoming[x].1 != phi.incoming[y].1)
  }

  /** Block j is the only predecessor of block k. */
  ghost predicate OnlyFrom(g: Graph, k: nat, j: nat) {
    forall i: nat :: Edge(g, i, k) <==> i == j
  }

  ghost predicate HasNoPhi(block: seq<Instr>) {
    forall i | i in block :: !i.Phi?
  }

  /** Phis agree with the edges so far, and edges lead to blocks. */
  ghost predicate PhisAgree(g: Graph) {
    && (forall k, pc | 0 <= k < |g| && 0 <= pc < |g[k]| && g[k][pc].Phi? :: pc == 0 && PhiAgrees(g, k, g[k][pc]))
    && (forall j: nat, k: nat | Edge(g, j, k) :: k < |g|)
  }

  // ----- Steps of the builder -----

  lemma NoNewEdges(b: Builder, c: Builder, j: nat, k: nat)
    requires Frame(b, {}, c) && k < |b.blocks|
    ensures Edge(c.blocks, j, k) <==> Edge(b.blocks, j, k)
  {
    if Edge(c.blocks, j, k) {
      var pc :| 0 <= pc < |c.blocks[j]| && k in c.blocks[j][pc].Targets();
      assert !IsNew(b, j, pc);
      assert b.blocks[j][pc] == c.blocks[j][pc];
    }
    if Edge(b.blocks, j, k) {
      var pc :| 0 <= pc < |b.blocks[j]| && k in b.blocks[j][pc].Targets();
      assert c.blocks[j][pc] == b.blocks[j][pc];
    }
  }

  lemma PhisCreate(b: Builder)
    requires PhisAgree(b.blocks)
    ensures PhisAgree(Create(b).blocks) && PhisAgree(CreateIn(b).blocks)
    ensures forall j: nat, k: nat :: Edge(Create(b).blocks, j, k) <==> Edge(b.blocks, j, k)
  {
    forall j: nat, k: nat ensures Edge(Create(b).blocks, j, k) <==> Edge(b.blocks, j, k) {
    }
  }

  lemma EmitEdges(b: Builder, i: Instr, j: nat, k: nat)
    ensures Edge(Emit(b, i).blocks, j, k) <==> Edge(b.blocks, j, k) || (j == b.at && k in i.Targets())
  {
    var c := Emit(b, i);
    if Edge(b.blocks, j, k) {
      var pc :| 0 <= pc < |b.blocks[j]| && k in b.blocks[j][pc].Targets();
      assert c.blocks[j][pc] == b.blocks[j][pc];
    }
    if j == b.at && k in i.Targets() {
      assert c.blocks[j][|b.Here()|] == i;
    }
  }

  /** An instruction other than a phi, which branches only to blocks without phis. */
  lemma PhisEmit(b: Builder, i: Instr)
    requires PhisAgree(b.blocks) && !i.Phi?
    requires forall t | t in i.Targets() :: t < |b.blocks| && HasNoPhi(b.blocks[t])
    ensures PhisAgree(Emit(b, i).blocks)
  {
    var c := Emit(b, i);
    forall j: nat, k: nat ensures Edge(c.blocks, j, k) <==> Edge(b.blocks, j, k) || (j == b.at && k in i.Targets()) {
      EmitEdges(b, i, j, k);
    }
    forall k, pc | 0 <= k < |c.blocks| && 0 <= pc < |c.blocks[k]| && c.blocks[k][pc].Phi?
      ensures pc == 0 && PhiAgrees(c.blocks, k, c.blocks[k][pc])
    {
      assert b.blocks[k][pc] == c.blocks[k][pc];
      assert c.blocks[k][pc] in b.blocks[k];
      assert PhiAgrees(b.blocks, k, b.blocks[k][pc]);
    }
  }

  lemma PhisPlain(b: Builder, i: Instr)
    requires PhisAgree(b.blocks) && !i.Phi? && i.Targets() == {}
    ensures PhisAgree(Emit(b, i).blocks)
  {
    PhisEmit(b, i);
  }

  /** A phi at the start of a block. */
  lemma PhisEmitPhi(b: Builder, phi: Instr)
    requires PhisAgree(b.blocks) && b.Here() == [] && PhiAgrees(b.blocks, b.at, phi)
    ensures PhisAgree(Emit(b, phi).blocks)
  {
    var c := Emit(b, phi);
    forall j: nat, k: nat ensures Edge(c.blocks, j, k) <==> Edge(b.blocks, j, k) {
      EmitEdges(b, phi, j, k);
    }
    forall k, pc | 0 <= k < |c.blocks| && 0 <= pc < |c.blocks[k]| && c.blocks[k][pc].Phi?
      ensures pc == 0 && PhiAgrees(c.blocks, k, c.blocks[k][pc])
    {
      if k != b.at {
        assert PhiAgrees(b.blocks, k, b.blocks[k][pc]);
      }
    }
  }

  lemma PhisCreateTwo(b: Builder)
    requires PhisAgree(b.blocks)
    ensures PhisAgree(CreateTwo(b).blocks)
    ensures forall j: nat, k: nat :: Edge(CreateTwo(b).blocks, j, k) ==> k < |b.blocks|
  {
    PhisCreate(b);
    PhisCreate(CreateIn(b));
    assert CreateIn(b).blocks == Create(b).blocks;
    assert CreateTwo(b).blocks == Create(CreateIn(b)).blocks;
  }

  // ----- Expressions -----

  lemma {:induction false} PhisExpr(b: Builder, e: Expr)
    requires PhisAgree(b.blocks)
    ensures PhisAgree(LowerExpr(b, e).0.blocks)
    decreases e
  {
    hide PhisAgree;
    match e
    case Leaf(id, _) => PhisPlain(b, Call(id));
    case Logical(isAnd, left, right) =>
      var (b1, l) := LowerExpr(b, left);
      var b2 := Fork(b1, isAnd, l);
      var (b3, r) := LowerExpr(b2, right);
      PhisExpr(b, left);
      PhisFork(b1, isAnd, l);
      PhisExpr(b2, right);
      FrameExpr(b2, right);
      PhisJoin(b1, isAnd, l, b3, r);
  }

  lemma PhisFork(b: Builder, isAnd: bool, l: Operand)
    requires PhisAgree(b.blocks)
    ensures PhisAgree(Fork(b, isAnd, l).blocks)
    ensures OnlyFrom(Fork(b, isAnd, l).blocks, |b.blocks| + 1, b.at)
  {
    var b0 := CreateTwo(b);
    var branch := ForkBranch(b, isAnd, l);
    PhisCreateTwo(b);
    PhisEmit(b0, branch);
    var cont := |b.blocks| + 1;
    forall j: nat ensures Edge(Fork(b, isAnd, l).blocks, j, cont) <==> j == b.at {
      EmitEdges(b0, branch, j, cont);
    }
  }

  lemma PhisJoin(b: Builder, isAnd: bool, l: Operand, c: Builder, r: Operand)
    requires Frame(Fork(b, isAnd, l), {}, c) && PhisAgree(c.blocks) && |b.blocks| + 1 < |c.blocks|
    requires OnlyFrom(Fork(b, isAnd, l).blocks, |b.blocks| + 1, b.at)
    ensures PhisAgree(Join(b, isAnd, c, r).0.blocks)
  {
    hide PhisAgree, Edge;
    var b2 := Fork(b, isAnd, l);
    var cont := |b.blocks| + 1;
    var phi := JoinPhi(b, isAnd, c, r);
    assert c.blocks[cont] == b2.blocks[cont] == [];
    PhisEmit(c, Br(cont));
    forall j: nat ensures j in Labels(phi.incoming) <==> Edge(Emit(c, Br(cont)).blocks, j, cont) {
      NoNewEdges(b2, c, j, cont);
      EmitEdges(c, Br(cont), j, cont);
      JoinLabels(b, isAnd, c, r);
    }
    PhisEmitPhi(EndAt(c, Br(cont), cont), phi);
  }

  lemma JoinLabels(b: Builder, isAnd: bool, c: Builder, r: Operand)
    ensures Labels(JoinPhi(b, isAnd, c, r).incoming) == {b.at, c.at}
  {
    var incoming := JoinPhi(b, isAnd, c, r).incoming;
    assert incoming[0].1 == b.at && incoming[1].1 == c.at;
    assert incoming[0] in incoming && incoming[1] in incoming;
  }

  lemma PhisCond(b: Builder, c: Cond)
    requires PhisAgree(b.blocks)
    ensures PhisAgree(LowerCond(b, c).0.blocks)
  {
    match c
    case Test(e) => PhisExpr(b, e);
    case TestAndBind(id, _, v) =>
      PhisPlain(b, Call(id));
      PhisPlain(Emit(b, Call(id)), Store(Initialized(VariableInit(v))));
  }

  lemma PhisStore(b: Builder, s: Slot, e: Expr)
    requires PhisAgree(b.blocks)
    ensures PhisAgree(LowerStore(b, s, e).blocks)
  {
    hide PhisAgree, Grows, LowerExpr;
    PhisExpr(b, e);
    PhisPlain(LowerExpr(b, e).0, Store(s));
  }

  lemma PhisSimple(b: Builder, s: Stmt)
    requires PhisAgree(b.blocks)
    ensures PhisAgree(LowerSimple(b, s).blocks)
  {
    hide PhisAgree, Grows;
    match s
    case ExprStmt(e, never) =>
      PhisExpr(b, e);
      if never { PhisPlain(LowerExpr(b, e).0, Unreachable); }
    case Declare(v, optional) =>
      if optional { PhisPlain(b, Store(Initialized(VariableInit(v)))); }
    case DeclareAndAssign(v, e) => PhisStore(b, Initialized(VariableInit(v)), e);
    case Assign(i, e) => PhisStore(b, Initialized(i), e);
    case Return(None) => PhisPlain(b, Ret(None));
    case Return(Some(e)) =>
      PhisExpr(b, e);
      PhisPlain(LowerExpr(b, e).0, Ret(Some(LowerExpr(b, e).1)));
    case Raise(e) =>
      PhisStore(b, ErrorPointer, e);
      PhisPlain(LowerStore(b, ErrorPointer, e), RetError);
    case _ =>
  }

  // ----- Blocks -----

  /** Block k exists, is not the current one, and may be branched to. */
  ghost predicate Enterable(b: Builder, k: nat) {
    k < |b.blocks| && k != b.at && HasNoPhi(b.blocks[k])
  }

  lemma StaysEnterable(b: Builder, exits: set<nat>, c: Builder, k: nat)
    requires Frame(b, exits, c) && Enterable(b, k)
    ensures Enterable(c, k)
  {
  }

  lemma {:induction false} PhisAll(b: Builder, stmts: seq<Stmt>, stop: nat)
    requires PhisAgree(b.blocks)
    ensures PhisAgree(LowerAll(b, stmts, stop).blocks)
    decreases stmts
  {
    if stmts != [] && stop > 0 {
      PhisStmt(b, stmts[0]);
      PhisAll(Lower(b, stmts[0]), stmts[1..], stop - 1);
    }
  }

  lemma {:induction false} PhisInto(b: Builder, block: Block, after: nat)
    requires PhisAgree(b.blocks) && Enterable(b, after)
    ensures PhisAgree(LowerInto(b, block, after).blocks)
    decreases block, 0
  {
    hide PhisAgree, Frame;
    PhisAll(b, block.stmts, if block.returned then block.stop else |block.stmts|);
    if !block.returned {
      FrameBlock(b, block);
      StaysEnterable(b, {}, LowerBlock(b, block), after);
      PhisEmit(LowerBlock(b, block), Br(after));
    }
  }

  lemma {:induction false} PhisBound(b: Builder, v: Option<nat>, block: Block, after: nat)
    requires PhisAgree(b.blocks) && Enterable(b, after)
    ensures PhisAgree(LowerBound(b, v, block, after).blocks)
    decreases block, 1
  {
    hide PhisAgree;
    if v.Some? {
      PhisPlain(b, Store(Initialized(VariableInit(v.value))));
      PhisInto(Emit(b, Store(Initialized(VariableInit(v.value)))), block, after);
    } else {
      PhisInto(b, block, after);
    }
  }

  /** Ends the current block with a branch to two blocks and goes on in one of them. */
  lemma PhisTest(b: Builder, v: Operand, yes: nat, no: nat, k: nat, other: nat)
    requires PhisAgree(b.blocks) && Enterable(b, yes) && Enterable(b, no) && Enterable(b, other)
    requires k < |b.blocks| && k != other
    ensures PhisAgree(EndAt(b, CondBr(v, yes, no), k).blocks) && Enterable(EndAt(b, CondBr(v, yes, no), k), other)
  {
    hide PhisAgree;
    PhisEmit(b, CondBr(v, yes, no));
  }

  lemma {:induction false} PhisChain(b: Builder, chain: Chain, after: nat)
    requires PhisAgree(b.blocks) && Enterable(b, after)
    ensures PhisAgree(LowerChain(b, chain, after).blocks)
    decreases chain, 0
  {
    hide PhisAgree, Frame, Grows, LowerCond, LowerInto;
    match chain
    case NoElse => PhisEmit(b, Br(after));
    case Else(block) => PhisInto(b, block, after);
    case Arm(c, block, rest) =>
      var yes, no := |b.blocks|, |b.blocks| + 1;
      var b0 := CreateTwo(b);
      var (b1, v) := LowerCond(b0, c);
      var b2 := EndAt(b1, CondBr(v, yes, no), yes);
      var b3 := LowerInto(b2, block, after);
      PhisCreateTwo(b);
      PhisCond(b0, c);
      FrameCond(b0, c);
      StaysEnterable(b0, {}, b1, yes);
      StaysEnterable(b0, {}, b1, no);
      StaysEnterable(b0, {}, b1, after);
      PhisTest(b1, v, yes, no, yes, after);
      PhisTest(b1, v, yes, no, yes, no);
      PhisInto(b2, block, after);
      FrameInto(b2, block, after);
      StaysEnterable(b2, {after}, b3, after);
      PhisChain(SetInsertPoint(b3, no), rest, after);
  }

  lemma {:induction false} PhisStmt(b: Builder, s: Stmt)
    requires PhisAgree(b.blocks)
    ensures PhisAgree(Lower(b, s).blocks)
    decreases s, 1
  {
    hide PhisAgree, Grows, LowerIf, LowerWhile, LowerHandle, LowerSimple, LowerAll;
    match s
    case If(chain) => PhisIf(b, chain);
    case While(c, body) => PhisWhile(b, c, body);
    case Handle(_, _, _, _, _, _) => PhisHandle(b, s);
    case Unsafe(block) => PhisAll(b, block.stmts, if block.returned then block.stop else |block.stmts|);
    case _ => PhisSimple(b, s);
  }

  lemma {:induction false} PhisIf(b: Builder, chain: Chain)
    requires PhisAgree(b.blocks)
    ensures PhisAgree(LowerIf(b, chain).blocks)
    decreases chain, 1
  {
    hide PhisAgree;
    PhisCreate(b);
    PhisChain(Create(b), chain, |b.blocks|);
  }

  lemma {:induction false} PhisWhile(b: Builder, c: Cond, body: Block)
    requires PhisAgree(b.blocks)
    ensures PhisAgree(LowerWhile(b, c, body).blocks)
    decreases body, 3
  {
    hide PhisAgree, Frame, Grows, LowerCond, LowerInto;
    var after, head, repeat := |b.blocks|, |b.blocks| + 1, |b.blocks| + 2;
    var b0 := CreateTwo(Create(b));
    PhisCreate(b);
    PhisCreateTwo(Create(b));
    PhisEmit(b0, Br(head));
    var b1 := LoopHead(b);
    var (b2, v) := LowerCond(b1, c);
    PhisCond(b1, c);
    FrameCond(b1, c);
    StaysEnterable(b1, {}, b2, after);
    StaysEnterable(b1, {}, b2, repeat);
    LoopAt(b, c);
    PhisTest(b2, v, repeat, after, repeat, after);
    var b3 := LoopBody(b, c);
    HeadHasNoPhi(b, c);
    PhisInto(b3, body, head);
  }

  lemma HeadHasNoPhi(b: Builder, c: Cond)
    ensures Enterable(LoopBody(b, c), |b.blocks| + 1)
  {
    hide LowerCond, Grows;
    var head := |b.blocks| + 1;
    var (b2, v) := LowerCond(LoopHead(b), c);
    FrameCond(LoopHead(b), c);
    forall pc | 0 <= pc < |b2.blocks[head]| ensures !b2.blocks[head][pc].Phi? {
      assert IsNew(LoopHead(b), head, pc);
    }
  }

  lemma {:induction false} PhisHandle(b: Builder, s: Stmt)
    requires s.Handle? && PhisAgree(b.blocks)
    ensures PhisAgree(LowerHandle(b, s).blocks)
    decreases s, 0
  {
    hide PhisAgree, Frame;
    var after := |b.blocks|;
    var b0 := CreateTwo(Create(b));
    PhisCreate(b);
    PhisCreateTwo(Create(b));
    PhisPlain(b0, Call(s.call));
    var b1 := HandleTest(b, s);
    PhisTest(b1, Result(b.at, |b.Here()|), after + 2, after + 1, after + 2, after);
    PhisTest(b1, Result(b.at, |b.Here()|), after + 2, after + 1, after + 2, after + 1);
    var b2 := HandleError(b, s);
    PhisBound(b2, Some(s.errorVar), s.errorBlock, after);
    FrameBound(b2, Some(s.errorVar), s.errorBlock, after);
    StaysEnterable(b2, {after}, LowerBound(b2, Some(s.errorVar), s.errorBlock, after), after);
    PhisBound(HandleValue(b, s), s.valueVar, s.valueBlock, after);
  }
}

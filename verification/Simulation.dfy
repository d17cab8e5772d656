/**
 The emitted graph does what the program does: on every sequence of answers both have the same
 effects and end in the same way.
 */
module Simulation {
  import opened Wrappers
  import opened Syntax
  import opened Semantics
  import opened PathAnalysis
  import opened PathSoundness
  import opened IR
  import opened Lowering
  import opened LoweringFrame

  /** g is a graph that b grows into. */
  predicate Contains(g: Graph, b: Builder) {
    |b.blocks| <= |g| && forall k | 0 <= k < |b.blocks| :: b.blocks[k] <= g[k]
  }

  /** The graph has run everything in the current block of b. */
  predicate AtEnd(c: Config, b: Builder, io: IO) {
    c.At? && c.block == b.at && c.pc == |b.Here()| && c.io == io
  }

  predicate AtStart(c: Config, k: nat, io: IO) {
    c.At? && c.block == k && c.pc == 0 && c.io == io
  }

  lemma ContainsLess(g: Graph, b: Builder, c: Builder)
    requires Contains(g, c) && Grows(b, c)
    ensures Contains(g, b)
  {
  }

  lemma EmittedAt(g: Graph, b: Builder, i: Instr)
    requires Contains(g, Emit(b, i))
    ensures b.at < |g| && |b.Here()| < |g[b.at]| && g[b.at][|b.Here()|] == i
    ensures Contains(g, b)
  {
    assert Emit(b, i).blocks[b.at][|b.Here()|] == i;
    ContainsLess(g, b, Emit(b, i));
  }

  lemma OneStep(g: Graph, c: Config)
    ensures Steps(g, c, 1) == Step(g, c)
  {
    assert Steps(g, Step(g, c), 0) == Step(g, c);
  }

  /** Runs of n and k steps make a run of n + k steps. */
  lemma Then(g: Graph, c: Config, n: nat, d: Config, k: nat, e: Config)
    requires Steps(g, c, n) == d && Steps(g, d, k) == e
    ensures Steps(g, c, n + k) == e
  {
    StepsTrans(g, c, n, k);
  }

  // ----- Single instructions -----

  lemma RunCall(g: Graph, b: Builder, id: nat, uses: set<Use>, c: Config, m: Machine) returns (d: Config)
    requires Contains(g, Emit(b, Call(id))) && AtEnd(c, b, m.io)
    ensures Steps(g, c, 1) == d
    ensures var (a, m1) := Ask(id, uses, m);
      if a.None? then d == Halt(Starved, m1.io)
      else AtEnd(d, Emit(b, Call(id)), m1.io) && Read(Result(b.at, |b.Here()|), d.env) == a
  {
    EmittedAt(g, b, Call(id));
    OneStep(g, c);
    d := Step(g, c);
  }

  lemma RunStore(g: Graph, b: Builder, s: Slot, c: Config, m: Machine) returns (d: Config)
    requires Contains(g, Emit(b, Store(s))) && AtEnd(c, b, m.io)
    ensures Steps(g, c, 1) == d && AtEnd(d, Emit(b, Store(s)), m.Store(s).io) && d.env == c.env
  {
    EmittedAt(g, b, Store(s));
    OneStep(g, c);
    d := Step(g, c);
  }

  lemma RunBr(g: Graph, b: Builder, t: nat, c: Config, io: IO) returns (d: Config)
    requires Contains(g, Emit(b, Br(t))) && AtEnd(c, b, io)
    ensures Steps(g, c, 1) == d && AtStart(d, t, io) && d.from == b.at && d.env == c.env
  {
    EmittedAt(g, b, Br(t));
    OneStep(g, c);
    d := Step(g, c);
  }

  lemma RunCondBr(g: Graph, b: Builder, v: Operand, yes: nat, no: nat, c: Config, io: IO) returns (d: Config)
    requires Contains(g, Emit(b, CondBr(v, yes, no))) && AtEnd(c, b, io) && Read(v, c.env).Some?
    ensures Steps(g, c, 1) == d && AtStart(d, if Read(v, c.env).value then yes else no, io)
    ensures d.from == b.at && d.env == c.env
  {
    EmittedAt(g, b, CondBr(v, yes, no));
    OneStep(g, c);
    d := Step(g, c);
  }

  // ----- Expressions -----

  /** What running a lowered expression comes to. */
  predicate Evaluated(d: Config, b: Builder, v: Operand, r: Option<bool>, io: IO) {
    if r.None? then d == Halt(Starved, io) else AtEnd(d, b, io) && Read(v, d.env) == r
  }

  lemma {:induction false} RunExpr(g: Graph, b: Builder, e: Expr, c: Config, m: Machine)
      returns (n: nat, d: Config)
    requires Contains(g, LowerExpr(b, e).0) && AtEnd(c, b, m.io)
    ensures Steps(g, c, n) == d
    ensures Evaluated(d, LowerExpr(b, e).0, LowerExpr(b, e).1, Eval(e, m).0, Eval(e, m).1.io)
    decreases e, 2
  {
    match e
    case Leaf(id, uses) =>
      d := RunCall(g, b, id, uses, c, m);
      n := 1;
    case Logical(isAnd, left, right) =>
      n, d := RunLogical(g, b, e, c, m);
  }

  lemma {:induction false} RunLogical(g: Graph, b: Builder, e: Expr, c: Config, m: Machine)
      returns (n: nat, d: Config)
    requires e.Logical? && Contains(g, LowerExpr(b, e).0) && AtEnd(c, b, m.io)
    ensures Steps(g, c, n) == d
    ensures Evaluated(d, LowerExpr(b, e).0, LowerExpr(b, e).1, Eval(e, m).0, Eval(e, m).1.io)
    decreases e, 1
  {
    hide Contains, AtEnd, AtStart, Joinable, LowerExpr, Fork, Join, Grows;
    var (b1, l) := LowerExpr(b, e.left);
    var b2 := Fork(b1, e.isAnd, l);
    var (b3, r) := LowerExpr(b2, e.right);
    LogicalParts(g, b, e);
    JoinableSize(g, b1, e.isAnd, b3, r);
    var (v, m1) := Eval(e.left, m);
    n, d := RunExpr(g, b, e.left, c, m);
    if v.Some? {
      var d1 := RunFork(g, b1, e.isAnd, l, v.value, d, m1.io);
      Then(g, c, n, d, 1, d1);
      n, d := n + 1, d1;
      var k;
      if v.value == e.isAnd {
        k, d1 := RunRight(g, b1, e, l, d, m1);
        Then(g, c, n, d, k, d1);
        n, d := n + k, d1;
      } else {
        d1 := RunShort(g, b1, e.isAnd, b3, r, d, m1.io);
        Then(g, c, n, d, 1, d1);
        n, d := n + 1, d1;
      }
    }
  }

  lemma {:induction false} RunRight(g: Graph, b: Builder, e: Expr, l: Operand, c: Config, m: Machine)
      returns (n: nat, d: Config)
    requires e.Logical? && AtEnd(c, Fork(b, e.isAnd, l), m.io)
    requires var (b3, r) := LowerExpr(Fork(b, e.isAnd, l), e.right);
      Contains(g, b3) && Joinable(g, b, e.isAnd, b3, r)
    ensures Steps(g, c, n) == d
    ensures var (b3, r) := LowerExpr(Fork(b, e.isAnd, l), e.right);
      Evaluated(d, Join(b, e.isAnd, b3, r).0, Join(b, e.isAnd, b3, r).1, Eval(e.right, m).0, Eval(e.right, m).1.io)
    decreases e, 0
  {
    hide Grows, Contains, AtEnd, Read, Frame;
    var (b3, r) := LowerExpr(Fork(b, e.isAnd, l), e.right);
    n, d := RunExpr(g, Fork(b, e.isAnd, l), e.right, c, m);
    var (w, m2) := Eval(e.right, m);
    if w.Some? {
      var k, e := RunJoin(g, b, e.isAnd, b3, r, w.value, d, m2.io);
      Then(g, c, n, d, k, e);
      n, d := n + k, e;
    }
  }

  lemma RunFork(g: Graph, b: Builder, isAnd: bool, l: Operand, v: bool, c: Config, io: IO) returns (d: Config)
    requires Contains(g, Fork(b, isAnd, l)) && AtEnd(c, b, io) && Read(l, c.env) == Some(v)
    ensures Steps(g, c, 1) == d
    ensures if v == isAnd then AtEnd(d, Fork(b, isAnd, l), io)
            else AtStart(d, |b.blocks| + 1, io) && d.from == b.at
  {
    var branch := ForkBranch(b, isAnd, l);
    ContainsLess(g, Emit(CreateTwo(b), branch), Fork(b, isAnd, l));
    d := RunCondBr(g, CreateTwo(b), l, branch.yes, branch.no, c, io);
  }

  lemma RunJoin(g: Graph, b: Builder, isAnd: bool, b3: Builder, r: Operand, v: bool, c: Config, io: IO)
      returns (n: nat, d: Config)
    requires Joinable(g, b, isAnd, b3, r) && AtEnd(c, b3, io) && Read(r, c.env) == Some(v)
    ensures Steps(g, c, n) == d
    ensures Evaluated(d, Join(b, isAnd, b3, r).0, Join(b, isAnd, b3, r).1, Some(v), io)
  {
    var cont := |b.blocks| + 1;
    var phi := JoinPhi(b, isAnd, b3, r);
    var b4 := EndAt(b3, Br(cont), cont);
    ContainsLess(g, Emit(b3, Br(cont)), Emit(b4, phi));
    var d1 := RunBr(g, b3, cont, c, io);
    assert phi.incoming[1..][0] == (r, b3.at);
    d := RunPhi(g, b4, phi, r, d1, io);
    Then(g, c, 1, d1, 1, d);
    n := 2;
  }

  lemma RunShort(g: Graph, b: Builder, isAnd: bool, b3: Builder, r: Operand, c: Config, io: IO) returns (d: Config)
    requires Joinable(g, b, isAnd, b3, r) && AtStart(c, |b.blocks| + 1, io) && c.from == b.at
    ensures Steps(g, c, 1) == d
    ensures Evaluated(d, Join(b, isAnd, b3, r).0, Join(b, isAnd, b3, r).1, Some(!isAnd), io)
  {
    var cont := |b.blocks| + 1;
    d := RunPhi(g, EndAt(b3, Br(cont), cont), JoinPhi(b, isAnd, b3, r), Const(!isAnd), c, io);
  }

  /** The block behind a short-circuit operator is still empty. */
  predicate Joinable(g: Graph, b: Builder, isAnd: bool, b3: Builder, r: Operand) {
    && |b.blocks| + 1 < |b3.blocks| && b3.at != |b.blocks| + 1 && b3.at != b.at
    && b3.blocks[|b.blocks| + 1] == [] && Contains(g, Join(b, isAnd, b3, r).0)
  }

  lemma RunPhi(g: Graph, b: Builder, phi: Instr, v: Operand, c: Config, io: IO) returns (d: Config)
    requires phi.Phi? && Contains(g, Emit(b, phi)) && b.Here() == [] && AtStart(c, b.at, io)
    requires Incoming(phi.incoming, c.from) == Some(v) && Read(v, c.env).Some?
    ensures Steps(g, c, 1) == d && AtEnd(d, Emit(b, phi), io)
    ensures Read(Result(b.at, 0), d.env) == Read(v, c.env)
  {
    EmittedAt(g, b, phi);
    OneStep(g, c);
    d := Step(g, c);
  }

  lemma JoinableSize(g: Graph, b: Builder, isAnd: bool, b3: Builder, r: Operand)
    requires Joinable(g, b, isAnd, b3, r)
    ensures |b.blocks| + 1 < |b3.blocks|
  {
  }

  /** The stages of lowering a short-circuit operator. */
  lemma LogicalParts(g: Graph, b: Builder, e: Expr)
    requires e.Logical? && Contains(g, LowerExpr(b, e).0)
    ensures var (b1, l) := LowerExpr(b, e.left);
      var (b3, r) := LowerExpr(Fork(b1, e.isAnd, l), e.right);
      && Contains(g, b1) && Contains(g, Fork(b1, e.isAnd, l)) && Contains(g, b3)
      && Joinable(g, b1, e.isAnd, b3, r)
      && LowerExpr(b, e) == Join(b1, e.isAnd, b3, r)
  {
    hide Contains, Grows, Frame, Fork, Join;
    var (b1, l) := LowerExpr(b, e.left);
    var b2 := Fork(b1, e.isAnd, l);
    var (b3, r) := LowerExpr(b2, e.right);
    FrameExpr(b2, e.right);
    ContinuationEmpty(b1, e.isAnd, l, b3);
    ContainsLess(g, b3, Join(b1, e.isAnd, b3, r).0);
    ContainsLess(g, b2, b3);
    ContainsLess(g, b1, b2);
  }

  /** Evaluating the right operand leaves the last block alone, and ends in another one. */
  lemma ContinuationEmpty(b: Builder, isAnd: bool, l: Operand, b3: Builder)
    requires Frame(Fork(b, isAnd, l), {}, b3)
    ensures |b.blocks| + 1 < |b3.blocks| && b3.at != |b.blocks| + 1 && b3.at != b.at && b3.blocks[|b.blocks| + 1] == []
  {
    assert Fork(b, isAnd, l).blocks[|b.blocks| + 1] == [];
  }

  lemma RunCond(g: Graph, b: Builder, cond: Cond, c: Config, m: Machine) returns (n: nat, d: Config)
    requires Contains(g, LowerCond(b, cond).0) && AtEnd(c, b, m.io)
    ensures Steps(g, c, n) == d
    ensures Evaluated(d, LowerCond(b, cond).0, LowerCond(b, cond).1, RunSetup(cond, m).0, RunSetup(cond, m).1.io)
  {
    match cond
    case Test(e) => n, d := RunExpr(g, b, e, c, m);
    case TestAndBind(id, uses, v) =>
      var s := Initialized(VariableInit(v));
      ContainsLess(g, Emit(b, Call(id)), Emit(Emit(b, Call(id)), Store(s)));
      d := RunCall(g, b, id, uses, c, m);
      n := 1;
      var (a, m1) := Ask(id, uses, m);
      if a.Some? {
        var d1 := RunStore(g, Emit(b, Call(id)), s, d, m1);
        Then(g, c, 1, d, 1, d1);
        n, d := 2, d1;
      }
  }

  // ----- Statements without blocks -----

  predicate Completed(d: Config, b: Builder, o: Outcome, io: IO) {
    if o == Normal then AtEnd(d, b, io) else d == Halt(o, io)
  }

  /** Control reaches the start of block k, or has left the function. */
  predicate Exited(d: Config, k: nat, o: Outcome, io: IO) {
    if o == Normal then AtStart(d, k, io) else d == Halt(o, io)
  }

  lemma RunExprStore(g: Graph, b: Builder, s: Slot, e: Expr, c: Config, m: Machine) returns (n: nat, d: Config)
    requires Contains(g, LowerStore(b, s, e)) && AtEnd(c, b, m.io)
    ensures Steps(g, c, n) == d
    ensures Completed(d, LowerStore(b, s, e), ExecStore(s, e, m).0, ExecStore(s, e, m).1.io)
  {
    var b1 := LowerExpr(b, e).0;
    ContainsLess(g, b1, Emit(b1, Store(s)));
    n, d := RunExpr(g, b, e, c, m);
    var (v, m1) := Eval(e, m);
    if v.Some? {
      var d1 := RunStore(g, b1, s, d, m1);
      Then(g, c, n, d, 1, d1);
      n, d := n + 1, d1;
    }
  }

  /** An instruction that leaves the function. */
  lemma RunLeave(g: Graph, b: Builder, i: Instr, c: Config, n: nat, d: Config, o: Outcome)
      returns (k: nat, e: Config)
    requires Contains(g, Emit(b, i)) && d.At? && AtEnd(d, b, d.io) && Steps(g, c, n) == d
    requires Step(g, d) == Halt(o, d.io) || i == Unreachable || i == RetError || i == Ret(None)
    requires match i case Unreachable => o == Gone case RetError => o == Error case Ret(None) => o == Value(None) case _ => true
    ensures Steps(g, c, k) == e == Halt(o, d.io)
  {
    EmittedAt(g, b, i);
    OneStep(g, d);
    e := Step(g, d);
    Then(g, c, n, d, 1, e);
    k := n + 1;
  }

  lemma RunExprThenLeave(g: Graph, b: Builder, e: Expr, i: Instr, o: Outcome, c: Config, m: Machine)
      returns (n: nat, d: Config)
    requires Contains(g, Emit(LowerExpr(b, e).0, i)) && AtEnd(c, b, m.io)
    requires (i == Unreachable && o == Gone) ||
             (i == Ret(Some(LowerExpr(b, e).1)) && o == Value(Eval(e, m).0))
    ensures Steps(g, c, n) == d
    ensures d == Halt(if Eval(e, m).0.None? then Starved else o, Eval(e, m).1.io)
  {
    var (b1, v) := LowerExpr(b, e);
    ContainsLess(g, b1, Emit(b1, i));
    n, d := RunExpr(g, b, e, c, m);
    if Eval(e, m).0.Some? {
      EmittedAt(g, b1, i);
      n, d := RunLeave(g, b1, i, c, n, d, o);
    }
  }

  lemma RunSimple(g: Graph, b: Builder, s: Stmt, c: Config, m: Machine) returns (n: nat, d: Config)
    requires !s.If? && !s.While? && !s.Handle? && !s.Unsafe?
    requires Contains(g, LowerSimple(b, s)) && AtEnd(c, b, m.io)
    ensures Steps(g, c, n) == d
    ensures Completed(d, LowerSimple(b, s), Exec(s, m).0, Exec(s, m).1.io)
  {
    hide Contains, AtEnd, Grows;
    n, d := 0, c;
    assert Steps(g, c, 0) == c;
    match s
    case ExprStmt(e, never) =>
      if never {
        n, d := RunExprThenLeave(g, b, e, Unreachable, Gone, c, m);
      } else {
        n, d := RunExpr(g, b, e, c, m);
      }
    case Declare(v, optional) =>
      if optional {
        d := RunStore(g, b, Initialized(VariableInit(v)), c, m);
        n := 1;
      }
    case DeclareAndAssign(v, e) => n, d := RunExprStore(g, b, Initialized(VariableInit(v)), e, c, m);
    case Assign(i, e) => n, d := RunExprStore(g, b, Initialized(i), e, c, m);
    case Return(None) =>
      IsAt(c, b, m.io);
      n, d := RunLeave(g, b, Ret(None), c, 0, c, Value(None));
    case Return(Some(e)) =>
      n, d := RunExprThenLeave(g, b, e, Ret(Some(LowerExpr(b, e).1)), Value(Eval(e, m).0), c, m);
    case Raise(e) => n, d := RunRaise(g, b, e, c, m);
  }

  lemma IsAt(c: Config, b: Builder, io: IO)
    requires AtEnd(c, b, io)
    ensures c.At? && c.io == io
  {
  }

  lemma RunRaise(g: Graph, b: Builder, e: Expr, c: Config, m: Machine) returns (n: nat, d: Config)
    requires Contains(g, Emit(LowerStore(b, ErrorPointer, e), RetError)) && AtEnd(c, b, m.io)
    ensures Steps(g, c, n) == d == Halt(Exec(Raise(e), m).0, Exec(Raise(e), m).1.io)
  {
    hide Contains, Grows, LowerExpr, Eval;
    var b1 := LowerStore(b, ErrorPointer, e);
    ContainsLess(g, b1, Emit(b1, RetError));
    n, d := RunExprStore(g, b, ErrorPointer, e, c, m);
    if ExecStore(ErrorPointer, e, m).0 == Normal {
      n, d := RunLeave(g, b1, RetError, c, n, d, Error);
    }
  }

  // ----- Blocks -----

  /** Live code: the analysis so far agrees with the run so far. */
  predicate Live(p: Path, scope: set<nat>, m: Machine) {
    Current(p).branches == [] && KnownPath(p, scope) && Sound(p, m)
  }

  function StopOf(cut: Option<nat>, stmts: seq<Stmt>): nat {
    if cut.Some? then cut.value else |stmts|
  }

  function LowerLive(p: Path, b: Builder, stmts: seq<Stmt>): Builder
    requires Current(p).branches == []
  {
    var (_, stmts', cut) := AnalyseAll(p, stmts);
    LowerAll(b, stmts', StopOf(cut, stmts))
  }

  lemma {:induction false} RunAll(g: Graph, p: Path, stmts: seq<Stmt>, scope: set<nat>, b: Builder, c: Config, m: Machine)
      returns (n: nat, d: Config)
    requires Live(p, scope, m) && AllResolved(stmts, scope)
    requires Contains(g, LowerLive(p, b, stmts)) && AtEnd(c, b, m.io)
    ensures Steps(g, c, n) == d
    ensures Completed(d, LowerLive(p, b, stmts), ExecAll(stmts, m).0, ExecAll(stmts, m).1.io)
    decreases |m.io.answers|, stmts
  {
    hide Contains, AtEnd, Sound, Known, Grows;
    n, d := 0, c;
    assert Steps(g, c, 0) == c;
    LiveCut(p, stmts, scope, m);
    if stmts != [] {
      var (p1, s) := Analyse(p, stmts[0]);
      var b1 := Lower(b, s);
      LiveStep(p, stmts, b);
      GrowsLive(g, p1, b1, stmts[1..]);
      n, d := RunStmt(g, p, stmts[0], scope, b, c, m);
      StmtSound(p, stmts[0], scope, m);
      StmtKnown(p, stmts[0], scope);
      var (o, m1) := Exec(stmts[0], m);
      if o == Normal {
        var k, e := RunAll(g, p1, stmts[1..], scope + LocalsOf(stmts[0]), b1, d, m1);
        Then(g, c, n, d, k, e);
        n, d := n + k, e;
      }
    }
  }

  lemma LiveCut(p: Path, stmts: seq<Stmt>, scope: set<nat>, m: Machine)
    requires Live(p, scope, m)
    ensures Returned !in AllCertain(p)
    ensures AnalyseAll(p, stmts).2 == Some(0) ==> false
  {
  }

  /** The first statement of live code is lowered, then the rest of it. */
  lemma LiveStep(p: Path, stmts: seq<Stmt>, b: Builder)
    requires Current(p).branches == [] && stmts != [] && Returned !in AllCertain(p)
    ensures var (p1, s) := Analyse(p, stmts[0]);
      LowerLive(p, b, stmts) == LowerLive(p1, Lower(b, s), stmts[1..])
  {
    hide Analyse, Lower, AllCertain, Grows, Extends;
    var (p1, s) := Analyse(p, stmts[0]);
    var (_, rest, cut) := AnalyseAll(p1, stmts[1..]);
    assert ([s] + rest)[1..] == rest;
    LowerFirst(b, s, rest, StopOf(cut, stmts[1..]) + 1);
  }

  lemma LowerFirst(b: Builder, s: Stmt, rest: seq<Stmt>, stop: nat)
    requires stop > 0
    ensures LowerAll(b, [s] + rest, stop) == LowerAll(Lower(b, s), rest, stop - 1)
  {
    hide Lower, Grows;
    assert ([s] + rest)[1..] == rest;
  }

  lemma GrowsLive(g: Graph, p: Path, b: Builder, stmts: seq<Stmt>)
    requires Current(p).branches == [] && Contains(g, LowerLive(p, b, stmts))
    ensures Contains(g, b)
  {
    ContainsLess(g, b, LowerLive(p, b, stmts));
  }

  lemma {:induction false} CutReturned(p: Path, stmts: seq<Stmt>)
    requires Current(p).branches == []
    ensures AnalyseAll(p, stmts).2.Some? <==> Returned in AllCertain(AnalyseAll(p, stmts).0)
    decreases stmts
  {
    if stmts != [] {
      var p1 := Analyse(p, stmts[0]).0;
      ExtendsSets(p, p1);
      ExtendsSets(p1, AnalyseAll(p1, stmts[1..]).0);
      CutReturned(p1, stmts[1..]);
    }
  }

  /** A block that ends in a branch to `after`. */
  lemma {:induction false} RunInto(g: Graph, p: Path, block: Block, scope: set<nat>, b: Builder, after: nat,
                                   c: Config, m: Machine)
      returns (n: nat, d: Config)
    requires Live(p, scope, m) && AllResolved(block.stmts, scope)
    requires Contains(g, LowerInto(b, AnalyseBlock(p, block).1, after)) && AtEnd(c, b, m.io)
    ensures Steps(g, c, n) == d
    ensures Exited(d, after, ExecAll(block.stmts, m).0, ExecAll(block.stmts, m).1.io)
    decreases |m.io.answers|, block, 0
  {
    hide Contains, AtEnd, Known, Grows;
    var block' := AnalyseBlock(p, block).1;
    var b1 := LowerBlock(b, block');
    assert b1 == LowerLive(p, b, block.stmts);
    assert Contains(g, b1) by { ContainsLess(g, b1, LowerInto(b, block', after)); }
    n, d := RunAll(g, p, block.stmts, scope, b, c, m);
    var (o, m1) := ExecAll(block.stmts, m);
    if o == Normal {
      AllSound(p, block.stmts, scope, m);
      CutReturned(p, block.stmts);
      var e := RunBr(g, b1, after, d, m1.io);
      Then(g, c, n, d, 1, e);
      n, d := n + 1, e;
    }
  }

  lemma {:induction false} RunStmt(g: Graph, p: Path, s: Stmt, scope: set<nat>, b: Builder, c: Config, m: Machine)
      returns (n: nat, d: Config)
    requires Live(p, scope, m) && Resolved(s, scope)
    requires Contains(g, Lower(b, Analyse(p, s).1)) && AtEnd(c, b, m.io)
    ensures Steps(g, c, n) == d
    ensures Completed(d, Lower(b, Analyse(p, s).1), Exec(s, m).0, Exec(s, m).1.io)
    decreases |m.io.answers|, s, 2
  {
    hide Contains, AtEnd, Known, Grows, Sound, AnalyseIf, AnalyseWhile, AnalyseHandle, LowerIf, LowerWhile, LowerHandle,
      LowerSimple;
    match s
    case If(chain) => n, d := RunIf(g, p, chain, scope, b, c, m);
    case While(cond, body) => n, d := RunWhile(g, p, cond, body, scope, b, c, m);
    case Handle(_, _, _, _, _, _) => n, d := RunHandle(g, p, s, scope, b, c, m);
    case Unsafe(block) => n, d := RunAll(g, p, block.stmts, scope, b, c, m);
    case _ => n, d := RunSimple(g, b, s, c, m);
  }

  // ----- Scopes -----

  lemma ScopeLive(p: Path, setup: Setup, b: Block, scope: set<nat>, m: Machine)
    requires KnownPath(p, scope) && Sound(p, m) && ScopeResolved(setup, b, scope)
    requires RunSetup(setup, m).0.Some?
    ensures Live(Record(Begin(p), RecordedBy(setup)), scope + BoundBy(setup), RunSetup(setup, m).1)
  {
    hide AllCertain, AllPotential;
    var start := Record(Begin(p), RecordedBy(setup));
    BeginSets(p);
    RecordSets(Begin(p), RecordedBy(setup));
    SetupKnown(setup);
    EnterSound(p, start, setup, m);
    StartKnown(p, start, setup, scope, BoundBy(setup));
  }

  lemma ScopeCases(setup: Setup, b: Block, m: Machine)
    ensures var (v, m1) := RunSetup(setup, m);
      var r := ExecScope(setup, b, m);
      && (v == None ==> r.Ran? && r.o == Starved && r.m.io == m1.io)
      && (v == Some(false) ==> r.Skipped? && r.m.io == m1.io)
      && (v == Some(true) ==> r.Ran? && r.o == ExecAll(b.stmts, m1).0 && r.m.io == ExecAll(b.stmts, m1).1.io)
  {
  }

  /** The block of a scope whose setup is true. */
  lemma {:induction false} RunScope(g: Graph, p: Path, setup: Setup, b: Block, scope: set<nat>, at: Builder, after: nat,
                                    c: Config, m: Machine) returns (n: nat, d: Config)
    requires KnownPath(p, scope) && Sound(p, m) && ScopeResolved(setup, b, scope)
    requires RunSetup(setup, m).0 == Some(true)
    requires Contains(g, LowerInto(at, AnalyseBranch(p, setup, b).1, after)) && AtEnd(c, at, RunSetup(setup, m).1.io)
    ensures Steps(g, c, n) == d
    ensures var r := ExecScope(setup, b, m); r.Ran? && Exited(d, after, r.o, r.m.io)
    decreases |m.io.answers|, b, 1
  {
    hide Contains, AtEnd, Known, Grows, Sound, ExecScope;
    ScopeCases(setup, b, m);
    ScopeLive(p, setup, b, scope, m);
    n, d := RunInto(g, Record(Begin(p), RecordedBy(setup)), b, scope + BoundBy(setup), at, after, c,
                    RunSetup(setup, m).1);
  }

  // ----- If -----

  /** The stages of lowering an arm: its condition, its block, and where the rest begins. */
  function ArmTest(b: Builder, cond: Cond): (Builder, Operand) {
    LowerCond(CreateTwo(b), cond)
  }

  function ArmThen(b: Builder, cond: Cond): Builder {
    var (b1, v) := ArmTest(b, cond);
    EndAt(b1, CondBr(v, |b.blocks|, |b.blocks| + 1), |b.blocks|)
  }

  function ArmElse(b: Builder, cond: Cond, block: Block, after: nat): Builder {
    SetInsertPoint(LowerInto(ArmThen(b, cond), block, after), |b.blocks| + 1)
  }

  lemma ArmParts(g: Graph, b: Builder, cond: Cond, block: Block, rest: Chain, after: nat)
    requires Contains(g, LowerChain(b, Arm(cond, block, rest), after))
    ensures var (b1, v) := ArmTest(b, cond);
      && Contains(g, b1) && Contains(g, Emit(b1, CondBr(v, |b.blocks|, |b.blocks| + 1)))
      && Contains(g, LowerInto(ArmThen(b, cond), block, after))
      && Contains(g, LowerChain(ArmElse(b, cond, block, after), rest, after))
      && ArmThen(b, cond).Here() == [] && ArmElse(b, cond, block, after).Here() == []
  {
    hide Contains, Grows, LowerCond, LowerInto;
    var (b1, v) := ArmTest(b, cond);
    var b2 := ArmThen(b, cond);
    var b3 := LowerInto(b2, block, after);
    var b4 := ArmElse(b, cond, block, after);
    ContainsLess(g, b4, LowerChain(b4, rest, after));
    ContainsLess(g, b3, b4);
    ContainsLess(g, b2, b3);
    ContainsLess(g, Emit(b1, CondBr(v, |b.blocks|, |b.blocks| + 1)), b2);
    ContainsLess(g, b1, b2);
    FrameCond(CreateTwo(b), cond);
    FrameInto(b2, block, after);
    assert b1.blocks[|b.blocks|] == [] && b1.blocks[|b.blocks| + 1] == [];
    assert b2.blocks[|b.blocks| + 1] == [];
  }

  lemma {:induction false} RunChain(g: Graph, p: Path, chain: Chain, scope: set<nat>, b: Builder, after: nat,
                                    c: Config, m: Machine)
      returns (n: nat, d: Config)
    requires KnownPath(p, scope) && Sound(p, m) && ChainResolved(chain, scope)
    requires Contains(g, LowerChain(b, AnalyseChain(p, chain).1, after)) && AtEnd(c, b, m.io)
    ensures Steps(g, c, n) == d
    ensures Exited(d, after, ExecChain(chain, m).0, ExecChain(chain, m).1.io)
    decreases |m.io.answers|, chain, 1
  {
    hide Contains, AtEnd, AtStart, Known, Grows, Sound;
    match chain
    case NoElse =>
      d := RunBr(g, b, after, c, m.io);
      n := 1;
    case Else(block) => n, d := RunScope(g, p, Enter(None), block, scope, b, after, c, m);
    case Arm(_, _, _) => n, d := RunArm(g, p, chain, scope, b, after, c, m);
  }

  lemma {:induction false} RunArm(g: Graph, p: Path, chain: Chain, scope: set<nat>, b: Builder, after: nat,
                                  c: Config, m: Machine)
      returns (n: nat, d: Config)
    requires chain.Arm? && KnownPath(p, scope) && Sound(p, m) && ChainResolved(chain, scope)
    requires Contains(g, LowerChain(b, AnalyseChain(p, chain).1, after)) && AtEnd(c, b, m.io)
    ensures Steps(g, c, n) == d
    ensures Exited(d, after, ExecChain(chain, m).0, ExecChain(chain, m).1.io)
    decreases |m.io.answers|, chain, 0
  {
    hide Contains, AtEnd, AtStart, Known, Grows, Sound, AnalyseBranch, ExecScope;
    ScopeCases(chain.cond, chain.body, m);
    var cond, block, rest := chain.cond, chain.body, chain.rest;
    var (p1, block') := AnalyseBranch(p, cond, block);
    ArmParts(g, b, cond, block', AnalyseChain(p1, rest).1, after);
    SameEnd(c, b, CreateTwo(b), m.io);
    n, d := RunTest(g, CreateTwo(b), cond, |b.blocks|, |b.blocks| + 1, c, m);
    var r := ExecScope(cond, block, m);
    var v := RunSetup(cond, m).0;
    if v == Some(true) {
      StartIsEnd(d, ArmThen(b, cond), RunSetup(cond, m).1.io);
      var k, e := RunScope(g, p, cond, block, scope, ArmThen(b, cond), after, d, m);
      Then(g, c, n, d, k, e);
      n, d := n + k, e;
    } else if v == Some(false) {
      SkippedLive(p, cond, block, scope, m);
      StartIsEnd(d, ArmElse(b, cond, block', after), r.m.io);
      var k, e := RunChain(g, p1, rest, scope, ArmElse(b, cond, block', after), after, d, r.m);
      Then(g, c, n, d, k, e);
      n, d := n + k, e;
    }
  }

  lemma SkippedLive(p: Path, cond: Cond, block: Block, scope: set<nat>, m: Machine)
    requires KnownPath(p, scope) && Sound(p, m) && ScopeResolved(cond, block, scope)
    requires ExecScope(cond, block, m).Skipped?
    ensures var p1 := AnalyseBranch(p, cond, block).0;
      KnownPath(p1, scope) && Sound(p1, ExecScope(cond, block, m).m)
  {
    hide Known, Sound;
    var p1 := AnalyseBranch(p, cond, block).0;
    BranchSound(p, cond, block, scope, m);
    BranchKnown(p, cond, block, scope);
    SameSets(p, p1);
    SameSound(p, p1, ExecScope(cond, block, m).m);
  }

  lemma StartIsEnd(c: Config, b: Builder, io: IO)
    requires AtStart(c, b.at, io) && b.Here() == []
    ensures AtEnd(c, b, io)
  {
  }

  /** Evaluates a condition and branches. */
  lemma RunTest(g: Graph, b: Builder, cond: Cond, yes: nat, no: nat, c: Config, m: Machine) returns (n: nat, d: Config)
    requires var (b1, v) := LowerCond(b, cond); Contains(g, b1) && Contains(g, Emit(b1, CondBr(v, yes, no)))
    requires AtEnd(c, b, m.io)
    ensures Steps(g, c, n) == d
    ensures var (v, m1) := RunSetup(cond, m);
      if v.None? then d == Halt(Starved, m1.io) else AtStart(d, if v.value then yes else no, m1.io)
  {
    var (b1, v) := LowerCond(b, cond);
    n, d := RunCond(g, b, cond, c, m);
    var (x, m1) := RunSetup(cond, m);
    if x.Some? {
      var e := RunCondBr(g, b1, v, yes, no, d, m1.io);
      Then(g, c, n, d, 1, e);
      n, d := n + 1, e;
    }
  }

  lemma {:induction false} RunIf(g: Graph, p: Path, chain: Chain, scope: set<nat>, b: Builder, c: Config, m: Machine)
      returns (n: nat, d: Config)
    requires Live(p, scope, m) && ChainResolved(chain, scope)
    requires Contains(g, LowerIf(b, AnalyseChain(p, chain).1)) && AtEnd(c, b, m.io)
    ensures Steps(g, c, n) == d
    ensures Completed(d, LowerIf(b, AnalyseChain(p, chain).1), ExecChain(chain, m).0, ExecChain(chain, m).1.io)
    decreases |m.io.answers|, chain, 2
  {
    hide Contains, AtEnd, Known, Grows, Sound;
    var after := |b.blocks|;
    var chain' := AnalyseChain(p, chain).1;
    var b1 := LowerChain(Create(b), chain', after);
    assert Contains(g, b1) by { ContainsLess(g, b1, LowerIf(b, chain')); }
    assert AtEnd(c, Create(b), m.io) by { SameEnd(c, b, Create(b), m.io); }
    n, d := RunChain(g, p, chain, scope, Create(b), after, c, m);
    if ExecChain(chain, m).0 == Normal {
      ChainReaches(p, chain, scope, m);
      FrameChain(Create(b), chain', after);
      assert b1.blocks[after] == Create(b).blocks[after] == [];
      StartIsEnd(d, LowerIf(b, chain'), ExecChain(chain, m).1.io);
    }
  }

  lemma SameEnd(c: Config, b: Builder, b1: Builder, io: IO)
    requires AtEnd(c, b, io) && b1.at == b.at && b1.Here() == b.Here()
    ensures AtEnd(c, b1, io)
  {
  }

  lemma {:induction false} ChainReaches(p: Path, chain: Chain, scope: set<nat>, m: Machine)
    requires KnownPath(p, scope) && Sound(p, m) && ChainResolved(chain, scope)
    requires ExecChain(chain, m).0 == Normal
    ensures ReachesEnd(AnalyseChain(p, chain).1)
    decreases chain
  {
    hide Known, Sound;
    match chain
    case NoElse =>
    case Else(b) => ScopeReaches(p, Enter(None), b, scope, m);
    case Arm(c, b, rest) =>
      var p1 := AnalyseBranch(p, c, b).0;
      var r := ExecScope(c, b, m);
      if r.Ran? {
        ScopeReaches(p, c, b, scope, m);
      } else {
        SkippedLive(p, c, b, scope, m);
        ChainReaches(p1, rest, scope, r.m);
      }
  }

  /** A block that a run gets through did not certainly return. */
  lemma ScopeReaches(p: Path, setup: Setup, b: Block, scope: set<nat>, m: Machine)
    requires KnownPath(p, scope) && Sound(p, m) && ScopeResolved(setup, b, scope)
    requires ExecScope(setup, b, m).Ran? && ExecScope(setup, b, m).o == Normal
    ensures !AnalyseBranch(p, setup, b).1.returned
  {
    hide Known, AllCertain, AllPotential;
    var start := Record(Begin(p), RecordedBy(setup));
    ScopeLive(p, setup, b, scope, m);
    AllSound(start, b.stmts, scope + BoundBy(setup), RunSetup(setup, m).1);
    CutReturned(start, b.stmts);
  }

  // ----- Loops -----

  function LoopHead(b: Builder): Builder {
    EndAt(CreateTwo(Create(b)), Br(|b.blocks| + 1), |b.blocks| + 1)
  }

  function LoopBody(b: Builder, cond: Cond): Builder {
    var (b1, v) := LowerCond(LoopHead(b), cond);
    EndAt(b1, CondBr(v, |b.blocks| + 2, |b.blocks|), |b.blocks| + 2)
  }

  lemma LoopParts(g: Graph, b: Builder, cond: Cond, body: Block)
    requires Contains(g, LowerWhile(b, cond, body))
    ensures var (b1, v) := LowerCond(LoopHead(b), cond);
      && Contains(g, Emit(CreateTwo(Create(b)), Br(|b.blocks| + 1)))
      && Contains(g, b1) && Contains(g, Emit(b1, CondBr(v, |b.blocks| + 2, |b.blocks|)))
      && Contains(g, LowerInto(LoopBody(b, cond), body, |b.blocks| + 1))
      && LoopHead(b).Here() == [] && LoopBody(b, cond).Here() == []
      && LowerWhile(b, cond, body).at == |b.blocks| && LowerWhile(b, cond, body).Here() == []
  {
    hide Contains, Grows, LowerInto, LowerCond, Emit, CreateTwo, Create;
    var b0 := Emit(CreateTwo(Create(b)), Br(|b.blocks| + 1));
    var (b1, v) := LowerCond(LoopHead(b), cond);
    var b2 := LoopBody(b, cond);
    var b3 := LowerInto(b2, body, |b.blocks| + 1);
    ContainsLess(g, b3, LowerWhile(b, cond, body));
    ContainsLess(g, b2, b3);
    ContainsLess(g, Emit(b1, CondBr(v, |b.blocks| + 2, |b.blocks|)), b2);
    ContainsLess(g, b1, Emit(b1, CondBr(v, |b.blocks| + 2, |b.blocks|)));
    ContainsLess(g, LoopHead(b), b1);
    ContainsLess(g, b0, LoopHead(b));
    LoopEmpty(b, cond, body);
  }

  lemma LoopEmpty(b: Builder, cond: Cond, body: Block)
    ensures LoopHead(b).Here() == [] && LoopBody(b, cond).Here() == []
    ensures LowerWhile(b, cond, body).at == |b.blocks| && LowerWhile(b, cond, body).Here() == []
  {
    hide Grows, Frame, LowerInto, LowerCond;
    var after := |b.blocks|;
    var head := LoopHead(b);
    var b1 := LowerCond(head, cond).0;
    FrameCond(head, cond);
    LoopAt(b, cond);
    FrameKeeps(head, {}, b1, after);
    FrameKeeps(head, {}, b1, after + 2);
    FrameInto(LoopBody(b, cond), body, after + 1);
    FrameKeeps(LoopBody(b, cond), {after + 1}, LowerInto(LoopBody(b, cond), body, after + 1), after);
  }

  lemma LoopAts(b: Builder, cond: Cond)
    ensures LoopHead(b).at == |b.blocks| + 1 && LoopBody(b, cond).at == |b.blocks| + 2
  {
  }

  lemma LoopAt(b: Builder, cond: Cond)
    ensures LowerCond(LoopHead(b), cond).0.at != |b.blocks| && LowerCond(LoopHead(b), cond).0.at != |b.blocks| + 2
  {
    FrameCond(LoopHead(b), cond);
  }

  lemma {:induction false} RunWhile(g: Graph, p: Path, cond: Cond, body: Block, scope: set<nat>, b: Builder, c: Config,
                                    m: Machine) returns (n: nat, d: Config)
    requires Live(p, scope, m) && ScopeResolved(cond, body, scope)
    requires Contains(g, LowerWhile(b, cond, AnalyseBranch(p, cond, body).1)) && AtEnd(c, b, m.io)
    ensures Steps(g, c, n) == d
    ensures Completed(d, LowerWhile(b, cond, AnalyseBranch(p, cond, body).1),
                      ExecWhile(cond, body, m).0, ExecWhile(cond, body, m).1.io)
    decreases |m.io.answers|, body, 4
  {
    hide Contains, AtEnd, Known, Grows, Sound, AnalyseBranch, LowerInto, LowerCond, ExecScope;
    var body' := AnalyseBranch(p, cond, body).1;
    LoopParts(g, b, cond, body');
    assert AtEnd(c, CreateTwo(Create(b)), m.io) by { SameEnd(c, b, CreateTwo(Create(b)), m.io); }
    d := RunBr(g, CreateTwo(Create(b)), |b.blocks| + 1, c, m.io);
    var k, e := RunLoop(g, p, cond, body, scope, b, d, m);
    Then(g, c, 1, d, k, e);
    n, d := 1 + k, e;
    if ExecWhile(cond, body, m).0 == Normal {
      StartIsEnd(d, LowerWhile(b, cond, body'), ExecWhile(cond, body, m).1.io);
    }
  }

  /** One iteration: back to the head, or out of the loop. */
  lemma {:induction false} RunIteration(g: Graph, p: Path, cond: Cond, body: Block, scope: set<nat>, b: Builder,
                                        c: Config, m: Machine) returns (n: nat, d: Config)
    requires Live(p, scope, m) && ScopeResolved(cond, body, scope)
    requires Contains(g, LowerWhile(b, cond, AnalyseBranch(p, cond, body).1)) && AtStart(c, |b.blocks| + 1, m.io)
    ensures Steps(g, c, n) == d
    ensures var r := ExecScope(cond, body, m);
      if r.Skipped? then AtStart(d, |b.blocks|, r.m.io) else Exited(d, |b.blocks| + 1, r.o, r.m.io)
    decreases |m.io.answers|, body, 2
  {
    hide Contains, AtEnd, AtStart, Known, Grows, Sound, ExecScope, LowerWhile, LowerInto, LowerCond, LoopHead, LoopBody;
    ScopeCases(cond, body, m);
    LoopParts(g, b, cond, AnalyseBranch(p, cond, body).1);
    LoopAts(b, cond);
    StartIsEnd(c, LoopHead(b), m.io);
    n, d := RunTest(g, LoopHead(b), cond, |b.blocks| + 2, |b.blocks|, c, m);
    if RunSetup(cond, m).0 == Some(true) {
      StartIsEnd(d, LoopBody(b, cond), RunSetup(cond, m).1.io);
      var k, e := RunScope(g, p, cond, body, scope, LoopBody(b, cond), |b.blocks| + 1, d, m);
      Then(g, c, n, d, k, e);
      n, d := n + k, e;
    }
  }

  /** The loop from its head on: each iteration uses up an answer. */
  lemma {:induction false} RunLoop(g: Graph, p: Path, cond: Cond, body: Block, scope: set<nat>, b: Builder, c: Config,
                                   m: Machine) returns (n: nat, d: Config)
    requires Live(p, scope, m) && ScopeResolved(cond, body, scope)
    requires Contains(g, LowerWhile(b, cond, AnalyseBranch(p, cond, body).1)) && AtStart(c, |b.blocks| + 1, m.io)
    ensures Steps(g, c, n) == d
    ensures Exited(d, |b.blocks|, ExecWhile(cond, body, m).0, ExecWhile(cond, body, m).1.io)
    decreases |m.io.answers|, body, 3
  {
    hide Contains, AtStart, Known, Sound, LowerWhile, AnalyseBranch;
    n, d := RunIteration(g, p, cond, body, scope, b, c, m);
    var r := ExecScope(cond, body, m);
    if r.Ran? && r.o == Normal {
      BranchSound(p, cond, body, scope, m);
      var k, e := RunLoop(g, p, cond, body, scope, b, d, r.m);
      Then(g, c, n, d, k, e);
      n, d := n + k, e;
    }
  }

  // ----- Error handlers -----

  lemma {:induction false} RunBound(g: Graph, p: Path, v: Option<nat>, block: Block, scope: set<nat>, b: Builder, after: nat,
                                    c: Config, m: Machine) returns (n: nat, d: Config)
    requires KnownPath(p, scope) && Sound(p, m) && ScopeResolved(Enter(v), block, scope)
    requires Contains(g, LowerBound(b, v, AnalyseBranch(p, Enter(v), block).1, after)) && AtEnd(c, b, m.io)
    ensures Steps(g, c, n) == d
    ensures var r := ExecScope(Enter(v), block, m); r.Ran? && Exited(d, after, r.o, r.m.io)
    decreases |m.io.answers|, block, 2
  {
    hide Contains, AtEnd, Known, Grows, Sound;
    if v.Some? {
      var s := Initialized(VariableInit(v.value));
      var b1 := Emit(b, Store(s));
      ContainsLess(g, b1, LowerInto(b1, AnalyseBranch(p, Enter(v), block).1, after));
      d := RunStore(g, b, s, c, m);
      var k, e := RunScope(g, p, Enter(v), block, scope, b1, after, d, m);
      Then(g, c, 1, d, k, e);
      n, d := 1 + k, e;
    } else {
      n, d := RunScope(g, p, Enter(v), block, scope, b, after, c, m);
    }
  }

  function HandleTest(b: Builder, s: Stmt): Builder
    requires s.Handle?
  {
    Emit(CreateTwo(Create(b)), Call(s.call))
  }

  function HandleBranch(b: Builder): Instr {
    CondBr(Result(b.at, |b.Here()|), |b.blocks| + 2, |b.blocks| + 1)
  }

  function HandleError(b: Builder, s: Stmt): Builder
    requires s.Handle?
  {
    EndAt(HandleTest(b, s), HandleBranch(b), |b.blocks| + 2)
  }

  function HandleValue(b: Builder, s: Stmt): Builder
    requires s.Handle?
  {
    SetInsertPoint(LowerBound(HandleError(b, s), Some(s.errorVar), s.errorBlock, |b.blocks|), |b.blocks| + 1)
  }

  lemma HandleParts(g: Graph, b: Builder, s: Stmt)
    requires s.Handle? && Contains(g, LowerHandle(b, s))
    ensures Contains(g, HandleTest(b, s)) && Contains(g, Emit(HandleTest(b, s), HandleBranch(b)))
    ensures Contains(g, LowerBound(HandleError(b, s), Some(s.errorVar), s.errorBlock, |b.blocks|))
    ensures Contains(g, LowerBound(HandleValue(b, s), s.valueVar, s.valueBlock, |b.blocks|))
    ensures HandleError(b, s).Here() == [] && HandleValue(b, s).Here() == []
    ensures !s.errorBlock.returned || !s.valueBlock.returned ==>
            LowerHandle(b, s).at == |b.blocks| && LowerHandle(b, s).Here() == []
  {
    hide Contains, Grows, LowerBound, Emit, CreateTwo, Create;
    var after := |b.blocks|;
    var b1 := HandleError(b, s);
    var b2 := LowerBound(b1, Some(s.errorVar), s.errorBlock, after);
    var b3 := HandleValue(b, s);
    var b4 := LowerBound(b3, s.valueVar, s.valueBlock, after);
    ContainsLess(g, b4, LowerHandle(b, s));
    ContainsLess(g, b3, b4);
    ContainsLess(g, b2, b3);
    ContainsLess(g, b1, b2);
    ContainsLess(g, Emit(HandleTest(b, s), HandleBranch(b)), b1);
    ContainsLess(g, HandleTest(b, s), Emit(HandleTest(b, s), HandleBranch(b)));
    HandleEmpty(b, s);
  }

  lemma HandleEmpty(b: Builder, s: Stmt)
    requires s.Handle?
    ensures HandleError(b, s).Here() == [] && HandleValue(b, s).Here() == []
    ensures !s.errorBlock.returned || !s.valueBlock.returned ==>
            LowerHandle(b, s).at == |b.blocks| && LowerHandle(b, s).Here() == []
  {
    hide Grows, Frame, LowerBound;
    var after := |b.blocks|;
    var b1 := HandleError(b, s);
    var b2 := LowerBound(b1, Some(s.errorVar), s.errorBlock, after);
    var b3 := HandleValue(b, s);
    FrameBound(b1, Some(s.errorVar), s.errorBlock, after);
    FrameKeeps(b1, {after}, b2, after);
    FrameKeeps(b1, {after}, b2, after + 1);
    FrameBound(b3, s.valueVar, s.valueBlock, after);
    FrameKeeps(b3, {after}, LowerBound(b3, s.valueVar, s.valueBlock, after), after);
  }

  lemma {:induction false} RunHandle(g: Graph, p: Path, s: Stmt, scope: set<nat>, b: Builder, c: Config, m: Machine)
      returns (n: nat, d: Config)
    requires s.Handle? && Live(p, scope, m) && Resolved(s, scope)
    requires Contains(g, LowerHandle(b, AnalyseHandle(p, s).1)) && AtEnd(c, b, m.io)
    ensures Steps(g, c, n) == d
    ensures Completed(d, LowerHandle(b, AnalyseHandle(p, s).1), ExecHandle(s, m).0, ExecHandle(s, m).1.io)
    decreases |m.io.answers|, s, 1
  {
    hide Contains, AtEnd, AtStart, Known, Grows, Sound, LowerHandle, AnalyseHandle;
    var s' := AnalyseHandle(p, s).1;
    HandleParts(g, b, s');
    assert AtEnd(c, CreateTwo(Create(b)), m.io) by { SameEnd(c, b, CreateTwo(Create(b)), m.io); }
    n, d := RunAnswer(g, b, s', c, m);
    if Ask(s.call, s.uses, m).0.Some? {
      var k, e := RunAnswered(g, p, s, scope, b, d, m);
      Then(g, c, n, d, k, e);
      n, d := n + k, e;
      if ExecHandle(s, m).0 == Normal {
        HandleReaches(p, s, scope, m);
        StartIsEnd(d, LowerHandle(b, s'), ExecHandle(s, m).1.io);
      }
    }
  }

  lemma RunAnswer(g: Graph, b: Builder, s: Stmt, c: Config, m: Machine) returns (n: nat, d: Config)
    requires s.Handle? && AtEnd(c, CreateTwo(Create(b)), m.io)
    requires Contains(g, HandleTest(b, s)) && Contains(g, Emit(HandleTest(b, s), HandleBranch(b)))
    ensures Steps(g, c, n) == d
    ensures var (a, m1) := Ask(s.call, s.uses, m);
      if a.None? then d == Halt(Starved, m1.io)
      else AtStart(d, if a.value then |b.blocks| + 2 else |b.blocks| + 1, m1.io)
  {
    var b0 := CreateTwo(Create(b));
    d := RunCall(g, b0, s.call, s.uses, c, m);
    n := 1;
    var (a, m1) := Ask(s.call, s.uses, m);
    if a.Some? {
      var e := RunCondBr(g, HandleTest(b, s), Result(b.at, |b.Here()|), |b.blocks| + 2, |b.blocks| + 1, d, m1.io);
      Then(g, c, 1, d, 1, e);
      n, d := 2, e;
    }
  }

  lemma {:induction false} RunAnswered(g: Graph, p: Path, s: Stmt, scope: set<nat>, b: Builder, c: Config, m: Machine)
      returns (n: nat, d: Config)
    requires s.Handle? && Live(p, scope, m) && Resolved(s, scope)
    requires Contains(g, LowerHandle(b, AnalyseHandle(p, s).1))
    requires var (a, m1) := Ask(s.call, s.uses, m);
      a.Some? && AtStart(c, if a.value then |b.blocks| + 2 else |b.blocks| + 1, m1.io)
    ensures Steps(g, c, n) == d
    ensures Exited(d, |b.blocks|, ExecHandle(s, m).0, ExecHandle(s, m).1.io)
    decreases |m.io.answers|, s, 0
  {
    hide Contains, AtEnd, AtStart, Known, Grows, Sound, AnalyseBranch, LowerBound, LowerHandle;
    var s' := AnalyseHandle(p, s).1;
    var (a, m1) := Ask(s.call, s.uses, m);
    var p0 := Record(p, AsIncidents(s.uses));
    var p1 := AnalyseBranch(p0, Enter(s.valueVar), s.valueBlock).0;
    HandleParts(g, b, s');
    HandleLive(p, s, scope, m);
    if a.value {
      StartIsEnd(c, HandleError(b, s'), m1.io);
      n, d := RunBound(g, p1, Some(s.errorVar), s.errorBlock, scope, HandleError(b, s'), |b.blocks|, c, m1);
    } else {
      StartIsEnd(c, HandleValue(b, s'), m1.io);
      n, d := RunBound(g, p0, s.valueVar, s.valueBlock, scope, HandleValue(b, s'), |b.blocks|, c, m1);
    }
  }

  /** Both blocks are analysed with what is known when the call has been answered. */
  lemma HandleLive(p: Path, s: Stmt, scope: set<nat>, m: Machine)
    requires s.Handle? && Live(p, scope, m) && Resolved(s, scope) && Ask(s.call, s.uses, m).0.Some?
    ensures var m1 := Ask(s.call, s.uses, m).1;
      var p0 := Record(p, AsIncidents(s.uses));
      var p1 := AnalyseBranch(p0, Enter(s.valueVar), s.valueBlock).0;
      KnownPath(p0, scope) && Sound(p0, m1) && KnownPath(p1, scope) && Sound(p1, m1)
  {
    hide Known, Sound, AllCertain, AllPotential, AnalyseHandle, AsIncidents;
    var p0 := Record(p, AsIncidents(s.uses));
    var p1 := AnalyseBranch(p0, Enter(s.valueVar), s.valueBlock).0;
    HandleAnswer(p, s, m);
    HandleSets(p, s);
    RecordKnown(p, AsIncidents(s.uses), scope, scope);
    BranchKnown(p0, Enter(s.valueVar), s.valueBlock, scope);
    SameSound(p0, p1, Ask(s.call, s.uses, m).1);
  }

  lemma HandleReaches(p: Path, s: Stmt, scope: set<nat>, m: Machine)
    requires s.Handle? && Live(p, scope, m) && Resolved(s, scope) && ExecHandle(s, m).0 == Normal
    ensures !AnalyseHandle(p, s).1.errorBlock.returned || !AnalyseHandle(p, s).1.valueBlock.returned
  {
    hide Known, Sound;
    var p0 := Record(p, AsIncidents(s.uses));
    var p1 := AnalyseBranch(p0, Enter(s.valueVar), s.valueBlock).0;
    var (a, m1) := Ask(s.call, s.uses, m);
    HandleLive(p, s, scope, m);
    if a.value {
      ScopeReaches(p1, Enter(Some(s.errorVar)), s.errorBlock, scope, m1);
    } else {
      ScopeReaches(p0, Enter(s.valueVar), s.valueBlock, scope, m1);
    }
  }
}

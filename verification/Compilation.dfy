/** Compiling a function, and what the graph it is compiled to does. */
module Compilation {
  import opened Wrappers
  import opened Syntax
  import opened Semantics
  import opened PathAnalysis
  import opened PathSoundness
  import opened IR
  import opened Lowering
  import opened LoweringFrame
  import opened Simulation
  import opened Predecessors
  import opened FunctionShape

  /** The main branch when the body is analysed. */
  function Start(begun: set<Incident>): Path {
    Record([NEW_BRANCH], begun)
  }

  /** Variables are in scope, and the function has not returned before its body. */
  ghost predicate Scoped(body: seq<Stmt>, begun: set<Incident>, scope: set<nat>) {
    AllResolved(body, scope) && Known(begun, scope) && Returned !in begun
  }

  const ENTRY_BLOCK: Builder := RawBuilder([[]], [0], 0)

  /** Analyses a body. A function that does not return on all paths gets a final return. */
  function AnalyseBody(body: seq<Stmt>, begun: set<Incident>, returnsValue: bool): Option<Block> {
    var b := AnalyseBlock(Start(begun), Fresh(body)).1;
    if b.returned then Some(b)
    else if returnsValue then None
    else Some(Block(b.stmts + [Return(None)], true, |b.stmts| + 1))
  }

  /** None if the function is rejected because it does not return a value on all paths. */
  function Compile(body: seq<Stmt>, begun: set<Incident>, returnsValue: bool): Option<Builder> {
    match AnalyseBody(body, begun, returnsValue)
    case None => None
    case Some(b) => Some(LowerBlock(ENTRY_BLOCK, b))
  }

  function Entry(answers: seq<bool>): Config {
    At(0, 0, 0, map[], IO(answers, []))
  }

  lemma {:induction false} LowerAllAppend(b: Builder, stmts: seq<Stmt>, last: Stmt)
    ensures LowerAll(b, stmts + [last], |stmts| + 1) == Lower(LowerAll(b, stmts, |stmts|), last)
    decreases stmts
  {
    hide Lower, Grows;
    if stmts != [] {
      assert (stmts + [last])[1..] == stmts[1..] + [last];
      LowerAllAppend(Lower(b, stmts[0]), stmts[1..], last);
    } else {
      assert LowerAll(b, [last], 1) == LowerAll(Lower(b, last), [last][1..], 0);
    }
  }

  lemma MainLive(begun: set<Incident>, scope: set<nat>, answers: seq<bool>)
    requires Known(begun, scope) && Returned !in begun
    ensures Live(Start(begun), scope, Initially(begun, answers)) && AllCertain(Start(begun)) == begun == AllPotential(Start(begun))
  {
  }

  /** The run of the graph reaches the result of the source program. */
  lemma RunFunction(body: seq<Stmt>, begun: set<Incident>, scope: set<nat>, returnsValue: bool, answers: seq<bool>)
    returns (n: nat)
    requires Scoped(body, begun, scope) && Compile(body, begun, returnsValue).Some?
    ensures var (o, io) := ExecFunction(body, begun, answers);
      Steps(Compile(body, begun, returnsValue).value.blocks, Entry(answers), n) == Halt(o, io)
  {
    hide Contains, AllResolved, Grows;
    var m := Initially(begun, answers);
    var g := Compile(body, begun, returnsValue).value.blocks;
    var b1 := LowerLive(Start(begun), ENTRY_BLOCK, body);
    MainLive(begun, scope, answers);
    CompiledBody(body, begun, scope, returnsValue, answers);
    var c;
    n, c := RunAll(g, Start(begun), body, scope, ENTRY_BLOCK, Entry(answers), m);
    if ExecAll(body, m).0 == Normal {
      n, c := RunLeave(g, b1, Ret(None), Entry(answers), n, c, Value(None));
    }
  }

  /** The graph has the lowered body, and a return after it if a run can get there. */
  lemma CompiledBody(body: seq<Stmt>, begun: set<Incident>, scope: set<nat>, returnsValue: bool, answers: seq<bool>)
    requires Scoped(body, begun, scope) && Compile(body, begun, returnsValue).Some?
    ensures var g := Compile(body, begun, returnsValue).value.blocks;
      var b1 := LowerLive(Start(begun), ENTRY_BLOCK, body);
      && Contains(g, b1)
      && (ExecAll(body, Initially(begun, answers)).0 == Normal ==> Contains(g, Emit(b1, Ret(None))))
  {
    hide AllResolved, Grows, LowerLive, Compile, AnalyseBlock, ExecAll;
    var g := Compile(body, begun, returnsValue).value.blocks;
    var b := AnalyseBlock(Start(begun), Fresh(body)).1;
    var b1 := LowerLive(Start(begun), ENTRY_BLOCK, body);
    CompiledIs(body, begun, returnsValue);
    if b.returned {
      NeverEnds(body, begun, scope, answers);
    } else {
      ContainsLess(g, b1, Emit(b1, Ret(None)));
    }
  }

  lemma CompiledIs(body: seq<Stmt>, begun: set<Incident>, returnsValue: bool)
    requires Compile(body, begun, returnsValue).Some?
    ensures var b1 := LowerLive(Start(begun), ENTRY_BLOCK, body);
      Compile(body, begun, returnsValue).value ==
      if AnalyseBlock(Start(begun), Fresh(body)).1.returned then b1 else Emit(b1, Ret(None))
  {
    hide Grows;
    var b := AnalyseBlock(Start(begun), Fresh(body)).1;
    if !b.returned { LowerAllAppend(ENTRY_BLOCK, b.stmts, Return(None)); }
  }

  /** No run gets to the end of a body that certainly returned. */
  lemma NeverEnds(body: seq<Stmt>, begun: set<Incident>, scope: set<nat>, answers: seq<bool>)
    requires Scoped(body, begun, scope) && AnalyseBlock(Start(begun), Fresh(body)).1.returned
    ensures ExecAll(body, Initially(begun, answers)).0 != Normal
  {
    hide ExecAll, AllResolved;
    MainLive(begun, scope, answers);
    CutReturned(Start(begun), body);
    AllSound(Start(begun), body, scope, Initially(begun, answers));
  }

  /**
   Lowering preserves meaning: the graph halts with a result exactly if the source program has
   that result, with the same effects in the same order.
   */
  lemma LoweringPreservesMeaning(body: seq<Stmt>, begun: set<Incident>, scope: set<nat>, returnsValue: bool,
                                 answers: seq<bool>, o: Outcome, io: IO)
    requires Scoped(body, begun, scope) && Compile(body, begun, returnsValue).Some?
    ensures (exists n :: Steps(Compile(body, begun, returnsValue).value.blocks, Entry(answers), n) == Halt(o, io))
            <==> ExecFunction(body, begun, answers) == (o, io)
  {
    var g := Compile(body, begun, returnsValue).value.blocks;
    var k := RunFunction(body, begun, scope, returnsValue, answers);
    forall n | Steps(g, Entry(answers), n) == Halt(o, io)
      ensures ExecFunction(body, begun, answers) == (o, io)
    {
      HaltUnique(g, Entry(answers), n, k);
    }
  }

  /** The graph never gets stuck: no undefined operand, no missing phi entry, no missing instruction. */
  lemma NeverFaults(body: seq<Stmt>, begun: set<Incident>, scope: set<nat>, returnsValue: bool, answers: seq<bool>, n: nat)
    requires Scoped(body, begun, scope) && Compile(body, begun, returnsValue).Some?
    ensures !Steps(Compile(body, begun, returnsValue).value.blocks, Entry(answers), n).Fault?
  {
    var k := RunFunction(body, begun, scope, returnsValue, answers);
    if Steps(Compile(body, begun, returnsValue).value.blocks, Entry(answers), n).Fault? {
      HaltUnique(Compile(body, begun, returnsValue).value.blocks, Entry(answers), n, k);
    }
  }

  /** A function with a return type that is accepted returns a value whenever it ends normally. */
  lemma AcceptedReturns(body: seq<Stmt>, begun: set<Incident>, scope: set<nat>, answers: seq<bool>)
    requires Scoped(body, begun, scope) && Compile(body, begun, true).Some?
    ensures ExecAll(body, Initially(begun, answers)).0 != Normal
  {
    NeverEnds(body, begun, scope, answers);
  }

  // ----- What the analysis of a whole body means -----

  /**
   What is certain has happened on every run that gets to the end; what happened is potential. The
   uses in operands of short-circuit operators can only be trusted if they happen anyway.
   */
  lemma AnalysisSound(body: seq<Stmt>, begun: set<Incident>, scope: set<nat>, answers: seq<bool>, i: Incident,
                      trusted: set<Use>)
    requires Scoped(body, begun, scope) && (trusted == {} || AllSure(body, trusted))
    ensures var p := AnalyseAll(Start(begun), body).0;
      var (o, m) := ExecAll(body, Initially(begun, answers));
      && (i in AllCertain(p) && (i.Used? ==> i.use in trusted) && o == Normal ==> i in m.happened && i != Returned)
      && (i in m.happened ==> i in AllPotential(p))
  {
    MainLive(begun, scope, answers);
    AllSound(Start(begun), body, scope, Initially(begun, answers), trusted);
    ExtendsSets(Start(begun), AnalyseAll(Start(begun), body).0);
  }

  /**
   The id of a variable in a block is given to another variable behind the block, which is not
   initialized: neither does the analyser take it to be.
   */
  lemma IdsAreReused(body: seq<Stmt>, answers: seq<bool>)
    requires body == [If(Arm(Test(Leaf(0, {})), Fresh([Declare(0, true)]), NoElse)), Declare(0, false)]
    ensures Scoped(body, {}, {}) && VariableInit(0) !in AllPotential(AnalyseAll(Start({}), body).0)
    ensures VariableInit(0) !in ExecAll(body, Initially({}, answers)).1.happened
  {
    ReusedScoped(body);
    AnalyseTwo(Start({}), body[0], body[1]);
    var p := Analyse(Start({}), body[0]).0;
    MainLive({}, {}, answers);
    assert {} + LocalsOf(body[0]) == {};
    StmtKnown(Start({}), body[0], {});
    RecordSets(p, RecordedAt(body[1]));
    AnalysisSound(body, {}, {}, answers, VariableInit(0), {});
  }

  lemma ReusedScoped(body: seq<Stmt>)
    requires body == [If(Arm(Test(Leaf(0, {})), Fresh([Declare(0, true)]), NoElse)), Declare(0, false)]
    ensures Scoped(body, {}, {})
  {
    var inner := [Declare(0, true)];
    assert body[1..] == [body[1]] && [body[1]][1..] == [] && inner[1..] == [];
    assert AllResolved([], {0}) && Locals([]) == {} && Locals(inner) == {0};
    assert Resolved(inner[0], {}) && AllResolved(inner, {} + {});
    assert Resolved(body[0], {}) && LocalsOf(body[0]) == {} && Resolved(body[1], {});
    assert AllResolved([body[1]], {} + {});
  }

  /**
   Inside a loop the analyser knows nothing of earlier iterations. This initializer calls the super
   initializer in a loop, and then a function that never returns, so that nothing is required of
   its end. At the call the analyser does not consider it to have happened potentially, yet the
   loop makes it twice.
   */
  lemma LoopRepeatsUnnoticed()
    ensures var cond: Cond := Test(Leaf(0, {}));
      var body := [While(cond, Fresh([Assign(CalledSuperInitializer, Leaf(1, {}))])), ExprStmt(Leaf(2, {}), true)];
      var called := Stored(Initialized(CalledSuperInitializer));
      && Scoped(body, {}, {}) && Returned in AllCertain(AnalyseAll(Start({}), body).0)
      && CalledSuperInitializer !in AllPotential(Record(Begin(Start({})), RecordedBy(cond)))
      && ExecFunction(body, {}, [true, true, true, true, false, true]) == (Gone, IO([],
         [Asked(0, true), Asked(1, true), called, Asked(0, true), Asked(1, true), called, Asked(0, false), Asked(2, true)]))
  {
    var cond: Cond := Test(Leaf(0, {}));
    var b := Fresh([Assign(CalledSuperInitializer, Leaf(1, {}))]);
    var body := [While(cond, b), ExprStmt(Leaf(2, {}), true)];
    hide AllPotential, AllCertain, ExecFunction, AnalyseAll, Scoped, Record, Begin, Start, RecordedBy;
    LoopScoped(cond, b, body);
    LoopAnalysed(cond, b);
    LoopFunction(cond, b);
  }

  lemma LoopFunction(cond: Cond, b: Block)
    requires cond == Test(Leaf(0, {})) && b == Fresh([Assign(CalledSuperInitializer, Leaf(1, {}))])
    ensures var called := Stored(Initialized(CalledSuperInitializer));
      ExecFunction([While(cond, b), ExprStmt(Leaf(2, {}), true)], {}, [true, true, true, true, false, true]) == (Gone, IO([],
         [Asked(0, true), Asked(1, true), called, Asked(0, true), Asked(1, true), called, Asked(0, false), Asked(2, true)]))
  {
    hide ExecAll;
    LoopRuns(cond, b, Initially({}, [true, true, true, true, false, true]));
  }

  lemma LoopAnalysed(cond: Cond, b: Block)
    requires cond == Test(Leaf(0, {}))
    ensures Returned in AllCertain(AnalyseAll(Start({}), [While(cond, b), ExprStmt(Leaf(2, {}), true)]).0)
    ensures CalledSuperInitializer !in AllPotential(Record(Begin(Start({})), RecordedBy(cond)))
  {
    hide AllCertain, AllPotential, AnalyseAll, AnalyseWhile, Analyse;
    var last := ExprStmt(Leaf(2, {}), true);
    AnalyseTwo(Start({}), While(cond, b), last);
    CallReturned(Analyse(Start({}), While(cond, b)).0, last);
    NothingPotential(cond);
  }

  lemma CallReturned(p: Path, s: Stmt)
    requires s == ExprStmt(Leaf(2, {}), true) && Current(p).branches == []
    ensures Returned in AllCertain(Analyse(p, s).0)
  {
    hide AllCertain, AllPotential;
    RecordSets(p, RecordedAt(s));
  }

  lemma NothingPotential(cond: Cond)
    requires cond == Test(Leaf(0, {}))
    ensures CalledSuperInitializer !in AllPotential(Record(Begin(Start({})), RecordedBy(cond)))
  {
  }

  lemma LoopRuns(cond: Cond, b: Block, m: Machine)
    requires cond == Test(Leaf(0, {})) && b == Fresh([Assign(CalledSuperInitializer, Leaf(1, {}))])
    requires m.io == IO([true, true, true, true, false, true], [])
    ensures var called := Stored(Initialized(CalledSuperInitializer));
      var (o, m1) := ExecAll([While(cond, b), ExprStmt(Leaf(2, {}), true)], m);
      && o == Gone
      && m1.io == IO([], [Asked(0, true), Asked(1, true), called, Asked(0, true), Asked(1, true), called,
                          Asked(0, false), Asked(2, true)])
  {
    hide ExecWhile, ExecAll;
    LoopTwice(cond, b, m);
    ExecTwo(While(cond, b), ExprStmt(Leaf(2, {}), true), m);
  }

  lemma AnalyseTwo(p: Path, s: Stmt, t: Stmt)
    requires Current(p).branches == []
    ensures AnalyseAll(p, [s, t]).0 == Analyse(Analyse(p, s).0, t).0
  {
    hide Analyse, AllCertain;
    var p1 := Analyse(p, s).0;
    assert [s, t][1..] == [t] && AnalyseAll(p1, [t]).0 == AnalyseAll(Analyse(p1, t).0, [t][1..]).0;
  }

  lemma ExecTwo(s: Stmt, t: Stmt, m: Machine)
    requires Exec(s, m).0 == Normal
    ensures var (o, m2) := Exec(t, Exec(s, m).1);
      ExecAll([s, t], m) == (o, m2)
  {
    hide Exec;
    var (o, m2) := Exec(t, Exec(s, m).1);
    assert [s, t][1..] == [t] && [t][1..] == [] && ExecAll([], m2) == (Normal, m2);
  }

  lemma LoopScoped(cond: Cond, b: Block, body: seq<Stmt>)
    requires cond == Test(Leaf(0, {})) && b == Fresh([Assign(CalledSuperInitializer, Leaf(1, {}))])
    requires body == [While(cond, b), ExprStmt(Leaf(2, {}), true)]
    ensures Scoped(body, {}, {})
  {
    assert body[1..] == [body[1]] && [body[1]][1..] == [] && b.stmts[1..] == [];
    assert AllResolved([], {}) && Locals([]) == {};
    assert Locals(b.stmts) == {} && ScopeOf(cond, b) == {};
    assert Resolved(b.stmts[0], {}) && AllResolved(b.stmts, {} + {});
    assert Resolved(body[0], {}) && Resolved(body[1], {}) && AllResolved([body[1]], {});
  }

  lemma LoopTwice(cond: Cond, b: Block, m: Machine)
    requires cond == Test(Leaf(0, {})) && b == Fresh([Assign(CalledSuperInitializer, Leaf(1, {}))])
    requires m.io == IO([true, true, true, true, false, true], [])
    ensures var called := Stored(Initialized(CalledSuperInitializer));
      var (o, m1) := ExecWhile(cond, b, m);
      && o == Normal
      && m1.io == IO([true], [Asked(0, true), Asked(1, true), called, Asked(0, true), Asked(1, true), called, Asked(0, false)])
  {
    hide ExecScope;
    var m1 := OneIteration(m);
    var m2 := OneIteration(m1);
    LastTest(cond, b, m2);
    assert ExecWhile(cond, b, m) == ExecWhile(cond, b, m2);
  }

  lemma LastTest(cond: Cond, b: Block, m: Machine)
    requires cond == Test(Leaf(0, {})) && m.io.answers == [false, true]
    ensures ExecWhile(cond, b, m).0 == Normal
    ensures ExecWhile(cond, b, m).1.io == IO([true], m.io.effects + [Asked(0, false)])
  {
    assert ExecScope(cond, b, m) == Skipped(Ask(0, {}, m).1.Forget(ScopeOf(cond, b)));
  }

  lemma OneIteration(m: Machine) returns (m1: Machine)
    requires |m.io.answers| > 1 && m.io.answers[0]
    ensures var cond: Cond := Test(Leaf(0, {}));
      var b := Fresh([Assign(CalledSuperInitializer, Leaf(1, {}))]);
      ExecScope(cond, b, m) == Ran(Normal, m1)
    ensures m1.io == IO(m.io.answers[2..], m.io.effects + [Asked(0, true), Asked(1, m.io.answers[1]),
                                                           Stored(Initialized(CalledSuperInitializer))])
  {
    var assign := Assign(CalledSuperInitializer, Leaf(1, {}));
    var m0 := Ask(0, {}, m).1;
    assert ExecAll([assign], m0) == Exec(assign, m0);
    m1 := Exec(assign, m0).1.Forget({});
    assert m.io.answers[1..][1..] == m.io.answers[2..];
  }

  // ----- The shape of the graph -----

  /** A well-formed function: its blocks, in the order they were inserted. */
  ghost predicate WellFormed(g: Graph, layout: seq<nat>) {
    && |layout| > 0 && layout[0] == 0 && Distinct(layout)
    && (forall k | k in layout :: k < |g| && Closed(g[k]))
    && (forall k | 0 <= k < |g| && k !in layout :: g[k] == [])
    && (forall j: nat, k: nat | Edge(g, j, k) :: j in layout && k in layout)
    && PhisAgree(g)
  }

  /**
   Every block of the compiled function ends in its only terminator, all branches lead to blocks
   of the function, blocks that were not needed stay empty, and every phi has one entry for each
   predecessor of its block.
   */
  lemma CompiledWellFormed(body: seq<Stmt>, begun: set<Incident>, scope: set<nat>, returnsValue: bool)
    requires Scoped(body, begun, scope) && Compile(body, begun, returnsValue).Some?
    ensures WellFormed(Compile(body, begun, returnsValue).value.blocks, Compile(body, begun, returnsValue).value.layout)
  {
    hide Shape, PhisAgree, AllResolved, Distinct, Edge;
    var c := Compile(body, begun, returnsValue).value;
    var b := AnalyseBlock(Start(begun), Fresh(body)).1;
    var b1 := LowerBlock(ENTRY_BLOCK, b);
    assert b1 == LowerLive(Start(begun), ENTRY_BLOCK, body);
    ShapeAll(Start(begun), body, ENTRY_BLOCK, scope);
    EntryAgrees();
    PhisAll(ENTRY_BLOCK, body, 0);
    PhisAll(ENTRY_BLOCK, AnalyseBody(body, begun, returnsValue).value.stmts, AnalyseBody(body, begun, returnsValue).value.stop);
    if !b.returned {
      LowerAllAppend(ENTRY_BLOCK, b.stmts, Return(None));
      ShapeLeave(ENTRY_BLOCK, b1, Ret(None));
    }
    ShapeWellFormed(c);
  }

  lemma EntryAgrees()
    ensures PhisAgree(ENTRY_BLOCK.blocks)
  {
  }

  lemma ShapeWellFormed(c: Builder)
    requires Shape(ENTRY_BLOCK, {}, {}, c, true) && PhisAgree(c.blocks)
    ensures WellFormed(c.blocks, c.layout)
  {
    var inserted := Inserted(ENTRY_BLOCK, c);
    assert c.layout == [0] + inserted;
    DistinctAppend([0], inserted);
    forall k | 0 <= k < |c.blocks|
      ensures if k in c.layout then Closed(c.blocks[k]) else c.blocks[k] == []
    {
      if k != c.at { assert Settled(ENTRY_BLOCK, {}, c, k); }
    }
    forall j: nat, k: nat | Edge(c.blocks, j, k) ensures j in c.layout && k in c.layout {
      var pc :| 0 <= pc < |c.blocks[j]| && k in c.blocks[j][pc].Targets();
      assert IsNew(ENTRY_BLOCK, j, pc);
    }
  }
}

/**
 What the analyser says, measured against the ways there are: it is exact about returning, and it
 is known exactly what it misses of loops and of the operands of short-circuit operators.
 */
module Exactness {
  import opened Wrappers
  import opened Syntax
  import opened Semantics
  import opened Ways
  import opened PathAnalysis
  import opened PathSoundness
  import opened Simulation
  import opened Compilation

  // ----- The analyser finds exactly the statements without a way through them -----

  lemma {:induction false} AllReturned(p: Path, stmts: seq<Stmt>, scope: set<nat>, i: Incident)
    requires Current(p).branches == [] && AllResolved(stmts, scope)
    ensures Current(AnalyseAll(p, stmts).0).HasReturned() <==> Current(p).HasReturned() || AllWays(stmts, i) == {}
    decreases stmts
  {
    if stmts != [] {
      StmtReturned(p, stmts[0], scope, i);
      AllReturned(Analyse(p, stmts[0]).0, stmts[1..], scope + LocalsOf(stmts[0]), i);
    }
  }

  lemma {:induction false} StmtReturned(p: Path, s: Stmt, scope: set<nat>, i: Incident)
    requires Current(p).branches == [] && Resolved(s, scope)
    ensures Current(Analyse(p, s).0).HasReturned() <==> Current(p).HasReturned() || StmtWays(s, i) == {}
    decreases s
  {
    hide AnalyseBranch, AnalyseChain, AnalyseHandle, ScopeWays, EvalWays;
    match s
    case If(chain) =>
      ChainReturns(p, chain, scope, i);
      var q := AnalyseChain(p, chain).0;
      assert Added(p, q) == Current(q).branches;
      if HasElse(chain) { MergeReturns(Current(q)); } else { OpenChain(chain, i); }
    case While(c, b) => SomeSkip(c, b, i);
    case Handle(_, uses, v, vb, x, eb) =>
      var p0 := Record(p, AsIncidents(uses));
      ScopeReturned(p0, Enter(v), vb, scope, i);
      ScopeReturned(AnalyseBranch(p0, Enter(v), vb).0, Enter(Some(x)), eb, scope, i);
      HandleReturns(p, s, i);
    case Unsafe(b) => AllReturned(p, b.stmts, scope, i);
    case _ => SimpleReturned(s, scope, i);
  }

  lemma HandleReturns(p: Path, s: Stmt, i: Incident)
    requires Current(p).branches == [] && s.Handle?
    requires var (p0, values, errors) := (Record(p, AsIncidents(s.uses)), Enter(s.valueVar), Enter(Some(s.errorVar)));
      var p1 := AnalyseBranch(p0, values, s.valueBlock).0;
      && Added(p0, p1) == [BranchOf(p0, values, s.valueBlock)]
      && Added(p1, AnalyseBranch(p1, errors, s.errorBlock).0) == [BranchOf(p1, errors, s.errorBlock)]
      && (BranchOf(p0, values, s.valueBlock).HasReturned() <==> ScopeWays(values, s.valueBlock, i) == {})
      && (BranchOf(p1, errors, s.errorBlock).HasReturned() <==> ScopeWays(errors, s.errorBlock, i) == {})
    ensures Current(AnalyseHandle(p, s).0).HasReturned() <==> Current(p).HasReturned() || StmtWays(s, i) == {}
  {
    hide AnalyseBranch, AnalyseHandle, BranchOf, ScopeWays, Branch.FinishMutualExclusive;
    HandleMerged(p, s);
    var (values, errors) := (Enter(s.valueVar), Enter(Some(s.errorVar)));
    var p0 := Record(p, AsIncidents(s.uses));
    var p1 := AnalyseBranch(p0, values, s.valueBlock).0;
    var (b, c) := (BranchOf(p0, values, s.valueBlock), BranchOf(p1, errors, s.errorBlock));
    var merged := Branch(Current(p0).certain, Current(p0).potential, [b, c]);
    TwoReturn(merged, b, c);
  }

  lemma TwoReturn(merged: Branch, b: Branch, c: Branch)
    requires merged.branches == [b, c]
    ensures merged.FinishMutualExclusive().HasReturned() <==> merged.HasReturned() || (b.HasReturned() && c.HasReturned())
  {
    MergeReturns(merged);
    assert forall d :: d in [b, c] <==> d == b || d == c;
  }

  /** The two blocks of an error handler are the branches that are merged. */
  lemma HandleMerged(p: Path, s: Stmt)
    requires Current(p).branches == [] && s.Handle?
    requires var (p0, values, errors) := (Record(p, AsIncidents(s.uses)), Enter(s.valueVar), Enter(Some(s.errorVar)));
      var p1 := AnalyseBranch(p0, values, s.valueBlock).0;
      && Added(p0, p1) == [BranchOf(p0, values, s.valueBlock)]
      && Added(p1, AnalyseBranch(p1, errors, s.errorBlock).0) == [BranchOf(p1, errors, s.errorBlock)]
    ensures var (p0, values, errors) := (Record(p, AsIncidents(s.uses)), Enter(s.valueVar), Enter(Some(s.errorVar)));
      var p1 := AnalyseBranch(p0, values, s.valueBlock).0;
      Current(AnalyseHandle(p, s).0) ==
      Branch(Current(p0).certain, Current(p0).potential,
             [BranchOf(p0, values, s.valueBlock), BranchOf(p1, errors, s.errorBlock)]).FinishMutualExclusive()
  {
    hide AnalyseBranch, BranchOf;
    var (values, errors) := (Enter(s.valueVar), Enter(Some(s.errorVar)));
    var p0 := Record(p, AsIncidents(s.uses));
    var p1 := AnalyseBranch(p0, values, s.valueBlock).0;
    var p2 := AnalyseBranch(p1, errors, s.errorBlock).0;
    AddedTrans(p0, p1, p2);
    assert Current(p2).branches == Added(p0, p2) ==
           [BranchOf(p0, values, s.valueBlock), BranchOf(p1, errors, s.errorBlock)];
  }

  lemma SimpleReturned(s: Stmt, scope: set<nat>, i: Incident)
    requires Resolved(s, scope) && !s.If? && !s.While? && !s.Handle? && !s.Unsafe?
    ensures Returned in RecordedAt(s) <==> StmtWays(s, i) == {}
  {
    match s
    case ExprStmt(e, _) => UsesAreUses(e);
    case DeclareAndAssign(_, e) => UsesAreUses(e);
    case Assign(_, e) => UsesAreUses(e);
    case _ =>
  }

  lemma SomeSkip(c: Cond, b: Block, i: Incident)
    ensures SkipWays(c, b, i) != {} && SetupWays(c, true, i) != {}
  {
  }

  lemma {:induction false} ScopeReturned(p: Path, setup: Setup, b: Block, scope: set<nat>, i: Incident)
    requires ScopeResolved(setup, b, scope)
    ensures Added(p, AnalyseBranch(p, setup, b).0) == [BranchOf(p, setup, b)]
    ensures BranchOf(p, setup, b).HasReturned() <==> ScopeWays(setup, b, i) == {}
    decreases b
  {
    var start := Record(Begin(p), RecordedBy(setup));
    BranchIs(p, setup, b);
    AllReturned(start, b.stmts, scope + BoundBy(setup), i);
    SetupHappens(setup, Machine(IO([], []), {}));
    if !setup.Enter? { SomeSkip(setup, b, i); }
  }

  lemma {:induction false} ChainReturns(p: Path, chain: Chain, scope: set<nat>, i: Incident)
    requires ChainResolved(chain, scope)
    ensures HasElse(chain) ==> Added(p, AnalyseChain(p, chain).0) != []
    ensures HasElse(chain) ==>
            ((forall c | c in Added(p, AnalyseChain(p, chain).0) :: c.HasReturned()) <==> ChainWays(chain, i) == {})
    decreases chain
  {
    hide AnalyseBranch, ScopeWays, SkipWays;
    match chain
    case NoElse =>
    case Else(b) => ScopeReturned(p, Enter(None), b, scope, i);
    case Arm(c, b, rest) =>
      var p1 := AnalyseBranch(p, c, b).0;
      var p2 := AnalyseChain(p1, rest).0;
      SomeSkip(c, b, i);
      ScopeReturned(p, c, b, scope, i);
      ChainReturns(p1, rest, scope, i);
      AddedTrans(p, p1, p2);
      assert Added(p, p2)[0] == BranchOf(p, c, b);
  }

  lemma {:induction false} OpenChain(chain: Chain, i: Incident)
    requires !HasElse(chain)
    ensures ChainWays(chain, i) != {}
  {
    if chain.Arm? {
      SomeSkip(chain.cond, chain.body, i);
      OpenChain(chain.rest, i);
    }
  }

  lemma MergeReturns(b: Branch)
    requires b.branches != []
    ensures b.FinishMutualExclusive().HasReturned() <==>
            b.HasReturned() || forall c | c in b.branches :: c.HasReturned()
  {
    var c := b.branches[0];
    assert c in b.branches;
  }

  // ----- Functions -----

  /** The runs of a body are its ways. */
  lemma BodyAlong(body: seq<Stmt>, begun: set<Incident>, scope: set<nat>, i: Incident, answers: seq<bool>)
    requires Scoped(body, begun, scope) && i !in begun
    ensures var (o, m) := ExecAll(body, Initially(begun, answers));
      o == Normal ==> (i in m.happened) in AllWays(body, i)
  {
    if ExecAll(body, Initially(begun, answers)).0 == Normal {
      var way := AllAlong(body, scope, i, Initially(begun, answers));
    }
  }

  lemma BodyTakes(body: seq<Stmt>, begun: set<Incident>, scope: set<nat>, i: Incident, way: bool)
    returns (answers: seq<bool>)
    requires Scoped(body, begun, scope) && i !in begun && way in AllWays(body, i)
    ensures var (o, m) := ExecAll(body, Initially(begun, answers));
      o == Normal && (i in m.happened) == way
  {
    answers := AllAnswers(body, i, way);
    assert answers == answers + [];
    AllTakes(body, scope, i, way, [], Initially(begun, answers));
  }

  /** A function certainly returns, for the analyser, exactly if no run gets to the end of its body. */
  lemma ReturnedExactly(body: seq<Stmt>, begun: set<Incident>, scope: set<nat>)
    requires Scoped(body, begun, scope)
    ensures Returned in AllCertain(AnalyseAll(Start(begun), body).0) <==>
            forall answers :: ExecAll(body, Initially(begun, answers)).0 != Normal
  {
    var p := AnalyseAll(Start(begun), body).0;
    AllReturned(Start(begun), body, scope, Returned);
    MainLive(begun, scope, []);
    assert p == [Current(p)];
    if Returned in AllCertain(p) {
      forall answers ensures ExecAll(body, Initially(begun, answers)).0 != Normal {
        AnalysisSound(body, begun, scope, answers, Returned, {});
      }
    } else {
      var way := Pick(AllWays(body, Returned));
      var answers := BodyTakes(body, begun, scope, Returned, way);
    }
  }

  /** A function with a return type is rejected exactly if some run gets to the end of its body. */
  lemma RejectedExactly(body: seq<Stmt>, begun: set<Incident>, scope: set<nat>)
    requires Scoped(body, begun, scope)
    ensures Compile(body, begun, true).None? <==>
            exists answers :: ExecAll(body, Initially(begun, answers)).0 == Normal
  {
    ReturnedExactly(body, begun, scope);
    CutReturned(Start(begun), body);
  }

  // ----- Incidents that certainly happened -----

  /** An incident happens on every run to the end exactly if there is no way without it. */
  lemma CertainExactly(body: seq<Stmt>, begun: set<Incident>, scope: set<nat>, i: Incident)
    requires Scoped(body, begun, scope) && i !in begun
    ensures (forall answers :: ExecAll(body, Initially(begun, answers)).0 == Normal ==>
                               i in ExecAll(body, Initially(begun, answers)).1.happened) <==>
            false !in AllWays(body, i)
  {
    forall answers ensures var (o, m) := ExecAll(body, Initially(begun, answers));
      o == Normal ==> (i in m.happened) in AllWays(body, i)
    {
      BodyAlong(body, begun, scope, i, answers);
    }
    if false in AllWays(body, i) {
      var answers := BodyTakes(body, begun, scope, i, false);
    }
  }

  /** What is certain for the analyser is on all ways: a use only if the operands it is in are sure. */
  lemma CertainOnAllWays(body: seq<Stmt>, begun: set<Incident>, scope: set<nat>, i: Incident)
    requires Scoped(body, begun, scope) && i !in begun
    requires i in AllCertain(AnalyseAll(Start(begun), body).0) && (i.Used? ==> AllSure(body, {i.use}))
    ensures false !in AllWays(body, i)
  {
    if false in AllWays(body, i) {
      var answers := BodyTakes(body, begun, scope, i, false);
      AnalysisSound(body, begun, scope, answers, i, if i.Used? then {i.use} else {});
    }
  }

  /** A use certainly happens in an expression exactly if there is no way to evaluate it without. */
  lemma UseIsCertain(e: Expr, use: Incident)
    ensures (forall m: Machine :: Eval(e, m).0.Some? ==> use in Eval(e, m).1.happened) <==> false !in ValueWays(e, use)
  {
    forall m: Machine | Eval(e, m).0.Some? && false !in ValueWays(e, use) ensures use in Eval(e, m).1.happened {
      var way := EvalAlong(e, use, m);
    }
    if false in ValueWays(e, use) {
      var m := Machine(IO(ValueAnswers(e, use, false), []), {});
      assert m.io.answers == ValueAnswers(e, use, false) + [];
      ValueTakes(e, use, false, [], m);
    }
  }

  /** The analyser records the use of a right operand that is not evaluated. */
  lemma UseRecordedTooEarly()
    ensures var s := ExprStmt(Logical(true, Leaf(0, {}), Leaf(1, {Self})), false);
      var (o, m) := Exec(s, Initially({}, [false]));
      && Resolved(s, {}) && Used(Self) in AllCertain(Analyse(Start({}), s).0)
      && o == Normal && Used(Self) !in m.happened
  {
    var e := Logical(true, Leaf(0, {}), Leaf(1, {Self}));
    assert Self in {Self} && Used(Self) in Uses(Leaf(1, {Self})) && Used(Self) in Uses(e);
    RecordSets(Start({}), RecordedAt(ExprStmt(e, false)));
    assert Eval(e, Initially({}, [false])) == Eval(Leaf(0, {}), Initially({}, [false]));
  }

  // ----- What an initializer must have done -----

  /** The analyser takes control to be elsewhere, or the incident to have happened. */
  predicate Settled(b: Branch, i: Incident) {
    i in b.certain || b.HasReturned()
  }

  /** Evaluating something does nothing to the instance. */
  lemma {:induction false} EvalLeaves(e: Expr, v: bool, i: Incident)
    requires AboutInstance(i)
    ensures EvalWays(e, v, i) == {false}
  {
    match e
    case Leaf(_, uses) =>
    case Logical(isAnd, l, r) =>
      EvalLeaves(l, isAnd, i);
      EvalLeaves(l, !isAnd, i);
      EvalLeaves(r, v, i);
  }

  lemma ValueLeaves(e: Expr, i: Incident)
    requires AboutInstance(i)
    ensures ValueWays(e, i) == {false} && i !in Uses(e) && Returned !in Uses(e)
  {
    EvalLeaves(e, true, i);
    EvalLeaves(e, false, i);
    UsesAreUses(e);
  }

  lemma SkipLeaves(c: Cond, b: Block, i: Incident)
    requires AboutInstance(i)
    ensures SkipWays(c, b, i) == {false}
  {
    SetupLeaves(c, i);
  }

  lemma SetupLeaves(setup: Setup, i: Incident)
    requires AboutInstance(i)
    ensures SetupWays(setup, true, i) == {false} && (!setup.Enter? ==> SetupWays(setup, false, i) == {false})
    ensures i !in RecordedBy(setup) && Returned !in RecordedBy(setup)
  {
    if setup.Test? {
      ValueLeaves(setup.e, i);
      EvalLeaves(setup.e, true, i);
      EvalLeaves(setup.e, false, i);
    }
  }

  lemma NothingInTurn(a: set<bool>, b: set<bool>)
    ensures false in InTurn(a, b) <==> false in a && false in b
  {
  }

  lemma {:induction false} AllSettled(p: Path, stmts: seq<Stmt>, scope: set<nat>, i: Incident)
    requires Current(p).branches == [] && AllResolved(stmts, scope) && AboutInstance(i)
    ensures Settled(Current(AnalyseAll(p, stmts).0), i) <==> Settled(Current(p), i) || false !in AllWays(stmts, i)
    decreases stmts
  {
    if stmts != [] {
      hide InTurn, StmtWays;
      StmtSettled(p, stmts[0], scope, i);
      AllSettled(Analyse(p, stmts[0]).0, stmts[1..], scope + LocalsOf(stmts[0]), i);
      NothingInTurn(StmtWays(stmts[0], i), AllWays(stmts[1..], i));
    }
  }

  lemma {:induction false} StmtSettled(p: Path, s: Stmt, scope: set<nat>, i: Incident)
    requires Current(p).branches == [] && Resolved(s, scope) && AboutInstance(i)
    ensures Settled(Current(Analyse(p, s).0), i) <==> Settled(Current(p), i) || false !in StmtWays(s, i)
    decreases s
  {
    hide AnalyseIf, AnalyseWhile, AnalyseHandle, ChainWays, ScopeWays, SkipWays, EvalWays, ValueWays, InTurn, Settled,
      AllWays;
    match s
    case If(chain) =>
      ChainSettled(p, chain, scope, i);
      IfSettled(p, chain, i);
    case While(c, b) => WhileSettled(p, c, b, i);
    case Handle(_, uses, v, vb, x, eb) =>
      var p0 := Record(p, AsIncidents(uses));
      ScopeSettled(p0, Enter(v), vb, scope, i);
      ScopeSettled(AnalyseBranch(p0, Enter(v), vb).0, Enter(Some(x)), eb, scope, i);
      HandleSettled(p, s, i);
    case Unsafe(b) => AllSettled(p, b.stmts, scope, i);
    case _ =>
      SimpleSettled(s, scope, i);
      RecordSettles(p, RecordedAt(s), i);
  }

  lemma IfSettled(p: Path, chain: Chain, i: Incident)
    requires Current(p).branches == [] && AboutInstance(i)
    requires HasElse(chain) ==> Added(p, AnalyseChain(p, chain).0) != []
    ensures Settled(Current(AnalyseIf(p, chain).0), i) <==>
            Settled(Current(p), i) || (HasElse(chain) && forall c | c in Added(p, AnalyseChain(p, chain).0) :: Settled(c, i))
  {
    hide AnalyseChain, Settled;
    var q := AnalyseChain(p, chain).0;
    assert Added(p, q) == Current(q).branches;
    SameSettled(Current(p), Current(q), i);
    if HasElse(chain) { MergeSettles(Current(q), i); } else { FinishSettles(Current(q), i); }
  }

  lemma WhileSettled(p: Path, c: Cond, b: Block, i: Incident)
    requires Current(p).branches == [] && AboutInstance(i)
    ensures Settled(Current(AnalyseWhile(p, c, b).0), i) <==> Settled(Current(p), i)
    ensures false in StmtWays(While(c, b), i)
  {
    hide AnalyseBranch, Settled, StmtWays, Branch.FinishUncertain;
    LoopSkipped(c, b, i);
    FinishSettles(Current(AnalyseBranch(p, c, b).0), i);
    SameSettled(Current(p), Current(AnalyseBranch(p, c, b).0), i);
  }

  lemma LoopSkipped(c: Cond, b: Block, i: Incident)
    requires AboutInstance(i)
    ensures false in StmtWays(While(c, b), i)
  {
    hide InTurn, ScopeWays, SkipWays;
    SkipLeaves(c, b, i);
  }

  lemma HandleSettled(p: Path, s: Stmt, i: Incident)
    requires Current(p).branches == [] && AboutInstance(i) && s.Handle?
    requires var (p0, values, errors) := (Record(p, AsIncidents(s.uses)), Enter(s.valueVar), Enter(Some(s.errorVar)));
      var p1 := AnalyseBranch(p0, values, s.valueBlock).0;
      && Added(p0, p1) == [BranchOf(p0, values, s.valueBlock)]
      && Added(p1, AnalyseBranch(p1, errors, s.errorBlock).0) == [BranchOf(p1, errors, s.errorBlock)]
      && (Settled(BranchOf(p0, values, s.valueBlock), i) <==> false !in ScopeWays(values, s.valueBlock, i))
      && (Settled(BranchOf(p1, errors, s.errorBlock), i) <==> false !in ScopeWays(errors, s.errorBlock, i))
    ensures Settled(Current(AnalyseHandle(p, s).0), i) <==> Settled(Current(p), i) || false !in StmtWays(s, i)
  {
    hide AnalyseBranch, AnalyseHandle, BranchOf, ScopeWays, StmtWays, Settled, Added, AsIncidents,
      Branch.FinishMutualExclusive;
    HandleMerged(p, s);
    HandleWays(s, i);
    var p0 := Record(p, AsIncidents(s.uses));
    var p1 := AnalyseBranch(p0, Enter(s.valueVar), s.valueBlock).0;
    var (b, c) := (BranchOf(p0, Enter(s.valueVar), s.valueBlock), BranchOf(p1, Enter(Some(s.errorVar)), s.errorBlock));
    var merged := Branch(Current(p0).certain, Current(p0).potential, [b, c]);
    RecordSettles(p, AsIncidents(s.uses), i);
    SameSettled(Current(p0), merged, i);
    TwoSettle(merged, b, c, i);
  }

  lemma HandleWays(s: Stmt, i: Incident)
    requires AboutInstance(i) && s.Handle?
    ensures false in StmtWays(s, i) <==>
            false in ScopeWays(Enter(s.valueVar), s.valueBlock, i) ||
            false in ScopeWays(Enter(Some(s.errorVar)), s.errorBlock, i)
    ensures i !in AsIncidents(s.uses) && Returned !in AsIncidents(s.uses)
  {
    hide ScopeWays, InTurn;
    var (values, errors) := (ScopeWays(Enter(s.valueVar), s.valueBlock, i), ScopeWays(Enter(Some(s.errorVar)), s.errorBlock, i));
    NothingInTurn({i in AsIncidents(s.uses)}, values + errors);
  }

  lemma TwoSettle(merged: Branch, b: Branch, c: Branch, i: Incident)
    requires merged.branches == [b, c] && AboutInstance(i)
    ensures Settled(merged.FinishMutualExclusive(), i) <==> Settled(merged, i) || (Settled(b, i) && Settled(c, i))
  {
    hide Settled;
    MergeSettles(merged, i);
    assert forall d :: d in [b, c] <==> d == b || d == c;
  }

  lemma SimpleSettled(s: Stmt, scope: set<nat>, i: Incident)
    requires Resolved(s, scope) && AboutInstance(i) && !s.If? && !s.While? && !s.Handle? && !s.Unsafe?
    ensures i in RecordedAt(s) || Returned in RecordedAt(s) <==> false !in StmtWays(s, i)
  {
    match s
    case ExprStmt(e, _) => ValueLeaves(e, i);
    case DeclareAndAssign(_, e) => ValueLeaves(e, i);
    case Assign(_, e) => ValueLeaves(e, i);
    case _ =>
  }

  lemma RecordSettles(p: Path, more: set<Incident>, i: Incident)
    ensures Settled(Current(Record(p, more)), i) <==> Settled(Current(p), i) || i in more || Returned in more
  {
  }

  lemma SameSettled(a: Branch, b: Branch, i: Incident)
    requires a.certain == b.certain
    ensures Settled(a, i) <==> Settled(b, i)
  {
  }

  lemma FinishSettles(b: Branch, i: Incident)
    ensures Settled(b.FinishUncertain(), i) <==> Settled(b, i)
  {
  }

  lemma MergeSettles(b: Branch, i: Incident)
    requires b.branches != [] && AboutInstance(i)
    ensures Settled(b.FinishMutualExclusive(), i) <==> Settled(b, i) || forall c | c in b.branches :: Settled(c, i)
  {
    var c := b.branches[0];
    assert c in b.branches;
    if d :| d in b.branches && !d.HasReturned() && forall c | c in b.branches :: Settled(c, i) {
      assert i in Intersection(b.branches, true);
    }
  }

  lemma {:induction false} ScopeSettled(p: Path, setup: Setup, b: Block, scope: set<nat>, i: Incident)
    requires ScopeResolved(setup, b, scope) && AboutInstance(i)
    ensures Added(p, AnalyseBranch(p, setup, b).0) == [BranchOf(p, setup, b)]
    ensures Settled(BranchOf(p, setup, b), i) <==> false !in ScopeWays(setup, b, i)
    decreases b
  {
    hide InTurn, SetupWays, RecordedBy;
    var start := Record(Begin(p), RecordedBy(setup));
    BranchIs(p, setup, b);
    AllSettled(start, b.stmts, scope + BoundBy(setup), i);
    SetupLeaves(setup, i);
    NothingInTurn(SetupWays(setup, true, i), AllWays(b.stmts, i));
  }

  lemma {:induction false} ChainSettled(p: Path, chain: Chain, scope: set<nat>, i: Incident)
    requires ChainResolved(chain, scope) && AboutInstance(i)
    ensures HasElse(chain) ==> Added(p, AnalyseChain(p, chain).0) != []
    ensures false !in ChainWays(chain, i) <==>
            HasElse(chain) && forall c | c in Added(p, AnalyseChain(p, chain).0) :: Settled(c, i)
    decreases chain
  {
    hide AnalyseBranch, ScopeWays, SkipWays, InTurn, Settled;
    match chain
    case NoElse =>
    case Else(b) => ScopeSettled(p, Enter(None), b, scope, i);
    case Arm(c, b, rest) =>
      var p1 := AnalyseBranch(p, c, b).0;
      var p2 := AnalyseChain(p1, rest).0;
      SkipLeaves(c, b, i);
      ScopeSettled(p, c, b, scope, i);
      ChainSettled(p1, rest, scope, i);
      AddedTrans(p, p1, p2);
      NothingInTurn(SkipWays(c, b, i), ChainWays(rest, i));
      assert Added(p, p2) == [BranchOf(p, c, b)] + Added(p1, p2);
  }

  /**
   An instance variable is initialized, or the super initializer called, on every run that gets to
   the end exactly if the analyser finds it certain there or finds that there is no such run.
   */
  lemma InitializedExactly(body: seq<Stmt>, begun: set<Incident>, scope: set<nat>, i: Incident)
    requires Scoped(body, begun, scope) && AboutInstance(i)
    ensures var p := AnalyseAll(Start(begun), body).0;
      i in AllCertain(p) || Returned in AllCertain(p) <==>
      forall answers :: ExecAll(body, Initially(begun, answers)).0 == Normal ==>
                        i in ExecAll(body, Initially(begun, answers)).1.happened
  {
    var p := AnalyseAll(Start(begun), body).0;
    assert p == [Current(p)];
    if i in begun {
      forall answers ensures i in AllCertain(p)
        ensures var (o, m) := ExecAll(body, Initially(begun, answers));
          o == Normal ==> i in m.happened
      {
        AnalysisSound(body, begun, scope, answers, i, {});
      }
    } else {
      AllSettled(Start(begun), body, scope, i);
      CertainExactly(body, begun, scope, i);
    }
  }

  // ----- What is certain is potential -----

  predicate Consistent(b: Branch) {
    b.certain <= b.potential
  }

  lemma {:induction false} AllConsistent(p: Path, stmts: seq<Stmt>)
    requires Current(p).branches == [] && Consistent(Current(p))
    ensures Consistent(Current(AnalyseAll(p, stmts).0))
    decreases stmts
  {
    if stmts != [] {
      StmtConsistent(p, stmts[0]);
      AllConsistent(Analyse(p, stmts[0]).0, stmts[1..]);
    }
  }

  lemma {:induction false} StmtConsistent(p: Path, s: Stmt)
    requires Current(p).branches == [] && Consistent(Current(p))
    ensures Consistent(Current(Analyse(p, s).0))
    decreases s
  {
    hide AnalyseBranch, AnalyseChain, BranchOf, AnalyseIf, AnalyseWhile, AnalyseHandle, RecordedAt, HasElse, Extends, Record, Update,
      Current, Added, Consistent, AsIncidents;
    match s
    case If(chain) =>
      ChainConsistent(p, chain);
      IfConsistent(p, chain);
    case While(c, b) => WhileConsistent(p, c, b);
    case Handle(_, uses, v, vb, x, eb) =>
      var p0 := Record(p, AsIncidents(uses));
      ScopeConsistent(p0, Enter(v), vb);
      ScopeConsistent(AnalyseBranch(p0, Enter(v), vb).0, Enter(Some(x)), eb);
      HandleConsistent(p, s);
    case Unsafe(b) => AllConsistent(p, b.stmts);
    case _ => RecordConsistent(p, RecordedAt(s));
  }

  lemma RecordConsistent(p: Path, more: set<Incident>)
    requires Consistent(Current(p))
    ensures Consistent(Current(Record(p, more)))
  {
  }

  lemma IfConsistent(p: Path, chain: Chain)
    requires Current(p).branches == [] && Consistent(Current(p))
    requires forall c | c in Added(p, AnalyseChain(p, chain).0) :: Consistent(c)
    ensures Consistent(Current(AnalyseIf(p, chain).0))
  {
    hide AnalyseChain;
    var q := AnalyseChain(p, chain).0;
    assert Added(p, q) == Current(q).branches;
    MergeConsistent(Current(q));
  }

  lemma WhileConsistent(p: Path, c: Cond, b: Block)
    requires Current(p).branches == [] && Consistent(Current(p))
    ensures Consistent(Current(AnalyseWhile(p, c, b).0))
  {
    hide AnalyseBranch;
  }

  lemma HandleConsistent(p: Path, s: Stmt)
    requires Current(p).branches == [] && Consistent(Current(p)) && s.Handle?
    requires var (p0, values, errors) := (Record(p, AsIncidents(s.uses)), Enter(s.valueVar), Enter(Some(s.errorVar)));
      var p1 := AnalyseBranch(p0, values, s.valueBlock).0;
      && Added(p0, p1) == [BranchOf(p0, values, s.valueBlock)] && Consistent(BranchOf(p0, values, s.valueBlock))
      && Added(p1, AnalyseBranch(p1, errors, s.errorBlock).0) == [BranchOf(p1, errors, s.errorBlock)]
      && Consistent(BranchOf(p1, errors, s.errorBlock))
    ensures Consistent(Current(AnalyseHandle(p, s).0))
  {
    hide AnalyseBranch, BranchOf, AnalyseHandle, Added, AsIncidents;
    var p0 := Record(p, AsIncidents(s.uses));
    var p1 := AnalyseBranch(p0, Enter(s.valueVar), s.valueBlock).0;
    HandleMerged(p, s);
    MergeConsistent(Branch(Current(p0).certain, Current(p0).potential,
                           [BranchOf(p0, Enter(s.valueVar), s.valueBlock), BranchOf(p1, Enter(Some(s.errorVar)), s.errorBlock)]));
  }

  lemma MergeConsistent(b: Branch)
    requires Consistent(b) && forall c | c in b.branches :: Consistent(c)
    ensures Consistent(b.FinishMutualExclusive()) && Consistent(b.FinishUncertain())
  {
  }

  lemma {:induction false} ScopeConsistent(p: Path, setup: Setup, b: Block)
    ensures Added(p, AnalyseBranch(p, setup, b).0) == [BranchOf(p, setup, b)] && Consistent(BranchOf(p, setup, b))
    decreases b
  {
    BranchIs(p, setup, b);
    AllConsistent(Record(Begin(p), RecordedBy(setup)), b.stmts);
  }

  lemma {:induction false} ChainConsistent(p: Path, chain: Chain)
    ensures forall c | c in Added(p, AnalyseChain(p, chain).0) :: Consistent(c)
    decreases chain
  {
    hide AnalyseBranch, BranchOf;
    match chain
    case NoElse =>
    case Else(b) => ScopeConsistent(p, Enter(None), b);
    case Arm(c, b, rest) =>
      var p1 := AnalyseBranch(p, c, b).0;
      ScopeConsistent(p, c, b);
      ChainConsistent(p1, rest);
      AddedTrans(p, p1, AnalyseChain(p1, rest).0);
  }

  /** So it is for all branches around the current one. */
  lemma CertainIsPotential(p: Path)
    requires forall b | b in p :: Consistent(b)
    ensures AllCertain(p) <= AllPotential(p)
  {
  }

  // ----- Where all that happened is potential -----

  /** Control is here, what is certain has happened, and what has happened is potential. */
  predicate Here(p: Path, m: Machine) {
    Sound(p, m) && m.happened <= AllPotential(p)
  }

  /** So it is at the beginning of a function, */
  lemma StartHere(begun: set<Incident>, scope: set<nat>, answers: seq<bool>)
    requires Known(begun, scope) && Returned !in begun
    ensures Here(Start(begun), Initially(begun, answers))
  {
    MainLive(begun, scope, answers);
  }

  /** behind a statement, */
  lemma StmtHere(p: Path, s: Stmt, scope: set<nat>, m: Machine)
    requires Current(p).branches == [] && KnownPath(p, scope) && Resolved(s, scope)
    requires Here(p, m) && Exec(s, m).0 == Normal
    ensures Here(Analyse(p, s).0, Exec(s, m).1)
  {
    hide AllCertain, AllPotential, Sound, Known;
    StmtSound(p, s, scope, m);
    MorePotential(p, Analyse(p, s).0);
  }

  lemma MorePotential(p: Path, q: Path)
    requires Extends(p, q)
    ensures AllPotential(p) <= AllPotential(q)
  {
    ExtendsSets(p, q);
  }

  /** and within a scope, if it is in front of its condition. */
  lemma ScopeHere(p: Path, setup: Setup, m: Machine)
    requires Here(p, m) && RunSetup(setup, m).0.Some?
    ensures Here(Record(Begin(p), RecordedBy(setup)), RunSetup(setup, m).1)
  {
    hide AllCertain, AllPotential, Sound, Known;
    var start := Record(Begin(p), RecordedBy(setup));
    BeginSets(p);
    RecordSets(Begin(p), RecordedBy(setup));
    EnterSound(p, start, setup, m);
  }

  /** Both blocks of an error handler are entered from where the call was answered. */
  lemma HandleHere(p: Path, s: Stmt, scope: set<nat>, m: Machine)
    requires s.Handle? && Live(p, scope, m) && Resolved(s, scope) && Here(p, m) && Ask(s.call, s.uses, m).0.Some?
    ensures var (p0, m1) := (Record(p, AsIncidents(s.uses)), Ask(s.call, s.uses, m).1);
      Here(p0, m1) && Here(AnalyseBranch(p0, Enter(s.valueVar), s.valueBlock).0, m1)
  {
    hide AllCertain, AllPotential, Sound, Known, AnalyseBranch;
    HandleLive(p, s, scope, m);
    RecordSets(p, AsIncidents(s.uses));
    MorePotential(Record(p, AsIncidents(s.uses)), AnalyseBranch(Record(p, AsIncidents(s.uses)), Enter(s.valueVar), s.valueBlock).0);
  }

  // ----- Later arms -----

  // The condition of each arm of an if statement is a branch of its own, so what happened in the
  // conditions before it is not known in the next arm.

  /** In front of arm k, if the conditions of all arms before it do not hold. */
  function BeforeArm(chain: Chain, m: Machine, k: nat): Option<Machine> {
    if k == 0 then Some(m)
    else if !chain.Arm? then None
    else
      var r := ExecScope(chain.cond, chain.body, m);
      if r.Skipped? then BeforeArm(chain.rest, r.m, k - 1) else None
  }

  function ArmPath(p: Path, chain: Chain, k: nat): Path
    decreases k
  {
    if k == 0 || !chain.Arm? then p else ArmPath(AnalyseBranch(p, chain.cond, chain.body).0, chain.rest, k - 1)
  }

  /** The ways past the first k arms. */
  function PastWays(chain: Chain, k: nat, i: Incident): set<bool> {
    if k == 0 then {false}
    else if !chain.Arm? then {}
    else InTurn(SkipWays(chain.cond, chain.body, i), PastWays(chain.rest, k - 1, i))
  }

  function PastAnswers(chain: Chain, k: nat, i: Incident, way: bool): seq<bool>
    requires way in PastWays(chain, k, i)
  {
    if k == 0 then []
    else
      var (first, second) := Split(way, SkipWays(chain.cond, chain.body, i), PastWays(chain.rest, k - 1, i));
      SkipAnswers(chain.cond, chain.body, i, first) + PastAnswers(chain.rest, k - 1, i, second)
  }

  lemma {:induction false} PastAlong(chain: Chain, scope: set<nat>, i: Incident, m: Machine, k: nat) returns (way: bool)
    requires ChainResolved(chain, scope) && Dead(i, scope, m) && BeforeArm(chain, m, k).Some?
    ensures way in PastWays(chain, k, i) && Along(way, i, m, BeforeArm(chain, m, k).value)
    decreases k
  {
    hide SkipWays, ExecScope, InTurn;
    way := false;
    if k > 0 {
      way := SkipAlong(chain.cond, chain.body, scope, i, m);
      if way { SkipBrings(chain.cond, chain.body, i); }
      var second := PastAlong(chain.rest, scope, i, ExecScope(chain.cond, chain.body, m).m, k - 1);
      BothInTurn(way, second, SkipWays(chain.cond, chain.body, i), PastWays(chain.rest, k - 1, i));
      way := way || second;
    }
  }

  lemma {:induction false} PastTakes(chain: Chain, scope: set<nat>, k: nat, i: Incident, way: bool, rest: seq<bool>, m: Machine)
    requires ChainResolved(chain, scope) && Dead(i, scope, m)
    requires way in PastWays(chain, k, i) && Has(m, PastAnswers(chain, k, i, way), rest)
    ensures BeforeArm(chain, m, k).Some? && Along(way, i, m, BeforeArm(chain, m, k).value)
    decreases k
  {
    hide SkipWays, SkipAnswers, ExecScope, InTurn;
    if k > 0 {
      var (c, b, others) := (chain.cond, chain.body, chain.rest);
      var (first, second) := Split(way, SkipWays(c, b, i), PastWays(others, k - 1, i));
      if first { SkipBrings(c, b, i); }
      HasMore(m, SkipAnswers(c, b, i, first), PastAnswers(others, k - 1, i, second), rest);
      SkipTakes(c, b, scope, i, first, PastAnswers(others, k - 1, i, second) + rest, m);
      PastTakes(others, scope, k - 1, i, second, rest, ExecScope(c, b, m).m);
    }
  }

  lemma {:induction false} ArmPathSets(p: Path, chain: Chain, k: nat)
    ensures AllPotential(ArmPath(p, chain, k)) == AllPotential(p) && AllCertain(ArmPath(p, chain, k)) == AllCertain(p)
    decreases k
  {
    hide AllCertain, AllPotential, AnalyseBranch;
    if k > 0 && chain.Arm? {
      var p1 := AnalyseBranch(p, chain.cond, chain.body).0;
      SameSets(p, p1);
      ArmPathSets(p1, chain.rest, k - 1);
    }
  }

  /** In front of arm k the analyser notices that the incident happened. */
  ghost predicate NoticedInArm(p: Path, chain: Chain, k: nat, i: Incident) {
    forall m | Here(p, m) && BeforeArm(chain, m, k).Some? ::
      i in BeforeArm(chain, m, k).value.happened ==> i in AllPotential(ArmPath(p, chain, k))
  }

  /**
   If all that happened in front of an if statement is potential, the analyser notices in front of an
   arm that an incident happened exactly if the incident was potential in front of the statement or
   happens on no way past the arms before it.
   */
  lemma ArmNoticedExactly(p: Path, chain: Chain, scope: set<nat>, k: nat, i: Incident)
    requires KnownPath(p, scope) && AllCertain(p) <= AllPotential(p) && ChainResolved(chain, scope)
    ensures NoticedInArm(p, chain, k, i) <==>
            Returned in AllCertain(p) || i in AllPotential(p) || true !in PastWays(chain, k, i)
  {
    hide PastWays, BeforeArm, ChainResolved, AllCertain, AllPotential, PastAnswers, ArmPath;
    ArmPathSets(p, chain, k);
    forall m | Here(p, m) && BeforeArm(chain, m, k).Some? && i in BeforeArm(chain, m, k).value.happened && i !in AllPotential(p)
      ensures true in PastWays(chain, k, i) && Returned !in AllCertain(p)
    {
      var way := PastAlong(chain, scope, i, m, k);
    }
    if true in PastWays(chain, k, i) && Returned !in AllCertain(p) {
      var m := Initially(AllCertain(p), PastAnswers(chain, k, i, true));
      assert Has(m, PastAnswers(chain, k, i, true), []);
      PastTakes(chain, scope, k, i, true, [], m);
      assert Here(p, m);
    }
  }

  /** The use in a condition that did not hold is not known in the other block. */
  lemma LaterArmUnnoticed()
    ensures var chain := Arm(Test(Leaf(0, {Self})), Fresh([]), Else(Fresh([])));
      var m := BeforeArm(chain, Initially({}, [false]), 1);
      && ChainResolved(chain, {}) && Here(Start({}), Initially({}, [false]))
      && m.Some? && Used(Self) in m.value.happened && Used(Self) !in AllPotential(ArmPath(Start({}), chain, 1))
  {
    var cond: Cond := Test(Leaf(0, {Self}));
    var chain := Arm(cond, Fresh([]), Else(Fresh([])));
    var m := Initially({}, [false]);
    StartHere({}, {}, [false]);
    ArmPathSets(Start({}), chain, 1);
    assert Self in {Self} && Used(Self) in AsIncidents({Self});
    assert Eval(Leaf(0, {Self}), m) == Ask(0, {Self}, m) && Used(Self) in Ask(0, {Self}, m).1.happened;
    assert ExecScope(cond, Fresh([]), m) == Skipped(Ask(0, {Self}, m).1.Forget(ScopeOf(cond, Fresh([]))));
    assert BeforeArm(chain, m, 1) == BeforeArm(chain.rest, ExecScope(cond, Fresh([]), m).m, 0);
    assert AllResolved([], {}) && Locals([]) == {};
    assert ScopeResolved(cond, Fresh([]), {}) && ScopeResolved(Enter(None), Fresh([]), {});
    assert ChainResolved(chain.rest, {});
  }

  // ----- Loops -----

  /** Where iteration k of a loop begins, if it does. */
  function BeforeIteration(c: Cond, b: Block, m: Machine, k: nat): Option<Machine> {
    if k == 0 then Some(m)
    else
      match BeforeIteration(c, b, m, k - 1)
      case None => None
      case Some(m1) =>
        var r := ExecScope(c, b, m1);
        if r.Ran? && r.o == Normal then Some(r.m) else None
  }

  lemma {:induction false} IterationsAlong(c: Cond, b: Block, scope: set<nat>, i: Incident, m: Machine, k: nat)
    requires ScopeResolved(c, b, scope) && Dead(i, scope, m) && BeforeIteration(c, b, m, k).Some?
    ensures i in BeforeIteration(c, b, m, k).value.happened && i !in m.happened ==> true in ScopeWays(c, b, i)
  {
    if k > 0 {
      hide ScopeWays;
      var m1 := BeforeIteration(c, b, m, k - 1).value;
      IterationsAlong(c, b, scope, i, m, k - 1);
      if true in ScopeWays(c, b, i) {
        ScopeBrings(c, b, scope, i);
      } else {
        var way := ScopeAlong(c, b, scope, i, m1);
      }
    }
  }

  lemma LoopBrings(p: Path, c: Cond, b: Block, scope: set<nat>, i: Incident) returns (m: Machine)
    requires KnownPath(p, scope) && AllCertain(p) <= AllPotential(p) && Returned !in AllCertain(p)
    requires ScopeResolved(c, b, scope) && true in ScopeWays(c, b, i)
    ensures Here(p, m) && BeforeIteration(c, b, m, 1).Some? && i in BeforeIteration(c, b, m, 1).value.happened
  {
    hide ScopeWays, ScopeAnswers, AllCertain, AllPotential;
    m := Initially(AllCertain(p), ScopeAnswers(c, b, i, true));
    assert Has(m, ScopeAnswers(c, b, i, true), []);
    ScopeTakes(c, b, scope, i, true, [], m);
    assert BeforeIteration(c, b, m, 0) == Some(m);
  }

  /** If iteration k begins, the analyser notices that the incident happened before it. */
  predicate NoticedAt(p: Path, c: Cond, b: Block, i: Incident, m: Machine, k: nat) {
    BeforeIteration(c, b, m, k).Some? && i in BeforeIteration(c, b, m, k).value.happened ==> i in AllPotential(p)
  }

  /** The incident is noticed before all iterations. */
  ghost predicate Noticed(p: Path, c: Cond, b: Block, i: Incident) {
    forall m, k | Here(p, m) :: NoticedAt(p, c, b, i, m, k)
  }

  /**
   If all that happened in front of a loop is potential, the analyser notices that an incident
   happened before an iteration exactly if the incident was potential in front of the loop or happens
   on no way through the loop.
   */
  lemma LoopNoticedExactly(p: Path, c: Cond, b: Block, scope: set<nat>, i: Incident)
    requires KnownPath(p, scope) && AllCertain(p) <= AllPotential(p) && ScopeResolved(c, b, scope)
    ensures Noticed(p, c, b, i) <==>
            Returned in AllCertain(p) || i in AllPotential(p) || true !in ScopeWays(c, b, i)
  {
    hide ScopeWays, BeforeIteration, ScopeResolved;
    forall m, k | Here(p, m) && !NoticedAt(p, c, b, i, m, k)
      ensures true in ScopeWays(c, b, i) && i !in AllPotential(p) && Returned !in AllCertain(p)
    {
      IterationsAlong(c, b, scope, i, m, k);
    }
    if true in ScopeWays(c, b, i) && Returned !in AllCertain(p) {
      var m := LoopBrings(p, c, b, scope, i);
      assert NoticedAt(p, c, b, i, m, 1) ==> i in AllPotential(p);
    }
  }

  /** So everything is noticed exactly if all that happens on some way through the loop was potential. */
  lemma LoopNoticed(p: Path, c: Cond, b: Block, scope: set<nat>)
    requires KnownPath(p, scope) && AllCertain(p) <= AllPotential(p) && ScopeResolved(c, b, scope)
    ensures (forall i :: Noticed(p, c, b, i)) <==>
            Returned in AllCertain(p) || forall i :: true in ScopeWays(c, b, i) ==> i in AllPotential(p)
  {
    hide Noticed, ScopeWays;
    forall i ensures Noticed(p, c, b, i) <==>
                     Returned in AllCertain(p) || i in AllPotential(p) || true !in ScopeWays(c, b, i)
    {
      LoopNoticedExactly(p, c, b, scope, i);
    }
  }
}

/**
 What is certain and what is potential, one incident at a time and by structure alone: no branches
 are needed to say which.
 */
module Structure {
  import opened Wrappers
  import opened Syntax
  import opened Semantics
  import opened Ways
  import opened PathAnalysis
  import opened PathSoundness
  import opened Compilation
  import opened Exactness

  // ----- What is certain -----

  // Branches that returned count, too, unless the incident is about the instance and some branch did
  // not return. Code behind a return counts.

  /** The statement records the incident, in each of its branches if there is no way past them. */
  predicate StmtGives(s: Stmt, i: Incident)
    decreases s, 1
  {
    match s
    case If(chain) =>
      HasElse(chain) && ChainGives(chain, i, AboutInstance(i) && !ChainGives(chain, Returned, false))
    case While(_, _) => false
    case Handle(_, uses, _, _, _, _) =>
      i in AsIncidents(uses) || BothGive(s, i, AboutInstance(i) && !BothGive(s, Returned, false))
    case Unsafe(b) => AllGive(b.stmts, i)
    case _ => i in RecordedAt(s)
  }

  predicate AllGive(stmts: seq<Stmt>, i: Incident)
    decreases stmts
  {
    stmts != [] && (StmtGives(stmts[0], i) || AllGive(stmts[1..], i))
  }

  predicate ScopeGives(setup: Setup, b: Block, i: Incident)
    decreases b, 0
  {
    (i in RecordedBy(setup) || AllGive(b.stmts, i)) && Outlives(setup, b, i)
  }

  /** The incident is not about a variable of the scope. */
  predicate Outlives(setup: Setup, b: Block, i: Incident) {
    i.VariableInit? ==> i.id !in ScopeOf(setup, b)
  }

  predicate BranchGives(setup: Setup, b: Block, i: Incident, orReturns: bool)
    decreases b, 1
  {
    ScopeGives(setup, b, i) || (orReturns && ScopeGives(setup, b, Returned))
  }

  predicate ChainGives(chain: Chain, i: Incident, orReturns: bool)
    decreases chain
  {
    match chain
    case NoElse => true
    case Else(b) => BranchGives(Enter(None), b, i, orReturns)
    case Arm(c, b, rest) => BranchGives(c, b, i, orReturns) && ChainGives(rest, i, orReturns)
  }

  predicate BothGive(s: Stmt, i: Incident, orReturns: bool)
    requires s.Handle?
    decreases s, 0
  {
    && BranchGives(Enter(s.valueVar), s.valueBlock, i, orReturns)
    && BranchGives(Enter(Some(s.errorVar)), s.errorBlock, i, orReturns)
  }

  predicate Knows(b: Branch, i: Incident) {
    i in b.certain
  }

  predicate KnowsOr(b: Branch, i: Incident, orReturns: bool) {
    Knows(b, i) || (orReturns && Knows(b, Returned))
  }

  lemma RecordKnows(p: Path, more: set<Incident>, i: Incident)
    ensures Knows(Current(Record(p, more)), i) <==> Knows(Current(p), i) || i in more
  {
  }

  lemma {:induction false} AllGiven(p: Path, stmts: seq<Stmt>, i: Incident)
    requires Current(p).branches == []
    ensures Knows(Current(AnalyseAll(p, stmts).0), i) <==> Knows(Current(p), i) || AllGive(stmts, i)
    decreases stmts
  {
    if stmts != [] {
      StmtGiven(p, stmts[0], i);
      AllGiven(Analyse(p, stmts[0]).0, stmts[1..], i);
    }
  }

  lemma {:induction false} StmtGiven(p: Path, s: Stmt, i: Incident)
    requires Current(p).branches == []
    ensures Knows(Current(Analyse(p, s).0), i) <==> Knows(Current(p), i) || StmtGives(s, i)
    decreases s, 1
  {
    hide AnalyseIf, AnalyseWhile, AnalyseHandle, AllGive, ScopeGives, ChainGives, BothGive, RecordedAt, HasElse,
      AboutInstance, Knows, Extends, Record, Update, Current;
    match s
    case If(chain) =>
      ChainGiven(p, chain, Returned, false);
      ChainGiven(p, chain, i, AboutInstance(i) && !ChainGives(chain, Returned, false));
      IfGiven(p, chain, i);
    case While(c, b) => WhileGiven(p, c, b, i);
    case Handle(_, _, _, _, _, _) => HandleGiven(p, s, i);
    case Unsafe(b) => AllGiven(p, b.stmts, i);
    case _ => RecordKnows(p, RecordedAt(s), i);
  }

  /** Merging branches makes certain what all of them know, but for returns if the instance is concerned. */
  predicate AllKnow(bs: seq<Branch>, i: Incident, orReturns: bool) {
    forall c | c in bs :: KnowsOr(c, i, orReturns)
  }

  lemma IfGiven(p: Path, chain: Chain, i: Incident)
    requires Current(p).branches == []
    requires HasElse(chain) ==> Added(p, AnalyseChain(p, chain).0) != []
    ensures var bs := Added(p, AnalyseChain(p, chain).0);
      Knows(Current(AnalyseIf(p, chain).0), i) <==>
      Knows(Current(p), i) || (HasElse(chain) && AllKnow(bs, i, AboutInstance(i) && !AllKnow(bs, Returned, false)))
  {
    hide AnalyseChain, Branch.FinishMutualExclusive, AllKnow;
    var q := AnalyseChain(p, chain).0;
    assert Added(p, q) == Current(q).branches;
    if HasElse(chain) { MergeGives(Current(q), i); }
  }

  lemma WhileGiven(p: Path, c: Cond, b: Block, i: Incident)
    requires Current(p).branches == []
    ensures Knows(Current(AnalyseWhile(p, c, b).0), i) <==> Knows(Current(p), i)
  {
    hide AnalyseBranch;
  }

  lemma {:induction false} HandleGiven(p: Path, s: Stmt, i: Incident)
    requires Current(p).branches == [] && s.Handle?
    ensures Knows(Current(AnalyseHandle(p, s).0), i) <==> Knows(Current(p), i) || StmtGives(s, i)
    decreases s, 0
  {
    hide AnalyseHandle, AnalyseBranch, BranchOf, ScopeGives, Knows, Added;
    var p0 := Record(p, AsIncidents(s.uses));
    var p1 := AnalyseBranch(p0, Enter(s.valueVar), s.valueBlock).0;
    ScopeGiven(p0, Enter(s.valueVar), s.valueBlock, i);
    ScopeGiven(p1, Enter(Some(s.errorVar)), s.errorBlock, i);
    ScopeGiven(p0, Enter(s.valueVar), s.valueBlock, Returned);
    ScopeGiven(p1, Enter(Some(s.errorVar)), s.errorBlock, Returned);
    BlocksGiven(p, s, i);
  }

  predicate KnowsGiven(c: Branch, setup: Setup, b: Block, i: Incident) {
    (Knows(c, i) <==> ScopeGives(setup, b, i)) && (Knows(c, Returned) <==> ScopeGives(setup, b, Returned))
  }

  lemma BlocksGiven(p: Path, s: Stmt, i: Incident)
    requires Current(p).branches == [] && s.Handle?
    requires var (p0, values, errors) := (Record(p, AsIncidents(s.uses)), Enter(s.valueVar), Enter(Some(s.errorVar)));
      var p1 := AnalyseBranch(p0, values, s.valueBlock).0;
      && Added(p0, p1) == [BranchOf(p0, values, s.valueBlock)]
      && Added(p1, AnalyseBranch(p1, errors, s.errorBlock).0) == [BranchOf(p1, errors, s.errorBlock)]
      && KnowsGiven(BranchOf(p0, values, s.valueBlock), values, s.valueBlock, i)
      && KnowsGiven(BranchOf(p1, errors, s.errorBlock), errors, s.errorBlock, i)
    ensures Knows(Current(AnalyseHandle(p, s).0), i) <==> Knows(Current(p), i) || StmtGives(s, i)
  {
    hide AnalyseBranch, AnalyseHandle, BranchOf, ScopeGives, Added, AsIncidents, Branch.FinishMutualExclusive, AllKnow, Knows;
    HandleMerged(p, s);
    var p0 := Record(p, AsIncidents(s.uses));
    var p1 := AnalyseBranch(p0, Enter(s.valueVar), s.valueBlock).0;
    var (b, c) := (BranchOf(p0, Enter(s.valueVar), s.valueBlock), BranchOf(p1, Enter(Some(s.errorVar)), s.errorBlock));
    var merged := Branch(Current(p0).certain, Current(p0).potential, [b, c]);
    RecordKnows(p, AsIncidents(s.uses), i);
    SameKnows(merged, Current(p0), i);
    MergeGives(merged, i);
    TwoGive(s, b, c, Returned, false);
    TwoGive(s, b, c, i, AboutInstance(i) && !BothGive(s, Returned, false));
  }

  lemma SameKnows(b: Branch, c: Branch, i: Incident)
    requires b.certain == c.certain
    ensures Knows(b, i) <==> Knows(c, i)
  {
  }

  lemma TwoGive(s: Stmt, b: Branch, c: Branch, i: Incident, orReturns: bool)
    requires s.Handle?
    requires KnowsGiven(b, Enter(s.valueVar), s.valueBlock, i) && KnowsGiven(c, Enter(Some(s.errorVar)), s.errorBlock, i)
    ensures AllKnow([b, c], i, orReturns) <==> BothGive(s, i, orReturns)
  {
    hide ScopeGives, Knows, AllKnow;
    assert [b, c] == [b] + [c];
    MoreKnow(b, [c], i, orReturns);
    OneKnows(c, i, orReturns);
  }

  lemma NoneKnow(i: Incident, orReturns: bool)
    ensures AllKnow([], i, orReturns)
  {
  }

  lemma MoreKnow(b: Branch, bs: seq<Branch>, i: Incident, orReturns: bool)
    ensures AllKnow([b] + bs, i, orReturns) <==> KnowsOr(b, i, orReturns) && AllKnow(bs, i, orReturns)
  {
    hide Knows;
    assert forall d :: d in [b] + bs <==> d == b || d in bs;
  }

  lemma MergeGives(b: Branch, i: Incident)
    requires b.branches != []
    ensures Knows(b.FinishMutualExclusive(), i) <==>
            Knows(b, i) || AllKnow(b.branches, i, AboutInstance(i) && !AllKnow(b.branches, Returned, false))
  {
    assert b.branches[0] in b.branches;
    if AboutInstance(i) && !AllKnow(b.branches, Returned, false) {
      var d :| d in b.branches && !Knows(d, Returned);
      assert AllKnow(b.branches, i, true) ==> i in Intersection(b.branches, true);
    }
  }

  lemma OneKnows(b: Branch, i: Incident, orReturns: bool)
    ensures AllKnow([b], i, orReturns) <==> KnowsOr(b, i, orReturns)
  {
    assert b in [b];
  }

  lemma {:induction false} ScopeGiven(p: Path, setup: Setup, b: Block, i: Incident)
    ensures Added(p, AnalyseBranch(p, setup, b).0) == [BranchOf(p, setup, b)]
    ensures Knows(BranchOf(p, setup, b), i) <==> ScopeGives(setup, b, i)
    decreases b
  {
    hide RecordedBy;
    BranchIs(p, setup, b);
    AllGiven(Record(Begin(p), RecordedBy(setup)), b.stmts, i);
  }

  lemma {:induction false} ChainGiven(p: Path, chain: Chain, i: Incident, orReturns: bool)
    ensures HasElse(chain) ==> Added(p, AnalyseChain(p, chain).0) != []
    ensures ChainGives(chain, i, orReturns) <==> AllKnow(Added(p, AnalyseChain(p, chain).0), i, orReturns)
    decreases chain
  {
    hide AnalyseBranch, BranchOf, ScopeGives, Knows, AllKnow;
    match chain
    case NoElse =>
      assert Added(p, AnalyseChain(p, chain).0) == [];
      NoneKnow(i, orReturns);
    case Else(b) =>
      ScopeGiven(p, Enter(None), b, i);
      ScopeGiven(p, Enter(None), b, Returned);
      OneKnows(BranchOf(p, Enter(None), b), i, orReturns);
    case Arm(c, b, rest) =>
      var p1 := AnalyseBranch(p, c, b).0;
      var p2 := AnalyseChain(p1, rest).0;
      ScopeGiven(p, c, b, i);
      ScopeGiven(p, c, b, Returned);
      ChainGiven(p1, rest, i, orReturns);
      AddedTrans(p, p1, p2);
      assert Added(p, p2) == [BranchOf(p, c, b)] + Added(p1, p2);
      MoreKnow(BranchOf(p, c, b), Added(p1, p2), i, orReturns);
  }

  /** An incident is certain at the end of a body exactly if the structure of the body says so. */
  lemma GivenExactly(body: seq<Stmt>, begun: set<Incident>, i: Incident)
    ensures i in AllCertain(AnalyseAll(Start(begun), body).0) <==> i in begun || AllGive(body, i)
  {
    AllGiven(Start(begun), body, i);
    assert AnalyseAll(Start(begun), body).0 == [Current(AnalyseAll(Start(begun), body).0)];
  }

  // ----- What is potential -----

  /** Something in the statement records the incident, which outlives its scope. */
  predicate StmtMay(s: Stmt, i: Incident)
    decreases s
  {
    match s
    case If(chain) => ChainMay(chain, i)
    case While(c, b) => ScopeMay(c, b, i)
    case Handle(_, uses, v, vb, x, eb) =>
      i in AsIncidents(uses) || ScopeMay(Enter(v), vb, i) || ScopeMay(Enter(Some(x)), eb, i)
    case Unsafe(b) => AllMay(b.stmts, i)
    case _ => i in RecordedAt(s)
  }

  predicate AllMay(stmts: seq<Stmt>, i: Incident)
    decreases stmts
  {
    stmts != [] && (StmtMay(stmts[0], i) || AllMay(stmts[1..], i))
  }

  predicate ScopeMay(setup: Setup, b: Block, i: Incident)
    decreases b
  {
    (i in RecordedBy(setup) || AllMay(b.stmts, i)) && Outlives(setup, b, i)
  }

  predicate ChainMay(chain: Chain, i: Incident)
    decreases chain
  {
    match chain
    case NoElse => false
    case Else(b) => ScopeMay(Enter(None), b, i)
    case Arm(c, b, rest) => ScopeMay(c, b, i) || ChainMay(rest, i)
  }

  predicate Minds(b: Branch, i: Incident) {
    i in b.potential
  }

  lemma RecordMinds(p: Path, more: set<Incident>, i: Incident)
    ensures Minds(Current(Record(p, more)), i) <==> Minds(Current(p), i) || i in more
  {
  }

  lemma {:induction false} AllMays(p: Path, stmts: seq<Stmt>, i: Incident)
    requires Current(p).branches == []
    ensures Minds(Current(AnalyseAll(p, stmts).0), i) <==> Minds(Current(p), i) || AllMay(stmts, i)
    decreases stmts
  {
    if stmts != [] {
      StmtMays(p, stmts[0], i);
      AllMays(Analyse(p, stmts[0]).0, stmts[1..], i);
    }
  }

  lemma {:induction false} StmtMays(p: Path, s: Stmt, i: Incident)
    requires Current(p).branches == []
    ensures Minds(Current(Analyse(p, s).0), i) <==> Minds(Current(p), i) || StmtMay(s, i)
    decreases s
  {
    hide AnalyseIf, AnalyseWhile, AnalyseHandle, AnalyseBranch, AllMay, ScopeMay, ChainMay, RecordedAt, Minds, Extends, Record,
      Update, Current, BranchOf, Added, AsIncidents;
    match s
    case If(chain) =>
      ChainMays(p, chain, i);
      IfMays(p, chain, i);
    case While(c, b) =>
      ScopeMays(p, c, b, i);
      WhileMays(p, c, b, i);
    case Handle(_, uses, v, vb, x, eb) =>
      var p0 := Record(p, AsIncidents(uses));
      ScopeMays(p0, Enter(v), vb, i);
      ScopeMays(AnalyseBranch(p0, Enter(v), vb).0, Enter(Some(x)), eb, i);
      HandleMays(p, s, i);
    case Unsafe(b) => AllMays(p, b.stmts, i);
    case _ => RecordMinds(p, RecordedAt(s), i);
  }

  lemma FinishMays(b: Branch, i: Incident)
    ensures Minds(b.FinishUncertain(), i) <==> Minds(b, i) || exists c :: c in b.branches && Minds(c, i)
    ensures Minds(b.FinishMutualExclusive(), i) <==> Minds(b, i) || exists c :: c in b.branches && Minds(c, i)
  {
  }

  lemma IfMays(p: Path, chain: Chain, i: Incident)
    requires Current(p).branches == []
    ensures Minds(Current(AnalyseIf(p, chain).0), i) <==>
            Minds(Current(p), i) || exists c :: c in Added(p, AnalyseChain(p, chain).0) && Minds(c, i)
  {
    hide AnalyseChain, Branch.FinishMutualExclusive, Branch.FinishUncertain;
    var q := AnalyseChain(p, chain).0;
    assert Added(p, q) == Current(q).branches;
    FinishMays(Current(q), i);
  }

  lemma WhileMays(p: Path, c: Cond, b: Block, i: Incident)
    requires Current(p).branches == [] && Added(p, AnalyseBranch(p, c, b).0) == [BranchOf(p, c, b)]
    ensures Minds(Current(AnalyseWhile(p, c, b).0), i) <==> Minds(Current(p), i) || Minds(BranchOf(p, c, b), i)
  {
    hide AnalyseBranch, BranchOf, Branch.FinishUncertain;
    var q := AnalyseBranch(p, c, b).0;
    assert Added(p, q) == Current(q).branches;
    FinishMays(Current(q), i);
    assert forall d :: d in [BranchOf(p, c, b)] <==> d == BranchOf(p, c, b);
  }

  lemma HandleMays(p: Path, s: Stmt, i: Incident)
    requires Current(p).branches == [] && s.Handle?
    requires var (p0, values, errors) := (Record(p, AsIncidents(s.uses)), Enter(s.valueVar), Enter(Some(s.errorVar)));
      var p1 := AnalyseBranch(p0, values, s.valueBlock).0;
      && Added(p0, p1) == [BranchOf(p0, values, s.valueBlock)]
      && Added(p1, AnalyseBranch(p1, errors, s.errorBlock).0) == [BranchOf(p1, errors, s.errorBlock)]
      && (Minds(BranchOf(p0, values, s.valueBlock), i) <==> ScopeMay(values, s.valueBlock, i))
      && (Minds(BranchOf(p1, errors, s.errorBlock), i) <==> ScopeMay(errors, s.errorBlock, i))
    ensures Minds(Current(AnalyseHandle(p, s).0), i) <==> Minds(Current(p), i) || StmtMay(s, i)
  {
    hide AnalyseBranch, AnalyseHandle, BranchOf, ScopeMay, Added, AsIncidents, Branch.FinishMutualExclusive;
    HandleMerged(p, s);
    var p0 := Record(p, AsIncidents(s.uses));
    var p1 := AnalyseBranch(p0, Enter(s.valueVar), s.valueBlock).0;
    var (b, c) := (BranchOf(p0, Enter(s.valueVar), s.valueBlock), BranchOf(p1, Enter(Some(s.errorVar)), s.errorBlock));
    FinishMays(Branch(Current(p0).certain, Current(p0).potential, [b, c]), i);
    assert forall d :: d in [b, c] <==> d == b || d == c;
  }

  lemma {:induction false} ScopeMays(p: Path, setup: Setup, b: Block, i: Incident)
    ensures Added(p, AnalyseBranch(p, setup, b).0) == [BranchOf(p, setup, b)]
    ensures Minds(BranchOf(p, setup, b), i) <==> ScopeMay(setup, b, i)
    decreases b
  {
    hide RecordedBy;
    BranchIs(p, setup, b);
    AllMays(Record(Begin(p), RecordedBy(setup)), b.stmts, i);
  }

  lemma {:induction false} ChainMays(p: Path, chain: Chain, i: Incident)
    ensures ChainMay(chain, i) <==> exists c :: c in Added(p, AnalyseChain(p, chain).0) && Minds(c, i)
    decreases chain
  {
    hide AnalyseBranch, BranchOf, ScopeMay, Minds;
    match chain
    case NoElse => assert Added(p, AnalyseChain(p, chain).0) == [];
    case Else(b) =>
      ScopeMays(p, Enter(None), b, i);
      assert forall d :: d in [BranchOf(p, Enter(None), b)] <==> d == BranchOf(p, Enter(None), b);
    case Arm(c, b, rest) =>
      var p1 := AnalyseBranch(p, c, b).0;
      var p2 := AnalyseChain(p1, rest).0;
      ScopeMays(p, c, b, i);
      ChainMays(p1, rest, i);
      AddedTrans(p, p1, p2);
      assert Added(p, p2) == [BranchOf(p, c, b)] + Added(p1, p2);
  }

  /** An incident is potential at the end of a body exactly if something records it that outlives its scope. */
  lemma PotentialExactly(body: seq<Stmt>, begun: set<Incident>, i: Incident)
    ensures i in AllPotential(AnalyseAll(Start(begun), body).0) <==> i in begun || AllMay(body, i)
  {
    AllMays(Start(begun), body, i);
    assert AnalyseAll(Start(begun), body).0 == [Current(AnalyseAll(Start(begun), body).0)];
  }

  // ----- Bodies that control never leaves early -----

  /** Control never leaves the function within the statement. */
  predicate Stays(s: Stmt)
    decreases s
  {
    match s
    case ExprStmt(_, never) => !never
    case Return(_) => false
    case Raise(_) => false
    case If(chain) => ChainStays(chain)
    case While(_, b) => AllStay(b.stmts)
    case Handle(_, _, _, vb, _, eb) => AllStay(vb.stmts) && AllStay(eb.stmts)
    case Unsafe(b) => AllStay(b.stmts)
    case _ => true
  }

  predicate AllStay(stmts: seq<Stmt>)
    decreases stmts
  {
    stmts == [] || (Stays(stmts[0]) && AllStay(stmts[1..]))
  }

  predicate ChainStays(chain: Chain)
    decreases chain
  {
    match chain
    case NoElse => true
    case Else(b) => AllStay(b.stmts)
    case Arm(_, b, rest) => AllStay(b.stmts) && ChainStays(rest)
  }

  lemma {:induction false} EvalSpares(e: Expr, v: bool, i: Incident)
    requires i.VariableInit?
    ensures EvalWays(e, v, i) == {false}
  {
    match e
    case Leaf(_, _) =>
    case Logical(isAnd, l, r) =>
      EvalSpares(l, isAnd, i);
      EvalSpares(l, !isAnd, i);
      EvalSpares(r, v, i);
  }

  lemma ValueSpares(e: Expr, i: Incident)
    requires i.VariableInit?
    ensures ValueWays(e, i) == {false} && i !in Uses(e)
  {
    EvalSpares(e, true, i);
    EvalSpares(e, false, i);
    UsesAreUses(e);
  }

  lemma SetupSpares(setup: Setup, b: Block, i: Incident)
    requires i.VariableInit?
    ensures SetupWays(setup, true, i) != {} && (!setup.Enter? ==> SkipWays(setup, b, i) == {false})
    ensures i.id !in ScopeOf(setup, b) ==> SetupWays(setup, true, i) == {false} && i !in RecordedBy(setup)
  {
    if setup.Test? {
      ValueSpares(setup.e, i);
      EvalSpares(setup.e, true, i);
      EvalSpares(setup.e, false, i);
    }
  }

  lemma {:induction false} AllOnWays(stmts: seq<Stmt>, i: Incident)
    requires i.VariableInit? && AllStay(stmts)
    ensures AllWays(stmts, i) != {} && (AllGive(stmts, i) <==> false !in AllWays(stmts, i))
    decreases stmts
  {
    if stmts != [] {
      hide InTurn, StmtWays, StmtGives;
      StmtOnWays(stmts[0], i);
      AllOnWays(stmts[1..], i);
      NothingInTurn(StmtWays(stmts[0], i), AllWays(stmts[1..], i));
    }
  }

  lemma {:induction false} StmtOnWays(s: Stmt, i: Incident)
    requires i.VariableInit? && Stays(s)
    ensures StmtWays(s, i) != {} && (StmtGives(s, i) <==> false !in StmtWays(s, i))
    decreases s
  {
    hide InTurn, ScopeWays, SkipWays, ScopeGives;
    match s
    case ExprStmt(e, _) => ValueSpares(e, i);
    case DeclareAndAssign(_, e) => ValueSpares(e, i);
    case Assign(_, e) => ValueSpares(e, i);
    case Declare(_, _) =>
    case If(chain) => ChainOnWays(chain, i);
    case While(c, b) => SetupSpares(c, b, i);
    case Handle(_, uses, v, vb, x, eb) =>
      ScopeOnWays(Enter(v), vb, i);
      ScopeOnWays(Enter(Some(x)), eb, i);
      assert BothGive(s, i, false) <==> ScopeGives(Enter(v), vb, i) && ScopeGives(Enter(Some(x)), eb, i);
      NothingInTurn({i in AsIncidents(uses)}, ScopeWays(Enter(v), vb, i) + ScopeWays(Enter(Some(x)), eb, i));
    case Unsafe(b) => AllOnWays(b.stmts, i);
  }

  lemma {:induction false} ScopeOnWays(setup: Setup, b: Block, i: Incident)
    requires i.VariableInit? && AllStay(b.stmts)
    ensures ScopeWays(setup, b, i) != {} && (ScopeGives(setup, b, i) <==> false !in ScopeWays(setup, b, i))
    decreases b
  {
    hide InTurn, SetupWays, RecordedBy;
    SetupSpares(setup, b, i);
    AllOnWays(b.stmts, i);
    NothingInTurn(SetupWays(setup, true, i), AllWays(b.stmts, i));
  }

  lemma {:induction false} ChainOnWays(chain: Chain, i: Incident)
    requires i.VariableInit? && ChainStays(chain)
    ensures ChainWays(chain, i) != {} && (HasElse(chain) && ChainGives(chain, i, false) <==> false !in ChainWays(chain, i))
    decreases chain
  {
    hide InTurn, ScopeWays, SkipWays, ScopeGives;
    match chain
    case NoElse =>
    case Else(b) => ScopeOnWays(Enter(None), b, i);
    case Arm(c, b, rest) =>
      ScopeOnWays(c, b, i);
      ChainOnWays(rest, i);
      SetupSpares(c, b, i);
      NothingInTurn(SkipWays(c, b, i), ChainWays(rest, i));
  }

  /** If control never leaves a body early, a variable is certain exactly if it is initialized on all runs. */
  lemma LocalExactlyOnRuns(body: seq<Stmt>, begun: set<Incident>, scope: set<nat>, i: Incident)
    requires Scoped(body, begun, scope) && i.VariableInit? && i !in begun && AllStay(body)
    ensures i in AllCertain(AnalyseAll(Start(begun), body).0) <==>
            forall answers :: ExecAll(body, Initially(begun, answers)).0 == Normal ==>
                              i in ExecAll(body, Initially(begun, answers)).1.happened
  {
    GivenExactly(body, begun, i);
    AllOnWays(body, i);
    CertainExactly(body, begun, scope, i);
  }

  // ----- Leaving a function -----

  /** The run left the function, and so it is recorded; or it goes on, or starves. */
  predicate Marked(o: Outcome, m: Machine) {
    o == Normal || o == Starved || Returned in m.happened
  }

  lemma {:induction false} AllMarked(stmts: seq<Stmt>, m: Machine)
    ensures Marked(ExecAll(stmts, m).0, ExecAll(stmts, m).1)
    decreases |m.io.answers|, stmts
  {
    if stmts != [] {
      StmtMarked(stmts[0], m);
      if Exec(stmts[0], m).0 == Normal { AllMarked(stmts[1..], Exec(stmts[0], m).1); }
    }
  }

  /** A run that leaves the function in a statement has returned. */
  lemma {:induction false} StmtMarked(s: Stmt, m: Machine)
    ensures Marked(Exec(s, m).0, Exec(s, m).1)
    decreases |m.io.answers|, s, 1
  {
    hide ExecScope, Eval;
    match s
    case If(chain) => ChainMarked(chain, m);
    case While(c, b) => WhileMarked(c, b, m);
    case Handle(call, uses, v, vb, x, eb) =>
      var (a, m1) := Ask(call, uses, m);
      if a.Some? {
        if a.value { ScopeMarked(Enter(Some(x)), eb, m1); } else { ScopeMarked(Enter(v), vb, m1); }
      }
    case Unsafe(b) => AllMarked(b.stmts, m);
    case _ =>
  }

  lemma {:induction false} WhileMarked(c: Cond, b: Block, m: Machine)
    ensures Marked(ExecWhile(c, b, m).0, ExecWhile(c, b, m).1)
    decreases |m.io.answers|, b, 2
  {
    ScopeMarked(c, b, m);
    var r := ExecScope(c, b, m);
    if r.Ran? && r.o == Normal { WhileMarked(c, b, r.m); }
  }

  lemma {:induction false} ScopeMarked(setup: Setup, b: Block, m: Machine)
    ensures ExecScope(setup, b, m).Ran? ==> Marked(ExecScope(setup, b, m).o, ExecScope(setup, b, m).m)
    decreases |m.io.answers|, b, 1
  {
    if RunSetup(setup, m).0 == Some(true) { AllMarked(b.stmts, RunSetup(setup, m).1); }
  }

  lemma {:induction false} ChainMarked(chain: Chain, m: Machine)
    ensures Marked(ExecChain(chain, m).0, ExecChain(chain, m).1)
    decreases |m.io.answers|, chain
  {
    hide ExecScope;
    match chain
    case NoElse =>
    case Else(b) => ScopeMarked(Enter(None), b, m);
    case Arm(c, b, rest) =>
      ScopeMarked(c, b, m);
      if ExecScope(c, b, m).Skipped? { ChainMarked(rest, ExecScope(c, b, m).m); }
  }
}

/**
 The path analysis is sound: what it reports as certain has happened on every run that gets
 there, and whatever happens on any run is potential.
 */
module PathSoundness {
  import opened Wrappers
  import opened Syntax
  import opened Semantics
  import opened PathAnalysis
  import opened Ways

  // ----- Which uses can be trusted -----

  /** The trusted uses of an expression happen on all ways to evaluate it. */
  predicate SureExpr(e: Expr, trusted: set<Use>) {
    forall u | u in trusted && Used(u) in Uses(e) :: false !in ValueWays(e, Used(u))
  }

  predicate SureSetup(setup: Setup, trusted: set<Use>) {
    setup.Test? ==> SureExpr(setup.e, trusted)
  }

  predicate SureStmt(s: Stmt, trusted: set<Use>)
    decreases s
  {
    match s
    case ExprStmt(e, _) => SureExpr(e, trusted)
    case DeclareAndAssign(_, e) => SureExpr(e, trusted)
    case Assign(_, e) => SureExpr(e, trusted)
    case If(chain) => SureChain(chain, trusted)
    case While(c, b) => SureSetup(c, trusted) && AllSure(b.stmts, trusted)
    case Handle(_, _, _, vb, _, eb) => AllSure(vb.stmts, trusted) && AllSure(eb.stmts, trusted)
    case Unsafe(b) => AllSure(b.stmts, trusted)
    case _ => true
  }

  predicate AllSure(stmts: seq<Stmt>, trusted: set<Use>)
    decreases stmts
  {
    stmts == [] || (SureStmt(stmts[0], trusted) && AllSure(stmts[1..], trusted))
  }

  predicate SureChain(chain: Chain, trusted: set<Use>)
    decreases chain
  {
    match chain
    case NoElse => true
    case Else(b) => AllSure(b.stmts, trusted)
    case Arm(c, b, rest) => SureSetup(c, trusted) && AllSure(b.stmts, trusted) && SureChain(rest, trusted)
  }

  // ----- What soundness means -----

  /** Control is here, and everything certain (of the uses: those that are trusted) has happened. */
  predicate Sound(p: Path, m: Machine, trusted: set<Use> := {}) {
    Returned !in m.happened && Holds(AllCertain(p), m, trusted)
  }

  predicate Holds(certain: set<Incident>, m: Machine, trusted: set<Use> := {}) {
    forall i | i in certain && (i.Used? ==> i.use in trusted) :: i in m.happened
  }

  predicate Covers(potential: set<Incident>, before: Machine, after: Machine) {
    forall i | i in after.happened && i !in before.happened :: i in potential
  }

  /** The analyser only knows variables that are in scope. */
  predicate Known(these: set<Incident>, scope: set<nat>) {
    forall i | i in these && i.VariableInit? :: i.id in scope
  }

  predicate KnownPath(p: Path, scope: set<nat>) {
    Known(AllCertain(p), scope) && Known(AllPotential(p), scope)
  }

  predicate KnownBranch(b: Branch, scope: set<nat>) {
    Known(b.certain, scope) && Known(b.potential, scope)
  }

  /** One of the branches that did not return describes the run. */
  predicate Witnessed(bs: seq<Branch>, m: Machine, trusted: set<Use> := {}) {
    exists b :: b in bs && !b.HasReturned() && Holds(b.certain, m, trusted)
  }

  function Added(p: Path, q: Path): seq<Branch>
    requires Extends(p, q)
  {
    Current(q).branches[|Current(p).branches|..]
  }

  /** The branch that analysing a scope leaves behind. */
  function BranchOf(p: Path, setup: Setup, b: Block): Branch {
    var q := AnalyseBranch(p, setup, b).0;
    Current(q).branches[|Current(q).branches| - 1]
  }

  // ----- Sets of a path -----

  lemma PathSets(p: Path)
    ensures AllCertain(p) == AllCertain(p[..|p| - 1]) + Current(p).certain
    ensures AllPotential(p) == AllPotential(p[..|p| - 1]) + Current(p).potential
  {
    assert p == p[..|p| - 1] + [Current(p)];
  }

  lemma ExtendsSets(p: Path, q: Path)
    requires Extends(p, q)
    ensures AllCertain(q) == AllCertain(p) + Current(q).certain
    ensures AllPotential(q) == AllPotential(p) + Current(q).potential
  {
    PathSets(p);
    PathSets(q);
  }

  lemma BeginSets(p: Path)
    ensures AllCertain(Begin(p)) == AllCertain(p) && AllPotential(Begin(p)) == AllPotential(p)
  {
    PathSets(Begin(p));
    assert Begin(p)[..|p|] == p;
  }

  lemma RecordSets(p: Path, more: set<Incident>)
    ensures AllCertain(Record(p, more)) == AllCertain(p) + more
    ensures AllPotential(Record(p, more)) == AllPotential(p) + more
  {
    PathSets(p);
    ExtendsSets(p, Record(p, more));
  }

  // ----- Expressions -----

  lemma {:induction false} EvalHappens(e: Expr, m: Machine)
    ensures m.happened <= Eval(e, m).1.happened
    ensures Covers(Uses(e), m, Eval(e, m).1)
    ensures forall i :: i in Uses(e) ==> i.Used?
  {
    match e
    case Leaf(_, _) =>
    case Logical(isAnd, l, r) =>
      EvalHappens(l, m);
      EvalHappens(r, Eval(l, m).1);
  }

  lemma UsesHappen(e: Expr, m: Machine, trusted: set<Use>)
    requires trusted == {} || SureExpr(e, trusted)
    ensures Eval(e, m).0.Some? ==> Holds(Uses(e), Eval(e, m).1, trusted)
  {
    UsesAreUses(e);
    if Eval(e, m).0.Some? {
      forall i | i in Uses(e) && i.use in trusted ensures i in Eval(e, m).1.happened {
        var way := EvalAlong(e, i, m);
        assert SureExpr(e, trusted) && i == Used(i.use);
      }
    }
  }

  lemma SetupHappens(setup: Setup, m: Machine, trusted: set<Use> := {})
    requires trusted == {} || SureSetup(setup, trusted)
    ensures m.happened <= RunSetup(setup, m).1.happened
    ensures Covers(RecordedBy(setup), m, RunSetup(setup, m).1)
    ensures RunSetup(setup, m).0.Some? ==> Holds(RecordedBy(setup), RunSetup(setup, m).1, trusted)
    ensures Returned !in RecordedBy(setup)
  {
    match setup
    case Test(e) =>
      EvalHappens(e, m);
      UsesHappen(e, m, trusted);
    case TestAndBind(_, _, _) =>
    case Enter(_) =>
  }

  // ----- Scopes -----

  lemma BranchIs(p: Path, setup: Setup, b: Block)
    ensures var start := Record(Begin(p), RecordedBy(setup));
      var inside := AnalyseBlock(start, b).0;
      && AllCertain(start) == AllCertain(p) + RecordedBy(setup)
      && AllPotential(start) == AllPotential(p) + RecordedBy(setup)
      && AllCertain(inside) == AllCertain(p) + Current(inside).certain
      && AllPotential(inside) == AllPotential(p) + Current(inside).potential
      && BranchOf(p, setup, b) == Current(inside).Forget(ScopeOf(setup, b))
      && Added(p, AnalyseBranch(p, setup, b).0) == [BranchOf(p, setup, b)]
  {
    var start := Record(Begin(p), RecordedBy(setup));
    var inside := AnalyseBlock(start, b).0;
    BeginSets(p);
    RecordSets(Begin(p), RecordedBy(setup));
    PathSets(inside);
    assert inside[..|p|] == start[..|p|] == p;
  }

  // ----- The analyser only knows variables in scope -----

  lemma {:induction false} BranchKnown(p: Path, setup: Setup, b: Block, scope: set<nat>)
    requires KnownPath(p, scope) && ScopeResolved(setup, b, scope)
    ensures KnownPath(AnalyseBranch(p, setup, b).0, scope)
    ensures forall c :: c in Added(p, AnalyseBranch(p, setup, b).0) ==> KnownBranch(c, scope)
    decreases b
  {
    hide AnalyseBranch, BranchOf, Known;
    var start := Record(Begin(p), RecordedBy(setup));
    BranchIs(p, setup, b);
    SetupKnown(setup);
    StartKnown(p, start, setup, scope, BoundBy(setup));
    AllKnown(start, b.stmts, scope + BoundBy(setup));
    assert scope + BoundBy(setup) + Locals(b.stmts) == scope + ScopeOf(setup, b);
    LeaveKnown(Current(AnalyseBlock(start, b).0), AnalyseBlock(start, b).0, scope, ScopeOf(setup, b));
    ExtendsSets(p, AnalyseBranch(p, setup, b).0);
    PathSets(p);
  }

  lemma LeaveKnown(c: Branch, inside: Path, scope: set<nat>, ids: set<nat>)
    requires KnownPath(inside, scope + ids) && c == Current(inside)
    ensures KnownBranch(c.Forget(ids), scope)
  {
    PathSets(inside);
  }

  lemma SetupKnown(setup: Setup)
    ensures Known(RecordedBy(setup), BoundBy(setup))
  {
    if setup.Test? { UsesAreUses(setup.e); }
  }

  lemma {:induction false} UsesAreUses(e: Expr)
    ensures forall i :: i in Uses(e) ==> i.Used?
  {
    if e.Logical? {
      UsesAreUses(e.left);
      UsesAreUses(e.right);
    }
  }

  lemma {:induction false} AllKnown(p: Path, stmts: seq<Stmt>, scope: set<nat>)
    requires Current(p).branches == [] && KnownPath(p, scope) && AllResolved(stmts, scope)
    ensures KnownPath(AnalyseAll(p, stmts).0, scope + Locals(stmts))
    decreases stmts
  {
    if stmts != [] {
      var inner := scope + LocalsOf(stmts[0]);
      StmtKnown(p, stmts[0], scope);
      AllKnown(Analyse(p, stmts[0]).0, stmts[1..], inner);
      assert inner + Locals(stmts[1..]) == scope + Locals(stmts);
    }
  }

  lemma {:induction false} ChainKnown(p: Path, chain: Chain, scope: set<nat>)
    requires KnownPath(p, scope) && ChainResolved(chain, scope)
    ensures KnownPath(AnalyseChain(p, chain).0, scope)
    ensures forall c :: c in Added(p, AnalyseChain(p, chain).0) ==> KnownBranch(c, scope)
    decreases chain
  {
    match chain
    case NoElse =>
    case Else(b) => BranchKnown(p, Enter(None), b, scope);
    case Arm(c, b, rest) =>
      BranchKnown(p, c, b, scope);
      var p1 := AnalyseBranch(p, c, b).0;
      ChainKnown(p1, rest, scope);
      AddedTrans(p, p1, AnalyseChain(p1, rest).0);
  }

  lemma AddedTrans(p: Path, q: Path, r: Path)
    requires Extends(p, q) && Extends(q, r)
    ensures Extends(p, r) && Added(p, r) == Added(p, q) + Added(q, r)
  {
  }

  lemma FinishKnown(p: Path, scope: set<nat>)
    requires KnownPath(p, scope) && forall c :: c in Current(p).branches ==> KnownBranch(c, scope)
    ensures KnownPath(Update(p, Current(p).FinishMutualExclusive()), scope)
    ensures KnownPath(Update(p, Current(p).FinishUncertain()), scope)
  {
    PathSets(p);
    PathSets(Update(p, Current(p).FinishMutualExclusive()));
    PathSets(Update(p, Current(p).FinishUncertain()));
  }

  lemma {:induction false} StmtKnown(p: Path, s: Stmt, scope: set<nat>)
    requires Current(p).branches == [] && KnownPath(p, scope) && Resolved(s, scope)
    ensures KnownPath(Analyse(p, s).0, scope + LocalsOf(s))
    decreases s
  {
    hide AnalyseBranch, KnownPath, KnownBranch, Known;
    assert scope + {} == scope;
    match s
    case If(chain) =>
      ChainKnown(p, chain, scope);
      assert Added(p, AnalyseChain(p, chain).0) == Current(AnalyseChain(p, chain).0).branches;
      FinishKnown(AnalyseChain(p, chain).0, scope);
    case While(c, b) =>
      BranchKnown(p, c, b, scope);
      FinishKnown(AnalyseBranch(p, c, b).0, scope);
    case Handle(_, _, _, _, _, _) => HandleKnown(p, s, scope);
    case Unsafe(b) => AllKnown(p, b.stmts, scope);
    case _ =>
      RecordedKnown(s, scope);
      RecordKnown(p, RecordedAt(s), scope, scope + LocalsOf(s));
  }

  lemma {:induction false} HandleKnown(p: Path, s: Stmt, scope: set<nat>)
    requires Current(p).branches == [] && KnownPath(p, scope) && s.Handle? && Resolved(s, scope)
    ensures KnownPath(AnalyseHandle(p, s).0, scope + LocalsOf(s))
    decreases s, 0
  {
    hide AnalyseBranch, KnownPath, KnownBranch;
    assert scope + {} == scope;
    var p0 := Record(p, AsIncidents(s.uses));
    RecordKnown(p, AsIncidents(s.uses), scope, scope);
    BranchKnown(p0, Enter(s.valueVar), s.valueBlock, scope);
    var p1 := AnalyseBranch(p0, Enter(s.valueVar), s.valueBlock).0;
    BranchKnown(p1, Enter(Some(s.errorVar)), s.errorBlock, scope);
    var p2 := AnalyseBranch(p1, Enter(Some(s.errorVar)), s.errorBlock).0;
    AddedTrans(p0, p1, p2);
    assert Added(p0, p2) == Current(p2).branches;
    FinishKnown(p2, scope);
  }

  lemma RecordKnown(p: Path, more: set<Incident>, scope: set<nat>, larger: set<nat>)
    requires KnownPath(p, scope) && Known(more, larger) && scope <= larger
    ensures KnownPath(Record(p, more), larger)
  {
    RecordSets(p, more);
  }

  lemma RecordedKnown(s: Stmt, scope: set<nat>)
    requires Resolved(s, scope)
    ensures Known(RecordedAt(s), scope + LocalsOf(s))
  {
    match s
    case ExprStmt(e, _) => UsesAreUses(e);
    case DeclareAndAssign(_, e) => UsesAreUses(e);
    case Assign(_, e) => UsesAreUses(e);
    case Return(Some(e)) => UsesAreUses(e);
    case Raise(e) => UsesAreUses(e);
    case _ =>
  }

  // ----- Soundness -----

  /** What a branch says about the runs of its scope. */
  predicate BranchAgrees(p: Path, c: Branch, m: Machine, r: ScopeRun, trusted: set<Use> := {}) {
    && Covers(AllPotential(p) + c.potential, m, r.m)
    && (Sound(p, m, trusted) && r.Skipped? ==> Sound(p, r.m, trusted))
    && (Sound(p, m, trusted) && r.Ran? && r.o == Normal ==> Sound(p, r.m, trusted) && !c.HasReturned() && Holds(c.certain, r.m, trusted))
  }

  lemma {:induction false} BranchSound(p: Path, setup: Setup, b: Block, scope: set<nat>, m: Machine, trusted: set<Use> := {})
    requires trusted == {} || (SureSetup(setup, trusted) && AllSure(b.stmts, trusted))
    requires KnownPath(p, scope) && ScopeResolved(setup, b, scope)
    ensures BranchAgrees(p, BranchOf(p, setup, b), m, ExecScope(setup, b, m), trusted)
    decreases |m.io.answers|, b, 0
  {
    hide AllCertain, AllPotential, BranchOf, RecordedBy, Covers, Sound, Known, AnalyseBranch;
    var ids := ScopeOf(setup, b);
    var start := Record(Begin(p), RecordedBy(setup));
    var inside := AnalyseBlock(start, b).0;
    var (v, m1) := RunSetup(setup, m);
    var m2 := if v == Some(true) then ExecAll(b.stmts, m1).1 else m1;
    BranchIs(p, setup, b);
    EnterSound(p, start, setup, m, trusted);
    if v == Some(true) {
      SetupKnown(setup);
      StartKnown(p, start, setup, scope, BoundBy(setup));
      AllSound(start, b.stmts, scope + BoundBy(setup), m1, trusted);
    }
    ForgetPotential(p, Current(inside), ids, m, m1, m2, RecordedBy(setup));
    ForgetLeaves(p, Current(inside), ids, scope, m2, trusted);
    LeaveSound(p, inside, m2, trusted);
    LeaveSound(p, start, m2, trusted);
  }

  lemma EnterSound(p: Path, start: Path, setup: Setup, m: Machine, trusted: set<Use> := {})
    requires trusted == {} || SureSetup(setup, trusted)
    requires AllCertain(start) == AllCertain(p) + RecordedBy(setup)
    ensures var (v, m1) := RunSetup(setup, m);
      && Covers(RecordedBy(setup), m, m1) && Covers({}, m1, m1)
      && (Sound(p, m, trusted) && v.Some? ==> Sound(start, m1, trusted))
      && (Sound(p, m, trusted) ==> Sound(p, m1, trusted))
  {
    SetupHappens(setup, m, trusted);
  }

  lemma StartKnown(p: Path, start: Path, setup: Setup, scope: set<nat>, ids: set<nat>)
    requires KnownPath(p, scope) && Known(RecordedBy(setup), BoundBy(setup)) && BoundBy(setup) <= ids
    requires AllCertain(start) == AllCertain(p) + RecordedBy(setup)
    requires AllPotential(start) == AllPotential(p) + RecordedBy(setup)
    ensures KnownPath(start, scope + ids)
  {
  }

  lemma LeaveSound(p: Path, inside: Path, m: Machine, trusted: set<Use> := {})
    requires AllCertain(inside) == AllCertain(p) + Current(inside).certain
    ensures Sound(inside, m, trusted) ==> Sound(p, m, trusted) && !Current(inside).HasReturned() && Holds(Current(inside).certain, m, trusted)
  {
  }

  lemma ForgetPotential(p: Path, c: Branch, ids: set<nat>, m: Machine, m1: Machine, m2: Machine, first: set<Incident>)
    requires first <= c.potential && Covers(first, m, m1)
    requires m1 == m2 || Covers(AllPotential(p) + c.potential, m1, m2)
    ensures Covers(AllPotential(p) + c.Forget(ids).potential, m, m2.Forget(ids))
  {
  }

  lemma ForgetLeaves(p: Path, c: Branch, ids: set<nat>, scope: set<nat>, m: Machine, trusted: set<Use> := {})
    requires Known(AllCertain(p), scope) && ids !! scope
    ensures Sound(p, m, trusted) ==> Sound(p, m.Forget(ids), trusted)
    ensures Holds(c.certain, m, trusted) ==> Holds(c.Forget(ids).certain, m.Forget(ids), trusted)
  {
  }

  lemma {:induction false} AllSound(p: Path, stmts: seq<Stmt>, scope: set<nat>, m: Machine, trusted: set<Use> := {})
    requires trusted == {} || AllSure(stmts, trusted)
    requires Current(p).branches == [] && KnownPath(p, scope) && AllResolved(stmts, scope)
    ensures Covers(AllPotential(AnalyseAll(p, stmts).0), m, ExecAll(stmts, m).1)
    ensures Sound(p, m, trusted) && ExecAll(stmts, m).0 == Normal ==>
            Sound(AnalyseAll(p, stmts).0, ExecAll(stmts, m).1, trusted)
    decreases |m.io.answers|, stmts
  {
    if stmts != [] {
      var p1 := Analyse(p, stmts[0]).0;
      var (o, m1) := Exec(stmts[0], m);
      StmtSound(p, stmts[0], scope, m, trusted);
      StmtKnown(p, stmts[0], scope);
      ExtendsSets(p1, AnalyseAll(p1, stmts[1..]).0);
      if o == Normal {
        AllSound(p1, stmts[1..], scope + LocalsOf(stmts[0]), m1, trusted);
      }
    }
  }

  /** What the branches of an if statement say about its runs. */
  predicate ChainAgrees(p: Path, bs: seq<Branch>, hasElse: bool, m: Machine, o: Outcome, m': Machine,
                        trusted: set<Use> := {}) {
    && Covers(AllPotential(p) + AllPotential(bs), m, m')
    && (Sound(p, m, trusted) && o == Normal ==> Sound(p, m', trusted) && (hasElse ==> Witnessed(bs, m', trusted)))
  }

  lemma {:induction false} ChainSound(p: Path, chain: Chain, scope: set<nat>, m: Machine, trusted: set<Use> := {})
    requires trusted == {} || SureChain(chain, trusted)
    requires KnownPath(p, scope) && ChainResolved(chain, scope)
    ensures var (o, m') := ExecChain(chain, m);
      ChainAgrees(p, Added(p, AnalyseChain(p, chain).0), HasElse(chain), m, o, m', trusted)
    decreases |m.io.answers|, chain
  {
    hide AllCertain, AllPotential, BranchOf, Covers, Sound, Known, ChainAgrees, BranchAgrees, AnalyseBranch,
      ExecScope, ExecChain, AnalyseChain, Added;
    match chain
    case NoElse => ChainEmpty(p, m, trusted);
    case Else(b) =>
      BranchSound(p, Enter(None), b, scope, m, trusted);
      ElseRan(p, b, m, trusted);
    case Arm(c, b, rest) =>
      var r := ExecScope(c, b, m);
      BranchSound(p, c, b, scope, m, trusted);
      if r.Skipped? {
        BranchKnown(p, c, b, scope);
        ChainSound(AnalyseBranch(p, c, b).0, rest, scope, r.m, trusted);
        ArmSkipped(p, c, b, rest, m, r.m, trusted);
      } else {
        ArmRan(p, c, b, rest, m, r, trusted);
      }
  }

  lemma ElseRan(p: Path, b: Block, m: Machine, trusted: set<Use> := {})
    requires BranchAgrees(p, BranchOf(p, Enter(None), b), m, ExecScope(Enter(None), b, m), trusted)
    ensures var (chain, (o, m')) := (Else(b), ExecChain(Else(b), m));
      ChainAgrees(p, Added(p, AnalyseChain(p, chain).0), HasElse(chain), m, o, m', trusted)
  {
    hide AllCertain, AllPotential, BranchOf, Covers, Sound, Witnessed, Known, ChainAgrees, BranchAgrees,
      AnalyseBranch, ExecScope;
    BranchIs(p, Enter(None), b);
    ChainRan(p, BranchOf(p, Enter(None), b), [], m, ExecScope(Enter(None), b, m), trusted);
    assert [BranchOf(p, Enter(None), b)] + [] == Added(p, AnalyseChain(p, Else(b)).0);
  }

  lemma ArmRan(p: Path, c: Cond, b: Block, rest: Chain, m: Machine, r: ScopeRun, trusted: set<Use> := {})
    requires ExecScope(c, b, m) == r && r.Ran? && BranchAgrees(p, BranchOf(p, c, b), m, r, trusted)
    ensures var (chain, (o, m')) := (Arm(c, b, rest), ExecChain(Arm(c, b, rest), m));
      ChainAgrees(p, Added(p, AnalyseChain(p, chain).0), HasElse(chain), m, o, m', trusted)
  {
    hide AllCertain, AllPotential, BranchOf, Covers, Sound, Witnessed, Known, ChainAgrees, BranchAgrees,
      AnalyseBranch, ExecScope;
    var p1 := AnalyseBranch(p, c, b).0;
    BranchIs(p, c, b);
    AddedTrans(p, p1, AnalyseChain(p1, rest).0);
    ChainRan(p, BranchOf(p, c, b), Added(p1, AnalyseChain(p1, rest).0), m, r, trusted);
  }

  /** A condition does not hold, so the run is that of the rest of the chain. */
  lemma ArmSkipped(p: Path, c: Cond, b: Block, rest: Chain, m: Machine, m1: Machine, trusted: set<Use> := {})
    requires ExecScope(c, b, m) == Skipped(m1) && BranchAgrees(p, BranchOf(p, c, b), m, Skipped(m1), trusted)
    requires var (p1, (o, m')) := (AnalyseBranch(p, c, b).0, ExecChain(rest, m1));
      ChainAgrees(p1, Added(p1, AnalyseChain(p1, rest).0), HasElse(rest), m1, o, m', trusted)
    ensures var (chain, (o, m')) := (Arm(c, b, rest), ExecChain(Arm(c, b, rest), m));
      ChainAgrees(p, Added(p, AnalyseChain(p, chain).0), HasElse(chain), m, o, m', trusted)
  {
    hide AllCertain, AllPotential, BranchOf, Covers, Sound, Witnessed, Known, ChainAgrees, BranchAgrees,
      AnalyseBranch, ExecScope;
    var p1 := AnalyseBranch(p, c, b).0;
    var p2 := AnalyseChain(p1, rest).0;
    BranchIs(p, c, b);
    AddedTrans(p, p1, p2);
    SameSets(p, p1);
    var (o, m') := ExecChain(rest, m1);
    ChainSkipped(p, p1, BranchOf(p, c, b), Added(p1, p2), HasElse(rest), m, m1, o, m', trusted);
  }

  lemma ChainEmpty(p: Path, m: Machine, trusted: set<Use> := {})
    ensures ExecChain(NoElse, m) == (Normal, m)
    ensures ChainAgrees(p, Added(p, AnalyseChain(p, NoElse).0), HasElse(NoElse), m, Normal, m, trusted)
  {
    assert Added(p, p) == [];
  }

  lemma ChainRan(p: Path, c: Branch, rest: seq<Branch>, m: Machine, r: ScopeRun, trusted: set<Use> := {})
    requires r.Ran? && BranchAgrees(p, c, m, r, trusted)
    ensures forall hasElse :: ChainAgrees(p, [c] + rest, hasElse, m, r.o, r.m, trusted)
  {
    assert c in [c] + rest;
    assert c.potential <= AllPotential([c] + rest);
  }

  lemma ChainSkipped(p: Path, q: Path, c: Branch, rest: seq<Branch>, hasElse: bool, m: Machine, m1: Machine,
                     o: Outcome, m2: Machine, trusted: set<Use> := {})
    requires BranchAgrees(p, c, m, Skipped(m1), trusted) && ChainAgrees(q, rest, hasElse, m1, o, m2, trusted)
    requires AllCertain(q) == AllCertain(p) && AllPotential(q) == AllPotential(p)
    ensures ChainAgrees(p, [c] + rest, hasElse, m, o, m2, trusted)
  {
    assert AllPotential([c] + rest) == c.potential + AllPotential(rest);
    if Witnessed(rest, m2, trusted) {
      var b :| b in rest && !b.HasReturned() && Holds(b.certain, m2, trusted);
      assert b in [c] + rest;
    }
  }

  lemma SameSets(p: Path, q: Path)
    requires Extends(p, q)
    requires Current(q).certain == Current(p).certain && Current(q).potential == Current(p).potential
    ensures AllCertain(q) == AllCertain(p) && AllPotential(q) == AllPotential(p)
  {
    PathSets(p);
    PathSets(q);
  }

  /** Merging keeps what every branch that reaches the merge agrees on. */
  lemma FinishSound(p: Path, m: Machine, trusted: set<Use> := {})
    requires Sound(p, m, trusted)
    ensures Sound(Update(p, Current(p).FinishUncertain()), m, trusted)
    ensures Witnessed(Current(p).branches, m, trusted) ==> Sound(Update(p, Current(p).FinishMutualExclusive()), m, trusted)
  {
    var q, r := Update(p, Current(p).FinishUncertain()), Update(p, Current(p).FinishMutualExclusive());
    PathSets(p);
    PathSets(q);
    PathSets(r);
  }

  lemma FinishPotential(p: Path)
    ensures AllPotential(Update(p, Current(p).FinishUncertain())) == AllPotential(p) + AllPotential(Current(p).branches)
    ensures AllPotential(Update(p, Current(p).FinishMutualExclusive())) ==
            AllPotential(p) + AllPotential(Current(p).branches)
  {
    PathSets(p);
    PathSets(Update(p, Current(p).FinishUncertain()));
    PathSets(Update(p, Current(p).FinishMutualExclusive()));
  }

  lemma {:induction false} StmtSound(p: Path, s: Stmt, scope: set<nat>, m: Machine, trusted: set<Use> := {})
    requires trusted == {} || SureStmt(s, trusted)
    requires Current(p).branches == [] && KnownPath(p, scope) && Resolved(s, scope)
    ensures Covers(AllPotential(Analyse(p, s).0), m, Exec(s, m).1)
    ensures Sound(p, m, trusted) && Exec(s, m).0 == Normal ==> Sound(Analyse(p, s).0, Exec(s, m).1, trusted)
    decreases |m.io.answers|, s
  {
    match s
    case If(chain) =>
      var p1 := AnalyseChain(p, chain).0;
      ChainSound(p, chain, scope, m, trusted);
      SameSets(p, p1);
      FinishPotential(p1);
      if Sound(p, m, trusted) && Exec(s, m).0 == Normal {
        FinishSound(p1, Exec(s, m).1, trusted);
      }
    case While(c, b) => WhileSound(p, c, b, scope, m, trusted);
    case Handle(call, uses, v, vb, x, eb) => HandleSound(p, s, scope, m, trusted);
    case Unsafe(b) => AllSound(p, b.stmts, scope, m, trusted);
    case _ =>
      RecordSets(p, RecordedAt(s));
      SimpleSound(s, m, trusted);
  }

  lemma {:induction false} WhileSound(p: Path, c: Cond, b: Block, scope: set<nat>, m: Machine, trusted: set<Use> := {})
    requires trusted == {} || (SureSetup(c, trusted) && AllSure(b.stmts, trusted))
    requires Current(p).branches == [] && KnownPath(p, scope) && ScopeResolved(c, b, scope)
    ensures var (o, m') := ExecWhile(c, b, m);
      && Covers(AllPotential(AnalyseWhile(p, c, b).0), m, m')
      && (Sound(p, m, trusted) && o == Normal ==> Sound(AnalyseWhile(p, c, b).0, m', trusted))
    decreases |m.io.answers|, b, 1
  {
    var r := ExecScope(c, b, m);
    BranchSound(p, c, b, scope, m, trusted);
    LoopExit(p, c, b, m, r, trusted);
    if r.Ran? && r.o == Normal {
      WhileSound(p, c, b, scope, r.m, trusted);
    }
  }

  lemma LoopExit(p: Path, c: Cond, b: Block, m: Machine, r: ScopeRun, trusted: set<Use> := {})
    requires Current(p).branches == []
    requires BranchAgrees(p, BranchOf(p, c, b), m, r, trusted)
    ensures Covers(AllPotential(AnalyseWhile(p, c, b).0), m, r.m)
    ensures Sound(p, m, trusted) && r.Skipped? ==> Sound(AnalyseWhile(p, c, b).0, r.m, trusted)
  {
    var p1 := AnalyseBranch(p, c, b).0;
    var branch := BranchOf(p, c, b);
    assert branch in Current(p1).branches && BranchAgrees(p, branch, m, r, trusted);
    SameSets(p, p1);
    UncertainMerge(p, p1, branch, m, r, trusted);
  }

  lemma UncertainMerge(p: Path, q: Path, c: Branch, m: Machine, r: ScopeRun, trusted: set<Use> := {})
    requires AllPotential(q) == AllPotential(p) && AllCertain(q) == AllCertain(p)
    requires c in Current(q).branches && BranchAgrees(p, c, m, r, trusted)
    ensures Covers(AllPotential(Update(q, Current(q).FinishUncertain())), m, r.m)
    ensures Sound(p, m, trusted) && r.Skipped? ==> Sound(Update(q, Current(q).FinishUncertain()), r.m, trusted)
  {
    FinishPotential(q);
    if Sound(p, m, trusted) && r.Skipped? {
      FinishSound(q, r.m, trusted);
    }
  }

  lemma {:induction false} HandleSound(p: Path, s: Stmt, scope: set<nat>, m: Machine, trusted: set<Use> := {})
    requires trusted == {} || SureStmt(s, trusted)
    requires s.Handle? && Current(p).branches == [] && KnownPath(p, scope) && Resolved(s, scope)
    ensures Covers(AllPotential(AnalyseHandle(p, s).0), m, ExecHandle(s, m).1)
    ensures Sound(p, m, trusted) && ExecHandle(s, m).0 == Normal ==>
            Sound(AnalyseHandle(p, s).0, ExecHandle(s, m).1, trusted)
    decreases |m.io.answers|, s, 0
  {
    hide Covers, Sound, Known, AllCertain, AllPotential, AnalyseHandle, AnalyseBranch, BranchOf, AsIncidents;
    var p0 := Record(p, AsIncidents(s.uses));
    var value, error := Enter(s.valueVar), Enter(Some(s.errorVar));
    var p1 := AnalyseBranch(p0, value, s.valueBlock).0;
    var p2 := AnalyseBranch(p1, error, s.errorBlock).0;
    var (a, m1) := Ask(s.call, s.uses, m);
    HandleAnswer(p, s, m, trusted);
    HandleSets(p, s);
    if a.Some? {
      RecordKnown(p, AsIncidents(s.uses), scope, scope);
      BranchKnown(p0, value, s.valueBlock, scope);
      if a.value {
        HandleCase(p1, error, s.errorBlock, scope, m1, p2, trusted);
        SameSound(p0, p1, m1, trusted);
      } else {
        HandleCase(p0, value, s.valueBlock, scope, m1, p2, trusted);
      }
      CoversTrans(AllPotential(AnalyseHandle(p, s).0), m, m1, ExecHandle(s, m).1);
    }
  }

  /** One of the two blocks runs, and both branches are merged into q. */
  lemma {:induction false} HandleCase(p: Path, setup: Setup, b: Block, scope: set<nat>, m: Machine, q: Path,
                                      trusted: set<Use> := {})
    requires trusted == {} || AllSure(b.stmts, trusted)
    requires setup.Enter? && KnownPath(p, scope) && ScopeResolved(setup, b, scope)
    requires AllPotential(q) == AllPotential(p) && AllCertain(q) == AllCertain(p)
    requires BranchOf(p, setup, b) in Current(q).branches
    ensures var r := ExecScope(setup, b, m);
      && Covers(AllPotential(Update(q, Current(q).FinishMutualExclusive())), m, r.m)
      && (Sound(p, m, trusted) && r.o == Normal ==> Sound(Update(q, Current(q).FinishMutualExclusive()), r.m, trusted))
    decreases |m.io.answers|, b, 1
  {
    hide Covers, Sound, Known, AllCertain, AllPotential;
    BranchSound(p, setup, b, scope, m, trusted);
    HandleMerge(p, q, BranchOf(p, setup, b), m, ExecScope(setup, b, m), trusted);
  }

  lemma SameSound(p: Path, q: Path, m: Machine, trusted: set<Use> := {})
    requires AllCertain(q) == AllCertain(p)
    ensures Sound(p, m, trusted) == Sound(q, m, trusted)
  {
  }

  lemma CoversTrans(potential: set<Incident>, m: Machine, m1: Machine, m2: Machine)
    requires Covers(potential, m, m1) && Covers(potential, m1, m2)
    ensures Covers(potential, m, m2)
  {
  }

  lemma HandleAnswer(p: Path, s: Stmt, m: Machine, trusted: set<Use> := {})
    requires s.Handle? && Current(p).branches == []
    ensures Covers(AllPotential(AnalyseHandle(p, s).0), m, Ask(s.call, s.uses, m).1)
    ensures Ask(s.call, s.uses, m).0.Some? && Sound(p, m, trusted) ==>
            Sound(Record(p, AsIncidents(s.uses)), Ask(s.call, s.uses, m).1, trusted)
    ensures forall scope :: Known(AsIncidents(s.uses), scope)
  {
    RecordSets(p, AsIncidents(s.uses));
    HandleSets(p, s);
  }

  lemma HandleSets(p: Path, s: Stmt)
    requires s.Handle? && Current(p).branches == []
    ensures var p0 := Record(p, AsIncidents(s.uses));
      var p1 := AnalyseBranch(p0, Enter(s.valueVar), s.valueBlock).0;
      var p2 := AnalyseBranch(p1, Enter(Some(s.errorVar)), s.errorBlock).0;
      && AllCertain(p2) == AllCertain(p1) == AllCertain(p0)
      && AllPotential(p2) == AllPotential(p1) == AllPotential(p0)
      && BranchOf(p0, Enter(s.valueVar), s.valueBlock) in Current(p2).branches
      && BranchOf(p1, Enter(Some(s.errorVar)), s.errorBlock) in Current(p2).branches
      && AnalyseHandle(p, s).0 == Update(p2, Current(p2).FinishMutualExclusive())
      && AsIncidents(s.uses) <= AllPotential(AnalyseHandle(p, s).0)
  {
    hide AllCertain, AllPotential, AsIncidents, Intersection;
    var p0 := Record(p, AsIncidents(s.uses));
    var p1 := AnalyseBranch(p0, Enter(s.valueVar), s.valueBlock).0;
    var p2 := AnalyseBranch(p1, Enter(Some(s.errorVar)), s.errorBlock).0;
    RecordSets(p, AsIncidents(s.uses));
    SameSets(p0, p1);
    SameSets(p0, p2);
    FinishPotential(p2);
    assert BranchOf(p0, Enter(s.valueVar), s.valueBlock) == Current(p2).branches[0];
  }

  lemma HandleMerge(p: Path, q: Path, c: Branch, m: Machine, r: ScopeRun, trusted: set<Use> := {})
    requires AllPotential(q) == AllPotential(p) && AllCertain(q) == AllCertain(p)
    requires c in Current(q).branches && BranchAgrees(p, c, m, r, trusted) && r.Ran?
    ensures Covers(AllPotential(Update(q, Current(q).FinishMutualExclusive())), m, r.m)
    ensures Sound(p, m, trusted) && r.o == Normal ==> Sound(Update(q, Current(q).FinishMutualExclusive()), r.m, trusted)
  {
    FinishPotential(q);
    if Sound(p, m, trusted) && r.o == Normal {
      FinishSound(q, r.m, trusted);
    }
  }

  /** A statement without blocks. */
  lemma SimpleSound(s: Stmt, m: Machine, trusted: set<Use> := {})
    requires trusted == {} || SureStmt(s, trusted)
    requires !s.If? && !s.While? && !s.Handle? && !s.Unsafe?
    ensures Covers(RecordedAt(s), m, Exec(s, m).1)
    ensures m.happened <= Exec(s, m).1.happened
    ensures Exec(s, m).0 == Normal ==> Holds(RecordedAt(s), Exec(s, m).1, trusted)
    ensures Exec(s, m).0 == Normal && (s.Assign? ==> s.target != Returned) && Returned !in m.happened ==>
            Returned !in Exec(s, m).1.happened
  {
    match s
    case ExprStmt(e, _) =>
      EvalHappens(e, m);
      UsesHappen(e, m, trusted);
    case DeclareAndAssign(_, e) =>
      EvalHappens(e, m);
      UsesHappen(e, m, trusted);
    case Assign(_, e) =>
      EvalHappens(e, m);
      UsesHappen(e, m, trusted);
    case Return(Some(e)) => EvalHappens(e, m);
    case Raise(e) => EvalHappens(e, m);
    case _ =>
  }
}

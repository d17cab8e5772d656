/**
 What the path analysis is for: a variable is only read where its initialization is certain. No run
 of accepted code reads a variable that is not initialized.
 */
module Reads {
  import opened Wrappers
  import opened Syntax
  import opened Semantics
  import opened PathAnalysis
  import opened Acceptance
  import opened PathSoundness
  import opened Simulation
  import opened Compilation

  // ----- What runs read -----

  /** The variables that the leaf reads are initialized. */
  predicate Finds(m: Machine, id: nat, read: ReadsOf) {
    read(id) <= m.happened
  }

  predicate EvalFinds(e: Expr, m: Machine, read: ReadsOf) {
    match e
    case Leaf(id, _) => Finds(m, id, read)
    case Logical(isAnd, l, r) =>
      EvalFinds(l, m, read) && (Eval(l, m).0 == Some(isAnd) ==> EvalFinds(r, Eval(l, m).1, read))
  }

  predicate SetupFinds(setup: Setup, m: Machine, read: ReadsOf) {
    match setup
    case Test(e) => EvalFinds(e, m, read)
    case TestAndBind(id, _, _) => Finds(m, id, read)
    case Enter(_) => true
  }

  predicate StmtFinds(s: Stmt, m: Machine, read: ReadsOf)
    decreases |m.io.answers|, s, 1
  {
    match s
    case ExprStmt(e, _) => EvalFinds(e, m, read)
    case Declare(_, _) => true
    case DeclareAndAssign(_, e) => EvalFinds(e, m, read)
    case Assign(_, e) => EvalFinds(e, m, read)
    case Return(None) => true
    case Return(Some(e)) => EvalFinds(e, m, read)
    case Raise(e) => EvalFinds(e, m, read)
    case If(chain) => ChainFinds(chain, m, read)
    case While(c, b) => WhileFinds(c, b, m, read)
    case Handle(call, uses, v, vb, x, eb) =>
      var (a, m1) := Ask(call, uses, m);
      && Finds(m, call, read)
      && (a == Some(true) ==> ScopeFinds(Enter(Some(x)), eb, m1, read))
      && (a == Some(false) ==> ScopeFinds(Enter(v), vb, m1, read))
    case Unsafe(b) => AllFinds(b.stmts, m, read)
  }

  predicate WhileFinds(c: Cond, b: Block, m: Machine, read: ReadsOf)
    decreases |m.io.answers|, b, 2
  {
    var r := ExecScope(c, b, m);
    ScopeFinds(c, b, m, read) && (r.Ran? && r.o == Normal ==> WhileFinds(c, b, r.m, read))
  }

  predicate AllFinds(stmts: seq<Stmt>, m: Machine, read: ReadsOf)
    decreases |m.io.answers|, stmts
  {
    stmts == [] ||
    var (o, m1) := Exec(stmts[0], m);
    StmtFinds(stmts[0], m, read) && (o == Normal ==> AllFinds(stmts[1..], m1, read))
  }

  predicate ScopeFinds(setup: Setup, b: Block, m: Machine, read: ReadsOf)
    decreases |m.io.answers|, b, 1
  {
    var (v, m1) := RunSetup(setup, m);
    SetupFinds(setup, m, read) && (v == Some(true) ==> AllFinds(b.stmts, m1, read))
  }

  predicate ChainFinds(chain: Chain, m: Machine, read: ReadsOf)
    decreases |m.io.answers|, chain
  {
    match chain
    case NoElse => true
    case Else(b) => ScopeFinds(Enter(None), b, m, read)
    case Arm(c, b, rest) =>
      var r := ExecScope(c, b, m);
      ScopeFinds(c, b, m, read) && (r.Skipped? ==> ChainFinds(rest, r.m, read))
  }

  // ----- Accepted code finds what it reads -----

  lemma LeafFound(p: Path, id: nat, m: Machine, read: ReadsOf)
    requires Holds(AllCertain(p), m) && LeafErrors(p, id, read) == {}
    ensures Finds(m, id, read)
  {
    hide AllCertain, LeafErrors;
    LeafErrorsAre(p, id, read);
    assert AboutVariables(read(id));
    assert forall i | i in read(id) :: AboutVariable(i);
  }

  lemma {:induction false} EvalFound(p: Path, e: Expr, m: Machine, read: ReadsOf)
    requires Holds(AllCertain(p), m) && ExprErrors(p, e, read) == {}
    ensures EvalFinds(e, m, read)
  {
    hide AllCertain;
    match e
    case Leaf(id, _) => LeafFound(p, id, m, read);
    case Logical(_, l, r) =>
      EvalFound(p, l, m, read);
      EvalHappens(l, m);
      EvalFound(p, r, Eval(l, m).1, read);
  }

  lemma {:induction false} AllFound(p: Path, stmts: seq<Stmt>, scope: set<nat>, m: Machine, read: ReadsOf)
    requires Live(p, scope, m) && AllResolved(stmts, scope) && AllErrors(p, stmts, read) == {}
    ensures AllFinds(stmts, m, read)
    decreases |m.io.answers|, stmts
  {
    hide Sound, KnownPath, StmtFinds, StmtErrors;
    if stmts != [] {
      var (o, m1) := Exec(stmts[0], m);
      StmtFound(p, stmts[0], scope, m, read);
      StmtSound(p, stmts[0], scope, m);
      StmtKnown(p, stmts[0], scope);
      if o == Normal {
        AllFound(Analyse(p, stmts[0]).0, stmts[1..], scope + LocalsOf(stmts[0]), m1, read);
      }
    }
  }

  lemma {:induction false} StmtFound(p: Path, s: Stmt, scope: set<nat>, m: Machine, read: ReadsOf)
    requires Live(p, scope, m) && Resolved(s, scope) && StmtErrors(p, s, read) == {}
    ensures StmtFinds(s, m, read)
    decreases |m.io.answers|, s, 1
  {
    hide KnownPath, ScopeErrors, ScopeFinds, AllCertain, AnalyseBranch, ScopeResolved;
    match s
    case ExprStmt(e, _) => EvalFound(p, e, m, read);
    case Declare(_, _) =>
    case DeclareAndAssign(_, e) => EvalFound(p, e, m, read);
    case Assign(_, e) => EvalFound(p, e, m, read);
    case Return(None) =>
    case Return(Some(e)) => EvalFound(p, e, m, read);
    case Raise(e) => EvalFound(p, e, m, read);
    case If(chain) => ChainFound(p, chain, scope, m, read);
    case While(c, b) => WhileFound(p, c, b, scope, m, read);
    case Handle(call, uses, v, vb, x, eb) =>
      var p0 := Record(p, AsIncidents(uses));
      var (a, m1) := Ask(call, uses, m);
      LeafFound(p, call, m, read);
      if a.Some? {
        HandleLive(p, s, scope, m);
        if a.value {
          ScopeFound(AnalyseBranch(p0, Enter(v), vb).0, Enter(Some(x)), eb, scope, m1, read);
        } else {
          ScopeFound(p0, Enter(v), vb, scope, m1, read);
        }
      }
    case Unsafe(b) => AllFound(p, b.stmts, scope, m, read);
  }

  lemma {:induction false} ScopeFound(p: Path, setup: Setup, b: Block, scope: set<nat>, m: Machine, read: ReadsOf)
    requires KnownPath(p, scope) && Sound(p, m)
    requires ScopeResolved(setup, b, scope) && ScopeErrors(p, setup, b, read) == {}
    ensures ScopeFinds(setup, b, m, read)
    decreases |m.io.answers|, b, 1
  {
    hide KnownPath, AllCertain, EvalFinds, ExprErrors, AllErrors, AllFinds;
    BeginSets(p);
    if setup.Test? { EvalFound(Begin(p), setup.e, m, read); }
    if setup.TestAndBind? { LeafFound(Begin(p), setup.id, m, read); }
    if RunSetup(setup, m).0 == Some(true) {
      ScopeLive(p, setup, b, scope, m);
      AllFound(Record(Begin(p), RecordedBy(setup)), b.stmts, scope + BoundBy(setup), RunSetup(setup, m).1, read);
    }
  }

  lemma {:induction false} ChainFound(p: Path, chain: Chain, scope: set<nat>, m: Machine, read: ReadsOf)
    requires KnownPath(p, scope) && Sound(p, m)
    requires ChainResolved(chain, scope) && ChainErrors(p, chain, read) == {}
    ensures ChainFinds(chain, m, read)
    decreases |m.io.answers|, chain
  {
    hide KnownPath, Sound, ScopeErrors, ScopeFinds, AnalyseBranch, ScopeResolved;
    match chain
    case NoElse =>
    case Else(b) => ScopeFound(p, Enter(None), b, scope, m, read);
    case Arm(c, b, rest) =>
      ScopeFound(p, c, b, scope, m, read);
      if ExecScope(c, b, m).Skipped? {
        SkippedLive(p, c, b, scope, m);
        ChainFound(AnalyseBranch(p, c, b).0, rest, scope, ExecScope(c, b, m).m, read);
      }
  }

  lemma {:induction false} WhileFound(p: Path, c: Cond, b: Block, scope: set<nat>, m: Machine, read: ReadsOf)
    requires KnownPath(p, scope) && Sound(p, m)
    requires ScopeResolved(c, b, scope) && ScopeErrors(p, c, b, read) == {}
    ensures WhileFinds(c, b, m, read)
    decreases |m.io.answers|, b, 2
  {
    hide KnownPath, Sound, ScopeErrors, ScopeFinds, ScopeResolved;
    ScopeFound(p, c, b, scope, m, read);
    var r := ExecScope(c, b, m);
    BranchSound(p, c, b, scope, m);
    if r.Ran? && r.o == Normal {
      WhileFound(p, c, b, scope, r.m, read);
    }
  }

  /** No run of a body that is accepted reads a variable that is not initialized. */
  lemma NeverReadsEarly(body: seq<Stmt>, begun: set<Incident>, scope: set<nat>, read: ReadsOf, answers: seq<bool>)
    requires Scoped(body, begun, scope) && AllErrors(Start(begun), body, read) == {}
    ensures AllFinds(body, Initially(begun, answers), read)
  {
    MainLive(begun, scope, answers);
    AllFound(Start(begun), body, scope, Initially(begun, answers), read);
  }
}

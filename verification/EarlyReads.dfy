/**
 Where variables are read before they are initialized, by structure and by the ways there are. Without
 any branches this says exactly which code the analyser accepts, with which errors it rejects other
 code, and when such code really has a run that reads a variable too early.
 */
module EarlyReads {
  import opened Wrappers
  import opened Syntax
  import opened Semantics
  import opened PathAnalysis
  import opened Acceptance
  import opened Ways
  import opened PathSoundness
  import opened Compilation
  import opened Exactness
  import opened Structure
  import opened Reads

  // ----- What is read before it is certain -----

  predicate ReadIn(e: Expr, i: Incident, read: ReadsOf) {
    match e
    case Leaf(id, _) => i in read(id)
    case Logical(_, l, r) => ReadIn(l, i, read) || ReadIn(r, i, read)
  }

  predicate SetupReads(setup: Setup, i: Incident, read: ReadsOf) {
    match setup
    case Test(e) => ReadIn(e, i, read)
    case TestAndBind(id, _, _) => i in read(id)
    case Enter(_) => false
  }

  /** What is wrong with reading a variable that is not certain: `may` if it is potential. */
  function Wrong(read: bool, may: bool): set<ReadError> {
    if read then {if may then NotOnAllPaths else NotInitialized} else {}
  }

  /**
   What is wrong with the reads of one variable that is not certain in front of the statement. Reads
   behind something that gives it are right, and it is potential behind something that may.
   */
  function StmtWrongs(s: Stmt, i: Incident, read: ReadsOf, may: bool): set<ReadError>
    decreases s
  {
    match s
    case ExprStmt(e, _) => Wrong(ReadIn(e, i, read), may)
    case Declare(_, _) => {}
    case DeclareAndAssign(_, e) => Wrong(ReadIn(e, i, read), may)
    case Assign(_, e) => Wrong(ReadIn(e, i, read), may)
    case Return(value) => Wrong(value.Some? && ReadIn(value.value, i, read), may)
    case Raise(e) => Wrong(ReadIn(e, i, read), may)
    case If(chain) => ChainWrongs(chain, i, read, may)
    case While(c, b) => ScopeWrongs(c, b, i, read, may)
    case Handle(call, _, v, vb, x, eb) =>
      Wrong(i in read(call), may) + ScopeWrongs(Enter(v), vb, i, read, may) + ScopeWrongs(Enter(Some(x)), eb, i, read, may)
    case Unsafe(b) => AllWrongs(b.stmts, i, read, may)
  }

  function AllWrongs(stmts: seq<Stmt>, i: Incident, read: ReadsOf, may: bool): set<ReadError>
    decreases stmts
  {
    if stmts == [] then {}
    else StmtWrongs(stmts[0], i, read, may) +
         (if StmtGives(stmts[0], i) then {} else AllWrongs(stmts[1..], i, read, may || StmtMay(stmts[0], i)))
  }

  function ScopeWrongs(setup: Setup, b: Block, i: Incident, read: ReadsOf, may: bool): set<ReadError>
    decreases b
  {
    Wrong(SetupReads(setup, i, read), may) +
    (if i in RecordedBy(setup) then {} else AllWrongs(b.stmts, i, read, may))
  }

  /** The arms of an if statement know nothing of each other. */
  function ChainWrongs(chain: Chain, i: Incident, read: ReadsOf, may: bool): set<ReadError>
    decreases chain
  {
    match chain
    case NoElse => {}
    case Else(b) => ScopeWrongs(Enter(None), b, i, read, may)
    case Arm(c, b, rest) => ScopeWrongs(c, b, i, read, may) + ChainWrongs(rest, i, read, may)
  }

  // ----- These are exactly the errors -----

  type Wrongs = (Incident, bool) -> set<ReadError>

  predicate Unset(p: Path, i: Incident) {
    AboutVariable(i) && i !in AllCertain(p)
  }

  function At(p: Path, wrongs: Wrongs, i: Incident): set<ReadError> {
    wrongs(i, i in AllPotential(p))
  }

  /** There is an error exactly if anything is wrong, and it is one of what is wrong. */
  ghost predicate Agree(errors: set<ReadError>, p: Path, wrongs: Wrongs) {
    && (errors == {} <==> forall i | Unset(p, i) :: At(p, wrongs, i) == {})
    && forall e | e in errors :: exists i :: Unset(p, i) && e in At(p, wrongs, i)
  }

  /** First one part is analysed, which leads to q, and then the other. */
  lemma AgreeFirst(these: set<ReadError>, those: set<ReadError>, p: Path, q: Path, first: Wrongs, second: Wrongs, both: Wrongs)
    requires Agree(these, p, first) && Agree(those, q, second)
    requires forall i | Unset(q, i) :: Unset(p, i)
    requires forall i | Unset(p, i) :: At(p, both, i) == At(p, first, i) + if Unset(q, i) then At(q, second, i) else {}
    ensures Agree(First(these, those), p, both)
  {
    hide Unset, At;
    if these == {} {
      forall e | e in those ensures exists i :: Unset(p, i) && e in At(p, both, i) {
        var i :| Unset(q, i) && e in At(q, second, i);
        assert Unset(p, i) && At(p, both, i) == At(p, first, i) + At(q, second, i);
      }
      forall i | Unset(q, i) && those == {} ensures At(q, second, i) == {} {
      }
    } else {
      var e :| e in these;
      var i :| Unset(p, i) && e in At(p, first, i);
      assert e in At(p, both, i);
    }
  }

  lemma LeafAgrees(p: Path, id: nat, read: ReadsOf)
    ensures Agree(LeafErrors(p, id, read), p, (i, may) => Wrong(i in read(id), may))
  {
    hide AllCertain, AllPotential, LeafErrors;
    LeafErrorsAre(p, id, read);
    assert AboutVariables(read(id));
    var wrongs: Wrongs := (i, may) => Wrong(i in read(id), may);
    forall i | i in read(id) ensures AboutVariable(i) {
    }
    forall e | e in LeafErrors(p, id, read) ensures exists i :: Unset(p, i) && e in At(p, wrongs, i) {
      var i :| i in read(id) && i !in AllCertain(p) && e == if i in AllPotential(p) then NotOnAllPaths else NotInitialized;
      assert Unset(p, i) && e in At(p, wrongs, i);
    }
    forall i | Unset(p, i) && LeafErrors(p, id, read) == {} ensures At(p, wrongs, i) == {} {
      assert i !in read(id);
    }
    if forall i | Unset(p, i) :: At(p, wrongs, i) == {} {
      forall i | i in read(id) ensures i in AllCertain(p) {
        assert Unset(p, i) ==> At(p, wrongs, i) != {};
      }
    }
  }

  function OfExpr(e: Expr, read: ReadsOf): Wrongs {
    (i, may) => Wrong(ReadIn(e, i, read), may)
  }

  function OfSetup(setup: Setup, read: ReadsOf): Wrongs {
    (i, may) => Wrong(SetupReads(setup, i, read), may)
  }

  function OfStmt(s: Stmt, read: ReadsOf): Wrongs {
    (i, may) => StmtWrongs(s, i, read, may)
  }

  function OfAll(stmts: seq<Stmt>, read: ReadsOf): Wrongs {
    (i, may) => AllWrongs(stmts, i, read, may)
  }

  function OfScope(setup: Setup, b: Block, read: ReadsOf): Wrongs {
    (i, may) => ScopeWrongs(setup, b, i, read, may)
  }

  function OfChain(chain: Chain, read: ReadsOf): Wrongs {
    (i, may) => ChainWrongs(chain, i, read, may)
  }

  lemma NothingAgrees(p: Path, wrongs: Wrongs)
    requires forall i | Unset(p, i) :: At(p, wrongs, i) == {}
    ensures Agree({}, p, wrongs)
  {
  }

  lemma SameAgrees(errors: set<ReadError>, p: Path, q: Path, these: Wrongs, those: Wrongs)
    requires Agree(errors, p, these)
    requires forall i :: Unset(p, i) <==> Unset(q, i)
    requires forall i | Unset(p, i) :: At(p, these, i) == At(q, those, i)
    ensures Agree(errors, q, those)
  {
    hide Unset, At;
    forall e | e in errors ensures exists i :: Unset(q, i) && e in At(q, those, i) {
      var i :| Unset(p, i) && e in At(p, these, i);
    }
    forall i | Unset(q, i) && errors == {} ensures At(q, those, i) == {} {
      assert Unset(p, i);
    }
    if forall i | Unset(q, i) :: At(q, those, i) == {} {
      forall i | Unset(p, i) ensures At(p, these, i) == {} {
      }
    }
  }

  lemma {:induction false} ExprAgrees(p: Path, e: Expr, read: ReadsOf)
    ensures Agree(ExprErrors(p, e, read), p, OfExpr(e, read))
  {
    hide Agree, LeafErrors;
    match e
    case Leaf(id, _) =>
      LeafAgrees(p, id, read);
      SameAgrees(LeafErrors(p, id, read), p, p, (i, may) => Wrong(i in read(id), may), OfExpr(e, read));
    case Logical(_, l, r) =>
      ExprAgrees(p, l, read);
      ExprAgrees(p, r, read);
      forall i, may ensures Wrong(ReadIn(e, i, read), may) == Wrong(ReadIn(l, i, read), may) + Wrong(ReadIn(r, i, read), may) {
        assert ReadIn(e, i, read) == (ReadIn(l, i, read) || ReadIn(r, i, read));
      }
      AgreeFirst(ExprErrors(p, l, read), ExprErrors(p, r, read), p, p, OfExpr(l, read), OfExpr(r, read), OfExpr(e, read));
  }

  lemma SetupAgrees(p: Path, setup: Setup, read: ReadsOf)
    ensures Agree(SetupErrors(p, setup, read), p, OfSetup(setup, read))
  {
    hide Agree, LeafErrors, ExprErrors, ReadIn;
    match setup
    case Test(e) =>
      ExprAgrees(p, e, read);
      SameAgrees(ExprErrors(p, e, read), p, p, OfExpr(e, read), OfSetup(setup, read));
    case TestAndBind(id, _, _) =>
      LeafAgrees(p, id, read);
      SameAgrees(LeafErrors(p, id, read), p, p, (i, may) => Wrong(i in read(id), may), OfSetup(setup, read));
    case Enter(_) =>
      assert forall i, may :: Wrong(SetupReads(setup, i, read), may) == {};
      NothingAgrees(p, OfSetup(setup, read));
  }

  lemma {:induction false} AllAgree(p: Path, stmts: seq<Stmt>, read: ReadsOf)
    requires Current(p).branches == []
    ensures Agree(AllErrors(p, stmts, read), p, OfAll(stmts, read))
    decreases stmts
  {
    hide Agree, StmtErrors, StmtWrongs, StmtGives, StmtMay;
    if stmts == [] {
      NothingAgrees(p, OfAll(stmts, read));
    } else {
      var (s, rest, q) := (stmts[0], stmts[1..], Analyse(p, stmts[0]).0);
      StmtAgrees(p, s, read);
      AllAgree(q, rest, read);
      forall i
        ensures Unset(q, i) <==> Unset(p, i) && !StmtGives(s, i)
        ensures i in AllPotential(q) <==> i in AllPotential(p) || StmtMay(s, i)
      {
        After(p, s, i);
      }
      AgreeFirst(StmtErrors(p, s, read), AllErrors(q, rest, read), p, q, OfStmt(s, read), OfAll(rest, read), OfAll(stmts, read));
    }
  }

  lemma After(p: Path, s: Stmt, i: Incident)
    requires Current(p).branches == []
    ensures i in AllCertain(Analyse(p, s).0) <==> i in AllCertain(p) || StmtGives(s, i)
    ensures i in AllPotential(Analyse(p, s).0) <==> i in AllPotential(p) || StmtMay(s, i)
  {
    hide StmtGives, StmtMay, AllCertain, AllPotential;
    StmtGiven(p, s, i);
    StmtMays(p, s, i);
    ExtendsSets(p, Analyse(p, s).0);
    PathSets(p);
  }

  lemma {:induction false} StmtAgrees(p: Path, s: Stmt, read: ReadsOf)
    requires Current(p).branches == []
    ensures Agree(StmtErrors(p, s, read), p, OfStmt(s, read))
    decreases s
  {
    hide Agree, ExprErrors, ScopeErrors, ChainErrors, LeafErrors, AllErrors, ReadIn, ScopeWrongs, ChainWrongs, AllWrongs,
      AnalyseBranch, Unset;
    match s
    case ExprStmt(e, _) => ExprStmtAgrees(p, s, e, read);
    case DeclareAndAssign(_, e) => ExprStmtAgrees(p, s, e, read);
    case Assign(_, e) => ExprStmtAgrees(p, s, e, read);
    case Return(Some(e)) => ExprStmtAgrees(p, s, e, read);
    case Raise(e) => ExprStmtAgrees(p, s, e, read);
    case If(chain) =>
      ChainAgrees(p, chain, read);
      SameAgrees(ChainErrors(p, chain, read), p, p, OfChain(chain, read), OfStmt(s, read));
    case While(c, b) =>
      ScopeAgrees(p, c, b, read);
      SameAgrees(ScopeErrors(p, c, b, read), p, p, OfScope(c, b, read), OfStmt(s, read));
    case Handle(_, uses, v, vb, x, eb) =>
      var p0 := Record(p, AsIncidents(uses));
      ScopeAgrees(p0, Enter(v), vb, read);
      ScopeAgrees(AnalyseBranch(p0, Enter(v), vb).0, Enter(Some(x)), eb, read);
      HandleAgrees(p, s, read);
    case Unsafe(b) =>
      AllAgree(p, b.stmts, read);
      SameAgrees(AllErrors(p, b.stmts, read), p, p, OfAll(b.stmts, read), OfStmt(s, read));
    case _ => NothingAgrees(p, OfStmt(s, read));
  }

  lemma ExprStmtAgrees(p: Path, s: Stmt, e: Expr, read: ReadsOf)
    requires forall i, may :: StmtWrongs(s, i, read, may) == Wrong(ReadIn(e, i, read), may)
    ensures Agree(ExprErrors(p, e, read), p, OfStmt(s, read))
  {
    hide Agree, ExprErrors, StmtWrongs, ReadIn;
    ExprAgrees(p, e, read);
    SameAgrees(ExprErrors(p, e, read), p, p, OfExpr(e, read), OfStmt(s, read));
  }

  lemma HandleAgrees(p: Path, s: Stmt, read: ReadsOf)
    requires Current(p).branches == [] && s.Handle?
    requires var (p0, values, errors) := (Record(p, AsIncidents(s.uses)), Enter(s.valueVar), Enter(Some(s.errorVar)));
      var p1 := AnalyseBranch(p0, values, s.valueBlock).0;
      && Agree(ScopeErrors(p0, values, s.valueBlock, read), p0, OfScope(values, s.valueBlock, read))
      && Agree(ScopeErrors(p1, errors, s.errorBlock, read), p1, OfScope(errors, s.errorBlock, read))
    ensures Agree(StmtErrors(p, s, read), p, OfStmt(s, read))
  {
    hide Agree, ScopeErrors, LeafErrors, ScopeWrongs, AnalyseBranch, AllCertain, AllPotential;
    var (p0, values, errors) := (Record(p, AsIncidents(s.uses)), Enter(s.valueVar), Enter(Some(s.errorVar)));
    var p1 := AnalyseBranch(p0, values, s.valueBlock).0;
    var (first, second) := (ScopeErrors(p0, values, s.valueBlock, read), ScopeErrors(p1, errors, s.errorBlock, read));
    RecordSets(p, AsIncidents(s.uses));
    SameSets(p0, p1);
    SameAgrees(first, p0, p, OfScope(values, s.valueBlock, read), OfScope(values, s.valueBlock, read));
    SameAgrees(second, p1, p, OfScope(errors, s.errorBlock, read), OfScope(errors, s.errorBlock, read));
    LeafAgrees(p, s.call, read);
    var blocks: Wrongs := (i, may) =>
      ScopeWrongs(values, s.valueBlock, i, read, may) + ScopeWrongs(errors, s.errorBlock, i, read, may);
    AgreeFirst(first, second, p, p, OfScope(values, s.valueBlock, read), OfScope(errors, s.errorBlock, read), blocks);
    AgreeFirst(LeafErrors(p, s.call, read), First(first, second), p, p, (i, may) => Wrong(i in read(s.call), may), blocks,
               OfStmt(s, read));
  }

  lemma {:induction false} ScopeAgrees(p: Path, setup: Setup, b: Block, read: ReadsOf)
    ensures Agree(ScopeErrors(p, setup, b, read), p, OfScope(setup, b, read))
    decreases b
  {
    hide Agree, SetupErrors, AllErrors, SetupReads, AllWrongs, AllCertain, AllPotential, RecordedBy;
    var inside := Record(Begin(p), RecordedBy(setup));
    BeginSets(p);
    RecordSets(Begin(p), RecordedBy(setup));
    SetupAgrees(Begin(p), setup, read);
    AllAgree(inside, b.stmts, read);
    SameAgrees(SetupErrors(Begin(p), setup, read), Begin(p), p, OfSetup(setup, read), OfSetup(setup, read));
    AgreeFirst(SetupErrors(Begin(p), setup, read), AllErrors(inside, b.stmts, read), p, inside, OfSetup(setup, read),
               OfAll(b.stmts, read), OfScope(setup, b, read));
  }

  lemma {:induction false} ChainAgrees(p: Path, chain: Chain, read: ReadsOf)
    ensures Agree(ChainErrors(p, chain, read), p, OfChain(chain, read))
    decreases chain
  {
    hide Agree, ScopeErrors, ScopeWrongs, AllCertain, AllPotential, AnalyseBranch;
    match chain
    case NoElse => NothingAgrees(p, OfChain(chain, read));
    case Else(b) =>
      ScopeAgrees(p, Enter(None), b, read);
      SameAgrees(ScopeErrors(p, Enter(None), b, read), p, p, OfScope(Enter(None), b, read), OfChain(chain, read));
    case Arm(c, b, rest) =>
      var p1 := AnalyseBranch(p, c, b).0;
      ScopeAgrees(p, c, b, read);
      ChainAgrees(p1, rest, read);
      SameSets(p, p1);
      AgreeFirst(ScopeErrors(p, c, b, read), ChainErrors(p1, rest, read), p, p1, OfScope(c, b, read), OfChain(rest, read),
                 OfChain(chain, read));
  }

  // ----- What some run reads too early -----

  /** There is a way to a leaf that reads the variable without it having been initialized. */
  predicate StmtMeets(s: Stmt, i: Incident, read: ReadsOf)
    decreases s
  {
    match s
    case ExprStmt(e, _) => ReadIn(e, i, read)
    case Declare(_, _) => false
    case DeclareAndAssign(_, e) => ReadIn(e, i, read)
    case Assign(_, e) => ReadIn(e, i, read)
    case Return(value) => value.Some? && ReadIn(value.value, i, read)
    case Raise(e) => ReadIn(e, i, read)
    case If(chain) => ChainMeets(chain, i, read)
    case While(c, b) => ScopeMeets(c, b, i, read)
    case Handle(call, _, v, vb, x, eb) =>
      i in read(call) || ScopeMeets(Enter(v), vb, i, read) || ScopeMeets(Enter(Some(x)), eb, i, read)
    case Unsafe(b) => AllMeet(b.stmts, i, read)
  }

  predicate AllMeet(stmts: seq<Stmt>, i: Incident, read: ReadsOf)
    decreases stmts
  {
    stmts != [] &&
    (StmtMeets(stmts[0], i, read) || (false in StmtWays(stmts[0], i) && AllMeet(stmts[1..], i, read)))
  }

  predicate ScopeMeets(setup: Setup, b: Block, i: Incident, read: ReadsOf)
    decreases b
  {
    SetupReads(setup, i, read) || (false in SetupWays(setup, true, i) && AllMeet(b.stmts, i, read))
  }

  predicate ChainMeets(chain: Chain, i: Incident, read: ReadsOf)
    decreases chain
  {
    match chain
    case NoElse => false
    case Else(b) => ScopeMeets(Enter(None), b, i, read)
    case Arm(c, b, rest) => ScopeMeets(c, b, i, read) || (false in SkipWays(c, b, i) && ChainMeets(rest, i, read))
  }

  /** A machine with these answers in which the incident has not happened. */
  predicate Begins(m: Machine, i: Incident, answers: seq<bool>) {
    i !in m.happened && m.io.answers == answers
  }

  lemma EvalKeeps(e: Expr, v: bool, i: Incident)
    requires AboutVariable(i)
    ensures EvalWays(e, v, i) == {false}
  {
    if i.VariableInit? { EvalSpares(e, v, i); } else { EvalLeaves(e, v, i); }
  }

  lemma {:induction false} EvalReads(e: Expr, i: Incident, read: ReadsOf) returns (answers: seq<bool>)
    requires AboutVariable(i) && ReadIn(e, i, read)
    ensures forall m | Begins(m, i, answers) :: !EvalFinds(e, m, read)
  {
    match e
    case Leaf(_, _) => answers := [];
    case Logical(isAnd, l, r) =>
      if ReadIn(l, i, read) {
        answers := EvalReads(l, i, read);
      } else {
        EvalKeeps(l, isAnd, i);
        var rest := EvalReads(r, i, read);
        answers := EvalAnswers(l, isAnd, i, false) + rest;
        forall m | Begins(m, i, answers) ensures !EvalFinds(e, m, read) {
          EvalTakes(l, isAnd, i, false, rest, m);
          assert Begins(Eval(l, m).1, i, rest);
        }
      }
  }

  lemma SetupEarly(setup: Setup, i: Incident, read: ReadsOf) returns (answers: seq<bool>)
    requires AboutVariable(i) && SetupReads(setup, i, read)
    ensures forall m | Begins(m, i, answers) :: !SetupFinds(setup, m, read)
  {
    match setup
    case Test(e) => answers := EvalReads(e, i, read);
    case TestAndBind(_, _, _) => answers := [];
  }

  lemma {:induction false} AllEarly(stmts: seq<Stmt>, scope: set<nat>, i: Incident, read: ReadsOf) returns (answers: seq<bool>)
    requires AllResolved(stmts, scope) && AboutVariable(i) && AllMeet(stmts, i, read)
    ensures forall m | Begins(m, i, answers) :: !AllFinds(stmts, m, read)
    decreases stmts
  {
    hide StmtFinds, StmtMeets, StmtWays;
    var (s, others) := (stmts[0], stmts[1..]);
    if StmtMeets(s, i, read) {
      answers := StmtEarly(s, scope, i, read);
    } else {
      var rest := AllEarly(others, scope + LocalsOf(s), i, read);
      answers := StmtAnswers(s, i, false) + rest;
      forall m | Begins(m, i, answers) ensures !AllFinds(stmts, m, read) {
        StmtTakes(s, scope, i, false, rest, m);
        assert Begins(Exec(s, m).1, i, rest);
      }
    }
  }

  lemma {:induction false} StmtEarly(s: Stmt, scope: set<nat>, i: Incident, read: ReadsOf) returns (answers: seq<bool>)
    requires Resolved(s, scope) && AboutVariable(i) && StmtMeets(s, i, read)
    ensures forall m | Begins(m, i, answers) :: !StmtFinds(s, m, read)
    decreases s
  {
    hide ScopeFinds, ScopeMeets, ChainFinds, ScopeResolved;
    match s
    case ExprStmt(e, _) => answers := EvalReads(e, i, read);
    case DeclareAndAssign(_, e) => answers := EvalReads(e, i, read);
    case Assign(_, e) => answers := EvalReads(e, i, read);
    case Return(Some(e)) => answers := EvalReads(e, i, read);
    case Raise(e) => answers := EvalReads(e, i, read);
    case If(chain) => answers := ChainEarly(chain, scope, i, read);
    case While(c, b) => answers := ScopeEarly(c, b, scope, i, read);
    case Handle(call, uses, v, vb, x, eb) =>
      if i in read(call) {
        answers := [];
      } else if ScopeMeets(Enter(v), vb, i, read) {
        answers := ScopeEarly(Enter(v), vb, scope, i, read);
        AnsweredFirst(s, scope, i, read, false, answers);
        answers := [false] + answers;
      } else {
        answers := ScopeEarly(Enter(Some(x)), eb, scope, i, read);
        AnsweredFirst(s, scope, i, read, true, answers);
        answers := [true] + answers;
      }
    case Unsafe(b) => answers := AllEarly(b.stmts, scope, i, read);
  }

  lemma AnsweredFirst(s: Stmt, scope: set<nat>, i: Incident, read: ReadsOf, error: bool, answers: seq<bool>)
    requires s.Handle? && AboutVariable(i)
    requires forall m | Begins(m, i, answers) ::
               if error then !ScopeFinds(Enter(Some(s.errorVar)), s.errorBlock, m, read)
               else !ScopeFinds(Enter(s.valueVar), s.valueBlock, m, read)
    ensures forall m | Begins(m, i, [error] + answers) :: !StmtFinds(s, m, read)
  {
    hide ScopeFinds;
    forall m | Begins(m, i, [error] + answers) ensures !StmtFinds(s, m, read) {
      assert m.io.answers[1..] == answers;
      assert Begins(Ask(s.call, s.uses, m).1, i, answers);
    }
  }

  lemma {:induction false} ScopeEarly(setup: Setup, b: Block, scope: set<nat>, i: Incident, read: ReadsOf)
    returns (answers: seq<bool>)
    requires ScopeResolved(setup, b, scope) && AboutVariable(i) && ScopeMeets(setup, b, i, read)
    ensures forall m | Begins(m, i, answers) :: !ScopeFinds(setup, b, m, read)
    decreases b
  {
    hide SetupFinds, SetupReads, SetupWays, AllMeet, AllFinds, RunSetup;
    if SetupReads(setup, i, read) {
      answers := SetupEarly(setup, i, read);
    } else {
      var rest := AllEarly(b.stmts, scope + BoundBy(setup), i, read);
      answers := SetupAnswers(setup, true, i, false) + rest;
      forall m | Begins(m, i, answers) ensures !ScopeFinds(setup, b, m, read) {
        SetupTakes(setup, true, i, false, rest, m);
        assert Begins(RunSetup(setup, m).1, i, rest);
      }
    }
  }

  lemma {:induction false} ChainEarly(chain: Chain, scope: set<nat>, i: Incident, read: ReadsOf) returns (answers: seq<bool>)
    requires ChainResolved(chain, scope) && AboutVariable(i) && ChainMeets(chain, i, read)
    ensures forall m | Begins(m, i, answers) :: !ChainFinds(chain, m, read)
    decreases chain
  {
    hide ScopeFinds, ScopeMeets, SkipWays, ExecScope, ScopeResolved;
    match chain
    case Else(b) => answers := ScopeEarly(Enter(None), b, scope, i, read);
    case Arm(c, b, others) =>
      if ScopeMeets(c, b, i, read) {
        answers := ScopeEarly(c, b, scope, i, read);
      } else {
        var rest := ChainEarly(others, scope, i, read);
        answers := SkipAnswers(c, b, i, false) + rest;
        forall m | Begins(m, i, answers) ensures !ChainFinds(chain, m, read) {
          SkipTakes(c, b, scope, i, false, rest, m);
          assert Begins(ExecScope(c, b, m).m, i, rest);
        }
      }
  }

  // ----- And no run reads anything else too early -----

  lemma {:induction false} EvalMet(e: Expr, m: Machine, read: ReadsOf) returns (i: Incident)
    requires !EvalFinds(e, m, read)
    ensures AboutVariable(i) && i !in m.happened && ReadIn(e, i, read)
  {
    match e
    case Leaf(id, _) => i := LeafMet(id, m, read);
    case Logical(isAnd, l, r) =>
      if !EvalFinds(l, m, read) {
        i := EvalMet(l, m, read);
      } else {
        i := EvalMet(r, Eval(l, m).1, read);
        var way := EvalAlong(l, i, m);
      }
  }

  lemma LeafMet(id: nat, m: Machine, read: ReadsOf) returns (i: Incident)
    requires !Finds(m, id, read)
    ensures AboutVariable(i) && i !in m.happened && i in read(id)
  {
    assert AboutVariables(read(id));
    i :| i in read(id) && i !in m.happened;
  }

  lemma SetupMet(setup: Setup, m: Machine, read: ReadsOf) returns (i: Incident)
    requires !SetupFinds(setup, m, read)
    ensures AboutVariable(i) && i !in m.happened && SetupReads(setup, i, read)
  {
    match setup
    case Test(e) => i := EvalMet(e, m, read);
    case TestAndBind(id, _, _) => i := LeafMet(id, m, read);
  }

  /** What has happened to variables in scope after a statement. */
  lemma KnownAfter(s: Stmt, scope: set<nat>, m: Machine)
    requires Resolved(s, scope) && Known(m.happened, scope) && Exec(s, m).0 == Normal
    ensures Known(Exec(s, m).1.happened, scope + LocalsOf(s))
  {
    forall i | i in Exec(s, m).1.happened && i.VariableInit? ensures i.id in scope + LocalsOf(s) {
      var way := StmtAlong(s, scope, i, m);
      if way { StmtBrings(s, scope, i); }
    }
  }

  lemma KnownWithin(setup: Setup, scope: set<nat>, m: Machine)
    requires Known(m.happened, scope) && RunSetup(setup, m).0.Some?
    ensures Known(RunSetup(setup, m).1.happened, scope + BoundBy(setup))
  {
    forall i | i in RunSetup(setup, m).1.happened && i.VariableInit? ensures i.id in scope + BoundBy(setup) {
      var way := SetupAlong(setup, i, m);
      if way { SetupBrings(setup, RunSetup(setup, m).0.value, i); }
    }
  }

  lemma KnownBehind(c: Cond, b: Block, scope: set<nat>, m: Machine)
    requires ScopeResolved(c, b, scope) && Known(m.happened, scope)
    ensures var r := ExecScope(c, b, m);
      r.Skipped? || r.o == Normal ==> Known(r.m.happened, scope)
  {
    var r := ExecScope(c, b, m);
    forall i | i in r.m.happened && i.VariableInit? && (r.Skipped? || r.o == Normal) ensures i.id in scope {
      if r.Skipped? {
        var way := SkipAlong(c, b, scope, i, m);
        if way { SkipBrings(c, b, i); }
      } else {
        var way := ScopeAlong(c, b, scope, i, m);
        if way { ScopeBrings(c, b, scope, i); }
      }
    }
  }

  lemma {:induction false} AllMet(stmts: seq<Stmt>, scope: set<nat>, m: Machine, read: ReadsOf) returns (i: Incident)
    requires AllResolved(stmts, scope) && Known(m.happened, scope) && !AllFinds(stmts, m, read)
    ensures AboutVariable(i) && i !in m.happened && AllMeet(stmts, i, read)
    decreases |m.io.answers|, stmts
  {
    hide StmtFinds, StmtMeets, StmtWays;
    var s := stmts[0];
    if !StmtFinds(s, m, read) {
      i := StmtMet(s, scope, m, read);
    } else {
      KnownAfter(s, scope, m);
      i := AllMet(stmts[1..], scope + LocalsOf(s), Exec(s, m).1, read);
      var way := StmtAlong(s, scope, i, m);
    }
  }

  lemma {:induction false} StmtMet(s: Stmt, scope: set<nat>, m: Machine, read: ReadsOf) returns (i: Incident)
    requires Resolved(s, scope) && Known(m.happened, scope) && !StmtFinds(s, m, read)
    ensures AboutVariable(i) && i !in m.happened && StmtMeets(s, i, read)
    decreases |m.io.answers|, s, 1
  {
    hide ScopeFinds, ScopeMeets, ScopeResolved;
    match s
    case ExprStmt(e, _) => i := EvalMet(e, m, read);
    case DeclareAndAssign(_, e) => i := EvalMet(e, m, read);
    case Assign(_, e) => i := EvalMet(e, m, read);
    case Return(Some(e)) => i := EvalMet(e, m, read);
    case Raise(e) => i := EvalMet(e, m, read);
    case If(chain) => i := ChainMet(chain, scope, m, read);
    case While(c, b) => i := WhileMet(c, b, scope, m, read);
    case Handle(call, uses, v, vb, x, eb) =>
      if !Finds(m, call, read) {
        i := LeafMet(call, m, read);
      } else {
        var (a, m1) := Ask(call, uses, m);
        if a.value {
          i := ScopeMet(Enter(Some(x)), eb, scope, m1, read);
        } else {
          i := ScopeMet(Enter(v), vb, scope, m1, read);
        }
      }
    case Unsafe(b) => i := AllMet(b.stmts, scope, m, read);
  }

  lemma {:induction false} WhileMet(c: Cond, b: Block, scope: set<nat>, m: Machine, read: ReadsOf) returns (i: Incident)
    requires ScopeResolved(c, b, scope) && Known(m.happened, scope) && !WhileFinds(c, b, m, read)
    ensures AboutVariable(i) && i !in m.happened && ScopeMeets(c, b, i, read)
    decreases |m.io.answers|, b, 2
  {
    hide ScopeFinds, ScopeMeets, ScopeResolved, Known, ExecScope;
    if !ScopeFinds(c, b, m, read) {
      i := ScopeMet(c, b, scope, m, read);
    } else {
      KnownBehind(c, b, scope, m);
      i := WhileMet(c, b, scope, ExecScope(c, b, m).m, read);
      KnownIsDead(i, scope, m);
      var way := ScopeAlong(c, b, scope, i, m);
    }
  }

  lemma KnownIsDead(i: Incident, scope: set<nat>, m: Machine)
    requires Known(m.happened, scope)
    ensures Dead(i, scope, m)
  {
  }

  lemma {:induction false} ScopeMet(setup: Setup, b: Block, scope: set<nat>, m: Machine, read: ReadsOf)
    returns (i: Incident)
    requires ScopeResolved(setup, b, scope) && Known(m.happened, scope) && !ScopeFinds(setup, b, m, read)
    ensures AboutVariable(i) && i !in m.happened && ScopeMeets(setup, b, i, read)
    decreases |m.io.answers|, b, 1
  {
    hide SetupFinds, SetupReads, SetupWays, AllMeet, AllFinds, RunSetup, Known;
    if !SetupFinds(setup, m, read) {
      i := SetupMet(setup, m, read);
    } else {
      KnownWithin(setup, scope, m);
      i := AllMet(b.stmts, scope + BoundBy(setup), RunSetup(setup, m).1, read);
      var way := SetupAlong(setup, i, m);
    }
  }

  lemma {:induction false} ChainMet(chain: Chain, scope: set<nat>, m: Machine, read: ReadsOf) returns (i: Incident)
    requires ChainResolved(chain, scope) && Known(m.happened, scope) && !ChainFinds(chain, m, read)
    ensures AboutVariable(i) && i !in m.happened && ChainMeets(chain, i, read)
    decreases |m.io.answers|, chain
  {
    hide ScopeFinds, ScopeMeets, SkipWays, ExecScope, ScopeResolved, Known;
    match chain
    case Else(b) => i := ScopeMet(Enter(None), b, scope, m, read);
    case Arm(c, b, rest) =>
      if !ScopeFinds(c, b, m, read) {
        i := ScopeMet(c, b, scope, m, read);
      } else {
        KnownBehind(c, b, scope, m);
        i := ChainMet(rest, scope, ExecScope(c, b, m).m, read);
        KnownIsDead(i, scope, m);
        var way := SkipAlong(c, b, scope, i, m);
      }
  }

  /** Some run of a body reads a variable too early exactly if there is a way to such a read. */
  lemma MetExactly(body: seq<Stmt>, begun: set<Incident>, scope: set<nat>, read: ReadsOf)
    requires Scoped(body, begun, scope)
    ensures (forall answers :: AllFinds(body, Initially(begun, answers), read)) <==>
            forall i | AboutVariable(i) && i !in begun :: !AllMeet(body, i, read)
  {
    hide AllFinds, AllMeet;
    forall answers | !AllFinds(body, Initially(begun, answers), read)
      ensures exists i :: AboutVariable(i) && i !in begun && AllMeet(body, i, read)
    {
      var i := AllMet(body, scope, Initially(begun, answers), read);
    }
    forall i | AboutVariable(i) && i !in begun && AllMeet(body, i, read)
      ensures exists answers :: !AllFinds(body, Initially(begun, answers), read)
    {
      var answers := AllEarly(body, scope, i, read);
      assert Begins(Initially(begun, answers), i, answers);
    }
  }

  // ----- Functions -----

  /**
   What the analysis of a body says: a read is wrong of a variable that is neither initialized before
   the body nor given in front of the read. Nothing else is an error.
   */
  lemma ErrorsExactly(body: seq<Stmt>, begun: set<Incident>, read: ReadsOf)
    ensures var errors := AllErrors(Start(begun), body, read);
      && (errors == {} <==> forall i | AboutVariable(i) && i !in begun :: AllWrongs(body, i, read, false) == {})
      && forall e | e in errors :: exists i :: AboutVariable(i) && i !in begun && e in AllWrongs(body, i, read, false)
  {
    hide AllErrors, AllWrongs;
    var p := Start(begun);
    AllAgree(p, body, read);
    assert forall i | i !in begun :: At(p, OfAll(body, read), i) == AllWrongs(body, i, read, false);
    assert forall i :: Unset(p, i) <==> AboutVariable(i) && i !in begun;
  }

  lemma {:induction false} ExprUnread(e: Expr, i: Incident, read: ReadsOf)
    requires forall id: nat :: i !in read(id)
    ensures !ReadIn(e, i, read)
  {
    if e.Logical? {
      ExprUnread(e.left, i, read);
      ExprUnread(e.right, i, read);
    }
  }

  lemma {:induction false} AllUnread(stmts: seq<Stmt>, i: Incident, read: ReadsOf, may: bool)
    requires forall id: nat :: i !in read(id)
    ensures AllWrongs(stmts, i, read, may) == {}
    decreases stmts
  {
    if stmts != [] {
      StmtUnread(stmts[0], i, read, may);
      AllUnread(stmts[1..], i, read, may || StmtMay(stmts[0], i));
    }
  }

  lemma {:induction false} StmtUnread(s: Stmt, i: Incident, read: ReadsOf, may: bool)
    requires forall id: nat :: i !in read(id)
    ensures StmtWrongs(s, i, read, may) == {}
    decreases s
  {
    hide ScopeWrongs;
    match s
    case ExprStmt(e, _) => ExprUnread(e, i, read);
    case DeclareAndAssign(_, e) => ExprUnread(e, i, read);
    case Assign(_, e) => ExprUnread(e, i, read);
    case Return(Some(e)) => ExprUnread(e, i, read);
    case Raise(e) => ExprUnread(e, i, read);
    case If(chain) => ChainUnread(chain, i, read, may);
    case While(c, b) => ScopeUnread(c, b, i, read, may);
    case Handle(_, _, v, vb, x, eb) =>
      ScopeUnread(Enter(v), vb, i, read, may);
      ScopeUnread(Enter(Some(x)), eb, i, read, may);
    case Unsafe(b) => AllUnread(b.stmts, i, read, may);
    case _ =>
  }

  lemma {:induction false} ScopeUnread(setup: Setup, b: Block, i: Incident, read: ReadsOf, may: bool)
    requires forall id: nat :: i !in read(id)
    ensures ScopeWrongs(setup, b, i, read, may) == {}
    decreases b
  {
    if setup.Test? { ExprUnread(setup.e, i, read); }
    AllUnread(b.stmts, i, read, may);
  }

  lemma {:induction false} ChainUnread(chain: Chain, i: Incident, read: ReadsOf, may: bool)
    requires forall id: nat :: i !in read(id)
    ensures ChainWrongs(chain, i, read, may) == {}
    decreases chain
  {
    match chain
    case NoElse =>
    case Else(b) => ScopeUnread(Enter(None), b, i, read, may);
    case Arm(c, b, rest) =>
      ScopeUnread(c, b, i, read, may);
      ChainUnread(rest, i, read, may);
  }

  /** A body that only reads what is initialized before it passes, whatever it does. */
  lemma InitializedPasses(body: seq<Stmt>, begun: set<Incident>, read: ReadsOf)
    requires forall id: nat :: read(id) <= begun
    ensures AllErrors(Start(begun), body, read) == {}
  {
    hide AllErrors, AllWrongs;
    ErrorsExactly(body, begun, read);
    forall i | AboutVariable(i) && i !in begun ensures AllWrongs(body, i, read, false) == {} {
      AllUnread(body, i, read, false);
    }
  }

  // ----- When it is rejected for a reason -----

  /** No code is behind a statement that has no way through it. */
  predicate StmtLive(s: Stmt)
    decreases s
  {
    match s
    case If(chain) => ChainLive(chain)
    case While(_, b) => AllLive(b.stmts)
    case Handle(_, _, _, vb, _, eb) => AllLive(vb.stmts) && AllLive(eb.stmts)
    case Unsafe(b) => AllLive(b.stmts)
    case _ => true
  }

  predicate AllLive(stmts: seq<Stmt>)
    decreases stmts
  {
    stmts == [] ||
    (StmtLive(stmts[0]) && AllLive(stmts[1..]) && (stmts[1..] == [] || StmtWays(stmts[0], Returned) != {}))
  }

  predicate ChainLive(chain: Chain)
    decreases chain
  {
    match chain
    case NoElse => true
    case Else(b) => AllLive(b.stmts)
    case Arm(_, b, rest) => AllLive(b.stmts) && ChainLive(rest)
  }

  /** Where the analyser is exact about a variable: local ones only where control never leaves early. */
  predicate Plain(i: Incident, stays: bool, live: bool) {
    (i.VariableInit? && stays) || (i.InstanceVarInit? && (stays || live))
  }

  /** If a statement does not give the variable, there is a way through it without. */
  lemma WayWithout(s: Stmt, scope: set<nat>, i: Incident)
    requires Resolved(s, scope) && Plain(i, Stays(s), StmtWays(s, Returned) != {}) && !StmtGives(s, i)
    ensures false in StmtWays(s, i)
  {
    hide StmtGives, StmtWays, Stays;
    if i.VariableInit? {
      StmtOnWays(s, i);
    } else {
      if Stays(s) { StmtOnWays(s, VariableInit(0)); }
      StmtSettled(Start({}), s, scope, i);
      StmtReturned(Start({}), s, scope, i);
      StmtReturned(Start({}), s, scope, Returned);
      StmtReturned(Start({}), s, scope, VariableInit(0));
      StmtGiven(Start({}), s, i);
      NoWay(StmtWays(s, i));
    }
  }

  lemma SetupWithout(setup: Setup, b: Block, i: Incident)
    requires AboutVariable(i)
    ensures i !in RecordedBy(setup) ==> false in SetupWays(setup, true, i)
    ensures !setup.Enter? ==> false in SkipWays(setup, b, i)
  {
    if setup.Test? {
      EvalKeeps(setup.e, true, i);
      EvalKeeps(setup.e, false, i);
    }
  }

  lemma {:induction false} WrongAllMeet(stmts: seq<Stmt>, scope: set<nat>, i: Incident, read: ReadsOf, may: bool)
    requires AllResolved(stmts, scope) && Plain(i, AllStay(stmts), AllLive(stmts))
    requires AllWrongs(stmts, i, read, may) != {}
    ensures AllMeet(stmts, i, read)
    decreases stmts
  {
    hide StmtWrongs, StmtMeets, StmtGives, StmtWays, Stays, StmtLive;
    var (s, rest) := (stmts[0], stmts[1..]);
    if StmtWrongs(s, i, read, may) != {} {
      WrongMeets(s, scope, i, read, may);
    } else {
      WrongAllMeet(rest, scope + LocalsOf(s), i, read, may || StmtMay(s, i));
      WayWithout(s, scope, i);
    }
  }

  lemma {:induction false} WrongMeets(s: Stmt, scope: set<nat>, i: Incident, read: ReadsOf, may: bool)
    requires Resolved(s, scope) && Plain(i, Stays(s), StmtLive(s)) && StmtWrongs(s, i, read, may) != {}
    ensures StmtMeets(s, i, read)
    decreases s
  {
    hide ScopeWrongs, ScopeMeets, ScopeResolved;
    match s
    case If(chain) => WrongChainMeets(chain, scope, i, read, may);
    case While(c, b) => WrongScopeMeets(c, b, scope, i, read, may);
    case Handle(_, _, v, vb, x, eb) =>
      if ScopeWrongs(Enter(v), vb, i, read, may) != {} { WrongScopeMeets(Enter(v), vb, scope, i, read, may); }
      else if ScopeWrongs(Enter(Some(x)), eb, i, read, may) != {} { WrongScopeMeets(Enter(Some(x)), eb, scope, i, read, may); }
    case Unsafe(b) => WrongAllMeet(b.stmts, scope, i, read, may);
    case _ =>
  }

  lemma {:induction false} WrongScopeMeets(setup: Setup, b: Block, scope: set<nat>, i: Incident, read: ReadsOf, may: bool)
    requires ScopeResolved(setup, b, scope) && Plain(i, AllStay(b.stmts), AllLive(b.stmts))
    requires ScopeWrongs(setup, b, i, read, may) != {}
    ensures ScopeMeets(setup, b, i, read)
    decreases b
  {
    hide SetupReads, SetupWays, AllWrongs, AllMeet;
    SetupWithout(setup, b, i);
    if AllWrongs(b.stmts, i, read, may) != {} { WrongAllMeet(b.stmts, scope + BoundBy(setup), i, read, may); }
  }

  lemma {:induction false} WrongChainMeets(chain: Chain, scope: set<nat>, i: Incident, read: ReadsOf, may: bool)
    requires ChainResolved(chain, scope) && Plain(i, ChainStays(chain), ChainLive(chain))
    requires ChainWrongs(chain, i, read, may) != {}
    ensures ChainMeets(chain, i, read)
    decreases chain
  {
    hide ScopeWrongs, ScopeMeets, SkipWays, ScopeResolved;
    match chain
    case Else(b) => WrongScopeMeets(Enter(None), b, scope, i, read, may);
    case Arm(c, b, rest) =>
      SetupWithout(c, b, i);
      if ScopeWrongs(c, b, i, read, may) != {} { WrongScopeMeets(c, b, scope, i, read, may); }
      else { WrongChainMeets(rest, scope, i, read, may); }
  }

  /**
   If control never leaves a body early, or if it only reads variables of the instance and has no dead
   code, it passes exactly if no run reads a variable that is not initialized.
   */
  lemma PassesExactly(body: seq<Stmt>, begun: set<Incident>, scope: set<nat>, read: ReadsOf)
    requires Scoped(body, begun, scope)
    requires AllStay(body) || (AllLive(body) && forall id: nat :: forall i | i in read(id) :: i.InstanceVarInit?)
    ensures AllErrors(Start(begun), body, read) == {} <==> forall answers :: AllFinds(body, Initially(begun, answers), read)
  {
    hide AllErrors, AllWrongs, AllFinds, AllMeet;
    ErrorsExactly(body, begun, read);
    MetExactly(body, begun, scope, read);
    forall i | AboutVariable(i) && i !in begun && AllWrongs(body, i, read, false) != {} ensures AllMeet(body, i, read) {
      if forall id: nat :: i !in read(id) { AllUnread(body, i, read, false); }
      WrongAllMeet(body, scope, i, read, false);
    }
    if AllErrors(Start(begun), body, read) == {} {
      forall answers ensures AllFinds(body, Initially(begun, answers), read) {
        NeverReadsEarly(body, begun, scope, read, answers);
      }
    }
  }

  /**
   A body is rejected although no run reads a variable too early exactly if something in it is wrong,
   but there is no way to a wrong read.
   */
  lemma RejectedInVain(body: seq<Stmt>, begun: set<Incident>, scope: set<nat>, read: ReadsOf)
    requires Scoped(body, begun, scope)
    ensures AllErrors(Start(begun), body, read) != {} && (forall answers :: AllFinds(body, Initially(begun, answers), read)) <==>
            && (exists i :: AboutVariable(i) && i !in begun && AllWrongs(body, i, read, false) != {})
            && (forall i | AboutVariable(i) && i !in begun :: !AllMeet(body, i, read))
  {
    hide AllErrors, AllWrongs, AllFinds, AllMeet;
    ErrorsExactly(body, begun, read);
    MetExactly(body, begun, scope, read);
  }

  /** Leaf 0 reads variable 0. */
  const READS_VARIABLE: ReadsOf := (id: nat) => if id == 0 then {VariableInit(0)} else {}

  /** Code behind a return is rejected in vain. */
  lemma DeadCodeIsRejected(answers: seq<bool>)
    ensures var (body, read) := ([Return(None), ExprStmt(Leaf(0, {}), false)], READS_VARIABLE);
      && Scoped(body, {}, {}) && AllErrors(Start({}), body, read) == {NotInitialized}
      && AllFinds(body, Initially({}, answers), read)
  {
    hide AllErrors, AllFinds, Scoped, AllCertain, AllPotential, Analyse;
    var (use, read) := (ExprStmt(Leaf(0, {}), false), READS_VARIABLE);
    DeadIsScoped(use, read, answers);
    NothingBegun();
    UseRejected(Analyse(Start({}), Return(None)).0, read);
    BehindReturn(read, use);
  }

  lemma DeadIsScoped(use: Stmt, read: ReadsOf, answers: seq<bool>)
    requires use == ExprStmt(Leaf(0, {}), false)
    ensures Scoped([Return(None), use], {}, {}) && AllFinds([Return(None), use], Initially({}, answers), read)
  {
    var body := [Return(None), use];
    assert body[1..] == [use] && [use][1..] == [];
    assert AllResolved([], {} + LocalsOf(use)) && AllResolved([use], {} + LocalsOf(Return(None)));
  }

  lemma NothingBegun()
    ensures var q := Analyse(Start({}), Return(None)).0;
      VariableInit(0) !in AllCertain(q) && VariableInit(0) !in AllPotential(q)
  {
    hide AllCertain, AllPotential, Start;
    MainLive({}, {}, []);
    RecordSets(Start({}), {Returned});
  }

  lemma BehindReturn(read: ReadsOf, use: Stmt)
    ensures AllErrors(Start({}), [Return(None), use], read) == AllErrors(Analyse(Start({}), Return(None)).0, [use], read)
  {
    hide Analyse;
    var body := [Return(None), use];
    assert body[1..] == [use] && StmtErrors(Start({}), body[0], read) == {};
  }

  lemma UseRejected(q: Path, read: ReadsOf)
    requires read(0) == {VariableInit(0)} && Current(q).branches == []
    ensures VariableInit(0) !in AllCertain(q) && VariableInit(0) !in AllPotential(q) ==>
              AllErrors(q, [ExprStmt(Leaf(0, {}), false)], read) == {NotInitialized}
  {
    hide Analyse, AllCertain, AllPotential;
    LeafErrorsAre(q, 0, read);
    assert VariableInit(0) in read(0);
  }
}

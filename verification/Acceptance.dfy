/** Where a variable may be read: where its initialization is certain. */
module Acceptance {
  import opened Wrappers
  import opened Syntax
  import opened PathAnalysis

  /** The initializations of the variables that a leaf expression reads. */
  type ReadsOf = read: nat -> set<Incident> | OnlyVariables(read) witness (_: nat) => {}

  ghost predicate OnlyVariables(read: nat -> set<Incident>) {
    forall id: nat :: AboutVariables(read(id))
  }

  predicate AboutVariables(incidents: set<Incident>) {
    forall i | i in incidents :: AboutVariable(i)
  }

  predicate AboutVariable(i: Incident) {
    i.VariableInit? || i.InstanceVarInit?
  }

  datatype ReadError = NotInitialized | NotOnAllPaths

  /**
   Reading is an error unless the initialization is certain. Of the variables that a leaf reads any
   may be looked at first.
   */
  function LeafErrors(p: Path, id: nat, read: ReadsOf): set<ReadError> {
    set i | i in read(id) && i !in AllCertain(p) :: if i in AllPotential(p) then NotOnAllPaths else NotInitialized
  }

  lemma LeafErrorsAre(p: Path, id: nat, read: ReadsOf)
    ensures LeafErrors(p, id, read) == {} <==> read(id) <= AllCertain(p)
    ensures NotOnAllPaths in LeafErrors(p, id, read) <==> exists i :: i in read(id) && i !in AllCertain(p) && i in AllPotential(p)
    ensures NotInitialized in LeafErrors(p, id, read) <==> exists i :: i in read(id) && i !in AllCertain(p) && i !in AllPotential(p)
  {
    hide AllCertain, AllPotential;
    forall i | i in read(id) && i !in AllCertain(p)
      ensures (if i in AllPotential(p) then NotOnAllPaths else NotInitialized) in LeafErrors(p, id, read)
    {
    }
  }

  /** The first error ends the analysis. */
  function First(these: set<ReadError>, those: set<ReadError>): set<ReadError> {
    if these != {} then these else those
  }

  function ExprErrors(p: Path, e: Expr, read: ReadsOf): set<ReadError> {
    match e
    case Leaf(id, _) => LeafErrors(p, id, read)
    case Logical(_, l, r) => First(ExprErrors(p, l, read), ExprErrors(p, r, read))
  }

  function SetupErrors(p: Path, setup: Setup, read: ReadsOf): set<ReadError> {
    match setup
    case Test(e) => ExprErrors(p, e, read)
    case TestAndBind(id, _, _) => LeafErrors(p, id, read)
    case Enter(_) => {}
  }

  function StmtErrors(p: Path, s: Stmt, read: ReadsOf): set<ReadError>
    requires Current(p).branches == []
    decreases s
  {
    match s
    case ExprStmt(e, _) => ExprErrors(p, e, read)
    case Declare(_, _) => {}
    case DeclareAndAssign(_, e) => ExprErrors(p, e, read)
    case Assign(_, e) => ExprErrors(p, e, read)
    case Return(None) => {}
    case Return(Some(e)) => ExprErrors(p, e, read)
    case Raise(e) => ExprErrors(p, e, read)
    case If(chain) => ChainErrors(p, chain, read)
    case While(c, b) => ScopeErrors(p, c, b, read)
    case Handle(call, uses, v, vb, x, eb) =>
      var p0 := Record(p, AsIncidents(uses));
      First(LeafErrors(p, call, read),
            First(ScopeErrors(p0, Enter(v), vb, read),
                  ScopeErrors(AnalyseBranch(p0, Enter(v), vb).0, Enter(Some(x)), eb, read)))
    case Unsafe(b) => AllErrors(p, b.stmts, read)
  }

  function AllErrors(p: Path, stmts: seq<Stmt>, read: ReadsOf): set<ReadError>
    requires Current(p).branches == []
    decreases stmts
  {
    if stmts == [] then {}
    else First(StmtErrors(p, stmts[0], read), AllErrors(Analyse(p, stmts[0]).0, stmts[1..], read))
  }

  function ScopeErrors(p: Path, setup: Setup, b: Block, read: ReadsOf): set<ReadError>
    decreases b
  {
    First(SetupErrors(Begin(p), setup, read), AllErrors(Record(Begin(p), RecordedBy(setup)), b.stmts, read))
  }

  function ChainErrors(p: Path, chain: Chain, read: ReadsOf): set<ReadError>
    decreases chain
  {
    match chain
    case NoElse => {}
    case Else(b) => ScopeErrors(p, Enter(None), b, read)
    case Arm(c, b, rest) => First(ScopeErrors(p, c, b, read), ChainErrors(AnalyseBranch(p, c, b).0, rest, read))
  }

  /** What evaluating an expression or leaving a function records makes no difference to reading. */
  lemma {:induction false} ErrorsAsWell(p: Path, more: set<Incident>, e: Expr, read: ReadsOf)
    requires forall i | i in more :: i.Used? || i == Returned
    ensures ExprErrors(Record(p, more), e, read) == ExprErrors(p, e, read)
  {
    match e
    case Leaf(id, _) =>
      assert AboutVariables(read(id));
      SetsAfter(p, more);
    case Logical(_, l, r) =>
      ErrorsAsWell(p, more, l, read);
      ErrorsAsWell(p, more, r, read);
  }

  lemma SetsAfter(p: Path, more: set<Incident>)
    ensures AllCertain(Record(p, more)) == AllCertain(p) + more
    ensures AllPotential(Record(p, more)) == AllPotential(p) + more
  {
    var q := Record(p, more);
    assert p == p[..|p| - 1] + [Current(p)] && q == q[..|p| - 1] + [Current(q)];
  }
}

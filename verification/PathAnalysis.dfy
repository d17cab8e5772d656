/**
 The path analyser (Compiler/Analysis/PathAnalyser) and the analysis of statements that drives it
 (Compiler/AST), as functions on the branches from the main branch down to the current one.
 */
module PathAnalysis {
  import opened Wrappers
  import opened Syntax

  datatype Branch = Branch(certain: set<Incident>, potential: set<Incident>, branches: seq<Branch>) {
    function Record(more: set<Incident>): Branch {
      Branch(certain + more, potential + more, branches)
    }
    function Forget(ids: set<nat>): Branch {
      Branch((set i | i in certain && !(i.VariableInit? && i.id in ids)),
             (set i | i in potential && !(i.VariableInit? && i.id in ids)), branches)
    }
    function HasReturned(): bool {
      Returned in certain
    }
    function Add(b: Branch): Branch {
      Branch(certain, potential, branches + [b])
    }
    function FinishUncertain(): (r: Branch)
      ensures r.certain == certain && potential <= r.potential && r.branches == []
    {
      Branch(certain, potential + AllPotential(branches), [])
    }
    function FinishMutualExclusive(): (r: Branch)
      ensures certain <= r.certain && potential <= r.potential && r.branches == []
    {
      if branches == [] then this
      else Branch(certain + Intersection(branches, false) +
                  (set i | i in Intersection(branches, true) && AboutInstance(i)),
                  potential + AllPotential(branches), [])
    }
  }

  /** Only the branches that did not return decide about the instance. */
  predicate AboutInstance(i: Incident) {
    i.InstanceVarInit? || i.CalledSuperInitializer?
  }

  const NEW_BRANCH := Branch({}, {}, [])

  function AllPotential(bs: seq<Branch>): set<Incident> {
    set b, i | b in bs && i in b.potential :: i
  }

  function AllCertain(bs: seq<Branch>): set<Incident> {
    set b, i | b in bs && i in b.certain :: i
  }

  /** What certainly happened in every branch that counts; nothing if none counts. */
  function Intersection(bs: seq<Branch>, skipReturned: bool): set<Incident> {
    set b, i | b in bs && !(skipReturned && b.HasReturned()) && i in b.certain &&
               (forall c | c in bs :: (skipReturned && c.HasReturned()) || i in c.certain) :: i
  }

  /** The branches from the main branch to the current branch, which is the last one. */
  type Path = p: seq<Branch> | p != [] witness [NEW_BRANCH]

  function Current(p: Path): Branch {
    p[|p| - 1]
  }

  function Update(p: Path, b: Branch): (r: Path)
    ensures |r| == |p| && r[..|p| - 1] == p[..|p| - 1] && Current(r) == b
  {
    p[..|p| - 1] + [b]
  }

  function Record(p: Path, more: set<Incident>): (r: Path)
    ensures Extends(p, r) && Current(r).branches == Current(p).branches
  {
    Update(p, Current(p).Record(more))
  }

  function Begin(p: Path): Path {
    p + [NEW_BRANCH]
  }

  function End(p: Path): Path
    requires |p| > 1
  {
    Update(p[..|p| - 1], p[|p| - 2].Add(Current(p)))
  }

  /** Only the current branch of p has changed, and it has forgotten nothing. */
  predicate Extends(p: Path, q: Path) {
    && |q| == |p| && q[..|p| - 1] == p[..|p| - 1]
    && Current(p).certain <= Current(q).certain
    && Current(p).potential <= Current(q).potential
    && Current(p).branches <= Current(q).branches
  }

  // ----- The analysis of statements -----

  /** Analyses a scope in a branch of its own. */
  function AnalyseBranch(p: Path, setup: Setup, b: Block): (r: (Path, Block))
    ensures Extends(p, r.0)
    ensures Current(r.0).certain == Current(p).certain
    ensures Current(r.0).potential == Current(p).potential
    ensures |Current(r.0).branches| == |Current(p).branches| + 1
    decreases b, 1
  {
    var (p1, b') := AnalyseBlock(Record(Begin(p), RecordedBy(setup)), b);
    (End(Update(p1, Current(p1).Forget(ScopeOf(setup, b)))), b')
  }

  function RecordedBy(setup: Setup): set<Incident> {
    match setup
    case Test(e) => Uses(e)
    case TestAndBind(_, uses, v) => AsIncidents(uses) + {VariableInit(v)}
    case Enter(None) => {}
    case Enter(Some(v)) => {VariableInit(v)}
  }

  function AnalyseBlock(p: Path, b: Block): (r: (Path, Block))
    requires Current(p).branches == []
    ensures Extends(p, r.0) && Current(r.0).branches == []
    decreases b, 0
  {
    var (p', stmts, cut) := AnalyseAll(p, b.stmts);
    (p', Block(stmts, cut.Some?, if cut.Some? then cut.value else 0))
  }

  /** The third component is the number of statements before the end of the live code. */
  function AnalyseAll(p: Path, stmts: seq<Stmt>): (r: (Path, seq<Stmt>, Option<nat>))
    requires Current(p).branches == []
    ensures Extends(p, r.0) && Current(r.0).branches == []
    ensures |r.1| == |stmts| && (r.2.Some? ==> r.2.value <= |stmts|)
    decreases stmts
  {
    var here := if Returned in AllCertain(p) then Some(0) else None;
    if stmts == [] then (p, [], here)
    else
      var (p1, s) := Analyse(p, stmts[0]);
      var (p2, rest, cut) := AnalyseAll(p1, stmts[1..]);
      (p2, [s] + rest, if here.Some? then here else if cut.Some? then Some(cut.value + 1) else None)
  }

  function Analyse(p: Path, s: Stmt): (r: (Path, Stmt))
    requires Current(p).branches == []
    ensures Extends(p, r.0) && Current(r.0).branches == []
    decreases s, 1
  {
    match s
    case If(chain) => AnalyseIf(p, chain)
    case While(c, body) => AnalyseWhile(p, c, body)
    case Handle(_, _, _, _, _, _) => AnalyseHandle(p, s)
    case Unsafe(b) =>
      var (p', b') := AnalyseBlock(p, b);
      (p', Unsafe(b'))
    case _ => (Record(p, RecordedAt(s)), s)
  }

  function AnalyseIf(p: Path, chain: Chain): (r: (Path, Stmt))
    requires Current(p).branches == []
    ensures Extends(p, r.0) && Current(r.0).branches == []
    ensures r.1 == If(AnalyseChain(p, chain).1)
    decreases chain, 1
  {
    var (p1, chain') := AnalyseChain(p, chain);
    var b := Current(p1);
    (Update(p1, if HasElse(chain) then b.FinishMutualExclusive() else b.FinishUncertain()), If(chain'))
  }

  function AnalyseWhile(p: Path, c: Cond, body: Block): (r: (Path, Stmt))
    requires Current(p).branches == []
    ensures Extends(p, r.0) && Current(r.0).branches == []
    ensures r.1 == While(c, AnalyseBranch(p, c, body).1)
    decreases body, 2
  {
    var (p1, body') := AnalyseBranch(p, c, body);
    (Update(p1, Current(p1).FinishUncertain()), While(c, body'))
  }

  function AnalyseHandle(p: Path, s: Stmt): (r: (Path, Stmt))
    requires s.Handle? && Current(p).branches == []
    ensures Extends(p, r.0) && Current(r.0).branches == []
    ensures r.1.Handle? && r.1.call == s.call && r.1.uses == s.uses
    ensures r.1.valueVar == s.valueVar && r.1.errorVar == s.errorVar
    decreases s, 0
  {
    var (p1, vb) := AnalyseBranch(Record(p, AsIncidents(s.uses)), Enter(s.valueVar), s.valueBlock);
    var (p2, eb) := AnalyseBranch(p1, Enter(Some(s.errorVar)), s.errorBlock);
    (Update(p2, Current(p2).FinishMutualExclusive()), Handle(s.call, s.uses, s.valueVar, vb, s.errorVar, eb))
  }

  /** What a statement without blocks records. */
  function RecordedAt(s: Stmt): set<Incident> {
    match s
    case ExprStmt(e, never) => Uses(e) + (if never then {Returned} else {})
    case Declare(v, optional) => if optional then {VariableInit(v)} else {}
    case DeclareAndAssign(v, e) => Uses(e) + {VariableInit(v)}
    case Assign(i, e) => Uses(e) + {i}
    case Return(None) => {Returned}
    case Return(Some(e)) => {Returned} + Uses(e)
    case Raise(e) => {Returned} + Uses(e)
    case _ => {}
  }

  function HasElse(chain: Chain): bool {
    match chain
    case NoElse => false
    case Else(_) => true
    case Arm(_, _, rest) => HasElse(rest)
  }

  function AnalyseChain(p: Path, chain: Chain): (r: (Path, Chain))
    ensures Extends(p, r.0)
    ensures Current(r.0).certain == Current(p).certain
    ensures Current(r.0).potential == Current(p).potential
    decreases chain, 0
  {
    match chain
    case NoElse => (p, NoElse)
    case Else(b) =>
      var (p', b') := AnalyseBranch(p, Enter(None), b);
      (p', Else(b'))
    case Arm(c, b, rest) =>
      var (p1, b') := AnalyseBranch(p, c, b);
      var (p2, rest') := AnalyseChain(p1, rest);
      (p2, Arm(c, b', rest'))
  }
}

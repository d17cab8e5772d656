/**
 The path analyser as the object the compiler updates, and the analyse methods that drive it.
 Every method is proved to do what PathAnalysis says.
 */
module Analyser {
  import opened Wrappers
  import opened Syntax
  import opened PathAnalysis
  import opened Acceptance

  /** The analysis of a function ends with the first error. */
  datatype Status = Passed | Rejected(error: ReadError) {
    predicate IsFailure() {
      Rejected?
    }
    function PropagateFailure(): Status
      requires Rejected?
    {
      this
    }
  }

  /** The analysis passes if there is no error, and otherwise ends with one of the first. */
  predicate Reports(status: Status, errors: set<ReadError>) {
    if status.Passed? then errors == {} else status.error in errors
  }

  /** `path` holds the branches from the main branch to the current branch. */
  class PathAnalyser {
    var path: Path

    constructor ()
      ensures path == [NEW_BRANCH]
    {
      path := [NEW_BRANCH];
    }

    method Record(incident: Incident)
      modifies this
      ensures path == PathAnalysis.Record(old(path), {incident})
    {
      var b := Current(path);
      path := Update(path, Branch(b.certain + {incident}, b.potential + {incident}, b.branches));
    }

    method BeginBranch()
      modifies this
      ensures path == Begin(old(path))
    {
      path := path + [NEW_BRANCH];
    }

    method EndBranch()
      requires |path| > 1 && Current(path).branches == []
      modifies this
      ensures path == End(old(path))
    {
      var ended, parent := Current(path), path[|path| - 2];
      path := path[..|path| - 2] + [Branch(parent.certain, parent.potential, parent.branches + [ended])];
    }

    method ForgetVariable(id: nat)
      modifies this
      ensures path == Update(old(path), Current(old(path)).Forget({id}))
    {
      var b := Current(path);
      path := Update(path, Branch(b.certain - {VariableInit(id)}, b.potential - {VariableInit(id)}, b.branches));
      assert Current(path) == b.Forget({id});
    }

    /** Walks from the current branch to the main branch. */
    method HasCertainly(incident: Incident) returns (found: bool)
      ensures found <==> incident in AllCertain(path)
    {
      var k := |path|;
      while k > 0
        invariant 0 <= k <= |path|
        invariant forall j | k <= j < |path| :: incident !in path[j].certain
      {
        k := k - 1;
        if incident in path[k].certain {
          return true;
        }
      }
      return false;
    }

    method HasPotentially(incident: Incident) returns (found: bool)
      ensures found <==> incident in AllPotential(path)
    {
      var k := |path|;
      while k > 0
        invariant 0 <= k <= |path|
        invariant forall j | k <= j < |path| :: incident !in path[j].potential
      {
        k := k - 1;
        if incident in path[k].potential {
          return true;
        }
      }
      return false;
    }

    /** Reading a variable whose initialization is not certain is an error. */
    method UninitializedError(incident: Incident) returns (status: Status)
      ensures status.Passed? <==> incident in AllCertain(path)
      ensures status.Rejected? ==> status.error == if incident in AllPotential(path) then NotOnAllPaths else NotInitialized
    {
      var certainly := HasCertainly(incident);
      if certainly {
        return Passed;
      }
      var potentially := HasPotentially(incident);
      return Rejected(if potentially then NotOnAllPaths else NotInitialized);
    }

    method IntersectCertainIncidents(skipReturned: bool) returns (incidents: set<Incident>)
      ensures incidents == Intersection(Current(path).branches, skipReturned)
    {
      var branches := Current(path).branches;
      incidents := {};
      var first := true;
      for k := 0 to |branches|
        invariant first <==> NoneCounts(branches[..k], skipReturned)
        invariant incidents == Intersection(branches[..k], skipReturned)
      {
        var branch := branches[k];
        assert branches[..k + 1] == branches[..k] + [branch];
        IntersectionStep(branches[..k], branch, skipReturned);
        if skipReturned && Returned in branch.certain {
        } else if first {
          incidents := branch.certain;
          first := false;
        } else {
          incidents := incidents * branch.certain;
        }
      }
      assert branches[..|branches|] == branches;
    }

    method CopyCertainIncidents()
      modifies this
      ensures var b := Current(old(path));
        path == Update(old(path), b.(certain := b.certain + Intersection(b.branches, false) +
                                     (set i | i in Intersection(b.branches, true) && AboutInstance(i))))
    {
      var b := Current(path);
      var all := IntersectCertainIncidents(false);
      var continuing := IntersectCertainIncidents(true);
      var instance := set i | i in continuing && (i.InstanceVarInit? || i.CalledSuperInitializer?);
      assert instance == set i | i in Intersection(b.branches, true) && AboutInstance(i);
      path := Update(path, b.(certain := b.certain + all + instance));
    }

    method CopyPotentialIncidents()
      modifies this
      ensures var b := Current(old(path));
        path == Update(old(path), b.(potential := b.potential + AllPotential(b.branches)))
    {
      var b := Current(path);
      var potential := b.potential;
      for k := 0 to |b.branches|
        invariant potential == b.potential + AllPotential(b.branches[..k])
      {
        assert b.branches[..k + 1] == b.branches[..k] + [b.branches[k]];
        potential := potential + b.branches[k].potential;
      }
      assert b.branches[..|b.branches|] == b.branches;
      path := Update(path, b.(potential := potential));
    }

    method FinishMutualExclusiveBranches()
      modifies this
      ensures path == Update(old(path), Current(old(path)).FinishMutualExclusive())
    {
      hide Intersection, AllPotential, AboutInstance, Update, Current;
      ghost var before := path;
      if Current(path).branches == [] {
        UpdateAgain(path, Current(path), Current(path));
        return;
      }
      CopyPotentialIncidents();
      ghost var b1 := Current(before).(potential := Current(before).potential + AllPotential(Current(before).branches));
      CopyCertainIncidents();
      UpdateAgain(before, b1, Current(path));
      ghost var b2 := b1.(certain := b1.certain + Intersection(b1.branches, false) +
                                     (set i | i in Intersection(b1.branches, true) && AboutInstance(i)));
      path := Update(path, Current(path).(branches := []));
      UpdateAgain(before, b1, b2);
      UpdateAgain(before, b2, b2.(branches := []));
    }

    lemma UpdateAgain(p: Path, b: Branch, c: Branch)
      ensures Current(Update(p, b)) == b && Update(Update(p, b), c) == Update(p, c) && Update(p, Current(p)) == p
    {
    }

    method FinishUncertainBranches()
      modifies this
      ensures path == Update(old(path), Current(old(path)).FinishUncertain())
    {
      hide AllPotential;
      CopyPotentialIncidents();
      path := Update(path, Current(path).(branches := []));
    }
  }

  predicate NoneCounts(bs: seq<Branch>, skipReturned: bool) {
    forall b | b in bs :: skipReturned && b.HasReturned()
  }

  lemma IntersectionStep(bs: seq<Branch>, b: Branch, skipReturned: bool)
    ensures NoneCounts(bs + [b], skipReturned) <==> NoneCounts(bs, skipReturned) && skipReturned && b.HasReturned()
    ensures var all := Intersection(bs + [b], skipReturned);
      if skipReturned && b.HasReturned() then all == Intersection(bs, skipReturned)
      else if NoneCounts(bs, skipReturned) then all == b.certain
      else all == Intersection(bs, skipReturned) * b.certain
  {
    var counts := (c: Branch) => !(skipReturned && c.HasReturned());
    assert forall c :: c in bs + [b] <==> c in bs || c == b;
    if counts(b) && exists c :: c in bs && counts(c) {
      var c :| c in bs && counts(c);
      forall i | i in Intersection(bs, skipReturned) * b.certain ensures i in Intersection(bs + [b], skipReturned) {
        assert i in c.certain && c in bs + [b];
      }
      forall i | i in Intersection(bs + [b], skipReturned) ensures i in Intersection(bs, skipReturned) * b.certain {
        assert i in c.certain;
      }
    } else if counts(b) {
      assert b in bs + [b];
    }
  }

  // ----- The analyse methods -----

  method RecordAll(a: PathAnalyser, incidents: set<Incident>)
    modifies a
    ensures a.path == Record(old(a.path), incidents)
  {
    var rest := incidents;
    assert incidents - rest == {};
    RecordNothing(a.path);
    while rest != {}
      invariant rest <= incidents && a.path == Record(old(a.path), incidents - rest)
      decreases rest
    {
      var i :| i in rest;
      a.Record(i);
      RecordTwice(old(a.path), incidents - rest, {i});
      assert incidents - (rest - {i}) == (incidents - rest) + {i};
      rest := rest - {i};
    }
    assert incidents - rest == incidents;
  }

  /** Pops a scope: the analyser forgets its variables. */
  method PopScope(a: PathAnalyser, ids: set<nat>)
    modifies a
    ensures a.path == Update(old(a.path), Current(old(a.path)).Forget(ids))
  {
    var rest := ids;
    assert Current(a.path).Forget({}) == Current(a.path);
    assert ids - rest == {};
    while rest != {}
      invariant rest <= ids && a.path == Update(old(a.path), Current(old(a.path)).Forget(ids - rest))
      decreases rest
    {
      var id :| id in rest;
      a.ForgetVariable(id);
      ForgetTwice(Current(old(a.path)), ids - rest, {id});
      assert ids - (rest - {id}) == (ids - rest) + {id};
      rest := rest - {id};
    }
    assert ids - rest == ids;
  }

  lemma ForgetTwice(b: Branch, ids: set<nat>, more: set<nat>)
    ensures b.Forget(ids).Forget(more) == b.Forget(ids + more)
  {
  }

  /** An expression that reads variables: they must be initialized. */
  method AnalyseReads(a: PathAnalyser, id: nat, read: ReadsOf) returns (status: Status)
    ensures Reports(status, LeafErrors(a.path, id, read))
  {
    hide AllCertain, AllPotential, LeafErrors;
    LeafErrorsAre(a.path, id, read);
    var rest := read(id);
    while rest != {}
      invariant rest <= read(id) && read(id) - rest <= AllCertain(a.path)
      decreases rest
    {
      var i :| i in rest;
      assert i in read(id);
      :- a.UninitializedError(i);
      rest := rest - {i};
    }
    assert read(id) - rest == read(id);
    status := Passed;
  }

  method AnalyseExpr(a: PathAnalyser, e: Expr, read: ReadsOf) returns (status: Status)
    modifies a
    ensures Reports(status, ExprErrors(old(a.path), e, read))
    ensures status.Passed? ==> a.path == Record(old(a.path), Uses(e))
  {
    hide LeafErrors;
    match e {
      case Leaf(id, uses) =>
        :- AnalyseReads(a, id, read);
        RecordAll(a, AsIncidents(uses));
      case Logical(_, left, right) =>
        :- AnalyseExpr(a, left, read);
        OnlyUses(left);
        ErrorsAsWell(old(a.path), Uses(left), right, read);
        :- AnalyseExpr(a, right, read);
        RecordTwice(old(a.path), Uses(left), Uses(right));
    }
    status := Passed;
  }

  lemma {:induction false} OnlyUses(e: Expr)
    ensures forall i | i in Uses(e) :: i.Used?
  {
    if e.Logical? {
      OnlyUses(e.left);
      OnlyUses(e.right);
    }
  }

  lemma RecordTwice(p: Path, these: set<Incident>, those: set<Incident>)
    ensures Record(Record(p, these), those) == Record(p, these + those)
  {
    assert Current(p).Record(these).Record(those) == Current(p).Record(these + those);
  }

  lemma RecordNothing(p: Path)
    ensures Record(p, {}) == p
  {
    assert p == p[..|p| - 1] + [Current(p)];
    assert Current(p).Record({}) == Current(p);
  }

  method AnalyseSetup(a: PathAnalyser, setup: Setup, read: ReadsOf) returns (status: Status)
    modifies a
    ensures Reports(status, SetupErrors(old(a.path), setup, read))
    ensures status.Passed? ==> a.path == Record(old(a.path), RecordedBy(setup))
  {
    hide LeafErrors, ExprErrors;
    RecordNothing(a.path);
    match setup {
      case Test(e) => :- AnalyseExpr(a, e, read);
      case TestAndBind(id, uses, v) =>
        :- AnalyseReads(a, id, read);
        RecordAll(a, AsIncidents(uses));
        a.Record(VariableInit(v));
        RecordTwice(old(a.path), AsIncidents(uses), {VariableInit(v)});
      case Enter(None) =>
      case Enter(Some(v)) => a.Record(VariableInit(v));
    }
    status := Passed;
  }

  method AnalyseScope(a: PathAnalyser, setup: Setup, b: Block, read: ReadsOf) returns (status: Status, b': Block)
    modifies a
    ensures Reports(status, ScopeErrors(old(a.path), setup, b, read))
    ensures status.Passed? ==> (a.path, b') == AnalyseBranch(old(a.path), setup, b)
    decreases b, 1
  {
    hide SetupErrors, AllErrors;
    b' := b;
    a.BeginBranch();
    :- AnalyseSetup(a, setup, read);
    b' :- AnalyseStatements(a, b, read);
    PopScope(a, ScopeOf(setup, b));
    a.EndBranch();
    status := Passed;
  }

  /** Code after a point where the function certainly returned is still analysed, but will not be generated. */
  method AnalyseStatements(a: PathAnalyser, b: Block, read: ReadsOf) returns (status: Status, b': Block)
    requires Current(a.path).branches == []
    modifies a
    ensures Reports(status, AllErrors(old(a.path), b.stmts, read))
    ensures status.Passed? ==> (a.path, b') == AnalyseBlock(old(a.path), b)
    decreases b, 0
  {
    hide Extends, AllCertain, Analyse, AnalysedSoFar, AllErrors, StmtErrors;
    b' := b;
    assert b.stmts[0..] == b.stmts;
    var stmts: seq<Stmt> := [];
    var returned, stop := false, 0;
    AnalysedNothing(a.path, b.stmts);
    for i := 0 to |b.stmts|
      invariant Current(a.path).branches == []
      invariant AnalysedSoFar(old(a.path), b.stmts, i, a.path, stmts, returned, stop)
      invariant AllErrors(old(a.path), b.stmts, read) == AllErrors(a.path, b.stmts[i..], read)
    {
      FirstErrors(a.path, b.stmts, i, read);
      AnalysedOne(old(a.path), b.stmts, i, a.path, stmts, returned, stop);
      if !returned {
        var cut := a.HasCertainly(Returned);
        if cut {
          returned, stop := true, i;
        }
      }
      var s :- AnalyseStatement(a, b.stmts[i], read);
      stmts := stmts + [s];
    }
    AnalysedEnd(old(a.path), b.stmts, a.path, stmts, returned, stop);
    if !returned {
      returned := a.HasCertainly(Returned);
      stop := if returned then |b.stmts| else 0;
    }
    NoErrors(a.path, read);
    assert b.stmts[|b.stmts|..] == [];
    status, b' := Passed, Block(stmts, returned, stop);
  }

  lemma FirstErrors(p: Path, stmts: seq<Stmt>, i: nat, read: ReadsOf)
    requires Current(p).branches == [] && i < |stmts|
    ensures AllErrors(p, stmts[i..], read) ==
            First(StmtErrors(p, stmts[i], read), AllErrors(Analyse(p, stmts[i]).0, stmts[i + 1..], read))
  {
    hide StmtErrors, Analyse, Extends;
    assert stmts[i..][1..] == stmts[i + 1..];
  }

  lemma NoErrors(p: Path, read: ReadsOf)
    requires Current(p).branches == []
    ensures AllErrors(p, [], read) == {}
  {
  }

  /** Analysing the rest completes the analysis of all statements. */
  ghost predicate AnalysedSoFar(p: Path, stmts: seq<Stmt>, i: nat, q: Path, done: seq<Stmt>, returned: bool, stop: nat)
    requires Current(p).branches == [] && i <= |stmts|
  {
    && Current(q).branches == []
    && var all := AnalyseAll(p, stmts);
      var rest := AnalyseAll(q, stmts[i..]);
      && all.0 == rest.0
      && all.1 == done + rest.1
      && (if returned then all.2 == Some(stop)
          else stop == 0 && all.2 == (if rest.2.Some? then Some(rest.2.value + i) else None))
  }

  lemma AnalysedNothing(p: Path, stmts: seq<Stmt>)
    requires Current(p).branches == []
    ensures AnalysedSoFar(p, stmts, 0, p, [], false, 0)
  {
    assert stmts[0..] == stmts;
  }

  lemma AnalysedOne(p: Path, stmts: seq<Stmt>, i: nat, q: Path, done: seq<Stmt>, returned: bool, stop: nat)
    requires Current(p).branches == [] && i < |stmts| && AnalysedSoFar(p, stmts, i, q, done, returned, stop)
    ensures var (q', s) := Analyse(q, stmts[i]);
      var now := !returned && Returned in AllCertain(q);
      AnalysedSoFar(p, stmts, i + 1, q', done + [s], returned || now, if now then i else stop)
  {
    hide Extends, AllCertain, Analyse, AnalyseAll;
    AnalyseFirst(q, stmts[i..]);
    assert stmts[i..][1..] == stmts[i + 1..];
    var (q', s) := Analyse(q, stmts[i]);
    var rest := AnalyseAll(q', stmts[i + 1..]).1;
    assert done + ([s] + rest) == (done + [s]) + rest;
  }

  lemma AnalyseFirst(p: Path, stmts: seq<Stmt>)
    requires Current(p).branches == [] && stmts != []
    ensures var (p1, s) := Analyse(p, stmts[0]);
      var (all, rest) := (AnalyseAll(p, stmts), AnalyseAll(p1, stmts[1..]));
      && all.0 == rest.0 && all.1 == [s] + rest.1
      && all.2 == (if Returned in AllCertain(p) then Some(0) else if rest.2.Some? then Some(rest.2.value + 1) else None)
  {
    hide Extends, AllCertain, Analyse, Update;
    var (p1, s) := Analyse(p, stmts[0]);
    var (p2, rest, cut) := AnalyseAll(p1, stmts[1..]);
    assert AnalyseAll(p, stmts).0 == p2;
  }

  lemma AnalysedEnd(p: Path, stmts: seq<Stmt>, q: Path, done: seq<Stmt>, returned: bool, stop: nat)
    requires Current(p).branches == [] && AnalysedSoFar(p, stmts, |stmts|, q, done, returned, stop)
    ensures var now := !returned && Returned in AllCertain(q);
      AnalyseAll(p, stmts) == (q, done, if returned then Some(stop) else if now then Some(|stmts|) else None)
  {
    hide Extends, AllCertain, AnalyseAll;
    AnalyseNone(q);
    assert stmts[|stmts|..] == [];
    assert done + [] == done;
  }

  lemma AnalyseNone(p: Path)
    requires Current(p).branches == []
    ensures AnalyseAll(p, []) == (p, [], if Returned in AllCertain(p) then Some(0) else None)
  {
    hide AllCertain;
  }

  method AnalyseStatement(a: PathAnalyser, s: Stmt, read: ReadsOf) returns (status: Status, s': Stmt)
    requires Current(a.path).branches == []
    modifies a
    ensures Reports(status, StmtErrors(old(a.path), s, read))
    ensures status.Passed? ==> (a.path, s') == Analyse(old(a.path), s)
    decreases s, 1
  {
    hide Extends, AnalyseIf, AnalyseWhile, AnalyseHandle, AnalyseBlock, AllErrors, ChainErrors, ScopeErrors, ExprErrors, LeafErrors;
    s' := s;
    match s {
      case If(chain) => s' :- AnalyseIfStatement(a, chain, read);
      case While(c, body) => s' :- AnalyseLoop(a, c, body, read);
      case Handle(_, _, _, _, _, _) => s' :- AnalyseErrorHandler(a, s, read);
      case Unsafe(b) =>
        var b' :- AnalyseStatements(a, b, read);
        s' := Unsafe(b');
      case _ =>
        status := AnalyseSimple(a, s, read);
        return status, s;
    }
    status := Passed;
  }

  method AnalyseIfStatement(a: PathAnalyser, chain: Chain, read: ReadsOf) returns (status: Status, s: Stmt)
    requires Current(a.path).branches == []
    modifies a
    ensures Reports(status, ChainErrors(old(a.path), chain, read))
    ensures status.Passed? ==> (a.path, s) == AnalyseIf(old(a.path), chain)
    decreases chain, 1
  {
    hide Extends, AnalyseChain, ChainErrors;
    s := If(chain);
    var chain' :- AnalyseConditions(a, chain, read);
    if HasElse(chain) {
      a.FinishMutualExclusiveBranches();
    } else {
      a.FinishUncertainBranches();
    }
    status, s := Passed, If(chain');
  }

  method AnalyseLoop(a: PathAnalyser, c: Cond, body: Block, read: ReadsOf) returns (status: Status, s: Stmt)
    requires Current(a.path).branches == []
    modifies a
    ensures Reports(status, ScopeErrors(old(a.path), c, body, read))
    ensures status.Passed? ==> (a.path, s) == AnalyseWhile(old(a.path), c, body)
    decreases body, 2
  {
    hide Extends, AnalyseBranch, ScopeErrors;
    s := While(c, body);
    var body' :- AnalyseScope(a, c, body, read);
    a.FinishUncertainBranches();
    status, s := Passed, While(c, body');
  }

  method AnalyseErrorHandler(a: PathAnalyser, s: Stmt, read: ReadsOf) returns (status: Status, s': Stmt)
    requires s.Handle? && Current(a.path).branches == []
    modifies a
    ensures Reports(status, StmtErrors(old(a.path), s, read))
    ensures status.Passed? ==> (a.path, s') == AnalyseHandle(old(a.path), s)
    decreases s, 0
  {
    hide Extends, AnalyseBranch, ScopeErrors, LeafErrors;
    s' := s;
    :- AnalyseReads(a, s.call, read);
    RecordAll(a, AsIncidents(s.uses));
    var vb :- AnalyseScope(a, Enter(s.valueVar), s.valueBlock, read);
    var eb :- AnalyseScope(a, Enter(Some(s.errorVar)), s.errorBlock, read);
    a.FinishMutualExclusiveBranches();
    status, s' := Passed, Handle(s.call, s.uses, s.valueVar, vb, s.errorVar, eb);
  }

  /** A statement without blocks. */
  method AnalyseSimple(a: PathAnalyser, s: Stmt, read: ReadsOf) returns (status: Status)
    requires !s.If? && !s.While? && !s.Handle? && !s.Unsafe? && Current(a.path).branches == []
    modifies a
    ensures Reports(status, StmtErrors(old(a.path), s, read))
    ensures status.Passed? ==> a.path == Record(old(a.path), RecordedAt(s))
  {
    hide Extends, ExprErrors;
    RecordNothing(a.path);
    match s {
      case ExprStmt(e, never) =>
        :- AnalyseExpr(a, e, read);
        if never {
          a.Record(Returned);
          RecordTwice(old(a.path), Uses(e), {Returned});
        } else {
          assert Uses(e) + {} == Uses(e);
        }
      case Declare(v, optional) =>
        if optional { a.Record(VariableInit(v)); }
      case DeclareAndAssign(v, e) =>
        :- AnalyseExpr(a, e, read);
        a.Record(VariableInit(v));
        RecordTwice(old(a.path), Uses(e), {VariableInit(v)});
      case Assign(i, e) =>
        :- AnalyseExpr(a, e, read);
        a.Record(i);
        RecordTwice(old(a.path), Uses(e), {i});
      case Return(None) => a.Record(Returned);
      case Return(Some(e)) =>
        ErrorsAsWell(a.path, {Returned}, e, read);
        a.Record(Returned);
        :- AnalyseExpr(a, e, read);
        RecordTwice(old(a.path), {Returned}, Uses(e));
      case Raise(e) =>
        ErrorsAsWell(a.path, {Returned}, e, read);
        a.Record(Returned);
        :- AnalyseExpr(a, e, read);
        RecordTwice(old(a.path), {Returned}, Uses(e));
    }
    status := Passed;
  }

  datatype Analysed = Analysed(cond: Cond, body: Block)

  /** The arms in front of a chain. */
  function Attach(arms: seq<Analysed>, rest: Chain): Chain {
    if arms == [] then rest else Arm(arms[0].cond, arms[0].body, Attach(arms[1..], rest))
  }

  lemma {:induction false} AttachLast(arms: seq<Analysed>, arm: Analysed, rest: Chain)
    ensures Attach(arms + [arm], rest) == Attach(arms, Arm(arm.cond, arm.body, rest))
  {
    if arms != [] {
      AttachLast(arms[1..], arm, rest);
      assert (arms + [arm])[1..] == arms[1..] + [arm];
    }
  }

  /** Each condition and its block are a branch; so is the else block. */
  method AnalyseConditions(a: PathAnalyser, chain: Chain, read: ReadsOf) returns (status: Status, chain': Chain)
    modifies a
    ensures Reports(status, ChainErrors(old(a.path), chain, read))
    ensures status.Passed? ==> (a.path, chain') == AnalyseChain(old(a.path), chain)
    decreases chain, 0
  {
    hide Extends, AnalyseBranch, ScopeErrors;
    chain' := chain;
    var arms: seq<Analysed> := [];
    var rest := chain;
    while rest.Arm?
      invariant rest == chain || rest < chain
      invariant AnalyseChain(old(a.path), chain).0 == AnalyseChain(a.path, rest).0
      invariant AnalyseChain(old(a.path), chain).1 == Attach(arms, AnalyseChain(a.path, rest).1)
      invariant ChainErrors(old(a.path), chain, read) == ChainErrors(a.path, rest, read)
      decreases rest
    {
      ghost var p := a.path;
      var body :- AnalyseScope(a, rest.cond, rest.body, read);
      AttachLast(arms, Analysed(rest.cond, body), AnalyseChain(a.path, rest.rest).1);
      arms := arms + [Analysed(rest.cond, body)];
      rest := rest.rest;
    }
    if rest.Else? {
      var last :- AnalyseScope(a, Enter(None), rest.last, read);
      rest := Else(last);
    }
    status, chain' := Passed, Attach(arms, rest);
  }
}

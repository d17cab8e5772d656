/**
 What a program does. The environment answers every leaf expression; a run consumes answers in
 order and leaves a trace of effects. A run that asks for an answer that is not there is starved,
 so evaluation is total: each loop iteration consumes an answer.
 */
module Semantics {
  import opened Wrappers
  import opened Syntax

  datatype Slot = Initialized(incident: Incident) | ErrorPointer

  datatype Effect = Asked(id: nat, answer: bool) | Stored(slot: Slot)

  datatype IO = IO(answers: seq<bool>, effects: seq<Effect>) {
    function Do(e: Effect): IO {
      IO(answers, effects + [e])
    }
  }

  datatype Outcome =
    | Normal                        // control reaches the end of the statement
    | Value(result: Option<bool>)   // the function returned
    | Error                         // the function raised an error
    | Gone                          // control is in a call that never returns
    | Starved                       // the environment has to answer first

  /** `happened` is the set of incidents of the variables that are alive and of the instance. */
  datatype Machine = Machine(io: IO, happened: set<Incident>) {
    function Store(s: Slot): Machine {
      Machine(io.Do(Stored(s)), if s.Initialized? then happened + {s.incident} else happened)
    }
    function Happen(more: set<Incident>): Machine {
      Machine(io, happened + more)
    }
    /** The variables of a scope die when control leaves it. */
    function Forget(ids: set<nat>): Machine {
      Machine(io, set i | i in happened && !(i.VariableInit? && i.id in ids))
    }
  }

  /** The result of a block that only runs if its setup is true. */
  datatype ScopeRun = Skipped(m: Machine) | Ran(o: Outcome, m: Machine)

  function Ask(id: nat, uses: set<Use>, m: Machine): (r: (Option<bool>, Machine))
    ensures r.0.Some? ==> |r.1.io.answers| < |m.io.answers|
    ensures r.0.None? ==> r.1 == m
  {
    if m.io.answers == [] then (None, m)
    else
      var a := m.io.answers[0];
      (Some(a), Machine(IO(m.io.answers[1..], m.io.effects + [Asked(id, a)]), m.happened + AsIncidents(uses)))
  }

  function Eval(e: Expr, m: Machine): (r: (Option<bool>, Machine))
    ensures r.0.Some? ==> |r.1.io.answers| < |m.io.answers|
    ensures |r.1.io.answers| <= |m.io.answers|
  {
    match e
    case Leaf(id, uses) => Ask(id, uses, m)
    case Logical(isAnd, left, right) =>
      var (v, m1) := Eval(left, m);
      if v == Some(isAnd) then Eval(right, m1) else (v, m1)
  }

  function RunSetup(setup: Setup, m: Machine): (r: (Option<bool>, Machine))
    ensures !setup.Enter? && r.0.Some? ==> |r.1.io.answers| < |m.io.answers|
    ensures |r.1.io.answers| <= |m.io.answers|
    ensures setup.Enter? ==> r.0 == Some(true)
  {
    match setup
    case Test(e) => Eval(e, m)
    case TestAndBind(id, uses, v) =>
      var (a, m1) := Ask(id, uses, m);
      (a, if a.Some? then m1.Store(Initialized(VariableInit(v))) else m1)
    case Enter(None) => (Some(true), m)
    case Enter(Some(v)) => (Some(true), m.Store(Initialized(VariableInit(v))))
  }

  function Exec(s: Stmt, m: Machine): (r: (Outcome, Machine))
    ensures |r.1.io.answers| <= |m.io.answers|
    decreases |m.io.answers|, s, 1
  {
    match s
    case ExprStmt(e, never) =>
      var (v, m1) := Eval(e, m);
      if v.None? then (Starved, m1) else if never then (Gone, m1.Happen({Returned})) else (Normal, m1)
    case Declare(v, optional) =>
      (Normal, if optional then m.Store(Initialized(VariableInit(v))) else m)
    case DeclareAndAssign(v, e) => ExecStore(Initialized(VariableInit(v)), e, m)
    case Assign(i, e) => ExecStore(Initialized(i), e, m)
    case Return(None) => (Value(None), m.Happen({Returned}))
    case Return(Some(e)) =>
      var (v, m1) := Eval(e, m);
      if v.None? then (Starved, m1) else (Value(v), m1.Happen({Returned}))
    case Raise(e) =>
      var (o, m1) := ExecStore(ErrorPointer, e, m);
      if o == Normal then (Error, m1.Happen({Returned})) else (o, m1)
    case If(chain) => ExecChain(chain, m)
    case While(c, b) => ExecWhile(c, b, m)
    case Handle(_, _, _, _, _, _) => ExecHandle(s, m)
    case Unsafe(b) => ExecAll(b.stmts, m)
  }

  function ExecWhile(c: Cond, b: Block, m: Machine): (r: (Outcome, Machine))
    ensures |r.1.io.answers| <= |m.io.answers|
    decreases |m.io.answers|, b, 2
  {
    match ExecScope(c, b, m)
    case Skipped(m1) => (Normal, m1)
    case Ran(o, m1) => if o == Normal then ExecWhile(c, b, m1) else (o, m1)
  }

  function ExecHandle(s: Stmt, m: Machine): (r: (Outcome, Machine))
    requires s.Handle?
    ensures |r.1.io.answers| <= |m.io.answers|
    decreases |m.io.answers|, s, 0
  {
    var (a, m1) := Ask(s.call, s.uses, m);
    if a.None? then (Starved, m1)
    else if a.value then RunOf(ExecScope(Enter(Some(s.errorVar)), s.errorBlock, m1))
    else RunOf(ExecScope(Enter(s.valueVar), s.valueBlock, m1))
  }

  function ExecStore(s: Slot, e: Expr, m: Machine): (r: (Outcome, Machine))
    ensures |r.1.io.answers| <= |m.io.answers|
    ensures r.0 == Normal || r.0 == Starved
  {
    var (v, m1) := Eval(e, m);
    if v.None? then (Starved, m1) else (Normal, m1.Store(s))
  }

  function RunOf(r: ScopeRun): (Outcome, Machine) {
    match r
    case Skipped(m) => (Normal, m)
    case Ran(o, m) => (o, m)
  }

  function ExecAll(stmts: seq<Stmt>, m: Machine): (r: (Outcome, Machine))
    ensures |r.1.io.answers| <= |m.io.answers|
    decreases |m.io.answers|, stmts
  {
    if stmts == [] then (Normal, m)
    else
      var (o, m1) := Exec(stmts[0], m);
      if o == Normal then ExecAll(stmts[1..], m1) else (o, m1)
  }

  function ExecScope(setup: Setup, b: Block, m: Machine): (r: ScopeRun)
    ensures |r.m.io.answers| <= |m.io.answers|
    ensures !setup.Enter? && r.Ran? && r.o == Normal ==> |r.m.io.answers| < |m.io.answers|
    ensures setup.Enter? ==> r.Ran?
    decreases |m.io.answers|, b, 1
  {
    var ids := ScopeOf(setup, b);
    var (v, m1) := RunSetup(setup, m);
    match v
    case None => Ran(Starved, m1.Forget(ids))
    case Some(false) => Skipped(m1.Forget(ids))
    case Some(true) =>
      var (o, m2) := ExecAll(b.stmts, m1);
      Ran(o, m2.Forget(ids))
  }

  function ExecChain(chain: Chain, m: Machine): (r: (Outcome, Machine))
    ensures |r.1.io.answers| <= |m.io.answers|
    decreases |m.io.answers|, chain
  {
    match chain
    case NoElse => (Normal, m)
    case Else(b) => RunOf(ExecScope(Enter(None), b, m))
    case Arm(c, b, rest) =>
      match ExecScope(c, b, m)
      case Skipped(m1) => ExecChain(rest, m1)
      case Ran(o, m1) => (o, m1)
  }

  /** A function begins with what has happened before its body: its parameters are initialized. */
  function Initially(begun: set<Incident>, answers: seq<bool>): Machine {
    Machine(IO(answers, []), begun)
  }

  /** A function body that runs to its end returns nothing. */
  function ExecFunction(body: seq<Stmt>, begun: set<Incident>, answers: seq<bool>): (Outcome, IO) {
    var (o, m) := ExecAll(body, Initially(begun, answers));
    (if o == Normal then Value(None) else o, m.io)
  }
}

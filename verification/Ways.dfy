/**
 The ways through statements. For one incident, a set of truth values says whether there are ways
 through a statement on which it happens, and whether there are ways on which it does not. No
 analysis is needed for that, and it is exact: every way has answers that lead along it.
 */
module Ways {
  import opened Wrappers
  import opened Syntax
  import opened Semantics

  /** One way after the other. */
  function InTurn(a: set<bool>, b: set<bool>): (r: set<bool>)
    ensures r == {} <==> a == {} || b == {}
  {
    NoWay(a);
    NoWay(b);
    (if (true in a && b != {}) || (true in b && a != {}) then {true} else {}) +
    (if false in a && false in b then {false} else {})
  }

  lemma NoWay(a: set<bool>)
    ensures a == {} <==> true !in a && false !in a
  {
    if a != {} {
      var way := Pick(a);
    }
  }

  lemma Pick<T>(a: set<T>) returns (x: T)
    requires a != {}
    ensures x in a
  {
    x :| x in a;
  }

  /** The two ways that make up one. */
  function Split(way: bool, a: set<bool>, b: set<bool>): (r: (bool, bool))
    requires way in InTurn(a, b)
    ensures r.0 in a && r.1 in b && (way <==> r.0 || r.1)
  {
    NoWay(a);
    NoWay(b);
    if way && true in a then (true, true in b) else (false, way)
  }

  // ----- Which ways there are -----

  /** The ways to evaluate an expression to `v`. */
  function EvalWays(e: Expr, v: bool, i: Incident): (r: set<bool>)
    ensures r != {}
  {
    match e
    case Leaf(_, uses) => {i in AsIncidents(uses)}
    case Logical(isAnd, l, r) =>
      var both := InTurn(EvalWays(l, isAnd, i), EvalWays(r, v, i));
      if v == isAnd then both else EvalWays(l, !isAnd, i) + both
  }

  function ValueWays(e: Expr, i: Incident): (r: set<bool>)
    ensures r != {}
  {
    EvalWays(e, true, i) + EvalWays(e, false, i)
  }

  function SetupWays(setup: Setup, v: bool, i: Incident): set<bool> {
    match setup
    case Test(e) => EvalWays(e, v, i)
    case TestAndBind(_, uses, x) => {i in AsIncidents(uses) || i == VariableInit(x)}
    case Enter(None) => if v then {false} else {}
    case Enter(Some(x)) => if v then {i == VariableInit(x)} else {}
  }

  /** The ways on which control gets to the end of a statement. */
  function StmtWays(s: Stmt, i: Incident): set<bool>
    decreases s
  {
    match s
    case ExprStmt(e, never) => if never then {} else ValueWays(e, i)
    case Declare(v, optional) => {optional && i == VariableInit(v)}
    case DeclareAndAssign(v, e) => if i == VariableInit(v) then {true} else ValueWays(e, i)
    case Assign(target, e) => if i == target then {true} else ValueWays(e, i)
    case Return(_) => {}
    case Raise(_) => {}
    case If(chain) => ChainWays(chain, i)
    case While(c, b) => SkipWays(c, b, i) + InTurn(ScopeWays(c, b, i), SkipWays(c, b, i))
    case Handle(_, uses, v, vb, x, eb) =>
      InTurn({i in AsIncidents(uses)}, ScopeWays(Enter(v), vb, i) + ScopeWays(Enter(Some(x)), eb, i))
    case Unsafe(b) => AllWays(b.stmts, i)
  }

  function AllWays(stmts: seq<Stmt>, i: Incident): set<bool>
    decreases stmts
  {
    if stmts == [] then {false} else InTurn(StmtWays(stmts[0], i), AllWays(stmts[1..], i))
  }

  /** The variables of a scope die when control leaves it. */
  function Leave(ways: set<bool>, own: set<nat>, i: Incident): (r: set<bool>)
    ensures r == {} <==> ways == {}
  {
    if ways != {} && i.VariableInit? && i.id in own then {false} else ways
  }

  function ScopeWays(setup: Setup, b: Block, i: Incident): set<bool>
    decreases b
  {
    Leave(InTurn(SetupWays(setup, true, i), AllWays(b.stmts, i)), ScopeOf(setup, b), i)
  }

  /** The ways past a scope whose condition does not hold. */
  function SkipWays(setup: Setup, b: Block, i: Incident): set<bool> {
    Leave(SetupWays(setup, false, i), ScopeOf(setup, b), i)
  }

  function ChainWays(chain: Chain, i: Incident): set<bool>
    decreases chain
  {
    match chain
    case NoElse => {false}
    case Else(b) => ScopeWays(Enter(None), b, i)
    case Arm(c, b, rest) => ScopeWays(c, b, i) + InTurn(SkipWays(c, b, i), ChainWays(rest, i))
  }

  /** A variable that is not in scope is not initialized. */
  predicate Dead(i: Incident, scope: set<nat>, m: Machine) {
    i.VariableInit? && i.id !in scope ==> i !in m.happened
  }

  /** A run along a way: the incident happens, if it had not, exactly if it does on the way. */
  predicate Along(way: bool, i: Incident, m: Machine, m1: Machine) {
    i in m1.happened <==> i in m.happened || way
  }

  // ----- What happens on a way and outlives it is in scope -----

  /** The incident is not about a variable, or about one in scope. */
  predicate InScope(i: Incident, scope: set<nat>) {
    i.VariableInit? ==> i.id in scope
  }

  lemma InTurnBrings(a: set<bool>, b: set<bool>)
    ensures true in InTurn(a, b) ==> true in a || true in b
  {
  }

  lemma {:induction false} EvalBrings(e: Expr, v: bool, i: Incident)
    requires true in EvalWays(e, v, i)
    ensures i.Used?
  {
    match e
    case Leaf(_, _) =>
    case Logical(isAnd, l, r) =>
      hide InTurn;
      InTurnBrings(EvalWays(l, isAnd, i), EvalWays(r, v, i));
      if true in EvalWays(l, isAnd, i) { EvalBrings(l, isAnd, i); }
      else if true in EvalWays(l, !isAnd, i) { EvalBrings(l, !isAnd, i); }
      else { EvalBrings(r, v, i); }
  }

  lemma ValueBrings(e: Expr, i: Incident)
    requires true in ValueWays(e, i)
    ensures i.Used?
  {
    EvalBrings(e, true in EvalWays(e, true, i), i);
  }

  lemma SetupBrings(setup: Setup, v: bool, i: Incident)
    requires true in SetupWays(setup, v, i)
    ensures InScope(i, BoundBy(setup))
  {
    if setup.Test? { EvalBrings(setup.e, v, i); }
  }

  lemma SkipBrings(c: Cond, b: Block, i: Incident)
    requires true in SkipWays(c, b, i)
    ensures InScope(i, {})
  {
    SetupBrings(c, false, i);
  }

  lemma {:induction false} StmtBrings(s: Stmt, scope: set<nat>, i: Incident)
    requires Resolved(s, scope) && true in StmtWays(s, i)
    ensures InScope(i, scope + LocalsOf(s))
    decreases s
  {
    hide InTurn, ScopeWays, SkipWays, ValueWays;
    match s
    case ExprStmt(e, _) => ValueBrings(e, i);
    case DeclareAndAssign(v, e) => if i != VariableInit(v) { ValueBrings(e, i); }
    case Assign(target, e) => if i != target { ValueBrings(e, i); }
    case If(chain) => ChainBrings(chain, scope, i);
    case While(c, b) =>
      InTurnBrings(ScopeWays(c, b, i), SkipWays(c, b, i));
      if true in SkipWays(c, b, i) { SkipBrings(c, b, i); } else { ScopeBrings(c, b, scope, i); }
    case Handle(_, uses, v, vb, x, eb) =>
      InTurnBrings({i in AsIncidents(uses)}, ScopeWays(Enter(v), vb, i) + ScopeWays(Enter(Some(x)), eb, i));
      if true in ScopeWays(Enter(v), vb, i) { ScopeBrings(Enter(v), vb, scope, i); }
      if true in ScopeWays(Enter(Some(x)), eb, i) { ScopeBrings(Enter(Some(x)), eb, scope, i); }
    case Unsafe(b) => AllBring(b.stmts, scope, i);
    case _ =>
  }

  lemma {:induction false} AllBring(stmts: seq<Stmt>, scope: set<nat>, i: Incident)
    requires AllResolved(stmts, scope) && true in AllWays(stmts, i)
    ensures InScope(i, scope + Locals(stmts))
    decreases stmts
  {
    hide InTurn, StmtWays;
    if stmts != [] {
      InTurnBrings(StmtWays(stmts[0], i), AllWays(stmts[1..], i));
      if true in StmtWays(stmts[0], i) { StmtBrings(stmts[0], scope, i); }
      else { AllBring(stmts[1..], scope + LocalsOf(stmts[0]), i); }
    }
  }

  lemma {:induction false} ScopeBrings(setup: Setup, b: Block, scope: set<nat>, i: Incident)
    requires ScopeResolved(setup, b, scope) && true in ScopeWays(setup, b, i)
    ensures InScope(i, scope)
    decreases b
  {
    hide InTurn, SetupWays;
    InTurnBrings(SetupWays(setup, true, i), AllWays(b.stmts, i));
    if true in SetupWays(setup, true, i) { SetupBrings(setup, true, i); }
    else { AllBring(b.stmts, scope + BoundBy(setup), i); }
  }

  lemma {:induction false} ChainBrings(chain: Chain, scope: set<nat>, i: Incident)
    requires ChainResolved(chain, scope) && true in ChainWays(chain, i)
    ensures InScope(i, scope)
    decreases chain
  {
    hide InTurn, ScopeWays, SkipWays;
    match chain
    case NoElse =>
    case Else(b) => ScopeBrings(Enter(None), b, scope, i);
    case Arm(c, b, rest) =>
      InTurnBrings(SkipWays(c, b, i), ChainWays(rest, i));
      if true in ScopeWays(c, b, i) { ScopeBrings(c, b, scope, i); }
      else if true in SkipWays(c, b, i) { SkipBrings(c, b, i); }
      else { ChainBrings(rest, scope, i); }
  }

  /** Control leaves a scope: only its own variables change. */
  lemma LeaveAlong(ways: set<bool>, way: bool, i: Incident, own: set<nat>, scope: set<nat>, m: Machine, m1: Machine)
    returns (left: bool)
    requires way in ways && Along(way, i, m, m1) && Dead(i, scope, m) && own !! scope
    ensures left in Leave(ways, own, i) && Along(left, i, m, m1.Forget(own))
    ensures left == (way && (i.VariableInit? ==> i.id !in own))
  {
    left := way && (i.VariableInit? ==> i.id !in own);
  }

  // ----- Every run goes along a way -----

  lemma {:induction false} EvalAlong(e: Expr, i: Incident, m: Machine) returns (way: bool)
    requires Eval(e, m).0.Some?
    ensures way in EvalWays(e, Eval(e, m).0.value, i) && Along(way, i, m, Eval(e, m).1)
  {
    match e
    case Leaf(_, uses) => way := i in AsIncidents(uses);
    case Logical(isAnd, l, r) =>
      way := EvalAlong(l, i, m);
      var (v, m1) := Eval(l, m);
      if v.value == isAnd {
        var second := EvalAlong(r, i, m1);
        way := way || second;
      }
  }

  lemma SetupAlong(setup: Setup, i: Incident, m: Machine) returns (way: bool)
    requires RunSetup(setup, m).0.Some?
    ensures way in SetupWays(setup, RunSetup(setup, m).0.value, i) && Along(way, i, m, RunSetup(setup, m).1)
  {
    match setup
    case Test(e) => way := EvalAlong(e, i, m);
    case TestAndBind(_, uses, x) => way := i in AsIncidents(uses) || i == VariableInit(x);
    case Enter(None) => way := false;
    case Enter(Some(x)) => way := i == VariableInit(x);
  }

  lemma SimpleAlong(s: Stmt, i: Incident, m: Machine) returns (way: bool)
    requires !s.If? && !s.While? && !s.Handle? && !s.Unsafe? && Exec(s, m).0 == Normal
    ensures way in StmtWays(s, i) && Along(way, i, m, Exec(s, m).1)
  {
    match s
    case ExprStmt(e, _) => way := EvalAlong(e, i, m);
    case Declare(v, optional) => way := optional && i == VariableInit(v);
    case DeclareAndAssign(v, e) =>
      way := EvalAlong(e, i, m);
      way := way || i == VariableInit(v);
    case Assign(target, e) =>
      way := EvalAlong(e, i, m);
      way := way || i == target;
  }

  lemma {:induction false} StmtAlong(s: Stmt, scope: set<nat>, i: Incident, m: Machine) returns (way: bool)
    requires Resolved(s, scope) && Dead(i, scope, m) && Exec(s, m).0 == Normal
    ensures way in StmtWays(s, i) && Along(way, i, m, Exec(s, m).1)
    decreases |m.io.answers|, s, 1
  {
    hide ExecScope, ScopeWays, SkipWays, SetupWays, InTurn;
    match s
    case If(chain) => way := ChainAlong(chain, scope, i, m);
    case While(c, b) => way := WhileAlong(c, b, scope, i, m);
    case Handle(call, uses, v, vb, x, eb) =>
      var (a, m1) := Ask(call, uses, m);
      if a.value {
        way := ScopeAlong(Enter(Some(x)), eb, scope, i, m1);
      } else {
        way := ScopeAlong(Enter(v), vb, scope, i, m1);
      }
      BothInTurn(i in AsIncidents(uses), way, {i in AsIncidents(uses)},
             ScopeWays(Enter(v), vb, i) + ScopeWays(Enter(Some(x)), eb, i));
      way := i in AsIncidents(uses) || way;
    case Unsafe(b) => way := AllAlong(b.stmts, scope, i, m);
    case _ => way := SimpleAlong(s, i, m);
  }

  lemma BothInTurn(x: bool, y: bool, a: set<bool>, b: set<bool>)
    requires x in a && y in b
    ensures (x || y) in InTurn(a, b)
  {
  }

  /** Any number of ways through a loop's block are one way through it. */
  lemma AgainInTurn(x: bool, y: bool, once: set<bool>, last: set<bool>)
    requires x in once && y in last + InTurn(once, last)
    ensures (x || y) in InTurn(once, last)
  {
  }

  lemma {:induction false} WhileAlong(c: Cond, b: Block, scope: set<nat>, i: Incident, m: Machine) returns (way: bool)
    requires ScopeResolved(c, b, scope) && Dead(i, scope, m) && ExecWhile(c, b, m).0 == Normal
    ensures way in SkipWays(c, b, i) + InTurn(ScopeWays(c, b, i), SkipWays(c, b, i))
    ensures Along(way, i, m, ExecWhile(c, b, m).1)
    decreases |m.io.answers|, b, 2
  {
    hide ScopeWays, SkipWays, InTurn, Eval;
    if ExecScope(c, b, m).Skipped? {
      way := SkipAlong(c, b, scope, i, m);
    } else {
      way := ScopeAlong(c, b, scope, i, m);
      if way { ScopeBrings(c, b, scope, i); }
      var more := WhileAlong(c, b, scope, i, ExecScope(c, b, m).m);
      AgainInTurn(way, more, ScopeWays(c, b, i), SkipWays(c, b, i));
      way := way || more;
    }
  }

  lemma SkipAlong(c: Cond, b: Block, scope: set<nat>, i: Incident, m: Machine) returns (way: bool)
    requires ScopeResolved(c, b, scope) && Dead(i, scope, m) && ExecScope(c, b, m).Skipped?
    ensures way in SkipWays(c, b, i) && Along(way, i, m, ExecScope(c, b, m).m)
  {
    way := SetupAlong(c, i, m);
    way := LeaveAlong(SetupWays(c, false, i), way, i, ScopeOf(c, b), scope, m, RunSetup(c, m).1);
  }

  lemma {:induction false} ScopeAlong(setup: Setup, b: Block, scope: set<nat>, i: Incident, m: Machine) returns (way: bool)
    requires ScopeResolved(setup, b, scope) && Dead(i, scope, m)
    requires ExecScope(setup, b, m).Ran? && ExecScope(setup, b, m).o == Normal
    ensures way in ScopeWays(setup, b, i) && Along(way, i, m, ExecScope(setup, b, m).m)
    decreases |m.io.answers|, b, 1
  {
    hide SetupWays, InTurn;
    var m1 := RunSetup(setup, m).1;
    way := SetupAlong(setup, i, m);
    if way { SetupBrings(setup, true, i); }
    var second := AllAlong(b.stmts, scope + BoundBy(setup), i, m1);
    var ways := InTurn(SetupWays(setup, true, i), AllWays(b.stmts, i));
    BothInTurn(way, second, SetupWays(setup, true, i), AllWays(b.stmts, i));
    way := LeaveAlong(ways, way || second, i, ScopeOf(setup, b), scope, m, ExecAll(b.stmts, m1).1);
  }

  lemma {:induction false} AllAlong(stmts: seq<Stmt>, scope: set<nat>, i: Incident, m: Machine) returns (way: bool)
    requires AllResolved(stmts, scope) && Dead(i, scope, m) && ExecAll(stmts, m).0 == Normal
    ensures way in AllWays(stmts, i) && Along(way, i, m, ExecAll(stmts, m).1)
    decreases |m.io.answers|, stmts
  {
    way := false;
    if stmts != [] {
      way := StmtAlong(stmts[0], scope, i, m);
      if way { StmtBrings(stmts[0], scope, i); }
      var second := AllAlong(stmts[1..], scope + LocalsOf(stmts[0]), i, Exec(stmts[0], m).1);
      way := way || second;
    }
  }

  lemma {:induction false} ChainAlong(chain: Chain, scope: set<nat>, i: Incident, m: Machine) returns (way: bool)
    requires ChainResolved(chain, scope) && Dead(i, scope, m) && ExecChain(chain, m).0 == Normal
    ensures way in ChainWays(chain, i) && Along(way, i, m, ExecChain(chain, m).1)
    decreases |m.io.answers|, chain
  {
    hide ExecScope, ScopeWays, SkipWays;
    match chain
    case NoElse => way := false;
    case Else(b) => way := ScopeAlong(Enter(None), b, scope, i, m);
    case Arm(c, b, rest) =>
      if ExecScope(c, b, m).Ran? {
        way := ScopeAlong(c, b, scope, i, m);
      } else {
        way := SkipAlong(c, b, scope, i, m);
        if way { SkipBrings(c, b, i); }
        var second := ChainAlong(rest, scope, i, ExecScope(c, b, m).m);
        BothInTurn(way, second, SkipWays(c, b, i), ChainWays(rest, i));
        way := way || second;
      }
  }

  // ----- Every way is taken -----

  /** Answers that lead along a way. */
  function EvalAnswers(e: Expr, v: bool, i: Incident, way: bool): seq<bool>
    requires way in EvalWays(e, v, i)
  {
    match e
    case Leaf(_, _) => [v]
    case Logical(isAnd, l, r) =>
      if v != isAnd && way in EvalWays(l, !isAnd, i) then EvalAnswers(l, !isAnd, i, way)
      else
        var (first, second) := Split(way, EvalWays(l, isAnd, i), EvalWays(r, v, i));
        EvalAnswers(l, isAnd, i, first) + EvalAnswers(r, v, i, second)
  }

  function ValueAnswers(e: Expr, i: Incident, way: bool): seq<bool> {
    if way in EvalWays(e, true, i) then EvalAnswers(e, true, i, way)
    else if way in EvalWays(e, false, i) then EvalAnswers(e, false, i, way)
    else EvalAnswers(e, true, i, !way)
  }

  function SetupAnswers(setup: Setup, v: bool, i: Incident, way: bool): seq<bool>
    requires way in SetupWays(setup, v, i)
  {
    match setup
    case Test(e) => EvalAnswers(e, v, i, way)
    case TestAndBind(_, _, _) => [v]
    case Enter(_) => []
  }

  function StmtAnswers(s: Stmt, i: Incident, way: bool): seq<bool>
    requires way in StmtWays(s, i)
    decreases s, 1
  {
    match s
    case ExprStmt(e, _) => ValueAnswers(e, i, way)
    case DeclareAndAssign(_, e) => ValueAnswers(e, i, way)
    case Assign(_, e) => ValueAnswers(e, i, way)
    case If(chain) => ChainAnswers(chain, i, way)
    case While(c, b) =>
      if way in SkipWays(c, b, i) then SkipAnswers(c, b, i, way)
      else
        var (first, second) := Split(way, ScopeWays(c, b, i), SkipWays(c, b, i));
        ScopeAnswers(c, b, i, first) + SkipAnswers(c, b, i, second)
    case Handle(_, _, _, _, _, _) => HandleAnswers(s, i, way)
    case Unsafe(b) => AllAnswers(b.stmts, i, way)
    case _ => []
  }

  function HandleAnswers(s: Stmt, i: Incident, way: bool): seq<bool>
    requires s.Handle? && way in StmtWays(s, i)
    decreases s, 0
  {
    var (values, errors) := (ScopeWays(Enter(s.valueVar), s.valueBlock, i), ScopeWays(Enter(Some(s.errorVar)), s.errorBlock, i));
    var (_, second) := Split(way, {i in AsIncidents(s.uses)}, values + errors);
    if second in values then [false] + ScopeAnswers(Enter(s.valueVar), s.valueBlock, i, second)
    else [true] + ScopeAnswers(Enter(Some(s.errorVar)), s.errorBlock, i, second)
  }

  function AllAnswers(stmts: seq<Stmt>, i: Incident, way: bool): seq<bool>
    requires way in AllWays(stmts, i)
    decreases stmts
  {
    if stmts == [] then []
    else
      var (first, second) := Split(way, StmtWays(stmts[0], i), AllWays(stmts[1..], i));
      StmtAnswers(stmts[0], i, first) + AllAnswers(stmts[1..], i, second)
  }

  /** A way that ends with the scope is any way within it if the incident is about a variable of the scope. */
  function Within(ways: set<bool>, own: set<nat>, i: Incident, way: bool): (r: bool)
    requires way in Leave(ways, own, i)
    ensures r in ways && (r == way || (i.VariableInit? && i.id in own && !way))
  {
    NoWay(ways);
    if way in ways then way else !way
  }

  function SkipAnswers(c: Cond, b: Block, i: Incident, way: bool): seq<bool>
    requires way in SkipWays(c, b, i)
  {
    SetupAnswers(c, false, i, Within(SetupWays(c, false, i), ScopeOf(c, b), i, way))
  }

  function ScopeAnswers(setup: Setup, b: Block, i: Incident, way: bool): seq<bool>
    requires way in ScopeWays(setup, b, i)
    decreases b
  {
    var inner := Within(InTurn(SetupWays(setup, true, i), AllWays(b.stmts, i)), ScopeOf(setup, b), i, way);
    var (first, second) := Split(inner, SetupWays(setup, true, i), AllWays(b.stmts, i));
    SetupAnswers(setup, true, i, first) + AllAnswers(b.stmts, i, second)
  }

  function ChainAnswers(chain: Chain, i: Incident, way: bool): seq<bool>
    requires way in ChainWays(chain, i)
    decreases chain
  {
    match chain
    case NoElse => []
    case Else(b) => ScopeAnswers(Enter(None), b, i, way)
    case Arm(c, b, rest) =>
      if way in ScopeWays(c, b, i) then ScopeAnswers(c, b, i, way)
      else
        var (first, second) := Split(way, SkipWays(c, b, i), ChainWays(rest, i));
        SkipAnswers(c, b, i, first) + ChainAnswers(rest, i, second)
  }

  /** The machine has the answers, and then the rest. */
  predicate Has(m: Machine, answers: seq<bool>, rest: seq<bool>) {
    m.io.answers == answers + rest
  }

  lemma HasMore(m: Machine, a: seq<bool>, b: seq<bool>, rest: seq<bool>)
    requires Has(m, a + b, rest)
    ensures Has(m, a, b + rest)
  {
    assert a + b + rest == a + (b + rest);
  }

  lemma {:induction false} EvalTakes(e: Expr, v: bool, i: Incident, way: bool, rest: seq<bool>, m: Machine)
    requires way in EvalWays(e, v, i) && Has(m, EvalAnswers(e, v, i, way), rest)
    ensures var (v', m1) := Eval(e, m);
      v' == Some(v) && m1.io.answers == rest && Along(way, i, m, m1)
  {
    match e
    case Leaf(_, _) =>
    case Logical(isAnd, l, r) =>
      if v != isAnd && way in EvalWays(l, !isAnd, i) {
        EvalTakes(l, !isAnd, i, way, rest, m);
      } else {
        var (first, second) := Split(way, EvalWays(l, isAnd, i), EvalWays(r, v, i));
        HasMore(m, EvalAnswers(l, isAnd, i, first), EvalAnswers(r, v, i, second), rest);
        EvalTakes(l, isAnd, i, first, EvalAnswers(r, v, i, second) + rest, m);
        EvalTakes(r, v, i, second, rest, Eval(l, m).1);
      }
  }

  lemma ValueTakes(e: Expr, i: Incident, way: bool, rest: seq<bool>, m: Machine)
    requires Has(m, ValueAnswers(e, i, way), rest)
    ensures var (v, m1) := Eval(e, m);
      v.Some? && m1.io.answers == rest && (way in ValueWays(e, i) ==> Along(way, i, m, m1))
  {
    var v := way in EvalWays(e, true, i) || way !in EvalWays(e, false, i);
    EvalTakes(e, v, i, if way in ValueWays(e, i) then way else !way, rest, m);
  }

  lemma SetupTakes(setup: Setup, v: bool, i: Incident, way: bool, rest: seq<bool>, m: Machine)
    requires way in SetupWays(setup, v, i) && Has(m, SetupAnswers(setup, v, i, way), rest)
    ensures var (v', m1) := RunSetup(setup, m);
      v' == Some(v) && m1.io.answers == rest && Along(way, i, m, m1)
  {
    match setup
    case Test(e) => EvalTakes(e, v, i, way, rest, m);
    case TestAndBind(_, _, _) =>
    case Enter(_) =>
  }

  lemma {:induction false} StmtTakes(s: Stmt, scope: set<nat>, i: Incident, way: bool, rest: seq<bool>, m: Machine)
    requires Resolved(s, scope) && Dead(i, scope, m)
    requires way in StmtWays(s, i) && Has(m, StmtAnswers(s, i, way), rest)
    ensures Exec(s, m).0 == Normal && Exec(s, m).1.io.answers == rest && Along(way, i, m, Exec(s, m).1)
    decreases s, 1
  {
    hide ExecScope, ScopeWays, SkipWays, EvalWays, InTurn, ScopeAnswers, SkipAnswers;
    match s
    case ExprStmt(e, _) => ValueTakes(e, i, way, rest, m);
    case DeclareAndAssign(_, e) => ValueTakes(e, i, way, rest, m);
    case Assign(_, e) => ValueTakes(e, i, way, rest, m);
    case If(chain) => ChainTakes(chain, scope, i, way, rest, m);
    case While(c, b) => WhileTakes(c, b, scope, i, way, rest, m);
    case Handle(_, _, _, _, _, _) => HandleTakes(s, scope, i, way, rest, m);
    case Unsafe(b) => AllTakes(b.stmts, scope, i, way, rest, m);
    case _ =>
  }

  lemma {:induction false} WhileTakes(c: Cond, b: Block, scope: set<nat>, i: Incident, way: bool, rest: seq<bool>,
                                      m: Machine)
    requires ScopeResolved(c, b, scope) && Dead(i, scope, m)
    requires way in StmtWays(While(c, b), i) && Has(m, StmtAnswers(While(c, b), i, way), rest)
    ensures var (o, m1) := ExecWhile(c, b, m);
      o == Normal && m1.io.answers == rest && Along(way, i, m, m1)
    decreases b, 2
  {
    hide ScopeWays, SkipWays, InTurn, ScopeAnswers, SkipAnswers, ExecScope;
    if way in SkipWays(c, b, i) {
      SkipTakes(c, b, scope, i, way, rest, m);
    } else {
      var (first, second) := Split(way, ScopeWays(c, b, i), SkipWays(c, b, i));
      HasMore(m, ScopeAnswers(c, b, i, first), SkipAnswers(c, b, i, second), rest);
      ScopeTakes(c, b, scope, i, first, SkipAnswers(c, b, i, second) + rest, m);
      if first { ScopeBrings(c, b, scope, i); }
      SkipTakes(c, b, scope, i, second, rest, ExecScope(c, b, m).m);
    }
  }

  lemma {:induction false} HandleTakes(s: Stmt, scope: set<nat>, i: Incident, way: bool, rest: seq<bool>, m: Machine)
    requires s.Handle? && Resolved(s, scope) && Dead(i, scope, m)
    requires way in StmtWays(s, i) && Has(m, HandleAnswers(s, i, way), rest)
    ensures var (o, m1) := ExecHandle(s, m);
      o == Normal && m1.io.answers == rest && Along(way, i, m, m1)
    decreases s, 0
  {
    hide ExecScope, ScopeWays, InTurn, ScopeAnswers;
    var (values, errors) := (ScopeWays(Enter(s.valueVar), s.valueBlock, i), ScopeWays(Enter(Some(s.errorVar)), s.errorBlock, i));
    var (_, second) := Split(way, {i in AsIncidents(s.uses)}, values + errors);
    var m1 := Ask(s.call, s.uses, m).1;
    if second in values {
      HasMore(m, [false], ScopeAnswers(Enter(s.valueVar), s.valueBlock, i, second), rest);
      ScopeTakes(Enter(s.valueVar), s.valueBlock, scope, i, second, rest, m1);
    } else {
      HasMore(m, [true], ScopeAnswers(Enter(Some(s.errorVar)), s.errorBlock, i, second), rest);
      ScopeTakes(Enter(Some(s.errorVar)), s.errorBlock, scope, i, second, rest, m1);
    }
  }

  lemma {:induction false} AllTakes(stmts: seq<Stmt>, scope: set<nat>, i: Incident, way: bool, rest: seq<bool>, m: Machine)
    requires AllResolved(stmts, scope) && Dead(i, scope, m)
    requires way in AllWays(stmts, i) && Has(m, AllAnswers(stmts, i, way), rest)
    ensures var (o, m1) := ExecAll(stmts, m);
      o == Normal && m1.io.answers == rest && Along(way, i, m, m1)
    decreases stmts
  {
    if stmts != [] {
      var (first, second) := Split(way, StmtWays(stmts[0], i), AllWays(stmts[1..], i));
      HasMore(m, StmtAnswers(stmts[0], i, first), AllAnswers(stmts[1..], i, second), rest);
      StmtTakes(stmts[0], scope, i, first, AllAnswers(stmts[1..], i, second) + rest, m);
      if first { StmtBrings(stmts[0], scope, i); }
      AllTakes(stmts[1..], scope + LocalsOf(stmts[0]), i, second, rest, Exec(stmts[0], m).1);
    }
  }

  lemma {:induction false} ScopeTakes(setup: Setup, b: Block, scope: set<nat>, i: Incident, way: bool,
                                      rest: seq<bool>, m: Machine)
    requires ScopeResolved(setup, b, scope) && Dead(i, scope, m)
    requires way in ScopeWays(setup, b, i) && Has(m, ScopeAnswers(setup, b, i, way), rest)
    ensures var r := ExecScope(setup, b, m);
      r.Ran? && r.o == Normal && r.m.io.answers == rest && Along(way, i, m, r.m)
    decreases b, 1
  {
    hide SetupWays, SetupAnswers, InTurn;
    var ways := InTurn(SetupWays(setup, true, i), AllWays(b.stmts, i));
    var inner := Within(ways, ScopeOf(setup, b), i, way);
    var (first, second) := Split(inner, SetupWays(setup, true, i), AllWays(b.stmts, i));
    HasMore(m, SetupAnswers(setup, true, i, first), AllAnswers(b.stmts, i, second), rest);
    SetupTakes(setup, true, i, first, AllAnswers(b.stmts, i, second) + rest, m);
    var m1 := RunSetup(setup, m).1;
    if first { SetupBrings(setup, true, i); }
    AllTakes(b.stmts, scope + BoundBy(setup), i, second, rest, m1);
    var left := LeaveAlong(ways, inner, i, ScopeOf(setup, b), scope, m, ExecAll(b.stmts, m1).1);
  }

  lemma SkipTakes(c: Cond, b: Block, scope: set<nat>, i: Incident, way: bool, rest: seq<bool>, m: Machine)
    requires ScopeResolved(c, b, scope) && Dead(i, scope, m)
    requires way in SkipWays(c, b, i) && Has(m, SkipAnswers(c, b, i, way), rest)
    ensures var r := ExecScope(c, b, m);
      r.Skipped? && r.m.io.answers == rest && Along(way, i, m, r.m)
  {
    var inner := Within(SetupWays(c, false, i), ScopeOf(c, b), i, way);
    SetupTakes(c, false, i, inner, rest, m);
    var left := LeaveAlong(SetupWays(c, false, i), inner, i, ScopeOf(c, b), scope, m, RunSetup(c, m).1);
  }

  lemma {:induction false} ChainTakes(chain: Chain, scope: set<nat>, i: Incident, way: bool, rest: seq<bool>, m: Machine)
    requires ChainResolved(chain, scope) && Dead(i, scope, m)
    requires way in ChainWays(chain, i) && Has(m, ChainAnswers(chain, i, way), rest)
    ensures var (o, m1) := ExecChain(chain, m);
      o == Normal && m1.io.answers == rest && Along(way, i, m, m1)
    decreases chain
  {
    hide ExecScope, ScopeWays, SkipWays, InTurn, ScopeAnswers, SkipAnswers;
    match chain
    case NoElse =>
    case Else(b) => ScopeTakes(Enter(None), b, scope, i, way, rest, m);
    case Arm(c, b, others) =>
      if way in ScopeWays(c, b, i) {
        ScopeTakes(c, b, scope, i, way, rest, m);
      } else {
        var (first, second) := Split(way, SkipWays(c, b, i), ChainWays(others, i));
        if first { SkipBrings(c, b, i); }
        HasMore(m, SkipAnswers(c, b, i, first), ChainAnswers(others, i, second), rest);
        SkipTakes(c, b, scope, i, first, ChainAnswers(others, i, second) + rest, m);
        ChainTakes(others, scope, i, second, rest, ExecScope(c, b, m).m);
      }
  }
}

/**
 The statement language the compiler analyses and lowers: the AST nodes of Compiler/AST that
 branch, loop, leave the function or initialize something. Every other expression is a leaf
 that the environment answers.
 */
module Syntax {
  import opened Wrappers

  /** Incidents that expressions record wherever they occur. */
  datatype Use = Self | TypeGenericArguments

  datatype Incident =
    | CalledSuperInitializer
    | Returned
    | Used(use: Use)
    | VariableInit(id: nat)
    | InstanceVarInit(id: nat)

  /** A boolean expression: a call (or literal, comparison, ...) or a short-circuit operator. */
  datatype Expr =
    | Leaf(id: nat, uses: set<Use>)
    | Logical(isAnd: bool, left: Expr, right: Expr)

  /** What opens a scope: a condition, a conditional assignment, or variables that are bound. */
  datatype Setup =
    | Test(e: Expr)
    | TestAndBind(id: nat, uses: set<Use>, variable: nat)
    | Enter(bound: Option<nat>)

  type Cond = s: Setup | !s.Enter? witness Test(Leaf(0, {}))

  /** A block with the fields that the analysis sets (returnedCertainly_ and stop_). */
  datatype Block = Block(stmts: seq<Stmt>, returned: bool, stop: nat)

  /** The conditions and blocks of an if statement, with the else block if there is one. */
  datatype Chain =
    | NoElse
    | Else(last: Block)
    | Arm(cond: Cond, body: Block, rest: Chain)

  datatype Stmt =
    | ExprStmt(e: Expr, neverReturns: bool)
    | Declare(variable: nat, optional: bool)
    | DeclareAndAssign(variable: nat, e: Expr)
    | Assign(target: Incident, e: Expr)
    | Return(value: Option<Expr>)
    | Raise(error: Expr)
    | If(chain: Chain)
    | While(cond: Cond, body: Block)
    | Handle(call: nat, uses: set<Use>, valueVar: Option<nat>, valueBlock: Block, errorVar: nat, errorBlock: Block)
    | Unsafe(body: Block)

  function Fresh(stmts: seq<Stmt>): Block {
    Block(stmts, false, 0)
  }

  /** The variables declared in the scope that `stmts` belong to: an unsafe block opens no scope. */
  function Locals(stmts: seq<Stmt>): set<nat> {
    if stmts == [] then {} else LocalsOf(stmts[0]) + Locals(stmts[1..])
  }

  function LocalsOf(s: Stmt): set<nat> {
    match s
    case Declare(v, _) => {v}
    case DeclareAndAssign(v, _) => {v}
    case Unsafe(b) => Locals(b.stmts)
    case _ => {}
  }

  function BoundBy(setup: Setup): set<nat> {
    match setup
    case TestAndBind(_, _, v) => {v}
    case Enter(Some(v)) => {v}
    case _ => {}
  }

  function ScopeOf(setup: Setup, b: Block): set<nat> {
    BoundBy(setup) + Locals(b.stmts)
  }

  /** The uses an expression records when it is analysed. */
  function Uses(e: Expr): set<Incident> {
    match e
    case Leaf(_, uses) => AsIncidents(uses)
    case Logical(_, l, r) => Uses(l) + Uses(r)
  }

  function AsIncidents(uses: set<Use>): set<Incident> {
    set u | u in uses :: Used(u)
  }

  /**
   What the scoper guarantees about variable ids: a declaration takes an id that no variable in
   scope has, and an assignment names a variable in scope. The ids of a scope that was left are
   given to variables that are declared later. `scope` holds the ids that are in scope in front of
   the statement.
   */
  predicate Resolved(s: Stmt, scope: set<nat>)
    decreases s
  {
    match s
    case Declare(v, _) => v !in scope
    case DeclareAndAssign(v, _) => v !in scope
    case Assign(i, _) => i != Returned && !i.Used? && (i.VariableInit? ==> i.id in scope)
    case If(chain) => ChainResolved(chain, scope)
    case While(c, b) => ScopeResolved(c, b, scope)
    case Handle(_, _, v, vb, x, eb) =>
      ScopeResolved(Enter(v), vb, scope) && ScopeResolved(Enter(Some(x)), eb, scope)
    case Unsafe(b) => AllResolved(b.stmts, scope)
    case _ => true
  }

  predicate AllResolved(stmts: seq<Stmt>, scope: set<nat>)
    decreases stmts
  {
    stmts == [] || (Resolved(stmts[0], scope) && AllResolved(stmts[1..], scope + LocalsOf(stmts[0])))
  }

  predicate ScopeResolved(setup: Setup, b: Block, scope: set<nat>)
    decreases b
  {
    ScopeOf(setup, b) !! scope && AllResolved(b.stmts, scope + BoundBy(setup))
  }

  predicate ChainResolved(chain: Chain, scope: set<nat>)
    decreases chain
  {
    match chain
    case NoElse => true
    case Else(b) => ScopeResolved(Enter(None), b, scope)
    case Arm(c, b, rest) => ScopeResolved(c, b, scope) && ChainResolved(rest, scope)
  }
}

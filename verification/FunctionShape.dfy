/**
 Every block of a compiled function ends in its one terminator, and branches only lead to blocks
 of the function.
 */
module FunctionShape {
  import opened Wrappers
  import opened Syntax
  import opened Semantics
  import opened PathAnalysis
  import opened PathSoundness
  import opened IR
  import opened Lowering
  import opened LoweringFrame
  import opened Simulation

  ghost predicate Open(block: seq<Instr>) {
    forall i | i in block :: !i.Terminator()
  }

  /** One terminator, at the end. */
  ghost predicate Closed(block: seq<Instr>) {
    block != [] && block[|block| - 1].Terminator() && Open(block[..|block| - 1])
  }

  /** The blocks inserted into the function since b. */
  function Inserted(b: Builder, c: Builder): seq<nat>
    requires |b.layout| <= |c.layout|
  {
    c.layout[|b.layout|..]
  }

  /** A finished block; or one that was only created, and is in the function only if pending. */
  ghost predicate Settled(b: Builder, pending: set<nat>, c: Builder, k: nat)
    requires k < |c.blocks| && |b.layout| <= |c.layout|
  {
    (Closed(c.blocks[k]) && k !in pending && (k == b.at || k in Inserted(b, c))) ||
    (c.blocks[k] == [] && k != b.at && (k in Inserted(b, c) <==> k in pending))
  }

  ghost predicate Distinct(s: seq<nat>) {
    forall i, j | 0 <= i < j < |s| :: s[i] != s[j]
  }

  /**
   The state c of lowering from b. The current block is closed or open. Every other block is
   settled; the pending ones are still to be filled. New instructions branch to the blocks of the
   function and to the exits.
   */
  ghost predicate Shape(b: Builder, exits: set<nat>, pending: set<nat>, c: Builder, closed: bool) {
    && |b.blocks| <= |c.blocks| && b.layout <= c.layout
    && Distinct(Inserted(b, c))
    && (forall k | k in Inserted(b, c) :: |b.blocks| <= k < |c.blocks|)
    && (c.at == b.at || c.at in Inserted(b, c)) && c.at !in pending
    && (if closed then Closed(c.Here()) else Open(c.Here()))
    && (forall k | k in pending :: |b.blocks| <= k < |c.blocks|)
    && (forall k | 0 <= k < |c.blocks| && k != c.at && (k == b.at || k >= |b.blocks|) :: Settled(b, pending, c, k))
    && (forall k, pc | 0 <= k < |c.blocks| && 0 <= pc < |c.blocks[k]| && IsNew(b, k, pc) ::
          forall t | t in c.blocks[k][pc].Targets() :: t in Inserted(b, c) || t in exits)
  }

  lemma DistinctAppend(s: seq<nat>, t: seq<nat>)
    requires Distinct(s) && Distinct(t) && forall k | k in s :: k !in t
    ensures Distinct(s + t)
  {
    forall i, j | 0 <= i < j < |s + t| ensures (s + t)[i] != (s + t)[j] {
      if i < |s| <= j { assert s[i] in s && t[j - |s|] in t; }
    }
  }

  // ----- Steps of the builder -----

  lemma ShapeRefl(b: Builder, exits: set<nat>)
    requires Open(b.Here())
    ensures Shape(b, exits, {}, b, false)
  {
  }

  lemma ShapePlain(b: Builder, exits: set<nat>, pending: set<nat>, c: Builder, i: Instr)
    requires Shape(b, exits, pending, c, false) && !i.Terminator()
    ensures Shape(b, exits, pending, Emit(c, i), false)
  {
    var d := Emit(c, i);
    forall k | 0 <= k < |d.blocks| && k != d.at && (k == b.at || k >= |b.blocks|) ensures Settled(b, pending, d, k) {
      assert Settled(b, pending, c, k);
    }
  }

  lemma ShapeEnd(b: Builder, exits: set<nat>, pending: set<nat>, c: Builder, i: Instr)
    requires Shape(b, exits, pending, c, false) && i.Terminator()
    requires forall t | t in i.Targets() :: t in Inserted(b, c) || t in exits
    ensures Shape(b, exits, pending, Emit(c, i), true)
  {
    var d := Emit(c, i);
    assert d.Here()[..|d.Here()| - 1] == c.Here();
    forall k | 0 <= k < |d.blocks| && k != d.at && (k == b.at || k >= |b.blocks|) ensures Settled(b, pending, d, k) {
      assert Settled(b, pending, c, k);
    }
  }

  lemma ShapeCreate(b: Builder, exits: set<nat>, pending: set<nat>, c: Builder, closed: bool)
    requires Shape(b, exits, pending, c, closed)
    ensures Shape(b, exits, pending, Create(c), closed)
  {
    var d := Create(c);
    forall k | 0 <= k < |d.blocks| && k != d.at && (k == b.at || k >= |b.blocks|) ensures Settled(b, pending, d, k) {
      if k < |c.blocks| { assert Settled(b, pending, c, k); }
    }
  }

  lemma ShapeCreateIn(b: Builder, exits: set<nat>, pending: set<nat>, c: Builder, closed: bool)
    requires Shape(b, exits, pending, c, closed)
    ensures Shape(b, exits, pending + {|c.blocks|}, CreateIn(c), closed)
    ensures |c.blocks| in Inserted(b, CreateIn(c)) && forall k :: k in Inserted(b, c) ==> k in Inserted(b, CreateIn(c))
  {
    var d := CreateIn(c);
    assert Inserted(b, d) == Inserted(b, c) + [|c.blocks|];
    DistinctAppend(Inserted(b, c), [|c.blocks|]);
    forall k | 0 <= k < |d.blocks| && k != d.at && (k == b.at || k >= |b.blocks|)
      ensures Settled(b, pending + {|c.blocks|}, d, k)
    {
      if k < |c.blocks| { assert Settled(b, pending, c, k); }
    }
  }

  lemma ShapeAt(b: Builder, exits: set<nat>, pending: set<nat>, c: Builder, k: nat)
    requires Shape(b, exits, pending, c, true) && k in pending
    ensures k < |c.blocks| && Shape(b, exits, pending - {k}, SetInsertPoint(c, k), false)
  {
    var d := SetInsertPoint(c, k);
    assert Settled(b, pending, c, k);
    forall j | 0 <= j < |d.blocks| && j != d.at && (j == b.at || j >= |b.blocks|)
      ensures Settled(b, pending - {k}, d, j)
    {
      if j != c.at { assert Settled(b, pending, c, j); }
    }
  }

  /** An exit becomes a block of the function. */
  lemma ShapeInsert(b: Builder, exits: set<nat>, c: Builder, k: nat)
    requires Shape(b, exits, {}, c, true) && |b.blocks| <= k < |c.blocks| && c.blocks[k] == []
    ensures Shape(b, exits - {k}, {}, SetInsertPoint(Insert(c, k), k), false)
  {
    var d := SetInsertPoint(Insert(c, k), k);
    assert Inserted(b, d) == Inserted(b, c) + [k];
    assert Settled(b, {}, c, k);
    DistinctAppend(Inserted(b, c), [k]);
    forall j | 0 <= j < |d.blocks| && j != d.at && (j == b.at || j >= |b.blocks|) ensures Settled(b, {}, d, j) {
      if j != c.at { assert Settled(b, {}, c, j); }
    }
  }

  lemma ShapeTrans(b: Builder, exits: set<nat>, pending: set<nat>, c: Builder, inner: set<nat>, d: Builder, closed: bool,
                   kept: set<nat>)
    requires Shape(b, exits, pending, c, false) && Shape(c, inner, {}, d, closed) && Frame(c, kept, d)
    requires forall t | t in inner :: t in Inserted(b, c) || t in exits
    ensures Shape(b, exits, pending, d, closed)
    ensures forall k :: k in Inserted(b, c) ==> k in Inserted(b, d)
  {
    assert Inserted(b, d) == Inserted(b, c) + Inserted(c, d);
    DistinctAppend(Inserted(b, c), Inserted(c, d));
    forall k | 0 <= k < |d.blocks| && k != d.at && (k == b.at || k >= |b.blocks|) ensures Settled(b, pending, d, k) {
      if k == c.at || k >= |c.blocks| {
        assert Settled(c, {}, d, k);
      } else {
        assert Settled(b, pending, c, k);
      }
    }
    forall k, pc | 0 <= k < |d.blocks| && 0 <= pc < |d.blocks[k]| && IsNew(b, k, pc)
      ensures forall t | t in d.blocks[k][pc].Targets() :: t in Inserted(b, d) || t in exits
    {
      if !IsNew(c, k, pc) {
        assert d.blocks[k][pc] == c.blocks[k][pc];
      }
    }
  }

  lemma ShapeCreateTwo(b: Builder, exits: set<nat>, c: Builder, closed: bool)
    requires Shape(b, exits, {}, c, closed)
    ensures Shape(b, exits, {|c.blocks|, |c.blocks| + 1}, CreateTwo(c), closed)
    ensures |c.blocks| in Inserted(b, CreateTwo(c)) && |c.blocks| + 1 in Inserted(b, CreateTwo(c))
  {
    ShapeCreateIn(b, exits, {}, c, closed);
    ShapeCreateIn(b, exits, {} + {|c.blocks|}, CreateIn(c), closed);
    assert {} + {|c.blocks|} + {|c.blocks| + 1} == {|c.blocks|, |c.blocks| + 1};
  }

  /** Ends the current block and goes on in a pending one. */
  lemma ShapeEndAt(b: Builder, exits: set<nat>, pending: set<nat>, c: Builder, i: Instr, k: nat)
    requires Shape(b, exits, pending, c, false) && i.Terminator() && k in pending
    requires forall t | t in i.Targets() :: t in Inserted(b, c) || t in exits
    ensures k < |c.blocks| && Shape(b, exits, pending - {k}, EndAt(c, i, k), false)
    ensures Inserted(b, EndAt(c, i, k)) == Inserted(b, c)
  {
    ShapeEnd(b, exits, pending, c, i);
    ShapeAt(b, exits, pending, Emit(c, i), k);
  }

  // ----- Expressions -----

  lemma {:induction false} ShapeExpr(b: Builder, e: Expr)
    requires Open(b.Here())
    ensures Shape(b, {}, {}, LowerExpr(b, e).0, false)
    decreases e
  {
    hide Shape, Frame, Grows, Open;
    ShapeRefl(b, {});
    match e
    case Leaf(id, _) => ShapePlain(b, {}, {}, b, Call(id));
    case Logical(isAnd, left, right) =>
      var (b1, l) := LowerExpr(b, left);
      var b2 := Fork(b1, isAnd, l);
      var (b3, r) := LowerExpr(b2, right);
      ShapeExpr(b, left);
      ShapeFork(b, b1, isAnd, l);
      ShapeExpr(b2, right);
      FrameExpr(b2, right);
      ShapeJoin(b, b1, isAnd, b2, b3, r);
  }

  lemma ShapeFork(b: Builder, c: Builder, isAnd: bool, l: Operand)
    requires Shape(b, {}, {}, c, false)
    ensures Shape(b, {}, {|c.blocks| + 1}, Fork(c, isAnd, l), false)
    ensures |c.blocks| + 1 in Inserted(b, Fork(c, isAnd, l)) && Open(Fork(c, isAnd, l).Here())
  {
    hide Settled, Closed;
    ShapeCreateTwo(b, {}, c, false);
    ShapeEndAt(b, {}, {|c.blocks|, |c.blocks| + 1}, CreateTwo(c), ForkBranch(c, isAnd, l), |c.blocks|);
    assert {|c.blocks|, |c.blocks| + 1} - {|c.blocks|} == {|c.blocks| + 1};
  }

  lemma ShapeJoin(b: Builder, b1: Builder, isAnd: bool, b2: Builder, c: Builder, r: Operand)
    requires Shape(b, {}, {|b1.blocks| + 1}, b2, false) && |b1.blocks| + 1 in Inserted(b, b2)
    requires Shape(b2, {}, {}, c, false) && Frame(b2, {}, c) && |b1.blocks| + 1 < |c.blocks|
    ensures Shape(b, {}, {}, Join(b1, isAnd, c, r).0, false)
  {
    hide Shape, Frame;
    var cont := |b1.blocks| + 1;
    ShapeTrans(b, {}, {cont}, b2, {}, c, false, {});
    ShapeSize(b, {}, {cont}, b2, false);
    ShapeSize(b, {}, {cont}, c, false);
    ShapeEndAt(b, {}, {cont}, c, Br(cont), cont);
    assert {cont} - {cont} == {};
    ShapePlain(b, {}, {}, EndAt(c, Br(cont), cont), JoinPhi(b1, isAnd, c, r));
  }

  lemma ShapeSize(b: Builder, exits: set<nat>, pending: set<nat>, c: Builder, closed: bool)
    requires Shape(b, exits, pending, c, closed)
    ensures |b.layout| <= |c.layout| && |b.blocks| <= |c.blocks|
    ensures if closed then Closed(c.Here()) else Open(c.Here())
  {
  }

  lemma ShapeCond(b: Builder, c: Cond)
    requires Open(b.Here())
    ensures Shape(b, {}, {}, LowerCond(b, c).0, false)
  {
    hide Shape;
    match c
    case Test(e) => ShapeExpr(b, e);
    case TestAndBind(id, _, v) =>
      ShapeRefl(b, {});
      ShapePlain(b, {}, {}, b, Call(id));
      ShapePlain(b, {}, {}, Emit(b, Call(id)), Store(Initialized(VariableInit(v))));
  }

  lemma ShapeStore(b: Builder, s: Slot, e: Expr)
    requires Open(b.Here())
    ensures Shape(b, {}, {}, LowerStore(b, s, e), false)
  {
    hide Shape;
    ShapeExpr(b, e);
    ShapePlain(b, {}, {}, LowerExpr(b, e).0, Store(s));
  }

  /** Whether a statement without blocks leaves the function. */
  predicate Leaves(s: Stmt) {
    s.Return? || s.Raise? || (s.ExprStmt? && s.neverReturns)
  }

  lemma ShapeSimple(b: Builder, s: Stmt)
    requires Open(b.Here())
    ensures Shape(b, {}, {}, LowerSimple(b, s), Leaves(s))
  {
    hide Shape, Grows, Open;
    ShapeRefl(b, {});
    match s
    case ExprStmt(e, never) =>
      ShapeExpr(b, e);
      if never { ShapeLeave(b, LowerExpr(b, e).0, Unreachable); }
    case Declare(v, optional) =>
      if optional { ShapePlain(b, {}, {}, b, Store(Initialized(VariableInit(v)))); }
    case DeclareAndAssign(v, e) => ShapeStore(b, Initialized(VariableInit(v)), e);
    case Assign(i, e) => ShapeStore(b, Initialized(i), e);
    case Return(None) => ShapeLeave(b, b, Ret(None));
    case Return(Some(e)) =>
      ShapeExpr(b, e);
      ShapeLeave(b, LowerExpr(b, e).0, Ret(Some(LowerExpr(b, e).1)));
    case Raise(e) =>
      ShapeStore(b, ErrorPointer, e);
      ShapeLeave(b, LowerStore(b, ErrorPointer, e), RetError);
    case _ =>
  }

  lemma ShapeLeave(b: Builder, c: Builder, i: Instr)
    requires Shape(b, {}, {}, c, false) && i.Terminator() && i.Targets() == {}
    ensures Shape(b, {}, {}, Emit(c, i), true)
  {
    hide Settled;
    ShapeEnd(b, {}, {}, c, i);
  }

  // ----- Blocks -----

  ghost predicate Reached(p: Path) {
    Current(p).branches == [] && Returned !in AllCertain(p)
  }

  function IntoExits(block: Block, after: nat): set<nat> {
    if block.returned then {} else {after}
  }

  function ChainExits(chain: Chain, after: nat): set<nat> {
    if ReachesEnd(chain) then {after} else {}
  }

  lemma {:induction false} ShapeAll(p: Path, stmts: seq<Stmt>, b: Builder, scope: set<nat>)
    requires Reached(p) && Open(b.Here()) && AllResolved(stmts, scope)
    ensures Shape(b, {}, {}, LowerLive(p, b, stmts), AnalyseAll(p, stmts).2.Some?)
    decreases stmts
  {
    hide Shape, Open, Frame, Grows;
    ShapeRefl(b, {});
    if stmts != [] {
      var (p1, s) := Analyse(p, stmts[0]);
      var b1 := Lower(b, s);
      LiveStep(p, stmts, b);
      ShapeStmt(p, stmts[0], b, scope);
      if Returned in AllCertain(p1) {
        CutAtOnce(p1, b1, stmts[1..]);
      } else {
        ShapeSize(b, {}, {}, b1, false);
        ShapeAll(p1, stmts[1..], b1, scope + LocalsOf(stmts[0]));
        FrameRest(p1, b1, stmts[1..]);
        ShapeTrans(b, {}, {}, b1, {}, LowerLive(p1, b1, stmts[1..]), AnalyseAll(p, stmts).2.Some?, {});
      }
    }
  }

  /** Nothing is lowered after a return. */
  lemma CutAtOnce(p: Path, b: Builder, stmts: seq<Stmt>)
    requires Current(p).branches == [] && Returned in AllCertain(p)
    ensures AnalyseAll(p, stmts).2 == Some(0) && LowerLive(p, b, stmts) == b
  {
  }

  lemma FrameRest(p: Path, b: Builder, stmts: seq<Stmt>)
    requires Current(p).branches == []
    ensures Frame(b, {}, LowerLive(p, b, stmts))
  {
    var (_, stmts', cut) := AnalyseAll(p, stmts);
    FrameAll(b, stmts', StopOf(cut, stmts));
  }

  lemma {:induction false} ShapeInto(p: Path, block: Block, b: Builder, after: nat, scope: set<nat>)
    requires Reached(p) && Open(b.Here()) && AllResolved(block.stmts, scope)
    ensures var block' := AnalyseBlock(p, block).1;
      Shape(b, IntoExits(block', after), {}, LowerInto(b, block', after), true)
    decreases block, 0
  {
    hide Shape, Open, Frame;
    var block' := AnalyseBlock(p, block).1;
    var b1 := LowerBlock(b, block');
    assert b1 == LowerLive(p, b, block.stmts);
    ShapeAll(p, block.stmts, b, scope);
    if !block'.returned {
      ShapeEndOut(b, b1, after);
    }
  }

  lemma ShapeEndOut(b: Builder, c: Builder, after: nat)
    requires Shape(b, {}, {}, c, false)
    ensures Shape(b, {after}, {}, Emit(c, Br(after)), true)
  {
    hide Settled;
    assert Shape(b, {after}, {}, c, false);
    ShapeEnd(b, {after}, {}, c, Br(after));
  }

  lemma BranchReached(p: Path, setup: Setup, block: Block)
    requires Returned !in AllCertain(p)
    ensures Reached(Record(Begin(p), RecordedBy(setup)))
    ensures BranchOf(p, setup, block).HasReturned() <==> AnalyseBranch(p, setup, block).1.returned
    ensures Returned !in AllCertain(AnalyseBranch(p, setup, block).0)
  {
    hide AllCertain, AllPotential;
    var start := Record(Begin(p), RecordedBy(setup));
    BranchIs(p, setup, block);
    SetupHappens(setup, Machine(IO([], []), {}));
    CutReturned(start, block.stmts);
    SameSets(p, AnalyseBranch(p, setup, block).0);
  }

  lemma {:induction false} ShapeScope(p: Path, setup: Setup, block: Block, b: Builder, after: nat, scope: set<nat>)
    requires Returned !in AllCertain(p) && Open(b.Here()) && ScopeResolved(setup, block, scope)
    ensures var block' := AnalyseBranch(p, setup, block).1;
      Shape(b, IntoExits(block', after), {}, LowerInto(b, block', after), true)
    decreases block, 1
  {
    BranchReached(p, setup, block);
    ShapeInto(Record(Begin(p), RecordedBy(setup)), block, b, after, scope + BoundBy(setup));
  }

  lemma {:induction false} ShapeStmt(p: Path, s: Stmt, b: Builder, scope: set<nat>)
    requires Reached(p) && Open(b.Here()) && Resolved(s, scope)
    ensures Shape(b, {}, {}, Lower(b, Analyse(p, s).1), Returned in AllCertain(Analyse(p, s).0))
    decreases s, 2
  {
    hide Shape, Open, AllCertain, AllPotential, AnalyseIf, AnalyseWhile, AnalyseHandle;
    hide LowerIf, LowerWhile, LowerHandle, LowerBlock, LowerSimple;
    match s
    case If(chain) => ShapeIf(p, chain, b, scope);
    case While(c, body) => ShapeWhile(p, c, body, b, scope);
    case Handle(_, _, _, _, _, _) => ShapeHandle(p, s, b, scope);
    case Unsafe(block) =>
      ShapeAll(p, block.stmts, b, scope);
      UnsafeIs(p, block, b);
    case _ =>
      SimpleReturned(p, s, scope);
      ShapeSimple(b, s);
  }

  lemma UnsafeIs(p: Path, block: Block, b: Builder)
    requires Current(p).branches == []
    ensures LowerBlock(b, AnalyseBlock(p, block).1) == LowerLive(p, b, block.stmts)
    ensures AnalyseAll(p, block.stmts).2.Some? <==> Returned in AllCertain(AnalyseBlock(p, block).0)
  {
    CutReturned(p, block.stmts);
  }

  lemma SimpleReturned(p: Path, s: Stmt, scope: set<nat>)
    requires Reached(p) && Resolved(s, scope) && !s.If? && !s.While? && !s.Handle? && !s.Unsafe?
    ensures Returned in AllCertain(Analyse(p, s).0) <==> Leaves(s)
  {
    RecordSets(p, RecordedAt(s));
    match s
    case ExprStmt(e, _) => UsesAreUses(e);
    case DeclareAndAssign(_, e) => UsesAreUses(e);
    case Assign(_, e) => UsesAreUses(e);
    case _ =>
  }

  // ----- If -----

  /** An if statement returned exactly if none of its blocks reaches the end. */
  lemma {:induction false} ChainReturned(p: Path, chain: Chain)
    requires Returned !in AllCertain(p)
    ensures Returned !in AllCertain(AnalyseChain(p, chain).0)
    ensures !ReachesEnd(AnalyseChain(p, chain).1) <==>
            HasElse(chain) && forall c | c in Added(p, AnalyseChain(p, chain).0) :: c.HasReturned()
    ensures HasElse(chain) ==> Added(p, AnalyseChain(p, chain).0) != []
    decreases chain
  {
    hide AllCertain, AllPotential, BranchOf;
    match chain
    case NoElse =>
    case Else(b) =>
      BranchReached(p, Enter(None), b);
      BranchIs(p, Enter(None), b);
      assert Added(p, AnalyseChain(p, chain).0) == [BranchOf(p, Enter(None), b)];
    case Arm(c, b, rest) =>
      var p1 := AnalyseBranch(p, c, b).0;
      var p2 := AnalyseChain(p1, rest).0;
      BranchReached(p, c, b);
      BranchIs(p, c, b);
      ChainReturned(p1, rest);
      AddedTrans(p, p1, p2);
      assert Added(p, p2) == [BranchOf(p, c, b)] + Added(p1, p2);
  }

  lemma MergeReturned(p: Path)
    requires Returned !in AllCertain(p)
    ensures Returned in AllCertain(Update(p, Current(p).FinishMutualExclusive())) <==>
            Current(p).branches != [] && forall c | c in Current(p).branches :: c.HasReturned()
    ensures Returned !in AllCertain(Update(p, Current(p).FinishUncertain()))
  {
    PathSets(p);
    PathSets(Update(p, Current(p).FinishMutualExclusive()));
    PathSets(Update(p, Current(p).FinishUncertain()));
    if Current(p).branches != [] && forall c | c in Current(p).branches :: c.HasReturned() {
      assert Current(p).branches[0] in Current(p).branches;
      assert Returned in Intersection(Current(p).branches, false);
    }
  }

  lemma IfReturned(p: Path, chain: Chain)
    requires Reached(p)
    ensures Returned in AllCertain(AnalyseIf(p, chain).0) <==> !ReachesEnd(AnalyseChain(p, chain).1)
  {
    hide AllCertain, AllPotential, Intersection;
    ChainReturned(p, chain);
    MergeReturned(AnalyseChain(p, chain).0);
  }

  lemma {:induction false} ShapeIf(p: Path, chain: Chain, b: Builder, scope: set<nat>)
    requires Reached(p) && Open(b.Here()) && ChainResolved(chain, scope)
    ensures Shape(b, {}, {}, LowerIf(b, AnalyseChain(p, chain).1), Returned in AllCertain(AnalyseIf(p, chain).0))
    decreases chain, 1
  {
    hide Shape, Open, AllCertain, AnalyseIf, AnalyseChain, LowerIf, LowerChain;
    IfReturned(p, chain);
    ShapeChain(p, chain, Create(b), |b.blocks|, scope);
    ShapeIfEnd(b, AnalyseChain(p, chain).1);
  }

  lemma ShapeIfEnd(b: Builder, chain: Chain)
    requires Open(b.Here())
    requires Shape(Create(b), ChainExits(chain, |b.blocks|), {}, LowerChain(Create(b), chain, |b.blocks|), true)
    ensures Shape(b, {}, {}, LowerIf(b, chain), !ReachesEnd(chain))
  {
    hide Shape, Open, Frame, LowerChain;
    var after := |b.blocks|;
    var exits := ChainExits(chain, after);
    var b1 := LowerChain(Create(b), chain, after);
    ShapeRefl(b, exits);
    ShapeCreate(b, exits, {}, b, false);
    FrameChain(Create(b), chain, after);
    ShapeTrans(b, exits, {}, Create(b), exits, b1, true, {after});
    if ReachesEnd(chain) {
      FrameKeeps(Create(b), {after}, b1, after);
      ShapeInsert(b, {after}, b1, after);
      assert {after} - {after} == {};
    }
  }

  lemma {:induction false} ShapeChain(p: Path, chain: Chain, b: Builder, after: nat, scope: set<nat>)
    requires Returned !in AllCertain(p) && Open(b.Here()) && ChainResolved(chain, scope)
    ensures var chain' := AnalyseChain(p, chain).1;
      Shape(b, ChainExits(chain', after), {}, LowerChain(b, chain', after), true)
    decreases chain, 0
  {
    hide Shape, Open, Frame, AllCertain, AnalyseBranch;
    match chain
    case NoElse =>
      ShapeRefl(b, {});
      ShapeEndOut(b, b, after);
    case Else(block) => ShapeScope(p, Enter(None), block, b, after, scope);
    case Arm(c, block, rest) =>
      var (p1, block') := AnalyseBranch(p, c, block);
      var rest' := AnalyseChain(p1, rest).1;
      var b2 := ArmThen(b, c);
      var b3 := ArmElse(b, c, block', after);
      BranchReached(p, c, block);
      ShapeArmThen(b, c);
      ShapeScope(p, c, block, b2, after, scope);
      ShapeArmElse(b, c, block', after);
      ShapeChain(p1, rest, b3, after, scope);
      ShapeArmRest(b, c, block', rest', after);
  }

  lemma ShapeArmThen(b: Builder, c: Cond)
    requires Open(b.Here())
    ensures Shape(b, {}, {|b.blocks| + 1}, ArmThen(b, c), false) && Open(ArmThen(b, c).Here())
    ensures |b.blocks| + 1 in Inserted(b, ArmThen(b, c))
  {
    hide Shape, Open, Frame, Inserted;
    var yes, no := |b.blocks|, |b.blocks| + 1;
    var b0 := CreateTwo(b);
    var (b1, v) := ArmTest(b, c);
    ShapeRefl(b, {});
    ShapeCreateTwo(b, {}, b, false);
    ShapeSize(b, {}, {yes, no}, b0, false);
    ShapeCond(b0, c);
    FrameCond(b0, c);
    ShapeTrans(b, {}, {yes, no}, b0, {}, b1, false, {});
    ShapeSize(b, {}, {yes, no}, b1, false);
    ShapeEndAt(b, {}, {yes, no}, b1, CondBr(v, yes, no), yes);
    assert {yes, no} - {yes} == {no};
    ShapeSize(b, {}, {no}, ArmThen(b, c), false);
  }

  lemma ShapeWeaken(b: Builder, few: set<nat>, many: set<nat>, pending: set<nat>, c: Builder, closed: bool)
    requires Shape(b, few, pending, c, closed) && few <= many
    ensures Shape(b, many, pending, c, closed)
  {
    forall k | 0 <= k < |c.blocks| && k != c.at && (k == b.at || k >= |b.blocks|) ensures Settled(b, pending, c, k) {
    }
  }

  lemma ShapeArmElse(b: Builder, c: Cond, block: Block, after: nat)
    requires Shape(b, {}, {|b.blocks| + 1}, ArmThen(b, c), false)
    requires Shape(ArmThen(b, c), IntoExits(block, after), {}, LowerInto(ArmThen(b, c), block, after), true)
    ensures Shape(b, IntoExits(block, after), {}, ArmElse(b, c, block, after), false)
    ensures Open(ArmElse(b, c, block, after).Here())
  {
    hide Shape, Open, Frame, LowerInto, ArmThen;
    var exits, no := IntoExits(block, after), |b.blocks| + 1;
    ShapeWeaken(b, {}, exits, {no}, ArmThen(b, c), false);
    FrameInto(ArmThen(b, c), block, after);
    ShapeSize(b, exits, {no}, ArmThen(b, c), false);
    ShapeTrans(b, exits, {no}, ArmThen(b, c), exits, LowerInto(ArmThen(b, c), block, after), true, {after});
    ShapeAt(b, exits, {no}, LowerInto(ArmThen(b, c), block, after), no);
    assert {no} - {no} == {};
    ShapeSize(b, exits, {}, ArmElse(b, c, block, after), false);
  }

  lemma ShapeArmRest(b: Builder, c: Cond, block: Block, rest: Chain, after: nat)
    requires Shape(b, IntoExits(block, after), {}, ArmElse(b, c, block, after), false)
    requires var b3 := ArmElse(b, c, block, after);
      Shape(b3, ChainExits(rest, after), {}, LowerChain(b3, rest, after), true)
    ensures Shape(b, ChainExits(Arm(c, block, rest), after), {}, LowerChain(b, Arm(c, block, rest), after), true)
  {
    hide Shape, Frame;
    var exits := ChainExits(Arm(c, block, rest), after);
    var b3 := ArmElse(b, c, block, after);
    ShapeWeaken(b, IntoExits(block, after), exits, {}, b3, false);
    FrameChain(b3, rest, after);
    ShapeSize(b, exits, {}, b3, false);
    ShapeTrans(b, exits, {}, b3, ChainExits(rest, after), LowerChain(b3, rest, after), true, {after});
  }

  // ----- Loops -----

  lemma WhileReturned(p: Path, c: Cond, body: Block)
    requires Reached(p)
    ensures Returned !in AllCertain(AnalyseWhile(p, c, body).0)
  {
    hide AllCertain, AllPotential;
    BranchReached(p, c, body);
    MergeReturned(AnalyseBranch(p, c, body).0);
  }

  lemma {:induction false} ShapeWhile(p: Path, c: Cond, body: Block, b: Builder, scope: set<nat>)
    requires Reached(p) && Open(b.Here()) && ScopeResolved(c, body, scope)
    ensures Shape(b, {}, {}, LowerWhile(b, c, AnalyseBranch(p, c, body).1), Returned in AllCertain(AnalyseWhile(p, c, body).0))
    decreases body, 2
  {
    hide Shape, Open, AllCertain, AnalyseWhile, AnalyseBranch, LowerWhile, LowerInto, LoopBody;
    WhileReturned(p, c, body);
    ShapeLoopBody(b, c);
    ShapeScope(p, c, body, LoopBody(b, c), |b.blocks| + 1, scope);
    ShapeWhileEnd(b, c, AnalyseBranch(p, c, body).1);
  }

  lemma ShapeWhileEnd(b: Builder, c: Cond, body: Block)
    requires Shape(b, {|b.blocks|}, {}, LoopBody(b, c), false) && |b.blocks| + 1 in Inserted(b, LoopBody(b, c))
    requires Shape(LoopBody(b, c), IntoExits(body, |b.blocks| + 1), {}, LowerInto(LoopBody(b, c), body, |b.blocks| + 1), true)
    ensures Shape(b, {}, {}, LowerWhile(b, c, body), false)
  {
    hide Shape, Frame, LowerInto, LoopBody, LowerWhile, Inserted;
    var after := |b.blocks|;
    WhileIs(b, c, body);
    var b3 := LoopBody(b, c);
    var b4 := LowerInto(b3, body, after + 1);
    FrameInto(b3, body, after + 1);
    ShapeSize(b, {after}, {}, b3, false);
    ShapeTrans(b, {after}, {}, b3, IntoExits(body, after + 1), b4, true, {after + 1});
    ShapeInsert(b, {after}, b4, after);
    assert {after} - {after} == {};
  }

  lemma WhileIs(b: Builder, c: Cond, body: Block)
    ensures var b4 := LowerInto(LoopBody(b, c), body, |b.blocks| + 1);
      |b.blocks| < |b4.blocks| && b4.blocks[|b.blocks|] == []
      && LowerWhile(b, c, body) == SetInsertPoint(Insert(b4, |b.blocks|), |b.blocks|)
  {
    hide LowerInto, LowerCond, Grows, Emit, Create, CreateTwo;
    LoopEmpty(b, c, body);
    LoopSize(b, c);
  }

  lemma LoopSize(b: Builder, c: Cond)
    ensures |b.blocks| + 2 < |LoopBody(b, c).blocks|
  {
    hide LowerCond, Grows;
  }

  lemma ShapeLoopHead(b: Builder)
    requires Open(b.Here())
    ensures Shape(b, {|b.blocks|}, {|b.blocks| + 2}, LoopHead(b), false) && Open(LoopHead(b).Here())
    ensures |b.blocks| + 1 in Inserted(b, LoopHead(b)) && |b.blocks| + 2 in Inserted(b, LoopHead(b))
  {
    hide Shape, Open, Frame, Inserted, Grows;
    var exits, head, repeat := {|b.blocks|}, |b.blocks| + 1, |b.blocks| + 2;
    var b0 := CreateTwo(Create(b));
    ShapeRefl(b, exits);
    ShapeCreate(b, exits, {}, b, false);
    ShapeCreateTwo(b, exits, Create(b), false);
    ShapeEndAt(b, exits, {head, repeat}, b0, Br(head), head);
    assert {head, repeat} - {head} == {repeat};
    ShapeSize(b, exits, {repeat}, LoopHead(b), false);
  }

  lemma ShapeLoopBody(b: Builder, c: Cond)
    requires Open(b.Here())
    ensures Shape(b, {|b.blocks|}, {}, LoopBody(b, c), false) && Open(LoopBody(b, c).Here())
    ensures |b.blocks| + 1 in Inserted(b, LoopBody(b, c))
  {
    hide Shape, Open, Frame, Inserted, Grows, LoopHead, LowerCond;
    var after, repeat := |b.blocks|, |b.blocks| + 2;
    var b1 := LoopHead(b);
    var (b2, v) := LowerCond(b1, c);
    ShapeLoopHead(b);
    ShapeCond(b1, c);
    FrameCond(b1, c);
    ShapeTrans(b, {after}, {repeat}, b1, {}, b2, false, {});
    ShapeSize(b, {after}, {repeat}, b2, false);
    ShapeEndAt(b, {after}, {repeat}, b2, CondBr(v, repeat, after), repeat);
    assert {repeat} - {repeat} == {};
    ShapeSize(b, {after}, {}, LoopBody(b, c), false);
  }

  // ----- Error handlers -----

  function HandleExits(s: Stmt, after: nat): set<nat>
    requires s.Handle?
  {
    IntoExits(s.errorBlock, after) + IntoExits(s.valueBlock, after)
  }

  lemma {:induction false} ShapeBound(p: Path, v: Option<nat>, block: Block, b: Builder, after: nat, scope: set<nat>)
    requires Returned !in AllCertain(p) && Open(b.Here()) && ScopeResolved(Enter(v), block, scope)
    ensures var block' := AnalyseBranch(p, Enter(v), block).1;
      Shape(b, IntoExits(block', after), {}, LowerBound(b, v, block', after), true)
    decreases block, 2
  {
    hide Shape, Open, Frame, AllCertain, AnalyseBranch;
    var block' := AnalyseBranch(p, Enter(v), block).1;
    if v.Some? {
      var exits := IntoExits(block', after);
      var b1 := Emit(b, Store(Initialized(VariableInit(v.value))));
      ShapeRefl(b, exits);
      ShapePlain(b, exits, {}, b, Store(Initialized(VariableInit(v.value))));
      ShapeSize(b, exits, {}, b1, false);
      ShapeScope(p, Enter(v), block, b1, after, scope);
      FrameInto(b1, block', after);
      ShapeTrans(b, exits, {}, b1, exits, LowerInto(b1, block', after), true, {after});
    } else {
      ShapeScope(p, Enter(v), block, b, after, scope);
    }
  }

  lemma ShapeHandleError(b: Builder, s: Stmt)
    requires s.Handle? && Open(b.Here())
    ensures Shape(b, {}, {|b.blocks| + 1}, HandleError(b, s), false) && Open(HandleError(b, s).Here())
  {
    hide Shape, Open, Inserted;
    var after, noError, error := |b.blocks|, |b.blocks| + 1, |b.blocks| + 2;
    var b0 := CreateTwo(Create(b));
    ShapeRefl(b, {});
    ShapeCreate(b, {}, {}, b, false);
    ShapeCreateTwo(b, {}, Create(b), false);
    ShapePlain(b, {}, {noError, error}, b0, Call(s.call));
    SameInserted(b, b0, Call(s.call));
    ShapeSize(b, {}, {noError, error}, HandleTest(b, s), false);
    ShapeEndAt(b, {}, {noError, error}, HandleTest(b, s), HandleBranch(b), error);
    assert {noError, error} - {error} == {noError};
    ShapeSize(b, {}, {noError}, HandleError(b, s), false);
  }

  lemma SameInserted(b: Builder, c: Builder, i: Instr)
    requires |b.layout| <= |c.layout|
    ensures Inserted(b, Emit(c, i)) == Inserted(b, c)
  {
  }

  lemma ShapeHandleValue(b: Builder, s: Stmt)
    requires s.Handle? && Shape(b, {}, {|b.blocks| + 1}, HandleError(b, s), false)
    requires Shape(HandleError(b, s), IntoExits(s.errorBlock, |b.blocks|), {},
                   LowerBound(HandleError(b, s), Some(s.errorVar), s.errorBlock, |b.blocks|), true)
    ensures Shape(b, HandleExits(s, |b.blocks|), {}, HandleValue(b, s), false) && Open(HandleValue(b, s).Here())
  {
    hide Shape, Open, Frame, LowerBound, HandleError;
    var after, noError := |b.blocks|, |b.blocks| + 1;
    var exits := HandleExits(s, after);
    var b1 := HandleError(b, s);
    var b2 := LowerBound(b1, Some(s.errorVar), s.errorBlock, after);
    ShapeWeaken(b, {}, exits, {noError}, b1, false);
    FrameBound(b1, Some(s.errorVar), s.errorBlock, after);
    ShapeSize(b, exits, {noError}, b1, false);
    ShapeTrans(b, exits, {noError}, b1, IntoExits(s.errorBlock, after), b2, true, {after});
    ShapeAt(b, exits, {noError}, b2, noError);
    assert {noError} - {noError} == {};
    ShapeSize(b, exits, {}, HandleValue(b, s), false);
  }

  lemma ShapeHandleEnd(b: Builder, s: Stmt)
    requires s.Handle? && Shape(b, HandleExits(s, |b.blocks|), {}, HandleValue(b, s), false)
    requires Shape(HandleValue(b, s), IntoExits(s.valueBlock, |b.blocks|), {},
                   LowerBound(HandleValue(b, s), s.valueVar, s.valueBlock, |b.blocks|), true)
    ensures Shape(b, {}, {}, LowerHandle(b, s), s.errorBlock.returned && s.valueBlock.returned)
  {
    hide Shape, Frame, LowerBound, HandleValue, Inserted, LowerHandle;
    var after := |b.blocks|;
    var exits := HandleExits(s, after);
    var b3 := HandleValue(b, s);
    var b4 := LowerBound(b3, s.valueVar, s.valueBlock, after);
    HandleIs(b, s);
    FrameBound(b3, s.valueVar, s.valueBlock, after);
    ShapeSize(b, exits, {}, b3, false);
    ShapeTrans(b, exits, {}, b3, IntoExits(s.valueBlock, after), b4, true, {after});
    if !s.errorBlock.returned || !s.valueBlock.returned {
      ShapeInsert(b, exits, b4, after);
      assert exits - {after} == {};
    } else {
      assert exits == {};
    }
  }

  lemma HandleIs(b: Builder, s: Stmt)
    requires s.Handle?
    ensures var b4 := LowerBound(HandleValue(b, s), s.valueVar, s.valueBlock, |b.blocks|);
      if s.errorBlock.returned && s.valueBlock.returned then LowerHandle(b, s) == b4
      else |b.blocks| < |b4.blocks| && b4.blocks[|b.blocks|] == []
           && LowerHandle(b, s) == SetInsertPoint(Insert(b4, |b.blocks|), |b.blocks|)
  {
    hide LowerBound;
    HandleEmpty(b, s);
  }

  lemma {:induction false} ShapeHandle(p: Path, s: Stmt, b: Builder, scope: set<nat>)
    requires s.Handle? && Reached(p) && Open(b.Here()) && Resolved(s, scope)
    ensures Shape(b, {}, {}, LowerHandle(b, AnalyseHandle(p, s).1), Returned in AllCertain(AnalyseHandle(p, s).0))
    decreases s, 0
  {
    hide Shape, Open, Frame, AllCertain, AnalyseBranch, LowerBound;
    var s' := AnalyseHandle(p, s).1;
    var p0 := Record(p, AsIncidents(s.uses));
    var p1 := AnalyseBranch(p0, Enter(s.valueVar), s.valueBlock).0;
    HandleReturned(p, s);
    ShapeHandleError(b, s');
    ShapeBound(p1, Some(s.errorVar), s.errorBlock, HandleError(b, s'), |b.blocks|, scope);
    ShapeHandleValue(b, s');
    ShapeBound(p0, s.valueVar, s.valueBlock, HandleValue(b, s'), |b.blocks|, scope);
    ShapeHandleEnd(b, s');
  }

  /** An error handler returned exactly if both of its blocks did. */
  lemma HandleReturned(p: Path, s: Stmt)
    requires s.Handle? && Reached(p)
    ensures var p0 := Record(p, AsIncidents(s.uses));
      var p1 := AnalyseBranch(p0, Enter(s.valueVar), s.valueBlock).0;
      var (p', s') := AnalyseHandle(p, s);
      && Returned !in AllCertain(p0) && Returned !in AllCertain(p1)
      && (Returned in AllCertain(p') <==> s'.errorBlock.returned && s'.valueBlock.returned)
  {
    hide AllPotential, AllCertain, Intersection, AnalyseBranch, BranchOf, Extends;
    var value, error := Enter(s.valueVar), Enter(Some(s.errorVar));
    var p0 := Record(p, AsIncidents(s.uses));
    var p1 := AnalyseBranch(p0, value, s.valueBlock).0;
    var p2 := AnalyseBranch(p1, error, s.errorBlock).0;
    RecordSets(p, AsIncidents(s.uses));
    HandleSets(p, s);
    BranchReached(p0, value, s.valueBlock);
    BranchReached(p1, error, s.errorBlock);
    MergeReturned(p2);
    HandleBranches(p0, s);
  }

  lemma HandleBranches(p: Path, s: Stmt)
    requires s.Handle? && Current(p).branches == []
    ensures var p1 := AnalyseBranch(p, Enter(s.valueVar), s.valueBlock).0;
      var p2 := AnalyseBranch(p1, Enter(Some(s.errorVar)), s.errorBlock).0;
      Current(p2).branches == [BranchOf(p, Enter(s.valueVar), s.valueBlock), BranchOf(p1, Enter(Some(s.errorVar)), s.errorBlock)]
  {
  }
}

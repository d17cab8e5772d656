/** EBNF grammars, and the check that reports left-recursive rules. */
module Grammars {
  import opened Wrappers

  type Name = string

  datatype Expr =
    | Ref(name: Name)
    | Lit(text: string)
    | Set(ranges: seq<(int, int)>, negated: bool)
    | Seq(items: Exprs)
    | Alt(items: Exprs)
    | Diff(left: Expr, right: Expr)
    | Opt(e: Expr)
    | Star(e: Expr)
    | Plus(e: Expr)

  datatype Exprs = Nil | Cons(head: Expr, tail: Exprs)

  datatype Grammar = Grammar(rules: map<Name, Expr>, lexical: set<Name>)

  // ----- Expressions that may match nothing -----

  /**
   What is taken into account: that empty literals match nothing, what differences match, that an
   iteration of some rule is not entered, and that rules for kinds of tokens consume one.
   */
  datatype View = View(empties: bool, differences: bool, shortcut: Option<Name>, kinds: set<Name>) {
    predicate Skips(e: Expr) {
      shortcut.Some? && e == Ref(shortcut.value)
    }
  }

  /** The check takes every literal to match something, and looks into the rules for kinds of tokens. */
  const CHECKED := View(false, true, None, {})

  /** On text an empty literal matches nothing. */
  const ON_TEXT := View(true, true, None, {})

  predicate IsNullable(e: Expr, nullable: set<Name>, view: View) {
    match e
    case Ref(name) => name in nullable && name !in view.kinds
    case Lit(text) => view.empties && text == ""
    case Set(_, _) => false
    case Seq(items) => AllNullable(items, nullable, view)
    case Alt(items) => AnyNullable(items, nullable, view)
    case Diff(left, _) => view.differences && IsNullable(left, nullable, view)
    case Opt(_) => true
    case Star(_) => true
    case Plus(e1) => !view.Skips(e1) && IsNullable(e1, nullable, view)
  }

  predicate AllNullable(items: Exprs, nullable: set<Name>, view: View) {
    items.Nil? || (IsNullable(items.head, nullable, view) && AllNullable(items.tail, nullable, view))
  }

  predicate AnyNullable(items: Exprs, nullable: set<Name>, view: View) {
    items.Cons? && (IsNullable(items.head, nullable, view) || AnyNullable(items.tail, nullable, view))
  }

  /** A set of rules that every rule belongs to whose body may match nothing, given the set. */
  predicate ClosedNullable(g: Grammar, nullable: set<Name>, view: View) {
    forall name | name in g.rules :: IsNullable(g.rules[name], nullable, view) ==> name in nullable
  }

  /** The rules found after k rounds. */
  function NullableAfter(g: Grammar, k: nat, view: View): (r: set<Name>)
    ensures r <= g.rules.Keys
  {
    if k == 0 then {} else set name | name in g.rules && IsNullable(g.rules[name], NullableAfter(g, k - 1, view), view)
  }

  /** The rules that may match nothing: after as many rounds as there are rules nothing is added. */
  function Nullable(g: Grammar, view: View): (r: set<Name>)
    ensures r <= g.rules.Keys
  {
    NullableAfter(g, |g.rules|, view)
  }

  lemma {:induction false} NullableMonotone(e: Expr, few: set<Name>, many: set<Name>, view: View)
    requires few <= many && IsNullable(e, few, view)
    ensures IsNullable(e, many, view)
    decreases e
  {
    match e
    case Seq(items) => AllNullableMonotone(items, few, many, view);
    case Alt(items) => AnyNullableMonotone(items, few, many, view);
    case Diff(left, _) => NullableMonotone(left, few, many, view);
    case Plus(e1) => NullableMonotone(e1, few, many, view);
    case _ =>
  }

  lemma {:induction false} AllNullableMonotone(items: Exprs, few: set<Name>, many: set<Name>, view: View)
    requires few <= many && AllNullable(items, few, view)
    ensures AllNullable(items, many, view)
    decreases items
  {
    if items.Cons? {
      NullableMonotone(items.head, few, many, view);
      AllNullableMonotone(items.tail, few, many, view);
    }
  }

  lemma {:induction false} AnyNullableMonotone(items: Exprs, few: set<Name>, many: set<Name>, view: View)
    requires few <= many && AnyNullable(items, few, view)
    ensures AnyNullable(items, many, view)
    decreases items
  {
    if IsNullable(items.head, few, view) {
      NullableMonotone(items.head, few, many, view);
    } else {
      AnyNullableMonotone(items.tail, few, many, view);
    }
  }

  lemma {:induction false} RoundsGrow(g: Grammar, k: nat, view: View)
    ensures NullableAfter(g, k, view) <= NullableAfter(g, k + 1, view)
  {
    if k > 0 {
      RoundsGrow(g, k - 1, view);
      forall name | name in NullableAfter(g, k, view) ensures name in NullableAfter(g, k + 1, view) {
        NullableMonotone(g.rules[name], NullableAfter(g, k - 1, view), NullableAfter(g, k, view), view);
      }
    }
  }

  /** Each round adds a rule until nothing changes. */
  lemma {:induction false} RoundsStop(g: Grammar, k: nat, view: View)
    ensures NullableAfter(g, k, view) == NullableAfter(g, k + 1, view) || |NullableAfter(g, k, view)| >= k
  {
    if k > 0 {
      RoundsStop(g, k - 1, view);
      RoundsGrow(g, k - 1, view);
      if NullableAfter(g, k - 1, view) != NullableAfter(g, k, view) {
        ProperSubset(NullableAfter(g, k - 1, view), NullableAfter(g, k, view));
      }
    }
  }

  lemma ProperSubset<T>(a: set<T>, b: set<T>)
    requires a < b
    ensures |a| < |b|
  {
    var x :| x in b && x !in a;
    Subset(a, b - {x});
  }

  lemma {:induction false} Subset<T>(a: set<T>, b: set<T>)
    requires a <= b
    ensures |a| <= |b|
    decreases a
  {
    if a != {} {
      var x :| x in a;
      Subset(a - {x}, b - {x});
    }
  }

  /** The rules that may match nothing are the smallest closed set. */
  lemma NullableIsClosed(g: Grammar, view: View)
    ensures ClosedNullable(g, Nullable(g, view), view)
  {
    var n := |g.rules|;
    assert |g.rules.Keys| == n;
    RoundsStop(g, n, view);
    RoundsGrow(g, n, view);
    if NullableAfter(g, n, view) != NullableAfter(g, n + 1, view) {
      ProperSubset(NullableAfter(g, n, view), NullableAfter(g, n + 1, view));
      Subset(NullableAfter(g, n + 1, view), g.rules.Keys);
    }
  }

  /** So the body of each of them may match nothing. */
  lemma NullableBody(g: Grammar, name: Name, view: View)
    requires name in Nullable(g, view)
    ensures IsNullable(g.rules[name], Nullable(g, view), view)
  {
    var n := |g.rules|;
    RoundsGrow(g, n - 1, view);
    NullableMonotone(g.rules[name], NullableAfter(g, n - 1, view), NullableAfter(g, n, view), view);
  }

  lemma {:induction false} NullableIsLeast(g: Grammar, closed: set<Name>, k: nat, view: View)
    requires ClosedNullable(g, closed, view)
    ensures NullableAfter(g, k, view) <= closed
  {
    if k > 0 {
      NullableIsLeast(g, closed, k - 1, view);
      forall name | name in NullableAfter(g, k, view) ensures name in closed {
        NullableMonotone(g.rules[name], NullableAfter(g, k - 1, view), closed, view);
      }
    }
  }

  // ----- The rules an expression may refer to before it has matched anything -----

  function Leftmost(e: Expr, nullable: set<Name>, view: View): set<Name> {
    match e
    case Ref(name) => {name} - view.kinds
    case Lit(_) => {}
    case Set(_, _) => {}
    case Seq(items) => LeftmostOfSeq(items, nullable, view)
    case Alt(items) => LeftmostOfAny(items, nullable, view)
    case Diff(left, right) =>
      Leftmost(left, nullable, view) +
      (if view.differences || IsNullable(left, nullable, view) then Leftmost(right, nullable, view) else {})
    case Opt(e1) => Leftmost(e1, nullable, view)
    case Star(e1) => if view.Skips(e1) then {} else Leftmost(e1, nullable, view)
    case Plus(e1) => if view.Skips(e1) then {} else Leftmost(e1, nullable, view)
  }

  function LeftmostOfSeq(items: Exprs, nullable: set<Name>, view: View): set<Name> {
    if items.Nil? then {}
    else Leftmost(items.head, nullable, view) +
         (if IsNullable(items.head, nullable, view) then LeftmostOfSeq(items.tail, nullable, view) else {})
  }

  function LeftmostOfAny(items: Exprs, nullable: set<Name>, view: View): set<Name> {
    if items.Nil? then {} else Leftmost(items.head, nullable, view) + LeftmostOfAny(items.tail, nullable, view)
  }

  /** The rules that a rule may begin with. */
  function Next(g: Grammar, name: Name, view: View): set<Name> {
    if name in g.rules then Leftmost(g.rules[name], Nullable(g, view), view) * g.rules.Keys else {}
  }

  ghost predicate IsPath(g: Grammar, path: seq<Name>, view: View) {
    |path| > 1 && forall k | 0 <= k < |path| - 1 :: path[k + 1] in Next(g, path[k], view)
  }

  ghost predicate PathFromTo(g: Grammar, path: seq<Name>, from: Name, to: Name, view: View) {
    IsPath(g, path, view) && path[0] == from && path[|path| - 1] == to
  }

  /** Matching rule `from` may get to rule `to` without having matched anything. */
  ghost predicate Reaches(g: Grammar, from: Name, to: Name, view: View) {
    exists path :: PathFromTo(g, path, from, to, view)
  }

  lemma ReachesNext(g: Grammar, from: Name, to: Name, view: View)
    requires to in Next(g, from, view)
    ensures Reaches(g, from, to, view)
  {
    assert PathFromTo(g, [from, to], from, to, view);
  }

  lemma ReachesTrans(g: Grammar, a: Name, b: Name, c: Name, view: View)
    requires Reaches(g, a, b, view) && Reaches(g, b, c, view)
    ensures Reaches(g, a, c, view)
  {
    var p :| PathFromTo(g, p, a, b, view);
    var q :| PathFromTo(g, q, b, c, view);
    var r := p + q[1..];
    forall k | 0 <= k < |r| - 1 ensures r[k + 1] in Next(g, r[k], view) {
      if k >= |p| - 1 {
        assert r[k] == q[k - |p| + 1] && r[k + 1] == q[k - |p| + 2];
        assert q[k - |p| + 1 + 1] in Next(g, q[k - |p| + 1], view);
      } else {
        assert p[k + 1] in Next(g, p[k], view);
      }
    }
    assert PathFromTo(g, r, a, c, view);
  }

  /** A set that contains what a rule may begin with, and is closed, contains all that is reached. */
  lemma {:induction false} ReachesInto(g: Grammar, closed: set<Name>, path: seq<Name>, view: View)
    requires IsPath(g, path, view) && Next(g, path[0], view) <= closed
    requires forall name | name in closed :: Next(g, name, view) <= closed
    ensures path[|path| - 1] in closed
    decreases path
  {
    assert path[0 + 1] in Next(g, path[0], view);
    if |path| > 2 {
      forall k | 0 <= k < |path[1..]| - 1 ensures path[1..][k + 1] in Next(g, path[1..][k], view) {
        assert path[(k + 1) + 1] in Next(g, path[k + 1], view);
      }
      ReachesInto(g, closed, path[1..], view);
    }
  }

  // ----- Comparing views -----

  /** One view sees no more than the other one. */
  predicate NoMore(low: View, high: View) {
    && (low.empties ==> high.empties) && (low.differences ==> high.differences)
    && high.shortcut.None? && high.kinds <= low.kinds
  }

  /** There is nothing in the expression that the views take for different things. */
  predicate SeenAlike(e: Expr, low: View, high: View) {
    match e
    case Ref(name) => name in low.kinds ==> name in high.kinds
    case Lit(text) => low.empties == high.empties || text != ""
    case Set(_, _) => true
    case Seq(items) => AllSeenAlike(items, low, high)
    case Alt(items) => AllSeenAlike(items, low, high)
    case Diff(left, right) => low.differences == high.differences && SeenAlike(left, low, high) && SeenAlike(right, low, high)
    case Opt(e1) => SeenAlike(e1, low, high)
    case Star(e1) => !low.Skips(e1) && SeenAlike(e1, low, high)
    case Plus(e1) => !low.Skips(e1) && SeenAlike(e1, low, high)
  }

  predicate AllSeenAlike(items: Exprs, low: View, high: View) {
    items.Nil? || (SeenAlike(items.head, low, high) && AllSeenAlike(items.tail, low, high))
  }

  predicate RulesSeenAlike(g: Grammar, low: View, high: View) {
    forall name | name in g.rules && name !in low.kinds :: SeenAlike(g.rules[name], low, high)
  }

  lemma {:induction false} NullableAsWell(e: Expr, few: set<Name>, many: set<Name>, low: View, high: View)
    requires few <= many && NoMore(low, high)
    ensures IsNullable(e, few, low) ==> IsNullable(e, many, high)
    ensures few - low.kinds == many - low.kinds && SeenAlike(e, low, high) ==> IsNullable(e, few, low) == IsNullable(e, many, high)
    decreases e
  {
    match e
    case Ref(name) => assert name in few - low.kinds <==> name in few && name !in low.kinds;
    case Seq(items) => AllNullableAsWell(items, few, many, low, high);
    case Alt(items) => AllNullableAsWell(items, few, many, low, high);
    case Diff(left, _) => NullableAsWell(left, few, many, low, high);
    case Plus(e1) => NullableAsWell(e1, few, many, low, high);
    case _ =>
  }

  lemma {:induction false} AllNullableAsWell(items: Exprs, few: set<Name>, many: set<Name>, low: View, high: View)
    requires few <= many && NoMore(low, high)
    ensures AllNullable(items, few, low) ==> AllNullable(items, many, high)
    ensures AnyNullable(items, few, low) ==> AnyNullable(items, many, high)
    ensures few - low.kinds == many - low.kinds && AllSeenAlike(items, low, high) ==>
              AllNullable(items, few, low) == AllNullable(items, many, high)
    ensures few - low.kinds == many - low.kinds && AllSeenAlike(items, low, high) ==>
              AnyNullable(items, few, low) == AnyNullable(items, many, high)
    decreases items
  {
    if items.Cons? {
      NullableAsWell(items.head, few, many, low, high);
      AllNullableAsWell(items.tail, few, many, low, high);
    }
  }

  lemma {:induction false} RoundsAsWell(g: Grammar, k: nat, low: View, high: View)
    requires NoMore(low, high)
    ensures NullableAfter(g, k, low) <= NullableAfter(g, k, high)
    ensures RulesSeenAlike(g, low, high) ==> NullableAfter(g, k, low) - low.kinds == NullableAfter(g, k, high) - low.kinds
  {
    if k > 0 {
      RoundsAsWell(g, k - 1, low, high);
      forall name | name in g.rules
        ensures IsNullable(g.rules[name], NullableAfter(g, k - 1, low), low) ==>
                IsNullable(g.rules[name], NullableAfter(g, k - 1, high), high)
        ensures RulesSeenAlike(g, low, high) && name !in low.kinds ==>
                IsNullable(g.rules[name], NullableAfter(g, k - 1, low), low) ==
                IsNullable(g.rules[name], NullableAfter(g, k - 1, high), high)
      {
        NullableAsWell(g.rules[name], NullableAfter(g, k - 1, low), NullableAfter(g, k - 1, high), low, high);
      }
    }
  }

  lemma {:induction false} LeftmostAsWell(e: Expr, few: set<Name>, many: set<Name>, low: View, high: View)
    requires few <= many && NoMore(low, high)
    ensures Leftmost(e, few, low) <= Leftmost(e, many, high)
    ensures few - low.kinds == many - low.kinds && SeenAlike(e, low, high) ==> Leftmost(e, few, low) == Leftmost(e, many, high)
    decreases e
  {
    match e
    case Seq(items) => AllLeftmostAsWell(items, few, many, low, high);
    case Alt(items) => AllLeftmostAsWell(items, few, many, low, high);
    case Diff(left, right) =>
      LeftmostAsWell(left, few, many, low, high);
      LeftmostAsWell(right, few, many, low, high);
      NullableAsWell(left, few, many, low, high);
    case Opt(e1) => LeftmostAsWell(e1, few, many, low, high);
    case Star(e1) => LeftmostAsWell(e1, few, many, low, high);
    case Plus(e1) => LeftmostAsWell(e1, few, many, low, high);
    case _ =>
  }

  lemma {:induction false} AllLeftmostAsWell(items: Exprs, few: set<Name>, many: set<Name>, low: View, high: View)
    requires few <= many && NoMore(low, high)
    ensures LeftmostOfSeq(items, few, low) <= LeftmostOfSeq(items, many, high)
    ensures LeftmostOfAny(items, few, low) <= LeftmostOfAny(items, many, high)
    ensures few - low.kinds == many - low.kinds && AllSeenAlike(items, low, high) ==>
              LeftmostOfSeq(items, few, low) == LeftmostOfSeq(items, many, high)
    ensures few - low.kinds == many - low.kinds && AllSeenAlike(items, low, high) ==>
              LeftmostOfAny(items, few, low) == LeftmostOfAny(items, many, high)
    decreases items
  {
    if items.Cons? {
      NullableAsWell(items.head, few, many, low, high);
      LeftmostAsWell(items.head, few, many, low, high);
      AllLeftmostAsWell(items.tail, few, many, low, high);
    }
  }

  lemma {:induction false} LeftmostIsNoKind(e: Expr, nullable: set<Name>, view: View)
    ensures Leftmost(e, nullable, view) !! view.kinds
    decreases e
  {
    match e
    case Seq(items) => NoneOfAllIsKind(items, nullable, view);
    case Alt(items) => NoneOfAllIsKind(items, nullable, view);
    case Diff(left, right) =>
      LeftmostIsNoKind(left, nullable, view);
      LeftmostIsNoKind(right, nullable, view);
    case Opt(e1) => LeftmostIsNoKind(e1, nullable, view);
    case Star(e1) => LeftmostIsNoKind(e1, nullable, view);
    case Plus(e1) => LeftmostIsNoKind(e1, nullable, view);
    case _ =>
  }

  lemma {:induction false} NoneOfAllIsKind(items: Exprs, nullable: set<Name>, view: View)
    ensures LeftmostOfSeq(items, nullable, view) !! view.kinds && LeftmostOfAny(items, nullable, view) !! view.kinds
    decreases items
  {
    if items.Cons? {
      LeftmostIsNoKind(items.head, nullable, view);
      NoneOfAllIsKind(items.tail, nullable, view);
    }
  }

  lemma NextAsWell(g: Grammar, name: Name, low: View, high: View)
    requires NoMore(low, high)
    ensures Next(g, name, low) <= Next(g, name, high)
    ensures Next(g, name, low) !! low.kinds
    ensures RulesSeenAlike(g, low, high) && name !in low.kinds ==> Next(g, name, low) == Next(g, name, high)
  {
    RoundsAsWell(g, |g.rules|, low, high);
    if name in g.rules {
      LeftmostAsWell(g.rules[name], Nullable(g, low), Nullable(g, high), low, high);
      LeftmostIsNoKind(g.rules[name], Nullable(g, low), low);
    }
  }

  /** What a view reaches one that sees no less reaches as well, and nothing else if all is seen alike. */
  lemma ReachesAsWell(g: Grammar, from: Name, to: Name, low: View, high: View)
    requires NoMore(low, high)
    ensures Reaches(g, from, to, low) ==> Reaches(g, from, to, high)
    ensures RulesSeenAlike(g, low, high) && from !in low.kinds ==> (Reaches(g, from, to, low) <==> Reaches(g, from, to, high))
  {
    if Reaches(g, from, to, low) {
      var path :| PathFromTo(g, path, from, to, low);
      forall k | 0 <= k < |path| - 1 ensures path[k + 1] in Next(g, path[k], high) {
        assert path[k + 1] in Next(g, path[k], low);
        NextAsWell(g, path[k], low, high);
      }
      assert PathFromTo(g, path, from, to, high);
    }
    if RulesSeenAlike(g, low, high) && from !in low.kinds && Reaches(g, from, to, high) {
      var path :| PathFromTo(g, path, from, to, high);
      for n := 0 to |path|
        invariant n < |path| ==> path[n] !in low.kinds
        invariant forall k | 0 <= k < n && k < |path| - 1 :: path[k + 1] in Next(g, path[k], low)
      {
        if n < |path| - 1 {
          assert path[n + 1] in Next(g, path[n], high);
          NextAsWell(g, path[n], low, high);
        }
      }
      assert PathFromTo(g, path, from, to, low);
    }
  }

  /** A step that the lower view misses, on a way from a rule back to it. */
  ghost predicate MissedStep(g: Grammar, a: Name, b: Name, low: View, high: View) {
    b in Next(g, a, high) && b !in Next(g, a, low) && (a == b || Reaches(g, b, a, high))
  }

  /** No rule gets back to itself exactly if the lower view finds none, and misses no step on a way back. */
  lemma MissedExactly(g: Grammar, low: View, high: View)
    requires NoMore(low, high)
    ensures (forall name :: !Reaches(g, name, name, high)) <==>
            (forall name :: !Reaches(g, name, name, low)) && forall a, b :: !MissedStep(g, a, b, low, high)
  {
    if name :| Reaches(g, name, name, low) {
      ReachesAsWell(g, name, name, low, high);
    }
    if a, b :| MissedStep(g, a, b, low, high) {
      ReachesNext(g, a, b, high);
      if a != b { ReachesTrans(g, a, b, a, high); }
    }
    if name :| Reaches(g, name, name, high) && !Reaches(g, name, name, low) {
      var path :| PathFromTo(g, path, name, name, high);
      assert !PathFromTo(g, path, name, name, low);
      var k :| 0 <= k < |path| - 1 && path[k + 1] !in Next(g, path[k], low);
      StepOnCircle(g, path, k, high);
      assert MissedStep(g, path[k], path[k + 1], low, high);
    }
  }

  /** From each step of a way that comes back one gets to where the step began. */
  lemma StepOnCircle(g: Grammar, path: seq<Name>, k: nat, view: View)
    requires IsPath(g, path, view) && path[0] == path[|path| - 1] && k < |path| - 1
    ensures path[k + 1] in Next(g, path[k], view)
    ensures path[k] == path[k + 1] || Reaches(g, path[k + 1], path[k], view)
  {
    PartOfPath(g, path, k + 1, |path| - 1, view);
    PartOfPath(g, path, 0, k, view);
    if 0 < k && k + 1 < |path| - 1 { ReachesTrans(g, path[k + 1], path[0], path[k], view); }
  }

  lemma PartOfPath(g: Grammar, path: seq<Name>, from: nat, to: nat, view: View)
    requires IsPath(g, path, view) && from <= to < |path|
    ensures from < to ==> Reaches(g, path[from], path[to], view)
  {
    if from < to {
      var part := path[from..to + 1];
      forall k | 0 <= k < |part| - 1 ensures part[k + 1] in Next(g, part[k], view) {
        assert path[from + k + 1] in Next(g, path[from + k], view);
      }
      assert PathFromTo(g, part, path[from], path[to], view);
    }
  }
}

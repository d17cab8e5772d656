/** The memoising matcher, proved to compute what the grammar means. */
module Matcher {
  import opened Wrappers
  import opened Grammars
  import opened GrammarSemantics
  import opened GrammarLemmas
  import opened EndSets

  datatype Error = LeftRecursionIn(name: Name) | UndefinedRule(name: Name) | SetInSyntax

  type Answer = Result<Ends, Error>

  type Key = (Name, nat)

  /** The ends are exactly the positions at which a match can end. */
  ghost predicate Exact(c: Context, e: Expr, i: nat, ends: Ends)
    requires Good(c) && WellFormed(c, e) && i <= c.Length()
  {
    && (forall j | j in Positions(ends, c.Length()) :: i <= j)
    && (forall j | i <= j <= c.Length() :: j in Positions(ends, c.Length()) <==> Match(c, e, i, j))
  }

  /** The expression means something, and no shortcut is wrong that matching it may take. */
  ghost predicate Means(c: Context, e: Expr) {
    Good(c) && WellFormed(c, e) && ShortcutsHold(c, e) && Fine(c)
  }

  ghost predicate AllMean(c: Context, items: Exprs) {
    Good(c) && AllWellFormed(c, items) && AllShortcutsHold(c, items) && Fine(c)
  }

  predicate MayBeEmpty(c: Context, e: Expr) {
    IsNullable(e, Nullable(c.g, c.View()), c.View())
  }

  /** Matches end behind where they begin, or there if the expression may match nothing. */
  predicate Ahead(c: Context, e: Expr, i: nat, ends: set<nat>) {
    forall j | j in ends :: i <= j && (j == i ==> MayBeEmpty(c, e))
  }

  /** On any grammar an answer is normal; on one that the matcher can handle it is exact. */
  ghost predicate Right(c: Context, e: Expr, i: nat, r: Answer) {
    r.Ok? ==>
      && Normal(r.value, c.Length()) && Ahead(c, e, i, Positions(r.value, c.Length()))
      && (Means(c, e) && i <= c.Length() ==> Exact(c, e, i, r.value))
  }

  ghost predicate AllRight(c: Context, memo: map<Key, Ends>) {
    forall key | key in memo :: !c.IsTokenRule(key.0) && Right(c, Ref(key.0), key.1, Ok(memo[key]))
  }

  /**
   Every rule that is being matched began earlier in the input, or is none that e can begin with,
   unless it can get back to itself anyway.
   */
  ghost predicate Safe(c: Context, active: set<Key>, e: Expr, i: nat) {
    forall key | key in active ::
      key.1 < i || (key.1 == i && (key.0 in Below(c, e) ==> Reaches(c.g, key.0, key.0, c.View())))
  }

  /**
   If matching was safe, an error names a rule that gets back to itself. Other errors need a grammar
   that is not well-formed.
   */
  ghost predicate Excused(c: Context, safe: bool, e: Expr, error: Error) {
    match error
    case LeftRecursionIn(name) =>
      name in c.g.rules && !c.IsTokenRule(name) && (safe ==> Reaches(c.g, name, name, c.View()))
    case _ => !(RulesWellFormed(c) && WellFormed(c, e))
  }

  lemma NoExcuse(c: Context, e: Expr, error: Error)
    requires Good(c) && WellFormed(c, e)
    ensures !Excused(c, true, e, error)
  {
  }

  lemma ExcusedPart(c: Context, safe: bool, e: Expr, partSafe: bool, part: Expr, error: Error)
    requires Excused(c, partSafe, part, error) && (safe ==> partSafe)
    requires RulesWellFormed(c) && WellFormed(c, e) ==> WellFormed(c, part)
    ensures Excused(c, safe, e, error)
  {
  }

  ghost function Keys(c: Context): set<Key> {
    set name, k | name in c.g.rules && k in UpTo(c.Length()) :: (name, k)
  }

  lemma NoAnswer(c: Context, e: Expr, i: nat, r: Answer)
    requires r.Fail?
    ensures Right(c, e, i, r)
  {
  }

  lemma RightIsNormal(c: Context, e: Expr, i: nat, ends: Ends)
    requires Right(c, e, i, Ok(ends))
    ensures Normal(ends, c.Length())
  {
  }

  lemma MemoGet(c: Context, memo: map<Key, Ends>, key: Key)
    requires AllRight(c, memo) && key in memo
    ensures Right(c, Ref(key.0), key.1, Ok(memo[key]))
  {
  }

  lemma MemoAdd(c: Context, memo: map<Key, Ends>, key: Key, ends: Ends)
    requires AllRight(c, memo) && !c.IsTokenRule(key.0) && Right(c, Ref(key.0), key.1, Ok(ends))
    ensures AllRight(c, memo[key := ends])
  {
    hide Right;
  }

  lemma RightToken(c: Context, name: Name, i: nat)
    requires c.IsTokenRule(name) && i <= c.Length()
    ensures Right(c, Ref(name), i, Ok(if TokenAt(c, name, i) then Ends({i + 1}, None) else NO_ENDS))
  {
    hide Good, Nullable;
    if Means(c, Ref(name)) {
      forall j | i <= j <= c.Length() ensures Match(c, Ref(name), i, j) == MatchRef(c, name, i, j) {
      }
    }
  }

  lemma SafePart(c: Context, active: set<Key>, e: Expr, part: Expr, i: nat, p: nat)
    requires Safe(c, active, e, i) && i <= p
    requires p == i ==> Leftmost(part, Nullable(c.g, c.View()), c.View()) <= Leftmost(e, Nullable(c.g, c.View()), c.View())
    ensures Safe(c, active, part, p)
  {
    if p == i { BelowMonotone(c, part, e); }
  }

  /** The body of a rule that is safe to match is safe to match with it. */
  lemma SafeRule(c: Context, active: set<Key>, name: Name, i: nat)
    requires Safe(c, active, Ref(name), i) && name in c.g.rules && !c.IsTokenRule(name)
    ensures Safe(c, active + {(name, i)}, c.g.rules[name], i)
    ensures (name, i) in active ==> Reaches(c.g, name, name, c.View())
  {
    BodyIsBelow(c, name);
  }

  /** What is known of a rule's body is known of the rule. */
  lemma RightRule(c: Context, name: Name, i: nat, r: Answer)
    requires name in c.g.rules && !c.IsTokenRule(name) && Right(c, c.g.rules[name], i, r)
    ensures Right(c, Ref(name), i, r)
  {
    NullableIsClosed(c.g, c.View());
    if Means(c, Ref(name)) && i <= c.Length() {
      forall j | i <= j <= c.Length() ensures Match(c, Ref(name), i, j) == Match(c, c.g.rules[name], i, j) {
        assert Match(c, Ref(name), i, j) == MatchRef(c, name, i, j);
      }
    }
  }

  lemma EndsFromOneMore(c: Context, e: Expr, starts: set<nat>, p: nat, all: seq<Ends>, ends: Ends)
    requires p <= c.Length() && Right(c, e, p, Ok(ends)) && AllNormal(all, c.Length())
    requires Means(c, e) ==> EndsFrom(c, e, starts, PositionsOfAll(all, c.Length()))
    ensures AllNormal(all + [ends], c.Length()) && Ahead(c, e, p, Positions(ends, c.Length()))
    ensures PositionsOfAll(all + [ends], c.Length()) == PositionsOfAll(all, c.Length()) + Positions(ends, c.Length())
    ensures Means(c, e) ==> EndsFrom(c, e, starts + {p}, PositionsOfAll(all + [ends], c.Length()))
  {
    hide Good, Match;
    assert (all + [ends])[..|all|] == all;
    NormalUpTo(ends, c.Length());
  }

  lemma EndsFromNone(c: Context, e: Expr, done: set<Key>)
    ensures PositionsOfAll([], c.Length()) == {} && AllNormal([], c.Length())
    ensures AheadFrom(c, e, {}, {}) && BegunFrom(c, done, e, {}, {})
    ensures Means(c, e) ==> EndsFrom(c, e, {}, {})
  {
  }

  lemma NormalUpTo(e: Ends, n: nat)
    requires Normal(e, n)
    ensures Positions(e, n) <= UpTo(n)
  {
  }

  /** The same for matches from each of the positions. */
  ghost predicate AheadFrom(c: Context, e: Expr, starts: set<nat>, ends: set<nat>) {
    forall q | q in ends :: exists p | p in starts :: p <= q && (q == p ==> MayBeEmpty(c, e))
  }

  lemma AheadFromMore(c: Context, e: Expr, starts: set<nat>, ends: set<nat>, p: nat, more: set<nat>)
    requires AheadFrom(c, e, starts, ends) && Ahead(c, e, p, more)
    ensures AheadFrom(c, e, starts + {p}, ends + more)
  {
    forall q | q in ends + more ensures exists p1 | p1 in starts + {p} :: p1 <= q && (q == p1 ==> MayBeEmpty(c, e)) {
      if q in more {
        assert p in starts + {p};
      } else {
        var p1 :| p1 in starts && p1 <= q && (q == p1 ==> MayBeEmpty(c, e));
        assert p1 in starts + {p};
      }
    }
  }

  /** If the items so far may have matched nothing, the rest begins with what all items begin with. */
  ghost predicate SeqAhead(c: Context, items: Exprs, i: nat, rest: Exprs, at: set<nat>) {
    var (nullable, view) := (Nullable(c.g, c.View()), c.View());
    && (AllWellFormed(c, items) ==> AllWellFormed(c, rest))
    && (forall p | p in at :: i <= p)
    && (i in at ==> LeftmostOfSeq(rest, nullable, view) <= LeftmostOfSeq(items, nullable, view) &&
                    (AllNullable(rest, nullable, view) ==> AllNullable(items, nullable, view)))
  }

  lemma SeqAheadStep(c: Context, items: Exprs, i: nat, rest: Exprs, at: set<nat>, ends: set<nat>)
    requires SeqAhead(c, items, i, rest, at) && rest.Cons? && AheadFrom(c, rest.head, at, ends)
    ensures SeqAhead(c, items, i, rest.tail, ends)
  {
  }

  function Iteration(e: Expr, star: bool): Expr {
    if star then Star(e) else Plus(e)
  }

  ghost predicate SeqSofar(c: Context, items: Exprs, i: nat, rest: Exprs, at: set<nat>) {
    && i <= c.Length() && AllMean(c, items) && AllMean(c, rest) && Completes(c, items, i, rest, at)
    && (forall p | p in at :: i <= p)
  }

  lemma SeqSofarStep(c: Context, items: Exprs, i: nat, rest: Exprs, at: set<nat>, ends: set<nat>)
    requires SeqSofar(c, items, i, rest, at) && rest.Cons?
    requires Means(c, rest.head) ==> EndsFrom(c, rest.head, at, ends)
    ensures SeqSofar(c, items, i, rest.tail, ends)
  {
    hide Good, Completes, EndsFrom;
    CompletesStep(c, items, i, rest, at, ends);
  }

  lemma SeqSofarEnd(c: Context, items: Exprs, i: nat, rest: Exprs, ends: Ends)
    requires AllMean(c, items) ==> SeqSofar(c, items, i, rest, Positions(ends, c.Length()))
    requires SeqAhead(c, items, i, rest, Positions(ends, c.Length()))
    requires Normal(ends, c.Length()) && (rest.Nil? || Positions(ends, c.Length()) == {})
    ensures Right(c, Seq(items), i, Ok(ends))
  {
    hide Good, Completes, Match, MatchSeq, Ahead, SeqAhead;
    SeqAheadEnd(c, items, i, rest, Positions(ends, c.Length()));
    if AllMean(c, items) {
      CompletesEnd(c, items, i, rest, Positions(ends, c.Length()));
      forall j | i <= j <= c.Length() ensures Match(c, Seq(items), i, j) == MatchSeq(c, items, i, j) {
        SeqIs(c, items, i, j);
      }
    }
  }

  lemma SeqAheadEnd(c: Context, items: Exprs, i: nat, rest: Exprs, at: set<nat>)
    requires SeqAhead(c, items, i, rest, at) && (rest.Nil? || at == {})
    ensures Ahead(c, Seq(items), i, at)
  {
    hide Nullable;
  }

  lemma SeqIs(c: Context, items: Exprs, i: nat, j: nat)
    requires Good(c) && AllWellFormed(c, items) && i <= j <= c.Length()
    ensures Match(c, Seq(items), i, j) == MatchSeq(c, items, i, j)
  {
    hide Good;
  }

  lemma SafeItem(c: Context, active: set<Key>, items: Exprs, i: nat, rest: Exprs, at: set<nat>)
    requires Safe(c, active, Seq(items), i) && SeqAhead(c, items, i, rest, at) && rest.Cons?
    ensures forall p | p in at :: Safe(c, active, rest.head, p)
  {
    forall p | p in at ensures Safe(c, active, rest.head, p) {
      SafePart(c, active, Seq(items), rest.head, i, p);
    }
  }

  lemma ExcusedItem(c: Context, active: set<Key>, items: Exprs, i: nat, rest: Exprs, at: set<nat>, error: Error)
    requires SeqAhead(c, items, i, rest, at) && rest.Cons?
    requires Excused(c, forall p | p in at :: Safe(c, active, rest.head, p), rest.head, error)
    ensures Excused(c, Safe(c, active, Seq(items), i), Seq(items), error)
  {
    hide Safe;
    if Safe(c, active, Seq(items), i) { SafeItem(c, active, items, i, rest, at); }
    ExcusedPart(c, Safe(c, active, Seq(items), i), Seq(items), forall p | p in at :: Safe(c, active, rest.head, p),
                rest.head, error);
  }

  /** What the alternatives so far match is found; the rest are still to be tried. */
  ghost predicate AltSofar(c: Context, items: Exprs, i: nat, rest: Exprs, found: set<nat>) {
    AllMean(c, items) && i <= c.Length() ==>
      && AllMean(c, rest)
      && (forall j | j in found :: i <= j)
      && (forall j | i <= j <= c.Length() :: MatchAny(c, items, i, j) <==> j in found || MatchAny(c, rest, i, j))
  }

  ghost predicate AltAhead(c: Context, items: Exprs, i: nat, rest: Exprs, found: set<nat>) {
    var (nullable, view) := (Nullable(c.g, c.View()), c.View());
    && (AllWellFormed(c, items) ==> AllWellFormed(c, rest))
    && LeftmostOfAny(rest, nullable, view) <= LeftmostOfAny(items, nullable, view)
    && (AnyNullable(rest, nullable, view) ==> AnyNullable(items, nullable, view))
    && Ahead(c, Alt(items), i, found)
  }

  lemma AltStart(c: Context, items: Exprs, i: nat)
    ensures AltSofar(c, items, i, items, {}) && AltAhead(c, items, i, items, {})
  {
    hide Good;
  }

  lemma AltStep(c: Context, items: Exprs, i: nat, rest: Exprs, found: set<nat>, ends: Ends)
    requires AltSofar(c, items, i, rest, found) && rest.Cons? && Right(c, rest.head, i, Ok(ends))
    ensures AltSofar(c, items, i, rest.tail, found + Positions(ends, c.Length()))
  {
    hide Good, Match, Nullable, Ahead;
  }

  lemma AltAheadStep(c: Context, items: Exprs, i: nat, rest: Exprs, found: set<nat>, ends: set<nat>)
    requires AltAhead(c, items, i, rest, found) && rest.Cons? && Ahead(c, rest.head, i, ends)
    ensures AltAhead(c, items, i, rest.tail, found + ends)
  {
    hide Nullable;
  }

  lemma AltEnd(c: Context, items: Exprs, i: nat, rest: Exprs, ends: Ends)
    requires AltSofar(c, items, i, rest, Positions(ends, c.Length())) && rest.Nil? && Normal(ends, c.Length())
    requires AltAhead(c, items, i, rest, Positions(ends, c.Length()))
    ensures Right(c, Alt(items), i, Ok(ends))
  {
    hide Good;
    if AllMean(c, items) && i <= c.Length() {
      forall j | i <= j <= c.Length() ensures Match(c, Alt(items), i, j) == MatchAny(c, items, i, j) {
      }
    }
  }

  lemma SafeAlternative(c: Context, active: set<Key>, items: Exprs, i: nat, rest: Exprs, found: set<nat>)
    requires Safe(c, active, Alt(items), i) && AltAhead(c, items, i, rest, found) && rest.Cons?
    ensures Safe(c, active, rest.head, i)
  {
    SafePart(c, active, Alt(items), rest.head, i, i);
  }

  lemma ExcusedAlternative(c: Context, active: set<Key>, items: Exprs, i: nat, rest: Exprs, found: set<nat>, error: Error)
    requires AltAhead(c, items, i, rest, found) && rest.Cons?
    requires Excused(c, Safe(c, active, rest.head, i), rest.head, error)
    ensures Excused(c, Safe(c, active, Alt(items), i), Alt(items), error)
  {
    hide Safe;
    if Safe(c, active, Alt(items), i) { SafeAlternative(c, active, items, i, rest, found); }
    ExcusedPart(c, Safe(c, active, Alt(items), i), Alt(items), Safe(c, active, rest.head, i), rest.head, error);
  }

  lemma SafeIteration(c: Context, active: set<Key>, e: Expr, star: bool, i: nat, p: nat)
    requires Safe(c, active, Iteration(e, star), i) && i <= p
    ensures Safe(c, active, e, p)
  {
    SafePart(c, active, Iteration(e, star), e, i, p);
  }

  lemma RightDiff(c: Context, left: Expr, right: Expr, i: nat, a: Ends, b: Answer, r: Ends)
    requires Right(c, left, i, Ok(a)) && Normal(r, c.Length()) && i <= c.Length()
    requires if b.Ok? then Right(c, right, i, b) && r == Ends((set p | p in Positions(a, c.Length()) && !Contains(b.value, p)), None)
             else a == NO_ENDS == r
    ensures Right(c, Diff(left, right), i, Ok(r))
  {
    hide Good, Ahead, Match;
    AheadDiff(c, left, right, i, Positions(a, c.Length()), Positions(r, c.Length()));
    if Means(c, Diff(left, right)) {
      forall j | i <= j <= c.Length()
        ensures Match(c, Diff(left, right), i, j) <==> Match(c, left, i, j) && !Match(c, right, i, j)
      {
        DiffIs(c, left, right, i, j);
      }
    }
  }

  lemma DiffIs(c: Context, left: Expr, right: Expr, i: nat, j: nat)
    requires Good(c) && WellFormed(c, Diff(left, right)) && i <= j <= c.Length()
    ensures Match(c, Diff(left, right), i, j) <==> Match(c, left, i, j) && !Match(c, right, i, j)
  {
    hide Good;
    assert Match(c, Diff(left, right), i, j) == MatchDiff(c, left, right, i, j);
  }

  lemma AheadDiff(c: Context, left: Expr, right: Expr, i: nat, a: set<nat>, r: set<nat>)
    requires Ahead(c, left, i, a) && r <= a
    ensures Ahead(c, Diff(left, right), i, r)
  {
  }

  lemma AheadAnything(c: Context, star: bool, i: nat, ends: set<nat>)
    requires forall j | j in ends :: i <= j && (star || i < j)
    ensures Ahead(c, Iteration(Anything(c.input), star), i, ends)
  {
  }

  /** The rule is an iteration of `char` or `token`. */
  predicate MatchesShortcut(c: Context, name: Name, star: bool) {
    !c.IsTokenRule(name) && name in c.g.rules && c.g.rules[name] == Iteration(Anything(c.input), star)
  }

  /** What is taken to be the ends of an iteration of `char` or `token`: every position from here or the next one on. */
  function Shortcut(c: Context, star: bool, i: nat): (r: Ends)
    requires i <= c.Length()
    ensures forall j :: j in Positions(r, c.Length()) <==> i <= j <= c.Length() && (star || i < j)
  {
    var start := if star then i else i + 1;
    if start <= c.Length() then Ends({}, Some(start)) else NO_ENDS
  }

  /**
   It is right at all positions exactly if `char` or `token` matches everything once, and for `+`
   nothing else.
   */
  lemma ShortcutExactly(c: Context, star: bool)
    requires Good(c) && WellFormed(c, Iteration(Anything(c.input), star))
    ensures (forall i: nat | i <= c.Length() :: Exact(c, Iteration(Anything(c.input), star), i, Shortcut(c, star, i))) <==>
            MatchesEach(c) && (star || MatchesNever(c))
  {
    hide Good, Match, Shortcut, ReachesFrom, Exact;
    forall i: nat | i <= c.Length()
      ensures Exact(c, Iteration(Anything(c.input), star), i, Shortcut(c, star, i)) <==> ReachesFrom(c, star, i)
    {
      ShortcutAt(c, star, i);
    }
    AnythingIterates(c, star);
  }

  lemma ShortcutAt(c: Context, star: bool, i: nat)
    requires Good(c) && WellFormed(c, Iteration(Anything(c.input), star)) && i <= c.Length()
    ensures Exact(c, Iteration(Anything(c.input), star), i, Shortcut(c, star, i)) <==> ReachesFrom(c, star, i)
  {
    hide Good, Match, Iterates, Shortcut;
    forall j | i <= j <= c.Length()
      ensures Match(c, Iteration(Anything(c.input), star), i, j) <==> Iterates(c, Anything(c.input), star, i, j)
    {
      IterationIs(c, Anything(c.input), star, i, j);
    }
  }

  lemma RightAnything(c: Context, star: bool, i: nat, r: Answer)
    requires i <= c.Length() && r == Ok(Shortcut(c, star, i))
    ensures Right(c, Iteration(Anything(c.input), star), i, r)
  {
    hide Good, Match, Ahead, Iteration, Exact;
    AheadAnything(c, star, i, Positions(r.value, c.Length()));
    if Means(c, Iteration(Anything(c.input), star)) {
      IterationMeans(c, Anything(c.input), star);
      ShortcutExactly(c, star);
    }
  }

  lemma IterationMeans(c: Context, e: Expr, star: bool)
    requires Means(c, Iteration(e, star))
    ensures Means(c, e) && WellFormed(c, Iteration(e, star))
    ensures e == Anything(c.input) ==> MatchesEach(c) && (star || MatchesNever(c))
  {
  }

  lemma IterationIs(c: Context, e: Expr, star: bool, i: nat, j: nat)
    requires Good(c) && WellFormed(c, e) && i <= j <= c.Length()
    ensures Match(c, Iteration(e, star), i, j) <==> Iterates(c, e, star, i, j)
  {
    hide Good;
  }

  // ----- The loop that iterates -----

  /** The state of an iteration after a round. */
  datatype Round = Round(found: set<nat>, lo: Option<nat>, added: set<nat>)

  ghost predicate Bounded(c: Context, found: set<nat>, lo: Option<nat>) {
    (forall p | p in found :: p <= c.Length()) && (lo.Some? ==> lo.value <= c.Length())
  }

  ghost function Reached(c: Context, found: set<nat>, lo: Option<nat>): set<nat> {
    found + From(lo, c.Length())
  }

  /** What is found so far is right, and complete but for what is found from the pending positions. */
  ghost predicate Sofar(c: Context, e: Expr, star: bool, i: nat, found: set<nat>, lo: Option<nat>, pending: set<nat>)
    requires Good(c) && WellFormed(c, e)
  {
    && i <= c.Length() && found <= UpTo(c.Length()) && (star ==> i in found)
    && AllIterated(c, e, star, i, Reached(c, found, lo))
    && ClosedBut(c, e, i, found, pending, Reached(c, found, lo))
  }

  ghost predicate AllIterated(c: Context, e: Expr, star: bool, i: nat, reached: set<nat>)
    requires Good(c) && WellFormed(c, e)
  {
    forall j | j in reached :: i <= j <= c.Length() && Iterates(c, e, star, i, j)
  }

  ghost predicate ClosedBut(c: Context, e: Expr, i: nat, found: set<nat>, pending: set<nat>, reached: set<nat>)
    requires Good(c) && WellFormed(c, e)
  {
    forall p, q | (p in found || p == i) && p !in pending && p <= q <= c.Length() && Match(c, e, p, q) :: q in reached
  }

  lemma SofarStart(c: Context, e: Expr, star: bool, i: nat)
    requires Good(c) && WellFormed(c, e) && i <= c.Length()
    ensures Sofar(c, e, star, i, if star then {i} else {}, None, {i})
  {
    hide Good, Match;
    if star { assert MatchStar(c, e, i, i); }
  }

  lemma SofarStep(c: Context, e: Expr, star: bool, i: nat, found: set<nat>, lo: Option<nat>, pending: set<nat>,
                  p: nat, ends: Ends, left: set<nat>)
    requires Means(c, e) && Sofar(c, e, star, i, found, lo, pending) && (p in found || p == i)
    requires Right(c, e, p, Ok(ends)) && pending - {p} <= left && ends.points - found <= left
    ensures Sofar(c, e, star, i, found + ends.points, Earliest(lo, ends.lo), left)
  {
    hide Good, Match, Iterates, Right, AllIterated, ClosedBut, Reached;
    RightIsNormal(c, e, p, ends);
    NormalUpTo(ends, c.Length());
    ReachedGrows(c, found, lo, ends);
    StepIterated(c, e, star, i, found, lo, p, ends);
    StepClosed(c, e, i, found, pending, Reached(c, found, lo), p, ends, left);
  }

  lemma ReachedGrows(c: Context, found: set<nat>, lo: Option<nat>, ends: Ends)
    ensures Reached(c, found + ends.points, Earliest(lo, ends.lo)) == Reached(c, found, lo) + Positions(ends, c.Length())
  {
    EarliestFrom(lo, ends.lo, c.Length());
  }

  lemma StepIterated(c: Context, e: Expr, star: bool, i: nat, found: set<nat>, lo: Option<nat>, p: nat, ends: Ends)
    requires Means(c, e) && i <= c.Length() && AllIterated(c, e, star, i, Reached(c, found, lo))
    requires (p in found || p == i) && Right(c, e, p, Ok(ends))
    ensures AllIterated(c, e, star, i, Reached(c, found, lo) + Positions(ends, c.Length()))
  {
    hide Good, Match, Iterates;
    NormalUpTo(ends, c.Length());
    assert p in found ==> p in Reached(c, found, lo);
    forall j | j in Positions(ends, c.Length()) ensures i <= j <= c.Length() && Iterates(c, e, star, i, j) {
      assert p <= j && Match(c, e, p, j);
      IterateStep(c, e, star, i, p, j);
    }
  }

  lemma StepClosed(c: Context, e: Expr, i: nat, found: set<nat>, pending: set<nat>, reached: set<nat>, p: nat, ends: Ends,
                   left: set<nat>)
    requires Means(c, e) && ClosedBut(c, e, i, found, pending, reached)
    requires Right(c, e, p, Ok(ends)) && pending - {p} <= left && ends.points - found <= left && p <= c.Length()
    ensures ClosedBut(c, e, i, found + ends.points, left, reached + Positions(ends, c.Length()))
  {
    hide Good, Match;
  }

  lemma SofarCut(c: Context, e: Expr, star: bool, i: nat, found: set<nat>, lo: Option<nat>, pending: set<nat>)
    requires Good(c) && WellFormed(c, e) && Sofar(c, e, star, i, found, lo, pending)
    ensures Sofar(c, e, star, i, found, lo, Cut(pending, lo))
  {
    hide Good, Match, Iterates;
  }

  lemma SofarAhead(c: Context, e: Expr, star: bool, i: nat, found: set<nat>, lo: Option<nat>, p: nat, ends: Ends)
    requires Ahead(c, Iteration(e, star), i, Reached(c, found, lo)) && (p in found || p == i)
    requires Ahead(c, e, p, Positions(ends, c.Length()))
    ensures i <= p && Ahead(c, Iteration(e, star), i, Reached(c, found + ends.points, Earliest(lo, ends.lo)))
  {
    hide Nullable, Earliest;
    assert p in found ==> p in Reached(c, found, lo);
    ReachedGrows(c, found, lo, ends);
  }

  lemma CutReached(c: Context, found: set<nat>, lo: Option<nat>)
    requires Bounded(c, found, lo)
    ensures Positions(Ends(Cut(found, lo), lo), c.Length()) == Reached(c, found, lo)
  {
    CutPositions(found, lo, c.Length());
  }

  lemma SofarEnd(c: Context, e: Expr, star: bool, i: nat, found: set<nat>, lo: Option<nat>)
    requires Means(c, e) ==> Sofar(c, e, star, i, found, lo, {})
    requires Ahead(c, Iteration(e, star), i, Reached(c, found, lo))
    requires Bounded(c, found, lo)
    ensures Right(c, Iteration(e, star), i, Ok(Ends(Cut(found, lo), lo)))
  {
    hide Good, Match, Iterates;
    CutPositions(found, lo, c.Length());
    if Means(c, Iteration(e, star)) {
      forall j | i <= j <= c.Length() ensures Match(c, Iteration(e, star), i, j) <==> j in Reached(c, found, lo) {
        IterationIs(c, e, star, i, j);
        if Iterates(c, e, star, i, j) {
          ReachedIsClosed(c, e, star, i, found, lo);
          IterateIntoClosed(c, e, star, i, Reached(c, found, lo), j);
        }
      }
    }
  }

  lemma ReachedIsClosed(c: Context, e: Expr, star: bool, i: nat, found: set<nat>, lo: Option<nat>)
    requires Good(c) && WellFormed(c, e) && Sofar(c, e, star, i, found, lo, {})
    ensures forall p, q | (p == i || p in Reached(c, found, lo)) && p <= q <= c.Length() && Match(c, e, p, q) ::
              q in Reached(c, found, lo)
  {
    hide Good, Match, Iterates;
    forall p, q | (p == i || p in Reached(c, found, lo)) && p <= q <= c.Length() && Match(c, e, p, q)
      ensures q in Reached(c, found, lo)
    {
      if p in From(lo, c.Length()) { assert q in From(lo, c.Length()); }
    }
  }

  /** Finds the last range that does not begin behind a character. */
  method InRangesBySearch(ranges: seq<(int, int)>, ch: int) returns (inside: bool)
    ensures Normalized(ranges) ==> (inside <==> InRanges(ranges, ch))
  {
    var lo, hi := 0, |ranges|;
    while lo < hi
      invariant 0 <= lo <= hi <= |ranges|
      invariant Normalized(ranges) ==> forall k | 0 <= k < lo :: ranges[k].0 <= ch
      invariant Normalized(ranges) ==> forall k | hi <= k < |ranges| :: ch < ranges[k].0
    {
      var mid := (lo + hi) / 2;
      if ch < ranges[mid].0 {
        hi := mid;
      } else {
        lo := mid + 1;
      }
    }
    inside := lo > 0 && ranges[lo - 1].0 <= ch <= ranges[lo - 1].1;
  }

  // ----- What matching on text cannot avoid -----

  /** Iterations of `char` or `token` do not match the rule. Matching it would enter no other rule anyway. */
  predicate EntersNothing(c: Context) {
    var name := Anything(c.input).name;
    name !in c.View().kinds && Next(c.g, name, c.View()) == {} && name !in Nullable(c.g, c.View())
  }

  /** What matching cannot avoid: it is not known what differences match. */
  function Must(c: Context): View {
    var (view, name) := (c.View(), Anything(c.input).name);
    View(view.empties, false, if EntersNothing(c) || name in view.kinds then None else Some(name), view.kinds)
  }

  predicate MustBeEmpty(c: Context, e: Expr) {
    IsNullable(e, Nullable(c.g, Must(c)), Must(c))
  }

  function MustBegin(c: Context, e: Expr): set<Name> {
    Leftmost(e, Nullable(c.g, Must(c)), Must(c)) * c.g.rules.Keys - Unentered(c)
  }

  function Unentered(c: Context): set<Name> {
    if EntersNothing(c) then {Anything(c.input).name} else {}
  }

  lemma MustSeq(c: Context, items: Exprs)
    ensures items.Nil? ==> MustBegin(c, Seq(items)) == {} && MustBeEmpty(c, Seq(items))
    ensures items.Cons? ==>
              && MustBegin(c, Seq(items)) == MustBegin(c, items.head) +
                   (if MustBeEmpty(c, items.head) then MustBegin(c, Seq(items.tail)) else {})
              && (MustBeEmpty(c, Seq(items)) <==> MustBeEmpty(c, items.head) && MustBeEmpty(c, Seq(items.tail)))
  {
    hide Nullable;
    var (nullable, view) := (Nullable(c.g, Must(c)), Must(c));
    assert Leftmost(Seq(items), nullable, view) == LeftmostOfSeq(items, nullable, view);
    assert IsNullable(Seq(items), nullable, view) == AllNullable(items, nullable, view);
  }

  lemma MustAlt(c: Context, items: Exprs)
    ensures items.Nil? ==> MustBegin(c, Alt(items)) == {} && !MustBeEmpty(c, Alt(items))
    ensures items.Cons? ==>
              && MustBegin(c, Alt(items)) == MustBegin(c, items.head) + MustBegin(c, Alt(items.tail))
              && (MustBeEmpty(c, Alt(items)) <==> MustBeEmpty(c, items.head) || MustBeEmpty(c, Alt(items.tail)))
  {
    hide Nullable;
    var (nullable, view) := (Nullable(c.g, Must(c)), Must(c));
    assert Leftmost(Alt(items), nullable, view) == LeftmostOfAny(items, nullable, view);
    assert IsNullable(Alt(items), nullable, view) == AnyNullable(items, nullable, view);
  }

  lemma MustIterate(c: Context, e: Expr, star: bool)
    ensures MustBegin(c, Iteration(e, star)) <= MustBegin(c, e)
    ensures MustBeEmpty(c, Iteration(e, star)) ==> star || MustBeEmpty(c, e)
  {
    hide Nullable;
  }

  /** Every rule that e must begin with was answered at i, and what must match nothing does. */
  predicate Begun(c: Context, done: set<Key>, e: Expr, i: nat, ends: set<nat>) {
    && (forall name | name in MustBegin(c, e) :: (name, i) in done)
    && (MustBeEmpty(c, e) ==> i in ends)
  }

  /** Answers are only remembered with all they begin with, so their rules do not get back to themselves. */
  ghost predicate AllBegun(c: Context, memo: map<Key, Ends>) {
    forall key | key in memo :: key.0 in c.g.rules &&
      Begun(c, memo.Keys, c.g.rules[key.0], key.1, Positions(memo[key], c.Length())) &&
      !Reaches(c.g, key.0, key.0, Must(c))
  }

  lemma BegunGrows(c: Context, done: set<Key>, more: set<Key>, e: Expr, i: nat, ends: set<nat>, larger: set<nat>)
    requires Begun(c, done, e, i, ends) && done <= more && ends <= larger
    ensures Begun(c, more, e, i, larger)
  {
  }

  lemma BegunMemo(c: Context, memo: map<Key, Ends>, key: Key)
    requires AllBegun(c, memo) && key in memo
    ensures Begun(c, memo.Keys, Ref(key.0), key.1, Positions(memo[key], c.Length()))
    ensures !Reaches(c.g, key.0, key.0, Must(c))
  {
    if key.0 in Nullable(c.g, Must(c)) { NullableBody(c.g, key.0, Must(c)); }
  }

  /** If the body of a rule was matched while the rule was not answered, it does not get back to the rule. */
  lemma BegunRule(c: Context, memo: map<Key, Ends>, name: Name, i: nat, ends: Ends)
    requires AllBegun(c, memo) && name in c.g.rules && (name, i) !in memo
    requires Begun(c, memo.Keys, c.g.rules[name], i, Positions(ends, c.Length()))
    ensures AllBegun(c, memo[(name, i) := ends])
  {
    var more := memo[(name, i) := ends];
    if Reaches(c.g, name, name, Must(c)) {
      var path :| PathFromTo(c.g, path, name, name, Must(c));
      var closed := (set key | key in memo && key.1 == i :: key.0) + Unentered(c);
      forall n | n in closed || n == name ensures Next(c.g, n, Must(c)) <= closed {
        BegunNext(c, memo, n, i);
      }
      NothingNext(c);
      assert path[0 + 1] in Next(c.g, path[0], Must(c));
      ReachesInto(c.g, closed, path, Must(c));
    }
    forall key | key in more ensures key.0 in c.g.rules &&
      Begun(c, more.Keys, c.g.rules[key.0], key.1, Positions(more[key], c.Length()))
    {
    }
  }

  lemma BegunNext(c: Context, memo: map<Key, Ends>, n: Name, i: nat)
    requires n in Unentered(c) || (n in c.g.rules && forall next | next in MustBegin(c, c.g.rules[n]) :: (next, i) in memo)
    ensures Next(c.g, n, Must(c)) <= (set key | key in memo && key.1 == i :: key.0) + Unentered(c)
  {
    if n in Unentered(c) {
      NothingNext(c);
    } else {
      forall next | next in Next(c.g, n, Must(c)) && next !in Unentered(c)
        ensures next in (set key | key in memo && key.1 == i :: key.0)
      {
        assert (next, i) in memo;
      }
    }
  }

  lemma NothingNext(c: Context)
    ensures forall n | n in Unentered(c) :: Next(c.g, n, Must(c)) == {}
  {
    NextAsWell(c.g, Anything(c.input).name, Must(c), c.View());
  }

  ghost predicate BegunFrom(c: Context, done: set<Key>, e: Expr, starts: set<nat>, ends: set<nat>) {
    forall p | p in starts :: Begun(c, done, e, p, ends)
  }

  /** What a sequence must begin with was answered, or the rest must begin with it. */
  predicate SeqBegun(c: Context, done: set<Key>, items: Exprs, i: nat, rest: Exprs, at: set<nat>) {
    && (forall name | name in MustBegin(c, Seq(items)) :: (name, i) in done || (i in at && name in MustBegin(c, Seq(rest))))
    && (MustBeEmpty(c, Seq(items)) ==> i in at && MustBeEmpty(c, Seq(rest)))
  }

  lemma SeqBegunStep(c: Context, done: set<Key>, more: set<Key>, items: Exprs, i: nat, rest: Exprs, at: set<nat>,
                     ends: set<nat>)
    requires SeqBegun(c, done, items, i, rest, at) && rest.Cons? && done <= more && BegunFrom(c, more, rest.head, at, ends)
    ensures SeqBegun(c, more, items, i, rest.tail, ends)
  {
    hide MustBegin, MustBeEmpty;
    MustSeq(c, rest);
  }

  lemma SeqBegunEnd(c: Context, done: set<Key>, items: Exprs, i: nat, rest: Exprs, at: set<nat>)
    requires SeqBegun(c, done, items, i, rest, at) && (rest.Nil? || at == {})
    ensures Begun(c, done, Seq(items), i, at)
  {
    hide MustBegin, MustBeEmpty;
    MustSeq(c, rest);
  }

  predicate AltBegun(c: Context, done: set<Key>, items: Exprs, i: nat, rest: Exprs, found: set<nat>) {
    && (forall name | name in MustBegin(c, Alt(items)) :: (name, i) in done || name in MustBegin(c, Alt(rest)))
    && (MustBeEmpty(c, Alt(items)) ==> i in found || MustBeEmpty(c, Alt(rest)))
  }

  lemma AltBegunStep(c: Context, done: set<Key>, more: set<Key>, items: Exprs, i: nat, rest: Exprs, found: set<nat>,
                     ends: set<nat>)
    requires AltBegun(c, done, items, i, rest, found) && rest.Cons? && done <= more && Begun(c, more, rest.head, i, ends)
    ensures AltBegun(c, more, items, i, rest.tail, found + ends)
  {
    hide MustBegin, MustBeEmpty;
    MustAlt(c, rest);
  }

  lemma AltBegunEnd(c: Context, done: set<Key>, items: Exprs, i: nat, rest: Exprs, found: set<nat>)
    requires AltBegun(c, done, items, i, rest, found) && rest.Nil?
    ensures Begun(c, done, Alt(items), i, found)
  {
    hide MustBegin, MustBeEmpty;
    MustAlt(c, rest);
  }

  lemma AltStarts(c: Context, done: set<Key>, items: Exprs, i: nat)
    ensures AltBegun(c, done, items, i, items, PositionsOfAll([], c.Length()))
  {
  }

  lemma SeqStarts(c: Context, done: set<Key>, items: Exprs, i: nat)
    ensures SeqAhead(c, items, i, items, {i}) && SeqBegun(c, done, items, i, items, {i})
    ensures AllMean(c, items) && i <= c.Length() ==> SeqSofar(c, items, i, items, {i})
  {
    hide Good, Completes;
    if AllMean(c, items) && i <= c.Length() { CompletesStart(c, items, i); }
  }

  lemma BegunToken(c: Context, done: set<Key>, name: Name, i: nat, ends: set<nat>)
    requires c.IsTokenRule(name)
    ensures Begun(c, done, Ref(name), i, ends)
  {
  }

  lemma BegunAnything(c: Context, done: set<Key>, star: bool, i: nat, ends: set<nat>)
    requires star ==> i in ends
    ensures Begun(c, done, Iteration(Anything(c.input), star), i, ends)
  {
    hide Nullable;
    AnythingBegins(c);
    IterationBegins(Anything(c.input), star, Nullable(c.g, Must(c)), Must(c));
  }

  lemma IterationBegins(e: Expr, star: bool, nullable: set<Name>, view: View)
    ensures Leftmost(Iteration(e, star), nullable, view) == if view.Skips(e) then {} else Leftmost(e, nullable, view)
    ensures IsNullable(Iteration(e, star), nullable, view) <==> star || (!view.Skips(e) && IsNullable(e, nullable, view))
  {
  }

  lemma AnythingBegins(c: Context)
    ensures EntersNothing(c) ==> Anything(c.input).name !in Nullable(c.g, Must(c))
  {
    RoundsAsWell(c.g, |c.g.rules|, Must(c), c.View());
  }

  lemma BegunFromMore(c: Context, done: set<Key>, more: set<Key>, e: Expr, starts: set<nat>, ends: set<nat>, p: nat,
                      found: set<nat>)
    requires BegunFrom(c, done, e, starts, ends) && done <= more && Begun(c, more, e, p, found)
    ensures BegunFrom(c, more, e, starts + {p}, ends + found)
  {
  }

  /** The right side is tried if the left side must match nothing. */
  lemma BegunDiff(c: Context, done: set<Key>, more: set<Key>, left: Expr, right: Expr, i: nat, a: set<nat>, b: set<nat>)
    requires Begun(c, done, left, i, a) && done <= more && (a != {} ==> Begun(c, more, right, i, b))
    ensures forall ends :: Begun(c, more, Diff(left, right), i, ends)
  {
  }

  lemma BegunRound(c: Context, done: set<Key>, more: set<Key>, e: Expr, star: bool, i: nat, before: Round, p: nat, ends: Ends)
    requires done <= more && Begun(c, more, e, p, Positions(ends, c.Length())) && (star ==> i in before.found)
    ensures var after := Reached(c, before.found + ends.points, Earliest(before.lo, ends.lo));
      p == i || Begun(c, done, Iteration(e, star), i, Reached(c, before.found, before.lo)) ==>
      Begun(c, more, Iteration(e, star), i, after)
  {
    hide MustBegin, MustBeEmpty, Earliest, Iteration;
    ReachedGrows(c, before.found, before.lo, ends);
    MustIterate(c, e, star);
  }

  lemma RightOpt(c: Context, e: Expr, i: nat, ends: Ends)
    requires i <= c.Length() && Right(c, e, i, Ok(ends))
    ensures Right(c, Opt(e), i, Ok(Union(Ends({i}, None), ends)))
  {
    hide Good, Match, Ahead, Union;
    UnionPositions(Ends({i}, None), ends, c.Length());
    assert Positions(Ends({i}, None), c.Length()) == {i};
    AheadOpt(c, e, i, Positions(ends, c.Length()));
    if Means(c, Opt(e)) {
      forall j | i <= j <= c.Length() ensures Match(c, Opt(e), i, j) <==> i == j || Match(c, e, i, j) {
        OptIs(c, e, i, j);
      }
    }
  }

  lemma AheadOpt(c: Context, e: Expr, i: nat, ends: set<nat>)
    requires Ahead(c, e, i, ends)
    ensures Ahead(c, Opt(e), i, {i} + ends)
  {
  }

  lemma OptIs(c: Context, e: Expr, i: nat, j: nat)
    requires Good(c) && WellFormed(c, Opt(e)) && i <= j <= c.Length()
    ensures Match(c, Opt(e), i, j) <==> i == j || Match(c, e, i, j)
  {
    hide Good;
  }

  lemma BegunOpt(c: Context, done: set<Key>, e: Expr, i: nat, ends: Ends)
    requires i <= c.Length() && Normal(ends, c.Length()) && Begun(c, done, e, i, Positions(ends, c.Length()))
    ensures Begun(c, done, Opt(e), i, Positions(Union(Ends({i}, None), ends), c.Length()))
  {
    hide Nullable;
    UnionPositions(Ends({i}, None), ends, c.Length());
  }

  lemma AheadStart(c: Context, e: Expr, star: bool, i: nat)
    ensures Ahead(c, Iteration(e, star), i, Reached(c, if star then {i} else {}, None))
  {
  }

  lemma RightIsAhead(c: Context, e: Expr, i: nat, ends: Ends)
    requires Right(c, e, i, Ok(ends))
    ensures Ahead(c, e, i, Positions(ends, c.Length()))
  {
  }

  lemma ExcusedIteration(c: Context, active: set<Key>, e: Expr, star: bool, i: nat, found: set<nat>, lo: Option<nat>,
                         p: nat, error: Error)
    requires Ahead(c, Iteration(e, star), i, Reached(c, found, lo)) && (p in found || p == i)
    requires Excused(c, Safe(c, active, e, p), e, error)
    ensures Excused(c, Safe(c, active, Iteration(e, star), i), Iteration(e, star), error)
  {
    hide Excused, Safe;
    assert p in found ==> p in Reached(c, found, lo);
    if Safe(c, active, Iteration(e, star), i) { SafeIteration(c, active, e, star, i, p); }
    ExcusedPart(c, Safe(c, active, Iteration(e, star), i), Iteration(e, star), Safe(c, active, e, p), e, error);
  }

  class Matcher {
    const c: Context
    var memo: map<Key, Ends>
    var active: set<Key>

    ghost predicate Valid()
      reads this
    {
      active <= Keys(c) && active !! memo.Keys && AllRight(c, memo) && AllBegun(c, memo)
    }

    constructor (c: Context)
      ensures Valid() && this.c == c && active == {} && memo == map[]
    {
      this.c := c;
      memo, active := map[], {};
    }

    method EndsOf(e: Expr, i: nat) returns (r: Answer)
      requires Valid() && i <= c.Length()
      modifies this
      ensures Valid() && active == old(active) && old(memo).Keys <= memo.Keys && Right(c, e, i, r)
      ensures r.Ok? ==> Begun(c, memo.Keys, e, i, Positions(r.value, c.Length()))
      ensures r.Fail? ==> Excused(c, Safe(c, active, e, i), e, r.error)
      ensures forall star | e == Iteration(Anything(c.input), star) :: r == Ok(Shortcut(c, star, i))
      decreases Keys(c) - active, Size(e), 0
    {
      hide Right, Safe, AllRight, AllBegun, Begun, Excused;
      match e {
        case Ref(name) => r := EndsOfRef(name, i);
        case Lit(text) => r := EndsOfLit(text, i);
        case Set(ranges, negated) => r := EndsOfSet(ranges, negated, i);
        case Seq(items) => r := EndsOfSeq(items, i);
        case Alt(items) => r := EndsOfAlt(items, i);
        case Diff(left, right) => r := EndsOfDiff(left, right, i);
        case Opt(e1) => r := EndsOfOpt(e1, i);
        case Star(e1) => r := EndsOfIteration(e1, true, i);
        case Plus(e1) => r := EndsOfIteration(e1, false, i);
      }
    }

    method EndsOfLit(text: string, i: nat) returns (r: Answer)
      requires i <= c.Length()
      ensures r.Ok? && Right(c, Lit(text), i, r) && Begun(c, memo.Keys, Lit(text), i, Positions(r.value, c.Length()))
    {
      if LiteralAt(c, text, i) {
        r := Ok(Ends({i + (if c.input.Text? then |text| else 1)}, None));
      } else {
        r := Ok(NO_ENDS);
      }
    }

    method EndsOfSet(ranges: seq<(int, int)>, negated: bool, i: nat) returns (r: Answer)
      requires i <= c.Length()
      ensures Right(c, Set(ranges, negated), i, r)
      ensures r.Ok? ==> Begun(c, memo.Keys, Set(ranges, negated), i, Positions(r.value, c.Length()))
      ensures r.Fail? ==> Excused(c, Safe(c, active, Set(ranges, negated), i), Set(ranges, negated), r.error)
    {
      if c.input.Tokens? {
        return Fail(SetInSyntax);
      }
      r := Ok(NO_ENDS);
      if i < c.Length() {
        var inside := InRangesBySearch(ranges, c.input.chars[i] as int);
        if inside != negated {
          r := Ok(Ends({i + 1}, None));
        }
      }
    }

    method EndsOfRef(name: Name, i: nat) returns (r: Answer)
      requires Valid() && i <= c.Length()
      modifies this
      ensures Valid() && active == old(active) && old(memo).Keys <= memo.Keys && Right(c, Ref(name), i, r)
      ensures r.Ok? ==> Begun(c, memo.Keys, Ref(name), i, Positions(r.value, c.Length()))
      ensures r.Ok? && !c.IsTokenRule(name) ==> !Reaches(c.g, name, name, Must(c))
      ensures r.Fail? ==> Excused(c, Safe(c, active, Ref(name), i), Ref(name), r.error)
      ensures forall star | MatchesShortcut(c, name, star) && (name, i) !in old(memo) && (name, i) !in active ::
                r == Ok(Shortcut(c, star, i))
      decreases Keys(c) - active, 0, 0
    {
      hide Right, AllRight, AllBegun, Begun, Safe, Below, Good;
      if c.IsTokenRule(name) {
        RightToken(c, name, i);
        r := Ok(if TokenAt(c, name, i) then Ends({i + 1}, None) else NO_ENDS);
        BegunToken(c, memo.Keys, name, i, Positions(r.value, c.Length()));
        return;
      }
      var key := (name, i);
      if key in memo {
        MemoGet(c, memo, key);
        BegunMemo(c, memo, key);
        return Ok(memo[key]);
      }
      if Safe(c, active, Ref(name), i) && name in c.g.rules {
        SafeRule(c, active, name, i);
      }
      if key in active {
        r := Fail(LeftRecursionIn(name));
        NoAnswer(c, Ref(name), i, r);
        return;
      }
      if name !in c.g.rules {
        r := Fail(UndefinedRule(name));
        NoAnswer(c, Ref(name), i, r);
        return;
      }
      assert key in Keys(c);
      active := active + {key};
      r := EndsOf(c.g.rules[name], i);
      active := active - {key};
      RightRule(c, name, i, r);
      if r.Ok? {
        MemoAdd(c, memo, key, r.value);
        BegunRule(c, memo, name, i, r.value);
        memo := memo[key := r.value];
        BegunMemo(c, memo, key);
      } else {
        ExcusedPart(c, Safe(c, active, Ref(name), i), Ref(name), Safe(c, active + {key}, c.g.rules[name], i),
                    c.g.rules[name], r.error);
      }
    }

    /** The ends from each of the positions. */
    method EndsFromAll(e: Expr, starts: set<nat>) returns (r: Result<seq<Ends>, Error>)
      requires Valid() && starts <= UpTo(c.Length())
      modifies this
      ensures Valid() && active == old(active) && old(memo).Keys <= memo.Keys
      ensures r.Ok? ==> AllNormal(r.value, c.Length()) && AheadFrom(c, e, starts, PositionsOfAll(r.value, c.Length()))
      ensures r.Ok? ==> BegunFrom(c, memo.Keys, e, starts, PositionsOfAll(r.value, c.Length()))
      ensures r.Ok? && Means(c, e) ==> EndsFrom(c, e, starts, PositionsOfAll(r.value, c.Length()))
      ensures r.Fail? ==> Excused(c, forall p | p in starts :: Safe(c, active, e, p), e, r.error)
      decreases Keys(c) - active, Size(e), 1
    {
      hide Safe, Right, AllRight, AllBegun, Begun, BegunFrom, AheadFrom, EndsFrom, PositionsOfAll, AllNormal, Below, Good;
      var all: seq<Ends> := [];
      var rest := starts;
      EndsFromNone(c, e, memo.Keys);
      assert starts - rest == {};
      while rest != {}
        invariant Valid() && active == old(active) && old(memo).Keys <= memo.Keys
        invariant rest <= starts && AllNormal(all, c.Length())
        invariant AheadFrom(c, e, starts - rest, PositionsOfAll(all, c.Length()))
        invariant BegunFrom(c, memo.Keys, e, starts - rest, PositionsOfAll(all, c.Length()))
        invariant Means(c, e) ==> EndsFrom(c, e, starts - rest, PositionsOfAll(all, c.Length()))
        decreases rest
      {
        var p :| p in rest;
        ghost var done := memo.Keys;
        var ends := EndsOf(e, p);
        if ends.Fail? {
          ExcusedPart(c, forall p | p in starts :: Safe(c, active, e, p), e, Safe(c, active, e, p), e, ends.error);
          return Fail(ends.error);
        }
        EndsFromOneMore(c, e, starts - rest, p, all, ends.value);
        AheadFromMore(c, e, starts - rest, PositionsOfAll(all, c.Length()), p, Positions(ends.value, c.Length()));
        BegunFromMore(c, done, memo.Keys, e, starts - rest, PositionsOfAll(all, c.Length()), p,
                      Positions(ends.value, c.Length()));
        assert starts - (rest - {p}) == (starts - rest) + {p};
        all := all + [ends.value];
        rest := rest - {p};
      }
      assert starts - rest == starts;
      r := Ok(all);
    }

    method EndsOfSeq(items: Exprs, i: nat) returns (r: Answer)
      requires Valid() && i <= c.Length()
      modifies this
      ensures Valid() && active == old(active) && old(memo).Keys <= memo.Keys && Right(c, Seq(items), i, r)
      ensures r.Ok? ==> Begun(c, memo.Keys, Seq(items), i, Positions(r.value, c.Length()))
      ensures r.Fail? ==> Excused(c, Safe(c, active, Seq(items), i), Seq(items), r.error)
      decreases Keys(c) - active, Sizes(items), 2
    {
      hide AllRight, AllBegun, Begun, BegunFrom, AheadFrom, SeqAhead, SeqBegun, SeqSofar, EndsFrom, Excused, Right, Safe, Below,
        Good, AllNormal, PositionsOfAll;
      var current := Ends({i}, None);
      var rest := items;
      assert Positions(current, c.Length()) == {i};
      ghost var good := AllMean(c, items);
      SeqStarts(c, memo.Keys, items, i);
      while rest.Cons? && current != NO_ENDS
        invariant Valid() && active == old(active) && old(memo).Keys <= memo.Keys
        invariant Normal(current, c.Length()) && Sizes(rest) <= Sizes(items)
        invariant SeqAhead(c, items, i, rest, Positions(current, c.Length()))
        invariant SeqBegun(c, memo.Keys, items, i, rest, Positions(current, c.Length()))
        invariant good ==> SeqSofar(c, items, i, rest, Positions(current, c.Length()))
        decreases rest
      {
        ghost var (at, done) := (Positions(current, c.Length()), memo.Keys);
        NormalUpTo(current, c.Length());
        var all := EndsFromAll(rest.head, Positions(current, c.Length()));
        if all.Fail? {
          r := Fail(all.error);
          ExcusedItem(c, active, items, i, rest, at, all.error);
          NoAnswer(c, Seq(items), i, r);
          return;
        }
        current := Gather(all.value, c.Length());
        SeqAheadStep(c, items, i, rest, at, Positions(current, c.Length()));
        SeqBegunStep(c, done, memo.Keys, items, i, rest, at, Positions(current, c.Length()));
        if good { SeqSofarStep(c, items, i, rest, at, Positions(current, c.Length())); }
        rest := rest.tail;
      }
      EmptyIsNoEnds(current, c.Length());
      SeqSofarEnd(c, items, i, rest, current);
      SeqBegunEnd(c, memo.Keys, items, i, rest, Positions(current, c.Length()));
      r := Ok(current);
    }

    method EndsOfAlt(items: Exprs, i: nat) returns (r: Answer)
      requires Valid() && i <= c.Length()
      modifies this
      ensures Valid() && active == old(active) && old(memo).Keys <= memo.Keys && Right(c, Alt(items), i, r)
      ensures r.Ok? ==> Begun(c, memo.Keys, Alt(items), i, Positions(r.value, c.Length()))
      ensures r.Fail? ==> Excused(c, Safe(c, active, Alt(items), i), Alt(items), r.error)
      decreases Keys(c) - active, Sizes(items), 2
    {
      hide AllRight, AllBegun, Begun, AltBegun, Safe, Right, Below, Good, AltSofar, AltAhead, Ahead, Leftmost;
      var all: seq<Ends> := [];
      var rest := items;
      AltStart(c, items, i);
      AltStarts(c, memo.Keys, items, i);
      while rest.Cons?
        invariant Valid() && active == old(active) && old(memo).Keys <= memo.Keys
        invariant AllNormal(all, c.Length()) && Sizes(rest) <= Sizes(items)
        invariant AltSofar(c, items, i, rest, PositionsOfAll(all, c.Length()))
        invariant AltAhead(c, items, i, rest, PositionsOfAll(all, c.Length()))
        invariant AltBegun(c, memo.Keys, items, i, rest, PositionsOfAll(all, c.Length()))
        decreases rest
      {
        ghost var done := memo.Keys;
        var ends := EndsOf(rest.head, i);
        if ends.Fail? {
          ExcusedAlternative(c, active, items, i, rest, PositionsOfAll(all, c.Length()), ends.error);
          NoAnswer(c, Alt(items), i, ends);
          return ends;
        }
        RightIsNormal(c, rest.head, i, ends.value);
        RightIsAhead(c, rest.head, i, ends.value);
        AltStep(c, items, i, rest, PositionsOfAll(all, c.Length()), ends.value);
        AltAheadStep(c, items, i, rest, PositionsOfAll(all, c.Length()), Positions(ends.value, c.Length()));
        AltBegunStep(c, done, memo.Keys, items, i, rest, PositionsOfAll(all, c.Length()),
                     Positions(ends.value, c.Length()));
        assert (all + [ends.value])[..|all|] == all;
        all := all + [ends.value];
        rest := rest.tail;
      }
      var gathered := Gather(all, c.Length());
      AltEnd(c, items, i, rest, gathered);
      AltBegunEnd(c, memo.Keys, items, i, rest, Positions(gathered, c.Length()));
      r := Ok(gathered);
    }

    method EndsOfDiff(left: Expr, right: Expr, i: nat) returns (r: Answer)
      requires Valid() && i <= c.Length()
      modifies this
      ensures Valid() && active == old(active) && old(memo).Keys <= memo.Keys && Right(c, Diff(left, right), i, r)
      ensures r.Ok? ==> Begun(c, memo.Keys, Diff(left, right), i, Positions(r.value, c.Length()))
      ensures r.Fail? ==> Excused(c, Safe(c, active, Diff(left, right), i), Diff(left, right), r.error)
      decreases Keys(c) - active, Size(left) + Size(right), 2
    {
      hide AllRight, AllBegun, Begun, Safe, Excused, Right;
      ghost var (e, safe) := (Diff(left, right), Safe(c, active, Diff(left, right), i));
      if safe {
        SafePart(c, active, e, left, i, i);
        SafePart(c, active, e, right, i, i);
      }
      var a := EndsOf(left, i);
      if a.Fail? {
        ExcusedPart(c, safe, e, Safe(c, active, left, i), left, a.error);
        NoAnswer(c, e, i, a);
        return a;
      }
      RightIsNormal(c, left, i, a.value);
      NormalUpTo(a.value, c.Length());
      ghost var (found, done) := (Positions(a.value, c.Length()), memo.Keys);
      if a.value == NO_ENDS {
        BegunDiff(c, done, done, left, right, i, found, {});
        RightDiff(c, left, right, i, a.value, Fail(SetInSyntax), a.value);
        return a;
      }
      var b := EndsOf(right, i);
      if b.Fail? {
        ExcusedPart(c, safe, e, Safe(c, active, right, i), right, b.error);
        NoAnswer(c, e, i, b);
        return b;
      }
      r := Ok(Ends((set p | p in Positions(a.value, c.Length()) && !Contains(b.value, p)), None));
      BegunDiff(c, done, memo.Keys, left, right, i, found, Positions(b.value, c.Length()));
      RightDiff(c, left, right, i, a.value, b, r.value);
    }

    method EndsOfOpt(e: Expr, i: nat) returns (r: Answer)
      requires Valid() && i <= c.Length()
      modifies this
      ensures Valid() && active == old(active) && old(memo).Keys <= memo.Keys && Right(c, Opt(e), i, r)
      ensures r.Ok? ==> Begun(c, memo.Keys, Opt(e), i, Positions(r.value, c.Length()))
      ensures r.Fail? ==> Excused(c, Safe(c, active, Opt(e), i), Opt(e), r.error)
      decreases Keys(c) - active, Size(e), 2
    {
      hide AllRight, AllBegun, Begun, Safe, Excused, Right;
      ghost var safe := Safe(c, active, Opt(e), i);
      if safe {
        SafePart(c, active, Opt(e), e, i, i);
      }
      var ends := EndsOf(e, i);
      if ends.Fail? {
        ExcusedPart(c, safe, Opt(e), Safe(c, active, e, i), e, ends.error);
        NoAnswer(c, Opt(e), i, ends);
        return ends;
      }
      r := Ok(Union(Ends({i}, None), ends.value));
      RightIsNormal(c, e, i, ends.value);
      RightOpt(c, e, i, ends.value);
      BegunOpt(c, memo.Keys, e, i, ends.value);
    }

    method EndsOfIteration(e: Expr, star: bool, i: nat) returns (r: Answer)
      requires Valid() && i <= c.Length()
      modifies this
      ensures Valid() && active == old(active) && old(memo).Keys <= memo.Keys && Right(c, Iteration(e, star), i, r)
      ensures r.Ok? ==> Begun(c, memo.Keys, Iteration(e, star), i, Positions(r.value, c.Length()))
      ensures r.Fail? ==> Excused(c, Safe(c, active, Iteration(e, star), i), Iteration(e, star), r.error)
      ensures e == Anything(c.input) ==> r == Ok(Shortcut(c, star, i))
      decreases Keys(c) - active, Size(e), 3
    {
      hide AllRight, AllBegun, Begun, Safe, Excused, Right, Iteration;
      if e == Anything(c.input) {
        r := Ok(Shortcut(c, star, i));
        RightAnything(c, star, i, r);
        BegunAnything(c, memo.Keys, star, i, Positions(r.value, c.Length()));
      } else {
        r := EndsOfLoop(e, star, i);
      }
    }

    /** Goes on from every position it finds, except from those behind `lo`, where everything is found. */
    method EndsOfLoop(e: Expr, star: bool, i: nat) returns (r: Answer)
      requires Valid() && i <= c.Length()
      modifies this
      ensures Valid() && active == old(active) && old(memo).Keys <= memo.Keys && Right(c, Iteration(e, star), i, r)
      ensures r.Ok? ==> Begun(c, memo.Keys, Iteration(e, star), i, Positions(r.value, c.Length()))
      ensures r.Fail? ==> Excused(c, Safe(c, active, Iteration(e, star), i), Iteration(e, star), r.error)
      decreases Keys(c) - active, Size(e), 2
    {
      hide AllRight, AllBegun, Begun, Safe, Excused, Sofar, Right, Ahead, Below, Good, WellFormed, Reached;
      var found: set<nat> := if star then {i} else {};
      var lo: Option<nat> := None;
      var frontier: set<nat> := {i};
      ghost var good := Means(c, e);
      if good { SofarStart(c, e, star, i); }
      AheadStart(c, e, star, i);
      while frontier != {}
        invariant Valid() && active == old(active) && old(memo).Keys <= memo.Keys
        invariant Bounded(c, found, lo) && frontier <= found + {i}
        invariant Ahead(c, Iteration(e, star), i, Reached(c, found, lo))
        invariant i in frontier || Begun(c, memo.Keys, Iteration(e, star), i, Reached(c, found, lo))
        invariant star ==> i in found
        invariant good ==> Sofar(c, e, star, i, found, lo, frontier)
        decreases UpTo(c.Length()) - found, frontier
      {
        ghost var (before, done) := (Reached(c, found, lo), memo.Keys);
        var round := EndsOfRound(e, star, i, found, lo, frontier);
        if round.Fail? {
          r := Fail(round.error);
          NoAnswer(c, Iteration(e, star), i, r);
          return;
        }
        var added := round.value.added;
        found, lo := round.value.found, round.value.lo;
        if Begun(c, done, Iteration(e, star), i, before) {
          BegunGrows(c, done, memo.Keys, Iteration(e, star), i, before, Reached(c, found, lo));
        }
        if good {
          SofarCut(c, e, star, i, found, lo, added);
        }
        frontier := Cut(added, lo);
      }
      r := Ok(Ends(Cut(found, lo), lo));
      SofarEnd(c, e, star, i, found, lo);
      CutReached(c, found, lo);
    }

    /** Matches once more at every position of the frontier. */
    method EndsOfRound(e: Expr, ghost star: bool, ghost i: nat, found: set<nat>, lo: Option<nat>, frontier: set<nat>)
        returns (r: Result<Round, Error>)
      requires Valid() && i <= c.Length() && Bounded(c, found, lo) && frontier <= found + {i} && (star ==> i in found)
      requires Ahead(c, Iteration(e, star), i, Reached(c, found, lo))
      requires Means(c, e) ==> Sofar(c, e, star, i, found, lo, frontier)
      modifies this
      ensures Valid() && active == old(active) && old(memo).Keys <= memo.Keys
      ensures r.Ok? ==> Bounded(c, r.value.found, r.value.lo) && found <= r.value.found && r.value.added == r.value.found - found
      ensures r.Ok? ==> Ahead(c, Iteration(e, star), i, Reached(c, r.value.found, r.value.lo))
      ensures r.Ok? ==> Reached(c, found, lo) <= Reached(c, r.value.found, r.value.lo)
      ensures r.Ok? && i in frontier ==> Begun(c, memo.Keys, Iteration(e, star), i, Reached(c, r.value.found, r.value.lo))
      ensures r.Ok? && Means(c, e) ==> Sofar(c, e, star, i, r.value.found, r.value.lo, r.value.added)
      ensures r.Fail? ==> Excused(c, Safe(c, active, Iteration(e, star), i), Iteration(e, star), r.error)
      decreases Keys(c) - active, Size(e), 1
    {
      hide AllRight, AllBegun, Begun, Safe, Excused, Sofar, Right, Ahead, Below, Good, WellFormed, Reached;
      ghost var good := Means(c, e);
      ghost var safe := Safe(c, active, Iteration(e, star), i);
      var round := Round(found, lo, {});
      var work := frontier;
      assert work + {} == frontier;
      while work != {}
        invariant Valid() && active == old(active) && old(memo).Keys <= memo.Keys
        invariant work <= frontier && Bounded(c, round.found, round.lo)
        invariant found <= round.found && round.added == round.found - found
        invariant Ahead(c, Iteration(e, star), i, Reached(c, round.found, round.lo))
        invariant Reached(c, found, lo) <= Reached(c, round.found, round.lo)
        invariant i in frontier - work ==> Begun(c, memo.Keys, Iteration(e, star), i, Reached(c, round.found, round.lo))
        invariant good ==> Sofar(c, e, star, i, round.found, round.lo, work + round.added)
        decreases work
      {
        var p :| p in work;
        ghost var (before, done) := (round, memo.Keys);
        var ends := EndsOf(e, p);
        if ends.Fail? {
          ExcusedIteration(c, active, e, star, i, round.found, round.lo, p, ends.error);
          return Fail(ends.error);
        }
        RightIsNormal(c, e, p, ends.value);
        RightIsAhead(c, e, p, ends.value);
        round := Round(round.found + ends.value.points, Earliest(round.lo, ends.value.lo),
                       round.added + (ends.value.points - round.found));
        SofarAhead(c, e, star, i, before.found, before.lo, p, ends.value);
        ReachedGrows(c, before.found, before.lo, ends.value);
        BegunRound(c, done, memo.Keys, e, star, i, before, p, ends.value);
        if good {
          SofarStep(c, e, star, i, before.found, before.lo, work + before.added, p, ends.value, (work - {p}) + round.added);
        }
        work := work - {p};
      }
      assert work + round.added == round.added;
      r := Ok(round);
    }
  }
}

/** How matches of sequences and iterations are put together. */
module GrammarLemmas {
  import opened Grammars
  import opened GrammarSemantics

  // ----- Sequences -----

  lemma SeqFirst(c: Context, items: Exprs, i: nat, j: nat) returns (p: nat)
    requires Good(c) && AllWellFormed(c, items) && i <= j <= c.Length() && items.Cons? && MatchSeq(c, items, i, j)
    ensures i <= p <= j && Match(c, items.head, i, p) && MatchSeq(c, items.tail, p, j)
  {
    p :| i <= p <= j && Match(c, items.head, i, p) && MatchSeq(c, items.tail, p, j);
  }

  lemma PlusFirst(c: Context, e: Expr, i: nat, j: nat) returns (p: nat)
    requires Good(c) && WellFormed(c, e) && i <= j <= c.Length() && MatchPlus(c, e, i, j)
    ensures i <= p <= j && Match(c, e, i, p) && MatchStar(c, e, p, j)
  {
    p :| i <= p <= j && Match(c, e, i, p) && MatchStar(c, e, p, j);
  }

  /** Going on from the positions `at` with the rest of the items completes the matches of all items from i. */
  ghost predicate Completes(c: Context, items: Exprs, i: nat, rest: Exprs, at: set<nat>)
    requires Good(c) && AllWellFormed(c, items) && AllWellFormed(c, rest) && i <= c.Length()
  {
    forall j | i <= j <= c.Length() ::
      MatchSeq(c, items, i, j) <==> exists p :: p in at && p <= j && MatchSeq(c, rest, p, j)
  }

  /** `ends` are the ends of the matches of e from the positions `starts`. */
  ghost predicate EndsFrom(c: Context, e: Expr, starts: set<nat>, ends: set<nat>)
    requires Good(c) && WellFormed(c, e)
  {
    forall q :: q in ends <==> exists p :: p in starts && p <= q <= c.Length() && Match(c, e, p, q)
  }

  lemma CompletesStep(c: Context, items: Exprs, i: nat, rest: Exprs, at: set<nat>, ends: set<nat>)
    requires Good(c) && AllWellFormed(c, items) && AllWellFormed(c, rest) && i <= c.Length() && rest.Cons?
    requires Completes(c, items, i, rest, at) && EndsFrom(c, rest.head, at, ends) && forall p | p in at :: i <= p
    ensures Completes(c, items, i, rest.tail, ends) && forall p | p in ends :: i <= p
  {
    hide Good, Match;
    forall j | i <= j <= c.Length()
      ensures MatchSeq(c, items, i, j) <==> exists q :: q in ends && q <= j && MatchSeq(c, rest.tail, q, j)
    {
      if p :| p in at && p <= j && MatchSeq(c, rest, p, j) {
        var q := SeqFirst(c, rest, p, j);
        assert q in ends;
      }
      if q :| q in ends && q <= j && MatchSeq(c, rest.tail, q, j) {
        var p :| p in at && p <= q <= c.Length() && Match(c, rest.head, p, q);
        assert MatchSeq(c, rest, p, j);
      }
    }
  }

  lemma CompletesStart(c: Context, items: Exprs, i: nat)
    requires Good(c) && AllWellFormed(c, items) && i <= c.Length()
    ensures Completes(c, items, i, items, {i})
  {
  }

  lemma CompletesEnd(c: Context, items: Exprs, i: nat, rest: Exprs, at: set<nat>)
    requires Good(c) && AllWellFormed(c, items) && AllWellFormed(c, rest) && i <= c.Length()
    requires Completes(c, items, i, rest, at) && (rest.Nil? || at == {})
    ensures forall j | i <= j <= c.Length() :: MatchSeq(c, items, i, j) <==> j in at
  {
    hide Good;
    if rest.Nil? {
      forall j | i <= j <= c.Length() ensures (exists p :: p in at && p <= j && MatchSeq(c, rest, p, j)) <==> j in at {
        if j in at { assert MatchSeq(c, rest, j, j); }
      }
    }
  }

  // ----- Iterations -----

  ghost predicate Iterates(c: Context, e: Expr, star: bool, i: nat, j: nat)
    requires Good(c) && WellFormed(c, e) && i <= j <= c.Length()
  {
    if star then MatchStar(c, e, i, j) else MatchPlus(c, e, i, j)
  }

  lemma {:induction false} StarStep(c: Context, e: Expr, i: nat, p: nat, q: nat)
    requires Good(c) && WellFormed(c, e) && i <= p <= q <= c.Length()
    requires MatchStar(c, e, i, p) && Match(c, e, p, q)
    ensures MatchStar(c, e, i, q)
    decreases p - i
  {
    hide Good, Match;
    if i < p {
      var first :| i < first <= p && Match(c, e, i, first) && MatchStar(c, e, first, p);
      StarStep(c, e, first, p, q);
    } else if i < q {
      assert MatchStar(c, e, q, q);
    }
  }

  /** Another match goes on an iteration. */
  lemma IterateStep(c: Context, e: Expr, star: bool, i: nat, p: nat, q: nat)
    requires Good(c) && WellFormed(c, e) && i <= p <= q <= c.Length()
    requires (p == i || Iterates(c, e, star, i, p)) && Match(c, e, p, q)
    ensures Iterates(c, e, star, i, q)
  {
    hide Good, Match;
    if star {
      if p == i { assert MatchStar(c, e, i, i); }
      StarStep(c, e, i, p, q);
    } else if p == i {
      assert MatchStar(c, e, q, q);
    } else {
      var first := PlusFirst(c, e, i, p);
      StarStep(c, e, first, p, q);
    }
  }

  lemma {:induction false} StarIntoClosed(c: Context, e: Expr, i: nat, closed: set<nat>, j: nat)
    requires Good(c) && WellFormed(c, e) && i <= j <= c.Length() && i in closed
    requires forall p, q | p in closed && p <= q <= c.Length() && Match(c, e, p, q) :: q in closed
    requires MatchStar(c, e, i, j)
    ensures j in closed
    decreases j - i
  {
    hide Good, Match;
    if i < j {
      var p :| i < p <= j && Match(c, e, i, p) && MatchStar(c, e, p, j);
      StarIntoClosed(c, e, p, closed, j);
    }
  }

  /** A set that is closed under matching contains the ends of the iteration. */
  lemma IterateIntoClosed(c: Context, e: Expr, star: bool, i: nat, closed: set<nat>, j: nat)
    requires Good(c) && WellFormed(c, e) && i <= j <= c.Length() && (star ==> i in closed)
    requires forall q | i <= q <= c.Length() && Match(c, e, i, q) :: q in closed
    requires forall p, q | p in closed && p <= q <= c.Length() && Match(c, e, p, q) :: q in closed
    requires Iterates(c, e, star, i, j)
    ensures j in closed
  {
    hide Good, Match;
    if star {
      StarIntoClosed(c, e, i, closed, j);
    } else {
      var p := PlusFirst(c, e, i, j);
      StarIntoClosed(c, e, p, closed, j);
    }
  }

  function Anything(input: Input): Expr {
    Ref(if input.Tokens? then TOKEN else CHAR)
  }

  /** The grammar says so of `char` and `token`. */
  predicate AnythingMeansAnything(c: Context) {
    if c.input.Text? then CHAR in c.g.rules && c.g.rules[CHAR] == ANY_CHAR else TOKEN in c.g.lexical
  }

  /** `char` or `token` matches every character or token. */
  ghost predicate MatchesEach(c: Context)
    requires Good(c) && WellFormed(c, Anything(c.input))
  {
    forall i: nat | i < c.Length() :: MatchesNext(c, i)
  }

  ghost predicate MatchesNext(c: Context, i: nat)
    requires Good(c) && WellFormed(c, Anything(c.input)) && i < c.Length()
  {
    Match(c, Anything(c.input), i, i + 1)
  }

  /** And it matches something only. */
  ghost predicate MatchesNever(c: Context)
    requires Good(c) && WellFormed(c, Anything(c.input))
  {
    forall i: nat | i <= c.Length() :: !Match(c, Anything(c.input), i, i)
  }

  lemma AnythingMatches(c: Context, i: nat, j: nat)
    requires Good(c) && AnythingMeansAnything(c) && WellFormed(c, Anything(c.input)) && i <= j <= c.Length()
    ensures Match(c, Anything(c.input), i, j) <==> j == i + 1
  {
    var name := Anything(c.input).name;
    assert Match(c, Anything(c.input), i, j) == MatchRef(c, name, i, j);
    if c.input.Text? {
      assert Match(c, ANY_CHAR, i, j) == MatchRef(c, name, i, j);
      if i < c.Length() {
        assert ANY_CHAR.ranges[0].0 <= c.input.chars[i] as int <= ANY_CHAR.ranges[0].1;
      }
    }
  }

  lemma {:induction false} EachIterates(c: Context, i: nat, j: nat)
    requires Good(c) && WellFormed(c, Anything(c.input)) && MatchesEach(c) && i <= j <= c.Length()
    ensures MatchStar(c, Anything(c.input), i, j)
    decreases j - i
  {
    hide Good, Match;
    if i < j {
      EachIterates(c, i + 1, j);
      assert MatchesNext(c, i);
      assert Match(c, Anything(c.input), i, i + 1) && MatchStar(c, Anything(c.input), i + 1, j);
    }
  }

  /** Iterating `char` or `token` reaches every position from i, or for `+` every later one. */
  ghost predicate ReachesFrom(c: Context, star: bool, i: nat)
    requires Good(c) && WellFormed(c, Anything(c.input)) && i <= c.Length()
  {
    forall j: nat | i <= j <= c.Length() :: Iterates(c, Anything(c.input), star, i, j) <==> star || i < j
  }

  /** It does from everywhere exactly if the rule matches everything once, and for `+` never nothing. */
  lemma AnythingIterates(c: Context, star: bool)
    requires Good(c) && WellFormed(c, Anything(c.input))
    ensures (forall i: nat | i <= c.Length() :: ReachesFrom(c, star, i)) <==> MatchesEach(c) && (star || MatchesNever(c))
  {
    hide Good, Match, ReachesFrom;
    if MatchesEach(c) && (star || MatchesNever(c)) {
      forall i: nat | i <= c.Length() ensures ReachesFrom(c, star, i) {
        EachReaches(c, star, i);
      }
    }
    if forall i: nat | i <= c.Length() :: ReachesFrom(c, star, i) {
      forall i: nat | i <= c.Length()
        ensures (i < c.Length() ==> MatchesNext(c, i)) && (star || !Match(c, Anything(c.input), i, i))
      {
        ReachesOne(c, star, i);
      }
    }
  }

  lemma EachReaches(c: Context, star: bool, i: nat)
    requires Good(c) && WellFormed(c, Anything(c.input)) && MatchesEach(c) && (star || MatchesNever(c)) && i <= c.Length()
    ensures ReachesFrom(c, star, i)
  {
    hide Good, Match;
    var e := Anything(c.input);
    forall j: nat | i <= j <= c.Length() ensures Iterates(c, e, star, i, j) <==> star || i < j {
      EachIterates(c, i, j);
      PlusOfNothing(c, e, i);
      if !star && i < j {
        EachIterates(c, i + 1, j);
        assert MatchesNext(c, i);
        assert Match(c, e, i, i + 1) && MatchStar(c, e, i + 1, j);
      }
    }
  }

  lemma ReachesOne(c: Context, star: bool, i: nat)
    requires Good(c) && WellFormed(c, Anything(c.input)) && i <= c.Length() && ReachesFrom(c, star, i)
    ensures i < c.Length() ==> MatchesNext(c, i)
    ensures star || !Match(c, Anything(c.input), i, i)
  {
    hide Good, Match;
    var e := Anything(c.input);
    PlusOfNothing(c, e, i);
    assert Iterates(c, e, star, i, i) <==> star;
    if i < c.Length() {
      assert Iterates(c, e, star, i, i + 1);
      if star {
        var p :| i < p <= i + 1 && Match(c, e, i, p) && MatchStar(c, e, p, i + 1);
      } else {
        var p := PlusFirst(c, e, i, i + 1);
      }
    }
  }

  lemma PlusOfNothing(c: Context, e: Expr, i: nat)
    requires Good(c) && WellFormed(c, e) && i <= c.Length()
    ensures MatchPlus(c, e, i, i) <==> Match(c, e, i, i)
  {
    hide Good, Match;
    assert MatchStar(c, e, i, i);
    if MatchPlus(c, e, i, i) {
      var p := PlusFirst(c, e, i, i);
    }
  }

  // ----- Where iterating `char` or `token` takes a shortcut -----

  /** Iterations of `char` and `token` are of what matches each, and for `+` something only. */
  ghost predicate ShortcutsHold(c: Context, e: Expr)
    requires Good(c)
  {
    match e
    case Seq(items) => AllShortcutsHold(c, items)
    case Alt(items) => AllShortcutsHold(c, items)
    case Diff(left, right) => ShortcutsHold(c, left) && ShortcutsHold(c, right)
    case Opt(e1) => ShortcutsHold(c, e1)
    case Star(e1) => ShortcutsHold(c, e1) && (e1 == Anything(c.input) && WellFormed(c, e1) ==> MatchesEach(c))
    case Plus(e1) =>
      ShortcutsHold(c, e1) && (e1 == Anything(c.input) && WellFormed(c, e1) ==> MatchesEach(c) && MatchesNever(c))
    case _ => true
  }

  ghost predicate AllShortcutsHold(c: Context, items: Exprs)
    requires Good(c)
  {
    items.Nil? || (ShortcutsHold(c, items.head) && AllShortcutsHold(c, items.tail))
  }

  /** The grammar means something, and the shortcuts are right. */
  ghost predicate Fine(c: Context) {
    Good(c) && forall name | name in c.g.rules && !c.IsTokenRule(name) :: ShortcutsHold(c, c.g.rules[name])
  }

  /** The shortcuts are right in particular if `char` or `token` means anything. */
  lemma {:induction false} AnythingHolds(c: Context, e: Expr)
    requires Good(c) && AnythingMeansAnything(c)
    ensures ShortcutsHold(c, e)
    decreases e
  {
    match e
    case Seq(items) => AnythingHoldsInAll(c, items);
    case Alt(items) => AnythingHoldsInAll(c, items);
    case Diff(left, right) =>
      AnythingHolds(c, left);
      AnythingHolds(c, right);
    case Opt(e1) => AnythingHolds(c, e1);
    case Star(e1) =>
      AnythingHolds(c, e1);
      AnythingMatchesEach(c);
    case Plus(e1) =>
      AnythingHolds(c, e1);
      AnythingMatchesEach(c);
    case _ =>
  }

  lemma {:induction false} AnythingHoldsInAll(c: Context, items: Exprs)
    requires Good(c) && AnythingMeansAnything(c)
    ensures AllShortcutsHold(c, items)
    decreases items
  {
    if items.Cons? {
      AnythingHolds(c, items.head);
      AnythingHoldsInAll(c, items.tail);
    }
  }

  lemma AnythingMatchesEach(c: Context)
    requires Good(c) && AnythingMeansAnything(c)
    ensures WellFormed(c, Anything(c.input)) && MatchesEach(c) && MatchesNever(c)
  {
    hide Good, Match;
    forall i: nat | i <= c.Length() ensures !Match(c, Anything(c.input), i, i) {
      AnythingMatches(c, i, i);
    }
    forall i: nat | i < c.Length() ensures MatchesNext(c, i) {
      AnythingMatches(c, i, i + 1);
    }
  }

  lemma AnythingIsFine(c: Context)
    requires Good(c) && AnythingMeansAnything(c)
    ensures Fine(c)
  {
    hide Good, ShortcutsHold;
    forall name | name in c.g.rules && !c.IsTokenRule(name) ensures ShortcutsHold(c, c.g.rules[name]) {
      AnythingHolds(c, c.g.rules[name]);
    }
  }
}

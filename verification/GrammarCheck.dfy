/** The grammar check and the matcher together. */
module GrammarCheck {
  import opened Wrappers
  import opened Grammars
  import opened LeftRecursion
  import opened GrammarSemantics
  import opened GrammarLemmas
  import opened EndSets
  import opened Matcher

  /** The ends of a rule, by a matcher that nothing has been asked of yet. */
  method EndsOfRule(c: Context, name: Name, i: nat) returns (r: Answer)
    requires i <= c.Length()
    ensures Means(c, Ref(name)) ==> r.Ok? && Exact(c, Ref(name), i, r.value)
    ensures forall star | MatchesShortcut(c, name, star) :: r == Ok(Shortcut(c, star, i))
    ensures r.Ok? && !c.IsTokenRule(name) ==> !Reaches(c.g, name, name, Must(c))
    ensures r.Fail? ==> Excused(c, true, Ref(name), r.error)
  {
    hide Good, Fine, Match, Below, Begun, Reaches;
    var matcher := new Matcher(c);
    r := matcher.EndsOfRef(name, i);
    if Means(c, Ref(name)) && r.Fail? {
      NoExcuse(c, Ref(name), r.error);
    }
  }

  method Whole(c: Context, name: Name) returns (r: Result<bool, Error>)
    ensures Means(c, Ref(name)) ==> r.Ok? && (r.value <==> Match(c, Ref(name), 0, c.Length()))
    ensures r.Ok? && !c.IsTokenRule(name) ==> !Reaches(c.g, name, name, Must(c))
    ensures r.Fail? ==> Excused(c, true, Ref(name), r.error)
  {
    hide Match, Reaches, Excused, Fine;
    var ends := EndsOfRule(c, name, 0);
    if ends.Fail? {
      r := Fail(ends.error);
    } else {
      r := Ok(Contains(ends.value, c.Length()));
      ContainsPosition(ends.value, c.Length(), c.Length());
    }
  }

  /**
   Whether the whole input matches a rule. The matcher has an answer if no rule can get back to
   itself, and it is what the grammar means if the shortcuts are right. That no rule can is so exactly
   if none is reported and the check misses no step on a way back. For tokens the check sees more steps
   than there are. A rule that must get back to itself is never answered.
   */
  method MatchesWhole(c: Context, name: Name) returns (problems: set<Name>, r: Result<bool, Error>)
    ensures RulesWellFormed(c) && WellFormed(c, Ref(name)) && Forward(c) ==> Good(c) && r.Ok?
    ensures Means(c, Ref(name)) ==> r.Ok? && (r.value <==> Match(c, Ref(name), 0, c.Length()))
    ensures Good(c) && AnythingMeansAnything(c) && WellFormed(c, Ref(name)) ==> Means(c, Ref(name))
    ensures c.input.Text? ==> (Forward(c) <==> problems == {} && forall a, b :: !MissedStep(c.g, a, b, CHECKED, ON_TEXT))
    ensures c.input.Text? && RulesSeenAlike(c.g, CHECKED, ON_TEXT) ==> (Forward(c) <==> problems == {})
    ensures c.input.Tokens? ==>
              (problems == {} <==> (forall n :: !Reaches(c.g, n, n, c.View())) &&
                                   forall a, b :: !MissedStep(c.g, a, b, c.View(), CHECKED))
    ensures c.input.Tokens? && problems == {} ==> Forward(c)
    ensures r.Ok? && !c.IsTokenRule(name) ==> !Reaches(c.g, name, name, Must(c))
    ensures r.Fail? ==> Excused(c, true, Ref(name), r.error)
  {
    hide Match, Reaches, MissedStep, RulesSeenAlike, Excused, Fine;
    problems := FindLeftRecursion(c.g);
    MissedExactly(c.g, CHECKED, ON_TEXT);
    MissedExactly(c.g, c.View(), if c.input.Text? then ON_TEXT else CHECKED);
    forall n ensures Reaches(c.g, n, n, ON_TEXT) ==> n in c.g.rules
             ensures Reaches(c.g, n, n, CHECKED) ==> n in c.g.rules
             ensures RulesSeenAlike(c.g, CHECKED, ON_TEXT) ==> (Reaches(c.g, n, n, CHECKED) <==> Reaches(c.g, n, n, ON_TEXT))
    {
      ReachesAsWell(c.g, n, n, CHECKED, ON_TEXT);
      if Reaches(c.g, n, n, ON_TEXT) { SomethingNext(c.g, n, n, ON_TEXT); }
      if Reaches(c.g, n, n, CHECKED) { SomethingNext(c.g, n, n, CHECKED); }
    }
    r := Whole(c, name);
    if Good(c) && WellFormed(c, Ref(name)) && r.Fail? { NoExcuse(c, Ref(name), r.error); }
    if Good(c) && AnythingMeansAnything(c) { AnythingIsFine(c); }
  }

  lemma SomethingNext(g: Grammar, from: Name, to: Name, view: View)
    requires Reaches(g, from, to, view)
    ensures Next(g, from, view) != {} && from in g.rules
  {
    var path :| PathFromTo(g, path, from, to, view);
    assert path[0 + 1] in Next(g, path[0], view);
  }

  /**
   The matcher answers every rule at a position, whatever the input, if no rule can get back to
   itself, and only if no rule must. Without differences, and where no shortcut hides a rule, that is
   the same.
   */
  method AnswersAll(c: Context, i: nat) returns (answered: bool)
    requires RulesWellFormed(c) && i <= c.Length()
    ensures Forward(c) ==> answered
    ensures answered ==> forall name | name in c.g.rules && !c.IsTokenRule(name) :: !Reaches(c.g, name, name, Must(c))
    ensures RulesSeenAlike(c.g, Must(c), c.View()) ==> (answered <==> Forward(c))
  {
    hide Reaches, RulesSeenAlike, Match, Must;
    answered := true;
    var rest := c.g.rules.Keys;
    while rest != {}
      invariant rest <= c.g.rules.Keys && (Forward(c) ==> answered)
      invariant answered ==>
                  forall name | name in c.g.rules && name !in rest && !c.IsTokenRule(name) :: !Reaches(c.g, name, name, Must(c))
      decreases rest
    {
      var name :| name in rest;
      if !c.IsTokenRule(name) {
        var r := EndsOfRule(c, name, i);
        if Good(c) && r.Fail? { NoExcuse(c, Ref(name), r.error); }
        answered := answered && r.Ok?;
      }
      rest := rest - {name};
    }
    forall name | name in c.g.rules && !c.IsTokenRule(name)
      ensures RulesSeenAlike(c.g, Must(c), c.View()) ==>
              (Reaches(c.g, name, name, Must(c)) <==> Reaches(c.g, name, name, c.View()))
    {
      MustIsNoMore(c);
      ReachesAsWell(c.g, name, name, Must(c), c.View());
    }
  }

  lemma MustIsNoMore(c: Context)
    ensures NoMore(Must(c), c.View()) && Must(c).kinds == c.View().kinds
    ensures c.View().kinds == if c.input.Tokens? then c.g.lexical else {}
  {
  }

  const EMPTY_LITERAL :=
    Grammar(map["a" := Alt(Cons(Seq(Cons(Lit(""), Cons(Ref("a"), Nil))), Cons(Lit("x"), Nil)))], {"a"})

  /**
   The check takes empty literals for literals that match something: it does not report this rule,
   but the rule gets back to itself, and matching it fails wherever it starts.
   */
  method EmptyLiteralUnnoticed(c: Context, i: nat) returns (problems: set<Name>, r: Answer)
    requires c.input.Text? && c.g == EMPTY_LITERAL && i <= c.Length()
    ensures problems == {} && MissedStep(c.g, "a", "a", CHECKED, ON_TEXT) && r == Fail(LeftRecursionIn("a"))
  {
    hide Next, Reaches, RulesWellFormed, WellFormed, Right, Must;
    problems := FindLeftRecursion(c.g);
    MustIsNoMore(c);
    MustSeesEmpties(c);
    EmptyLiteralNext(CHECKED);
    EmptyLiteralNext(ON_TEXT);
    EmptyLiteralNext(Must(c));
    EmptyLiteralWellFormed(c);
    if Reaches(c.g, "a", "a", CHECKED) { SomethingNext(c.g, "a", "a", CHECKED); }
    ReachesNext(c.g, "a", "a", Must(c));
    r := EndsOfRule(c, "a", i);
  }

  lemma MustSeesEmpties(c: Context)
    ensures Must(c).empties == c.input.Text?
  {
  }

  lemma EmptyLiteralWellFormed(c: Context)
    requires c.input.Text? && c.g == EMPTY_LITERAL
    ensures RulesWellFormed(c) && WellFormed(c, Ref("a"))
    ensures forall name :: name in c.g.rules <==> name == "a"
  {
    var items := Cons(Lit(""), Cons(Ref("a"), Nil));
    assert WellFormed(c, Lit("")) && WellFormed(c, Ref("a")) && AllWellFormed(c, Nil);
    assert AllWellFormed(c, items.tail);
    assert AllWellFormed(c, items);
    assert WellFormed(c, Seq(items)) && AllWellFormed(c, Cons(Lit("x"), Nil));
    assert AllWellFormed(c, c.g.rules["a"].items);
  }

  lemma EmptyLiteralNext(view: View)
    requires "a" !in view.kinds
    ensures Next(EMPTY_LITERAL, "a", view) == if view.empties then {"a"} else {}
  {
    hide Nullable;
    var (nullable, items) := (Nullable(EMPTY_LITERAL, view), Cons(Lit(""), Cons(Ref("a"), Nil)));
    var alternatives := EMPTY_LITERAL.rules["a"].items;
    assert Leftmost(Ref("a"), nullable, view) == {"a"} && Leftmost(Lit(""), nullable, view) == {};
    assert LeftmostOfSeq(items.tail, nullable, view) == {"a"};
    assert IsNullable(Lit(""), nullable, view) == view.empties;
    assert LeftmostOfSeq(items, nullable, view) == if view.empties then {"a"} else {};
    assert Leftmost(EMPTY_LITERAL.rules["a"], nullable, view) == LeftmostOfAny(alternatives, nullable, view);
    assert LeftmostOfAny(alternatives.tail, nullable, view) == {};
    assert Leftmost(Seq(items), nullable, view) == LeftmostOfSeq(items, nullable, view);
  }

  const CHAR_IS_A := Grammar(map[CHAR := Lit("a"), "r" := Star(Ref(CHAR))], {CHAR, "r"})

  /**
   Nothing sees to it that `char` means any character. Of this grammar nothing is reported, and what
   it means is defined, but the matcher lets its iteration reach behind another character.
   */
  method CharIsNotAnything(c: Context) returns (problems: set<Name>, r: Answer)
    requires c == Context(CHAR_IS_A, Text("b"))
    ensures problems == {} && Good(c) && r.Ok? && 1 in Positions(r.value, 1) && !Match(c, Ref("r"), 0, 1)
  {
    hide Reaches, Next, Match, Shortcut;
    problems := FindLeftRecursion(c.g);
    CharIsAForward(CHECKED);
    CharIsAForward(ON_TEXT);
    CharIsAGood(c);
    assert MatchesShortcut(c, "r", true);
    r := EndsOfRule(c, "r", 0);
  }

  lemma CharIsAForward(view: View)
    requires view.shortcut.None? && view.kinds == {}
    ensures forall name :: !Reaches(CHAR_IS_A, name, name, view)
  {
    hide Nullable;
    var nullable := Nullable(CHAR_IS_A, view);
    assert Leftmost(Ref(CHAR), nullable, view) == {CHAR};
    assert Next(CHAR_IS_A, CHAR, view) == {} && Next(CHAR_IS_A, "r", view) == {CHAR};
    forall name ensures !Reaches(CHAR_IS_A, name, name, view) {
      if Reaches(CHAR_IS_A, name, name, view) {
        SomethingNext(CHAR_IS_A, name, name, view);
        var path :| PathFromTo(CHAR_IS_A, path, name, name, view);
        ReachesInto(CHAR_IS_A, {CHAR}, path, view);
      }
    }
  }

  lemma CharIsAGood(c: Context)
    requires c == Context(CHAR_IS_A, Text("b"))
    ensures Good(c) && !Match(c, Ref("r"), 0, 1)
  {
    CharIsAForward(ON_TEXT);
    assert WellFormed(c, Lit("a")) && WellFormed(c, Ref(CHAR)) && WellFormed(c, Star(Ref(CHAR)));
    assert RulesWellFormed(c) && Good(c);
    assert Match(c, Ref("r"), 0, 1) == MatchRef(c, "r", 0, 1) == Match(c, Star(Ref(CHAR)), 0, 1);
    assert Match(c, Star(Ref(CHAR)), 0, 1) == MatchStar(c, Ref(CHAR), 0, 1);
    assert Match(c, Ref(CHAR), 0, 1) == MatchRef(c, CHAR, 0, 1) == Match(c, Lit("a"), 0, 1);
    assert c.input.chars[0..][0] == 'b' && !LiteralAt(c, "a", 0);
  }

  // ----- The kinds of tokens -----

  function TextOf(g: Grammar, text: string): Context {
    Context(g, Text(text))
  }

  /** Remembers which strings are matches of lexical rules. */
  class TextMatcher {
    const g: Grammar
    var cache: map<(Name, string), bool>

    ghost predicate Valid()
      reads this
    {
      forall key | key in cache && Means(TextOf(g, key.1), Ref(key.0)) ::
        cache[key] <==> Match(TextOf(g, key.1), Ref(key.0), 0, |key.1|)
    }

    constructor (g: Grammar)
      ensures Valid() && this.g == g
    {
      this.g := g;
      cache := map[];
    }

    method Full(name: Name, text: string) returns (r: Result<bool, Error>)
      requires Valid()
      modifies this
      ensures Valid()
      ensures Means(TextOf(g, text), Ref(name)) ==>
              r.Ok? && (r.value <==> Match(TextOf(g, text), Ref(name), 0, |text|))
    {
      hide Match, Good, Fine, WellFormed;
      if (name, text) in cache {
        return Ok(cache[(name, text)]);
      }
      r := Whole(TextOf(g, text), name);
      if r.Ok? {
        cache := cache[(name, text) := r.value];
      }
    }
  }

  /** The answers about tokens are those of the text matcher. */
  ghost predicate FromText(c: Context) {
    c.input.Tokens? && forall name, text | Means(TextOf(c.g, text), Ref(name)) ::
      c.input.full(name, text) <==> Match(TextOf(c.g, text), Ref(name), 0, |text|)
  }

  /** Then a token is matched by a lexical rule exactly if all of its text is. */
  lemma TokenIsText(c: Context, name: Name, i: nat)
    requires Good(c) && FromText(c) && c.IsTokenRule(name) && name != TOKEN && i < c.Length()
    requires Means(TextOf(c.g, c.input.tokens[i].text), Ref(name))
    ensures Match(c, Ref(name), i, i + 1) <==>
            Match(TextOf(c.g, c.input.tokens[i].text), Ref(name), 0, |c.input.tokens[i].text|)
  {
    hide Good;
    assert Match(c, Ref(name), i, i + 1) == MatchRef(c, name, i, i + 1);
  }

  // ----- Character sets -----

  predicate Sorted(ranges: seq<(int, int)>) {
    && (forall k | 0 <= k < |ranges| :: ranges[k].0 <= ranges[k].1)
    && (forall j, k | 0 <= j < k < |ranges| :: ranges[j].0 <= ranges[k].0)
  }

  /** Merges the sorted ranges of a set that touch or overlap, so that it can be searched. */
  method NormalizeRanges(ranges: seq<(int, int)>) returns (merged: seq<(int, int)>)
    requires Sorted(ranges)
    ensures Normalized(merged) && forall ch :: InRanges(merged, ch) <==> InRanges(ranges, ch)
  {
    hide InRanges, Normalized;
    merged := [];
    Nothing();
    assert ranges[..0] == [];
    for k := 0 to |ranges|
      invariant Normalized(merged) && forall ch :: InRanges(merged, ch) <==> InRanges(ranges[..k], ch)
      invariant merged != [] ==> k < |ranges| ==> merged[|merged| - 1].0 <= ranges[k].0
    {
      var (lo, hi) := ranges[k];
      var last := |merged| - 1;
      assert ranges[..k + 1] == ranges[..k] + [ranges[k]];
      InMore(ranges[..k], ranges[k]);
      if last >= 0 && lo <= merged[last].1 + 1 {
        assert merged == merged[..last] + [merged[last]];
        LastExtended(merged[..last], merged[last], ranges[k]);
        merged := merged[..last] + [(merged[last].0, Max(hi, merged[last].1))];
      } else {
        InMore(merged, ranges[k]);
        LastAdded(merged, ranges[k]);
        merged := merged + [(lo, hi)];
      }
    }
    assert ranges[..|ranges|] == ranges;
  }

  function Max(a: int, b: int): int {
    if a > b then a else b
  }

  lemma Nothing()
    ensures Normalized([]) && forall ch :: !InRanges([], ch)
  {
  }

  lemma InMore(ranges: seq<(int, int)>, range: (int, int))
    ensures forall ch :: InRanges(ranges + [range], ch) <==> InRanges(ranges, ch) || range.0 <= ch <= range.1
  {
    var all := ranges + [range];
    assert all[|ranges|] == range && forall k | 0 <= k < |ranges| :: all[k] == ranges[k];
  }

  lemma LastAdded(ranges: seq<(int, int)>, range: (int, int))
    requires Normalized(ranges) && range.0 <= range.1 && (ranges != [] ==> ranges[|ranges| - 1].1 < range.0)
    ensures Normalized(ranges + [range])
  {
  }

  lemma LastExtended(rest: seq<(int, int)>, last: (int, int), range: (int, int))
    requires Normalized(rest + [last]) && last.0 <= range.0 <= last.1 + 1 && range.0 <= range.1
    ensures var longer := rest + [(last.0, Max(range.1, last.1))];
      && Normalized(longer)
      && forall ch :: InRanges(longer, ch) <==> InRanges(rest + [last], ch) || range.0 <= ch <= range.1
  {
    hide InRanges;
    var all, end := rest + [last], (last.0, Max(range.1, last.1));
    assert all[|rest|] == last && forall k | 0 <= k < |rest| :: all[k] == rest[k];
    InMore(rest, last);
    InMore(rest, end);
    assert Normalized(rest);
    LastAdded(rest, end);
  }

  // ----- Iteration is repetition -----

  /** Matches one after the other, each from one position to the next. */
  ghost predicate Repeats(c: Context, e: Expr, path: seq<nat>)
    requires Good(c) && WellFormed(c, e)
  {
    && path != [] && path[|path| - 1] <= c.Length()
    && (|path| > 1 ==> path[0] <= path[1] <= c.Length() && Match(c, e, path[0], path[1]) && Repeats(c, e, path[1..]))
  }

  lemma {:induction false} StarOfRepetition(c: Context, e: Expr, path: seq<nat>)
    requires Good(c) && WellFormed(c, e) && Repeats(c, e, path)
    ensures path[0] <= path[|path| - 1] && MatchStar(c, e, path[0], path[|path| - 1])
    decreases path
  {
    hide Good, Match;
    if |path| > 1 {
      StarOfRepetition(c, e, path[1..]);
    }
  }

  lemma {:induction false} RepetitionOfStar(c: Context, e: Expr, i: nat, j: nat) returns (path: seq<nat>)
    requires Good(c) && WellFormed(c, e) && i <= j <= c.Length() && MatchStar(c, e, i, j)
    ensures Repeats(c, e, path) && path[0] == i && path[|path| - 1] == j
    decreases j - i
  {
    hide Good, Match;
    if i == j {
      path := [i];
    } else {
      var p :| i < p <= j && Match(c, e, i, p) && MatchStar(c, e, p, j);
      path := RepetitionOfStar(c, e, p, j);
      assert ([i] + path)[1..] == path;
      path := [i] + path;
    }
  }
}

/**
 What the check takes to match nothing is what matches nothing, and differences are to it what
 sequences are in which the right operand comes first and may be left out.
 */
module GrammarLaws {
  import opened Grammars
  import opened GrammarSemantics
  import opened GrammarLemmas

  // ----- Matching nothing -----

  predicate NoDifference(e: Expr) {
    match e
    case Seq(items) => NoDifferences(items)
    case Alt(items) => NoDifferences(items)
    case Diff(_, _) => false
    case Opt(e1) => NoDifference(e1)
    case Star(e1) => NoDifference(e1)
    case Plus(e1) => NoDifference(e1)
    case _ => true
  }

  predicate NoDifferences(items: Exprs) {
    items.Nil? || (NoDifference(items.head) && NoDifferences(items.tail))
  }

  ghost predicate Differenceless(c: Context) {
    forall name | name in c.g.rules && !c.IsTokenRule(name) :: NoDifference(c.g.rules[name])
  }

  /** Without differences an expression is found to match nothing exactly if it does, at any position. */
  lemma {:induction false} NullableMatches(c: Context, e: Expr, i: nat)
    requires Good(c) && WellFormed(c, e) && Differenceless(c) && NoDifference(e) && i <= c.Length()
    ensures Match(c, e, i, i) <==> IsNullable(e, Nullable(c.g, c.View()), c.View())
    decreases Below(c, e), Size(e), 0
  {
    hide Good, Below, Reaches;
    if IsNullable(e, Nullable(c.g, c.View()), c.View()) {
      match e
      case Ref(name) =>
        Goodness(c, name);
        BelowRule(c, name);
        NullableBody(c.g, name, c.View());
        NullableMatches(c, c.g.rules[name], i);
        assert MatchRef(c, name, i, i);
      case Lit(text) => assert text <= c.input.chars[i..];
      case Seq(items) => AllNullableMatch(c, items, i);
      case Alt(items) => AnyNullableMatches(c, items, i);
      case Opt(_) =>
      case Star(e1) => assert MatchStar(c, e1, i, i);
      case Plus(e1) =>
        BelowMonotone(c, e1, e);
        NullableMatches(c, e1, i);
        assert Match(c, e1, i, i) && MatchStar(c, e1, i, i);
    }
  }

  lemma Goodness(c: Context, name: Name)
    requires Good(c) && Differenceless(c) && name in Nullable(c.g, c.View()) && !c.IsTokenRule(name)
    ensures name in c.g.rules && WellFormed(c, c.g.rules[name]) && NoDifference(c.g.rules[name])
    ensures !Reaches(c.g, name, name, c.View())
  {
  }

  lemma {:induction false} AllNullableMatch(c: Context, items: Exprs, i: nat)
    requires Good(c) && AllWellFormed(c, items) && Differenceless(c) && NoDifferences(items) && i <= c.Length()
    requires AllNullable(items, Nullable(c.g, c.View()), c.View())
    ensures MatchSeq(c, items, i, i)
    decreases Below(c, Seq(items)), Sizes(items), 1
  {
    hide Good, Below, Match;
    if items.Cons? {
      BelowMonotone(c, items.head, Seq(items));
      BelowTail(c, items);
      NullableMatches(c, items.head, i);
      AllNullableMatch(c, items.tail, i);
      assert Match(c, items.head, i, i) && MatchSeq(c, items.tail, i, i);
    }
  }

  lemma {:induction false} AnyNullableMatches(c: Context, items: Exprs, i: nat)
    requires Good(c) && AllWellFormed(c, items) && Differenceless(c) && NoDifferences(items) && i <= c.Length()
    requires AnyNullable(items, Nullable(c.g, c.View()), c.View())
    ensures MatchAny(c, items, i, i)
    decreases Below(c, Alt(items)), Sizes(items), 1
  {
    hide Good, Below, Match;
    BelowMonotone(c, items.head, Alt(items));
    BelowMonotone(c, Alt(items.tail), Alt(items));
    NullableMatches(c, items.head, i);
    if AnyNullable(items.tail, Nullable(c.g, c.View()), c.View()) {
      AnyNullableMatches(c, items.tail, i);
    }
  }

  /** So of a grammar without differences and empty literals the check finds exactly the rules that match nothing. */
  lemma NullableExactly(c: Context, name: Name, i: nat)
    requires c.input.Text? && Good(c) && Differenceless(c) && RulesSeenAlike(c.g, CHECKED, ON_TEXT) && i <= c.Length()
    requires name in c.g.rules
    ensures name in Nullable(c.g, CHECKED) <==> Match(c, Ref(name), i, i)
  {
    hide Good, Match, IsNullable, Differenceless;
    RoundsAsWell(c.g, |c.g.rules|, CHECKED, ON_TEXT);
    assert forall these: set<Name> :: these - CHECKED.kinds == these;
    NullableMatches(c, Ref(name), i);
    RefNullable(c.g, name);
  }

  lemma RefNullable(g: Grammar, name: Name)
    ensures IsNullable(Ref(name), Nullable(g, ON_TEXT), ON_TEXT) <==> name in Nullable(g, ON_TEXT)
  {
  }

  // ----- Differences -----

  /** Differences are replaced by sequences with the right operand, which may be left out, in front. */
  function Undone(e: Expr): Expr {
    match e
    case Seq(items) => Seq(AllUndone(items))
    case Alt(items) => Alt(AllUndone(items))
    case Diff(left, right) => Seq(Cons(Opt(Undone(right)), Cons(Undone(left), Nil)))
    case Opt(e1) => Opt(Undone(e1))
    case Star(e1) => Star(Undone(e1))
    case Plus(e1) => Plus(Undone(e1))
    case _ => e
  }

  function AllUndone(items: Exprs): Exprs {
    if items.Nil? then Nil else Cons(Undone(items.head), AllUndone(items.tail))
  }

  function WithoutDifferences(g: Grammar): Grammar {
    Grammar(map name | name in g.rules :: Undone(g.rules[name]), g.lexical)
  }

  lemma {:induction false} UndoneSame(e: Expr, nullable: set<Name>, view: View)
    requires view.differences
    ensures IsNullable(Undone(e), nullable, view) == IsNullable(e, nullable, view)
    ensures Leftmost(Undone(e), nullable, view) == Leftmost(e, nullable, view)
    decreases e
  {
    match e
    case Seq(items) => AllUndoneSame(items, nullable, view);
    case Alt(items) => AllUndoneSame(items, nullable, view);
    case Diff(left, right) =>
      UndoneSame(left, nullable, view);
      UndoneSame(right, nullable, view);
      UndoneDiff(Undone(left), Undone(right), nullable, view);
    case Opt(e1) => UndoneSame(e1, nullable, view);
    case Star(e1) => UndoneSame(e1, nullable, view);
    case Plus(e1) => UndoneSame(e1, nullable, view);
    case _ =>
  }

  lemma UndoneDiff(left: Expr, right: Expr, nullable: set<Name>, view: View)
    ensures var items := Cons(Opt(right), Cons(left, Nil));
      && AllNullable(items, nullable, view) == IsNullable(left, nullable, view)
      && LeftmostOfSeq(items, nullable, view) == Leftmost(left, nullable, view) + Leftmost(right, nullable, view)
  {
    var rest := Cons(left, Nil);
    assert LeftmostOfSeq(rest.tail, nullable, view) == {} && AllNullable(rest.tail, nullable, view);
    assert LeftmostOfSeq(rest, nullable, view) == Leftmost(left, nullable, view);
    assert AllNullable(rest, nullable, view) == IsNullable(left, nullable, view);
  }

  lemma {:induction false} AllUndoneSame(items: Exprs, nullable: set<Name>, view: View)
    requires view.differences
    ensures AllNullable(AllUndone(items), nullable, view) == AllNullable(items, nullable, view)
    ensures AnyNullable(AllUndone(items), nullable, view) == AnyNullable(items, nullable, view)
    ensures LeftmostOfSeq(AllUndone(items), nullable, view) == LeftmostOfSeq(items, nullable, view)
    ensures LeftmostOfAny(AllUndone(items), nullable, view) == LeftmostOfAny(items, nullable, view)
    decreases items
  {
    if items.Cons? {
      UndoneSame(items.head, nullable, view);
      AllUndoneSame(items.tail, nullable, view);
    }
  }

  lemma {:induction false} RoundsUndone(g: Grammar, k: nat, view: View)
    requires view.differences
    ensures NullableAfter(WithoutDifferences(g), k, view) == NullableAfter(g, k, view)
  {
    if k > 0 {
      RoundsUndone(g, k - 1, view);
      forall name | name in g.rules
        ensures IsNullable(Undone(g.rules[name]), NullableAfter(g, k - 1, view), view) ==
                IsNullable(g.rules[name], NullableAfter(g, k - 1, view), view)
      {
        UndoneSame(g.rules[name], NullableAfter(g, k - 1, view), view);
      }
    }
  }

  /** The check finds the same rules, and reports the same, if differences are replaced. */
  lemma SameWithoutDifferences(g: Grammar, from: Name, to: Name, view: View)
    requires view.differences
    ensures Nullable(WithoutDifferences(g), view) == Nullable(g, view)
    ensures Reaches(WithoutDifferences(g), from, to, view) <==> Reaches(g, from, to, view)
  {
    hide Leftmost, NullableAfter;
    var g' := WithoutDifferences(g);
    assert g'.rules.Keys == g.rules.Keys && |g'.rules| == |g'.rules.Keys| && |g.rules| == |g.rules.Keys|;
    RoundsUndone(g, |g.rules|, view);
    forall name ensures Next(g', name, view) == Next(g, name, view) {
      if name in g.rules { UndoneSame(g.rules[name], Nullable(g, view), view); }
    }
    if path :| PathFromTo(g, path, from, to, view) {
      forall k | 0 <= k < |path| - 1 ensures path[k + 1] in Next(g', path[k], view) {
        assert path[k + 1] in Next(g, path[k], view);
      }
      assert PathFromTo(g', path, from, to, view);
    }
    if path :| PathFromTo(g', path, from, to, view) {
      forall k | 0 <= k < |path| - 1 ensures path[k + 1] in Next(g, path[k], view) {
        assert path[k + 1] in Next(g', path[k], view);
      }
      assert PathFromTo(g, path, from, to, view);
    }
  }

  // ----- Literals -----

  const SELECTOR := '\U{FE0F}'

  lemma {:induction false} StripConcat(a: string, b: string)
    ensures StripSelectors(a + b) == StripSelectors(a) + StripSelectors(b)
  {
    if a != "" {
      StripConcat(a[1..], b);
      assert (a + b)[1..] == a[1..] + b;
    } else {
      assert a + b == b;
    }
  }

  lemma {:induction false} StripNothing(text: string)
    requires SELECTOR !in text
    ensures StripSelectors(text) == text
  {
    if text != "" { StripNothing(text[1..]); }
  }

  /** The literal may stand for one letter, as which an identifier begins. */
  predicate Abbreviates(literal: string, token: Token) {
    |literal| == 1 && token.kind == "identifier" && token.text != "" && literal[0] == token.text[0]
  }

  /** Variation selectors in tokens make no difference to literals. */
  lemma SelectorsDoNotMatter(literal: string, kind: string, before: string, after: string)
    requires before != "" || kind != "identifier"
    ensures LiteralMatches(literal, Token(kind, before + [SELECTOR] + after)) <==>
            LiteralMatches(literal, Token(kind, before + after))
  {
    StripConcat(before, [SELECTOR] + after);
    StripConcat([SELECTOR], after);
    StripConcat(before, after);
    assert before + [SELECTOR] + after == before + ([SELECTOR] + after);
    assert StripSelectors([SELECTOR]) == "" + StripSelectors([SELECTOR][1..]);
  }

  /** Without selectors a literal matches itself, and what it abbreviates. */
  lemma LiteralMatchesText(literal: string, token: Token)
    requires SELECTOR !in token.text
    ensures LiteralMatches(literal, token) <==> token.text == literal || Abbreviates(literal, token)
  {
    StripNothing(token.text);
  }

  /** On text a literal matches exactly itself. */
  lemma LiteralIsText(c: Context, text: string, i: nat, j: nat)
    requires Good(c) && c.input.Text? && i <= j <= c.Length()
    ensures Match(c, Lit(text), i, j) <==> c.input.chars[i..j] == text
  {
    hide Good;
    if text <= c.input.chars[i..] && j == i + |text| {
      assert c.input.chars[i..][..|text|] == c.input.chars[i..j];
    }
    if c.input.chars[i..j] == text {
      assert c.input.chars[i..][..j - i] == text;
    }
  }

  // ----- Expressions that mean the same -----

  function Two(e: Expr, f: Expr): Exprs {
    Cons(e, Cons(f, Nil))
  }

  lemma SeqMeans(c: Context, items: Exprs, i: nat, j: nat)
    requires Good(c) && AllWellFormed(c, items) && i <= j <= c.Length()
    ensures Match(c, Seq(items), i, j) == MatchSeq(c, items, i, j)
  {
    hide Good;
  }

  lemma SeqOfTwo(c: Context, e: Expr, f: Expr, i: nat, j: nat)
    requires Good(c) && WellFormed(c, e) && WellFormed(c, f) && i <= j <= c.Length()
    ensures AllWellFormed(c, Two(e, f))
    ensures Match(c, Seq(Two(e, f)), i, j) <==> exists p | i <= p <= j :: Match(c, e, i, p) && Match(c, f, p, j)
  {
    hide Good, Match;
    assert AllWellFormed(c, Nil) && AllWellFormed(c, Cons(f, Nil));
    SeqMeans(c, Two(e, f), i, j);
    if MatchSeq(c, Two(e, f), i, j) {
      var p := SeqFirst(c, Two(e, f), i, j);
      LastOfSeq(c, f, p, j);
      assert Match(c, e, i, p) && Match(c, f, p, j);
    }
    if p :| i <= p <= j && Match(c, e, i, p) && Match(c, f, p, j) {
      LastOfSeq(c, f, p, j);
      assert Match(c, Two(e, f).head, i, p) && MatchSeq(c, Two(e, f).tail, p, j);
    }
  }

  lemma LastOfSeq(c: Context, f: Expr, p: nat, j: nat)
    requires Good(c) && WellFormed(c, f) && p <= j <= c.Length()
    ensures AllWellFormed(c, Cons(f, Nil)) && (MatchSeq(c, Cons(f, Nil), p, j) <==> Match(c, f, p, j))
  {
    hide Good, Match;
    var items := Cons(f, Nil);
    assert AllWellFormed(c, Nil) && MatchSeq(c, Nil, j, j);
    if MatchSeq(c, items, p, j) {
      var q := SeqFirst(c, items, p, j);
    }
    if Match(c, f, p, j) {
      assert Match(c, items.head, p, j) && MatchSeq(c, items.tail, j, j);
    }
  }

  lemma AltOfTwo(c: Context, e: Expr, f: Expr, i: nat, j: nat)
    requires Good(c) && WellFormed(c, e) && WellFormed(c, f) && i <= j <= c.Length()
    ensures AllWellFormed(c, Two(e, f))
    ensures Match(c, Alt(Two(e, f)), i, j) <==> Match(c, e, i, j) || Match(c, f, i, j)
  {
    hide Good;
    assert AllWellFormed(c, Cons(f, Nil)) && AllWellFormed(c, Nil);
    assert Match(c, Alt(Two(e, f)), i, j) == MatchAny(c, Two(e, f), i, j);
    assert MatchAny(c, Cons(f, Nil), i, j) == Match(c, f, i, j);
  }

  /** Literals one after the other are one literal. */
  lemma LiteralsJoin(c: Context, a: string, b: string, i: nat, j: nat)
    requires Good(c) && c.input.Text? && i <= j <= c.Length()
    ensures AllWellFormed(c, Two(Lit(a), Lit(b)))
    ensures Match(c, Seq(Two(Lit(a), Lit(b))), i, j) <==> Match(c, Lit(a + b), i, j)
  {
    hide Good, Match;
    SeqOfTwo(c, Lit(a), Lit(b), i, j);
    LiteralIsText(c, a + b, i, j);
    var chars := c.input.chars;
    if p :| i <= p <= j && Match(c, Lit(a), i, p) && Match(c, Lit(b), p, j) {
      LiteralIsText(c, a, i, p);
      LiteralIsText(c, b, p, j);
      assert chars[i..j] == chars[i..p] + chars[p..j];
    }
    if chars[i..j] == a + b {
      var p := i + |a|;
      assert chars[i..j][..|a|] == chars[i..p] && chars[i..j][|a|..] == chars[p..j];
      LiteralIsText(c, a, i, p);
      LiteralIsText(c, b, p, j);
    }
  }

  /** An option is a choice with nothing, and an iteration at least once a match and any number of matches. */
  lemma OptionsAndIterations(c: Context, e: Expr, i: nat, j: nat)
    requires Good(c) && WellFormed(c, e) && i <= j <= c.Length()
    ensures AllWellFormed(c, Two(e, Lit(""))) && AllWellFormed(c, Two(e, Star(e)))
    ensures c.input.Text? ==> (Match(c, Opt(e), i, j) <==> Match(c, Alt(Two(e, Lit(""))), i, j))
    ensures Match(c, Plus(e), i, j) <==> Match(c, Seq(Two(e, Star(e))), i, j)
  {
    hide Good, Match;
    AltOfTwo(c, e, Lit(""), i, j);
    OptMeans(c, e, i, j);
    if c.input.Text? { LiteralIsText(c, "", i, j); }
    SeqOfTwo(c, e, Star(e), i, j);
    if MatchPlus(c, e, i, j) {
      var p := PlusFirst(c, e, i, j);
      OptMeans(c, e, p, j);
      assert Match(c, e, i, p) && Match(c, Star(e), p, j);
    }
    if p :| i <= p <= j && Match(c, e, i, p) && Match(c, Star(e), p, j) {
      OptMeans(c, e, p, j);
      assert MatchPlus(c, e, i, j);
    }
  }

  lemma OptMeans(c: Context, e: Expr, i: nat, j: nat)
    requires Good(c) && WellFormed(c, e) && i <= j <= c.Length()
    ensures Match(c, Opt(e), i, j) == (i == j || Match(c, e, i, j))
    ensures Match(c, Star(e), i, j) == MatchStar(c, e, i, j) && Match(c, Plus(e), i, j) == MatchPlus(c, e, i, j)
  {
    hide Good;
  }

  /** A difference matches nothing that its right operand does, and with it what the left one does. */
  lemma DifferenceExcludes(c: Context, left: Expr, right: Expr, i: nat, j: nat)
    requires Good(c) && WellFormed(c, left) && WellFormed(c, right) && i <= j <= c.Length()
    ensures !(Match(c, Diff(left, right), i, j) && Match(c, right, i, j))
    ensures AllWellFormed(c, Two(Diff(left, right), right)) && AllWellFormed(c, Two(left, right))
    ensures Match(c, Alt(Two(Diff(left, right), right)), i, j) <==> Match(c, Alt(Two(left, right)), i, j)
  {
    hide Good;
    AltOfTwo(c, Diff(left, right), right, i, j);
    AltOfTwo(c, left, right, i, j);
    assert Match(c, Diff(left, right), i, j) == MatchDiff(c, left, right, i, j);
  }

  /** Of a set and its complement exactly one matches a character. */
  lemma ComplementMatches(c: Context, ranges: seq<(int, int)>, i: nat)
    requires Good(c) && c.input.Text? && Normalized(ranges) && i < c.Length()
    ensures Match(c, Set(ranges, true), i, i + 1) <==> !Match(c, Set(ranges, false), i, i + 1)
  {
    hide Good;
  }
}

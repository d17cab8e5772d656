/** What a grammar means: the positions at which a match of an expression can end. */
module GrammarSemantics {
  import opened Wrappers
  import opened Grammars

  datatype Token = Token(kind: string, text: string)

  /** A text that lexical rules match, or tokens; `full` says whether a token's text matches a lexical rule. */
  datatype Input =
    | Text(chars: string)
    | Tokens(tokens: seq<Token>, full: (Name, string) -> bool)

  datatype Context = Context(g: Grammar, input: Input) {
    function Length(): nat {
      if input.Text? then |input.chars| else |input.tokens|
    }
    /** Literals and rules for kinds of tokens consume a token, but an empty literal nothing of a text. */
    function View(): View {
      if input.Text? then ON_TEXT else Grammars.View(false, true, None, g.lexical)
    }
    /** Whether a rule stands for a kind of token. */
    predicate IsTokenRule(name: Name) {
      input.Tokens? && name in g.lexical
    }
  }

  const CHAR := "char"
  const TOKEN := "token"
  const ANY_CHAR := Set([(0, 0x10FFFF)], false)

  function StripSelectors(text: string): string {
    if text == "" then "" else (if text[0] == '\U{FE0F}' then "" else [text[0]]) + StripSelectors(text[1..])
  }

  predicate LiteralMatches(literal: string, token: Token) {
    StripSelectors(token.text) == literal ||
    (|literal| == 1 && token.kind == "identifier" && token.text != "" && token.text[0] == literal[0])
  }

  predicate InRanges(ranges: seq<(int, int)>, c: int) {
    exists k | 0 <= k < |ranges| :: ranges[k].0 <= c <= ranges[k].1
  }

  // ----- Grammars that the matcher can handle -----

  /** Ranges in order that neither touch nor overlap. */
  predicate Normalized(ranges: seq<(int, int)>) {
    && (forall k | 0 <= k < |ranges| :: ranges[k].0 <= ranges[k].1)
    && (forall j, k | 0 <= j < k < |ranges| :: ranges[j].1 < ranges[k].0)
  }

  /** Only refers to rules there are, and uses sets only on text. */
  predicate WellFormed(c: Context, e: Expr) {
    match e
    case Ref(name) => c.IsTokenRule(name) || name in c.g.rules
    case Lit(_) => true
    case Set(ranges, _) => c.input.Text? && Normalized(ranges)
    case Seq(items) => AllWellFormed(c, items)
    case Alt(items) => AllWellFormed(c, items)
    case Diff(left, right) => WellFormed(c, left) && WellFormed(c, right)
    case Opt(e1) => WellFormed(c, e1)
    case Star(e1) => WellFormed(c, e1)
    case Plus(e1) => WellFormed(c, e1)
  }

  predicate AllWellFormed(c: Context, items: Exprs) {
    items.Nil? || (WellFormed(c, items.head) && AllWellFormed(c, items.tail))
  }

  /** All rules that are matched only refer to rules there are. */
  ghost predicate RulesWellFormed(c: Context) {
    forall name | name in c.g.rules && !c.IsTokenRule(name) :: WellFormed(c, c.g.rules[name])
  }

  /** No rule that is matched can get back to itself without having matched anything. */
  ghost predicate Forward(c: Context) {
    forall name | name in c.g.rules && !c.IsTokenRule(name) :: !Reaches(c.g, name, name, c.View())
  }

  /** What all expressions match is defined. */
  ghost predicate Good(c: Context) {
    RulesWellFormed(c) && Forward(c)
  }

  // ----- The measure -----

  function Size(e: Expr): (n: nat)
    ensures n > 0
  {
    match e
    case Seq(items) => 1 + Sizes(items)
    case Alt(items) => 1 + Sizes(items)
    case Diff(left, right) => 1 + Size(left) + Size(right)
    case Opt(e1) => 1 + Size(e1)
    case Star(e1) => 1 + Size(e1)
    case Plus(e1) => 2 + Size(e1)
    case _ => 1
  }

  function Sizes(items: Exprs): nat {
    if items.Nil? then 0 else Size(items.head) + Sizes(items.tail)
  }

  ghost predicate IsBelow(c: Context, from: set<Name>, name: Name) {
    exists r :: r in from && (r == name || Reaches(c.g, r, name, c.View()))
  }

  /** The rules that matching an expression may get to without having matched anything. */
  ghost function Below(c: Context, e: Expr): set<Name> {
    set name | name in c.g.rules && IsBelow(c, Leftmost(e, Nullable(c.g, c.View()), c.View()), name)
  }

  lemma BelowMonotone(c: Context, e: Expr, f: Expr)
    requires Leftmost(e, Nullable(c.g, c.View()), c.View()) <= Leftmost(f, Nullable(c.g, c.View()), c.View())
    ensures Below(c, e) <= Below(c, f)
  {
  }

  lemma BelowTail(c: Context, items: Exprs)
    requires items.Cons?
    ensures IsNullable(items.head, Nullable(c.g, c.View()), c.View()) ==> Below(c, Seq(items.tail)) <= Below(c, Seq(items))
  {
    if IsNullable(items.head, Nullable(c.g, c.View()), c.View()) {
      BelowMonotone(c, Seq(items.tail), Seq(items));
    }
  }

  /** A rule reaches what is below its body. */
  lemma BodyIsBelow(c: Context, name: Name)
    requires name in c.g.rules && !c.IsTokenRule(name)
    ensures name in Below(c, Ref(name))
    ensures forall x | x in Below(c, c.g.rules[name]) :: Reaches(c.g, name, x, c.View()) && x in Below(c, Ref(name))
  {
    var body := c.g.rules[name];
    assert name in Leftmost(Ref(name), Nullable(c.g, c.View()), c.View());
    assert IsBelow(c, Leftmost(Ref(name), Nullable(c.g, c.View()), c.View()), name);
    forall x | x in Below(c, body) ensures Reaches(c.g, name, x, c.View()) && x in Below(c, Ref(name)) {
      var r :| r in Leftmost(body, Nullable(c.g, c.View()), c.View()) && (r == x || Reaches(c.g, r, x, c.View()));
      if r in c.g.rules {
        ReachesNext(c.g, name, r, c.View());
        if r != x { ReachesTrans(c.g, name, r, x, c.View()); }
      } else {
        OnlyRulesReach(c, r, x);
      }
      assert IsBelow(c, Leftmost(Ref(name), Nullable(c.g, c.View()), c.View()), x);
    }
  }

  /** A rule's body is below the rule, and the rule is not below its body. */
  lemma BelowRule(c: Context, name: Name)
    requires name in c.g.rules && !c.IsTokenRule(name) && !Reaches(c.g, name, name, c.View())
    ensures Below(c, c.g.rules[name]) < Below(c, Ref(name)) && name !in Below(c, c.g.rules[name])
  {
    BodyIsBelow(c, name);
  }

  lemma OnlyRulesReach(c: Context, a: Name, b: Name)
    requires Reaches(c.g, a, b, c.View())
    ensures a in c.g.rules
  {
    var path :| PathFromTo(c.g, path, a, b, c.View());
    assert path[0 + 1] in Next(c.g, path[0], c.View());
  }

  // ----- The meaning -----

  predicate LiteralAt(c: Context, text: string, i: nat)
    requires i <= c.Length()
  {
    if c.input.Text? then text <= c.input.chars[i..]
    else i < c.Length() && LiteralMatches(text, c.input.tokens[i])
  }

  predicate TokenAt(c: Context, name: Name, i: nat)
    requires c.IsTokenRule(name)
  {
    i < c.Length() && (name == TOKEN || c.input.full(name, c.input.tokens[i].text))
  }

  /** An expression matches from i to j. A match of nothing takes an expression that may match nothing. */
  ghost predicate Match(c: Context, e: Expr, i: nat, j: nat): (r: bool)
    requires Good(c) && WellFormed(c, e) && i <= j <= c.Length()
    ensures r && i == j ==> IsNullable(e, Nullable(c.g, c.View()), c.View())
    decreases j - i, Below(c, e), Size(e), 0
  {
    match e
    case Ref(name) => MatchRef(c, name, i, j)
    case Lit(text) => LiteralAt(c, text, i) && j == i + (if c.input.Text? then |text| else 1)
    case Set(ranges, negated) => j == i + 1 && InRanges(ranges, c.input.chars[i] as int) != negated
    case Seq(items) => MatchSeq(c, items, i, j)
    case Alt(items) => MatchAny(c, items, i, j)
    case Diff(left, right) => MatchDiff(c, left, right, i, j)
    case Opt(e1) => BelowMonotone(c, e1, e); i == j || Match(c, e1, i, j)
    case Star(e1) => MatchStar(c, e1, i, j)
    case Plus(e1) => MatchPlus(c, e1, i, j)
  }

  ghost predicate MatchRef(c: Context, name: Name, i: nat, j: nat): (r: bool)
    requires Good(c) && WellFormed(c, Ref(name)) && i <= j <= c.Length()
    ensures r && i == j ==> name in Nullable(c.g, c.View())
    decreases j - i, Below(c, Ref(name)), 0, 1
  {
    if c.IsTokenRule(name) then j == i + 1 && TokenAt(c, name, i)
    else
      BelowRule(c, name);
      NullableIsClosed(c.g, c.View());
      Match(c, c.g.rules[name], i, j)
  }

  ghost predicate MatchSeq(c: Context, items: Exprs, i: nat, j: nat): (r: bool)
    requires Good(c) && AllWellFormed(c, items) && i <= j <= c.Length()
    ensures r && i == j ==> AllNullable(items, Nullable(c.g, c.View()), c.View())
    decreases j - i, Below(c, Seq(items)), Sizes(items), 1
  {
    if items.Nil? then i == j
    else
      BelowMonotone(c, items.head, Seq(items));
      BelowTail(c, items);
      exists p | i <= p <= j :: Match(c, items.head, i, p) && MatchSeq(c, items.tail, p, j)
  }

  ghost predicate MatchAny(c: Context, items: Exprs, i: nat, j: nat): (r: bool)
    requires Good(c) && AllWellFormed(c, items) && i <= j <= c.Length()
    ensures r && i == j ==> AnyNullable(items, Nullable(c.g, c.View()), c.View())
    decreases j - i, Below(c, Alt(items)), Sizes(items), 1
  {
    items.Cons? &&
    (BelowMonotone(c, items.head, Alt(items));
     BelowMonotone(c, Alt(items.tail), Alt(items));
     Match(c, items.head, i, j) || MatchAny(c, items.tail, i, j))
  }

  ghost predicate MatchDiff(c: Context, left: Expr, right: Expr, i: nat, j: nat): (r: bool)
    requires Good(c) && WellFormed(c, left) && WellFormed(c, right) && i <= j <= c.Length()
    ensures r && i == j ==> IsNullable(left, Nullable(c.g, c.View()), c.View())
    decreases j - i, Below(c, Diff(left, right)), Size(left) + Size(right), 1
  {
    BelowMonotone(c, left, Diff(left, right));
    BelowMonotone(c, right, Diff(left, right));
    Match(c, left, i, j) && !Match(c, right, i, j)
  }

  /** Any number of matches. A match of nothing adds nothing. */
  ghost predicate MatchStar(c: Context, e: Expr, i: nat, j: nat)
    requires Good(c) && WellFormed(c, e) && i <= j <= c.Length()
    decreases j - i, Below(c, Star(e)), Size(e), 1
  {
    BelowMonotone(c, e, Star(e));
    i == j || exists p | i < p <= j :: Match(c, e, i, p) && MatchStar(c, e, p, j)
  }

  ghost predicate MatchPlus(c: Context, e: Expr, i: nat, j: nat): (r: bool)
    requires Good(c) && WellFormed(c, e) && i <= j <= c.Length()
    ensures r && i == j ==> IsNullable(e, Nullable(c.g, c.View()), c.View())
    decreases j - i, Below(c, Plus(e)), Size(e) + 1, 1
  {
    BelowMonotone(c, e, Plus(e));
    BelowMonotone(c, Star(e), Plus(e));
    exists p | i <= p <= j :: Match(c, e, i, p) && MatchStar(c, e, p, j)
  }
}

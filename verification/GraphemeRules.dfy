/** The grapheme break state machine, and the rules it implements. */
module GraphemeRules {
  type Class = nat

  const START: Class := 0
  const OTHER: Class := 1
  const CR: Class := 2
  const LF: Class := 3
  const CONTROL: Class := 4
  const EXTEND: Class := 5
  const L: Class := 6
  const V: Class := 7
  const T: Class := 8
  const LV: Class := 9
  const LVT: Class := 10
  const INDICATOR: Class := 11
  const SPACINGMARK: Class := 12
  const PREPEND: Class := 13
  const ZWJ: Class := 14
  const PICTOGRAPHIC: Class := 19
  const E_ZWG: Class := 20

  /** The classes that code points have. The others are only states. */
  predicate IsClass(c: Class) {
    c != START && c != E_ZWG
  }

  predicate AllClasses(cs: seq<Class>) {
    forall c | c in cs :: IsClass(c)
  }

  // ----- The state machine -----

  predicate BreakSimple(l: Class, t: Class) {
    if l == START then true
    else if l == CR && t == LF then false
    else if CR <= l <= CONTROL then true
    else if CR <= t <= CONTROL then true
    else if l == L && (t == L || t == V || t == LV || t == LVT) then false
    else if (l == LV || l == V) && (t == V || t == T) then false
    else if (l == LVT || l == T) && t == T then false
    else if t == EXTEND || t == ZWJ || t == SPACINGMARK || l == PREPEND then false
    else if l == E_ZWG && t == PICTOGRAPHIC then false
    else if l == INDICATOR && t == INDICATOR then false
    else true
  }

  function NextState(state: Class, t: Class): Class {
    if state == t && t == INDICATOR then OTHER
    else if state == PICTOGRAPHIC then
      if t == EXTEND then PICTOGRAPHIC else if t == ZWJ then E_ZWG else t
    else t
  }

  /** Whether there is a break between two classes, and the next state. */
  function BreakExtended(l: Class, t: Class, state: Class): (bool, Class) {
    (BreakSimple(if state != START then state else l, t), NextState(state, t))
  }

  /** The state after all classes were folded in, from the start. */
  function StateAfter(cs: seq<Class>): Class {
    if cs == [] then START else NextState(StateAfter(cs[..|cs| - 1]), cs[|cs| - 1])
  }

  // ----- The rules of section 3.1.1 of UAX 29 -----

  /** Rules that look at two code points only. */
  datatype Verdict = Break | Join | Undecided

  function PairRules(l: Class, t: Class): Verdict {
    if l == CR && t == LF then Join                                                // GB3
    else if l in {CR, LF, CONTROL} || t in {CR, LF, CONTROL} then Break            // GB4, GB5
    else if l == L && t in {L, V, LV, LVT} then Join                               // GB6
    else if l in {LV, V} && t in {V, T} then Join                                  // GB7
    else if l in {LVT, T} && t == T then Join                                      // GB8
    else if t in {EXTEND, ZWJ} || t == SPACINGMARK || l == PREPEND then Join       // GB9, GB9a, GB9b
    else Undecided
  }

  /** An emoji and extending code points are the last of these. */
  predicate EndsInEmoji(cs: seq<Class>) {
    cs != [] && (cs[|cs| - 1] == PICTOGRAPHIC || (cs[|cs| - 1] == EXTEND && EndsInEmoji(cs[..|cs| - 1])))
  }

  /** How many regional indicators there are at the end. */
  function Indicators(cs: seq<Class>): nat {
    if cs == [] || cs[|cs| - 1] != INDICATOR then 0 else Indicators(cs[..|cs| - 1]) + 1
  }

  /** Whether there is a boundary between what was before and t. */
  predicate Boundary(before: seq<Class>, t: Class) {
    if before == [] then true                                                                              // GB1
    else
      var l := before[|before| - 1];
      match PairRules(l, t)
      case Break => true
      case Join => false
      case Undecided =>
        && !(t == PICTOGRAPHIC && l == ZWJ && EndsInEmoji(before[..|before| - 1]))                         // GB11
        && !(t == INDICATOR && Indicators(before) % 2 == 1)                                                // GB12, GB13
  }

  /** What the state remembers. */
  lemma {:induction false} StateMeans(cs: seq<Class>)
    requires AllClasses(cs) && cs != []
    ensures var l := cs[|cs| - 1];
      StateAfter(cs) == if l == INDICATOR then (if Indicators(cs) % 2 == 1 then INDICATOR else OTHER)
                        else if EndsInEmoji(cs) then PICTOGRAPHIC
                        else if l == ZWJ && EndsInEmoji(cs[..|cs| - 1]) then E_ZWG
                        else l
    decreases |cs|
  {
    var rest := cs[..|cs| - 1];
    if rest != [] {
      StateMeans(rest);
      assert IsClass(cs[|cs| - 1]) && IsClass(rest[|rest| - 1]);
    }
  }

  /** Folded over every code point from the start, the machine breaks exactly where the rules do. */
  lemma FoldedBreaksAreBoundaries(before: seq<Class>, t: Class)
    requires AllClasses(before) && IsClass(t)
    ensures var state := StateAfter(before);
      && BreakExtended(state, t, state) == (Boundary(before, t), StateAfter(before + [t]))
  {
    assert (before + [t])[..|before|] == before;
    if before != [] {
      StateMeans(before);
      assert IsClass(before[|before| - 1]);
    }
  }

  // ----- How strings are divided -----

  /** Strings start without a state, and do not fold the first code point in. */
  predicate StringBreak(cs: seq<Class>, k: nat)
    requires 0 < k < |cs|
  {
    BreakExtended(cs[k - 1], cs[k], StateAfter(cs[1..k])).0
  }

  lemma StringBreakIs(cs: seq<Class>, k: nat)
    requires AllClasses(cs) && 0 < k < |cs|
    ensures StringBreak(cs, k) <==> Boundary(if k == 1 then cs[..1] else cs[1..k], cs[k])
  {
    assert IsClass(cs[k]) && IsClass(cs[k - 1]);
    if k == 1 {
      FoldedBreaksAreBoundaries(cs[..1], cs[1]);
      assert StateAfter(cs[..1]) == cs[0] by { assert cs[..1][..0] == []; }
      assert cs[1..1] == [];
    } else {
      assert forall c | c in cs[1..k] :: c in cs;
      FoldedBreaksAreBoundaries(cs[1..k], cs[k]);
      StateMeans(cs[1..k]);
    }
  }

  /** Three regional indicators, or an emoji joined to an emoji, are the first code points. */
  predicate StartsJoined(cs: seq<Class>) {
    || (|cs| > 2 && cs[0] == cs[1] == cs[2] == INDICATOR)
    || (exists k | 1 < k < |cs| :: EmojiJoin(cs, k))
  }

  predicate EmojiJoin(cs: seq<Class>, k: nat)
    requires 1 < k < |cs|
  {
    cs[0] == PICTOGRAPHIC && cs[k] == PICTOGRAPHIC && cs[k - 1] == ZWJ && forall j | 0 < j < k - 1 :: cs[j] == EXTEND
  }

  predicate AllIndicators(cs: seq<Class>) {
    forall j | 0 <= j < |cs| :: cs[j] == INDICATOR
  }

  lemma {:induction false} CountIndicators(cs: seq<Class>)
    ensures Indicators(cs) <= |cs| && (Indicators(cs) == |cs| <==> AllIndicators(cs))
    decreases |cs|
  {
    if cs != [] {
      CountIndicators(cs[..|cs| - 1]);
      assert AllIndicators(cs) <==> AllIndicators(cs[..|cs| - 1]) && cs[|cs| - 1] == INDICATOR;
    }
  }

  /** Without the first code point, there is one indicator less if all are indicators. */
  lemma {:induction false} IndicatorsWithoutFirst(cs: seq<Class>)
    requires cs != []
    ensures Indicators(cs[1..]) == if AllIndicators(cs) then Indicators(cs) - 1 else Indicators(cs)
    decreases |cs|
  {
    CountIndicators(cs);
    if |cs| > 1 {
      IndicatorsWithoutFirst(cs[..|cs| - 1]);
      CountIndicators(cs[..|cs| - 1]);
      assert cs[1..][..|cs| - 2] == cs[..|cs| - 1][1..];
    } else {
      assert cs[..0] == [];
    }
  }

  predicate AllExtend(cs: seq<Class>) {
    forall j | 0 <= j < |cs| :: cs[j] == EXTEND
  }

  /** Without the first code point, an emoji at the end is missed exactly if it is the first. */
  lemma {:induction false} EmojiWithoutFirst(cs: seq<Class>)
    requires cs != []
    ensures EndsInEmoji(cs) != EndsInEmoji(cs[1..]) <==> cs[0] == PICTOGRAPHIC && AllExtend(cs[1..])
    ensures AllExtend(cs[1..]) ==> !EndsInEmoji(cs[1..])
    decreases |cs|
  {
    if |cs| > 1 {
      var last := cs[|cs| - 1];
      EmojiWithoutFirst(cs[..|cs| - 1]);
      assert cs[1..][..|cs| - 2] == cs[..|cs| - 1][1..];
      assert AllExtend(cs[1..]) <==> AllExtend(cs[..|cs| - 1][1..]) && cs[1..][|cs| - 2] == EXTEND;
    }
  }

  lemma MoreIndicators(cs: seq<Class>, c: Class)
    ensures AllIndicators(cs + [c]) <==> AllIndicators(cs) && c == INDICATOR
  {
    assert (cs + [c])[|cs|] == c && forall j | 0 <= j < |cs| :: (cs + [c])[j] == cs[j];
  }

  /** A break in a string is missing or added only where the first code point would have mattered. */
  lemma StringBreakDiffers(cs: seq<Class>, k: nat)
    requires AllClasses(cs) && 0 < k < |cs|
    ensures StringBreak(cs, k) != Boundary(cs[..k], cs[k]) <==>
            k > 1 && (AllIndicators(cs[..k + 1]) || EmojiJoin(cs, k))
  {
    hide StringBreak, PairRules;
    StringBreakIs(cs, k);
    if k > 1 {
      var (before, late, t) := (cs[..k], cs[1..k], cs[k]);
      assert before[1..] == late && before[..k - 1] == cs[..k - 1] && late[..k - 2] == cs[..k - 1][1..];
      assert late[k - 2] == before[k - 1];
      IndicatorsWithoutFirst(before);
      EmojiWithoutFirst(cs[..k - 1]);
      CountIndicators(before);
      assert cs[..k + 1] == before + [t];
      MoreIndicators(before, t);
      assert AllIndicators(before) ==> before[k - 1] == INDICATOR;
      JoinIs(cs, k);
      UndecidedPairs(before[k - 1], t);
    }
  }

  lemma JoinIs(cs: seq<Class>, k: nat)
    requires 1 < k < |cs|
    ensures EmojiJoin(cs, k) <==>
            cs[k] == PICTOGRAPHIC && cs[k - 1] == ZWJ && cs[..k - 1][0] == PICTOGRAPHIC && AllExtend(cs[..k - 1][1..])
  {
    var mid := cs[..k - 1][1..];
    assert forall j | 0 < j < k - 1 :: cs[j] == mid[j - 1];
    assert forall j | 0 <= j < |mid| :: mid[j] == cs[j + 1];
  }

  lemma UndecidedPairs(l: Class, t: Class)
    ensures l == t == INDICATOR || (l == ZWJ && t == PICTOGRAPHIC) ==> PairRules(l, t) == Undecided
  {
  }

  lemma FirstIndicators(cs: seq<Class>, k: nat)
    requires k < |cs|
    ensures k > 1 && AllIndicators(cs[..k + 1]) ==> cs[0] == cs[1] == cs[2] == INDICATOR
  {
    assert k > 1 ==> cs[..k + 1][0] == cs[0] && cs[..k + 1][1] == cs[1] && cs[..k + 1][2] == cs[2];
  }

  predicate BreaksRight(cs: seq<Class>, k: nat)
    requires 0 < k < |cs|
  {
    StringBreak(cs, k) == Boundary(cs[..k], cs[k])
  }

  /** Strings are divided as the rules say exactly if they do not start like that. */
  lemma StringBreaksAreBoundaries(cs: seq<Class>)
    requires AllClasses(cs)
    ensures (forall k | 0 < k < |cs| :: BreaksRight(cs, k)) <==> !StartsJoined(cs)
  {
    hide StringBreak, Boundary, EmojiJoin;
    if StartsJoined(cs) {
      if cs[0] == cs[1] == cs[2] == INDICATOR {
        assert AllIndicators(cs[..2 + 1]);
        StringBreakDiffers(cs, 2);
        assert !BreaksRight(cs, 2);
      } else {
        var k :| 1 < k < |cs| && EmojiJoin(cs, k);
        StringBreakDiffers(cs, k);
        assert !BreaksRight(cs, k);
      }
    } else {
      forall k | 0 < k < |cs| ensures BreaksRight(cs, k) {
        StringBreakDiffers(cs, k);
        FirstIndicators(cs, k);
      }
    }
  }
}

/** Sets of positions: some points, plus everything from a position on. */
module EndSets {
  import opened Wrappers

  datatype Ends = Ends(points: set<nat>, lo: Option<nat>)

  const NO_ENDS := Ends({}, None)

  function Interval(lo: nat, hi: int): (r: set<nat>)
    ensures forall j: nat :: j in r <==> lo <= j <= hi
    decreases hi - lo
  {
    if lo > hi then {} else {lo} + Interval(lo + 1, hi)
  }

  function UpTo(n: nat): set<nat> {
    Interval(0, n)
  }

  function From(lo: Option<nat>, n: nat): set<nat> {
    if lo.None? then {} else Interval(lo.value, n)
  }

  /** The positions in an input of length n that a representation stands for. */
  function Positions(e: Ends, n: nat): set<nat> {
    e.points + From(e.lo, n)
  }

  /** Points are before everything else, and nothing is behind the end. */
  predicate Normal(e: Ends, n: nat) {
    && (e.lo.Some? ==> e.lo.value <= n)
    && forall p | p in e.points :: p <= n && (e.lo.Some? ==> p < e.lo.value)
  }

  function Earliest(a: Option<nat>, b: Option<nat>): Option<nat> {
    if b.None? then a else if a.None? then b else Some(if a.value <= b.value then a.value else b.value)
  }

  function Cut(points: set<nat>, lo: Option<nat>): set<nat> {
    if lo.None? then points else set p | p in points && p < lo.value
  }

  lemma CutPositions(points: set<nat>, lo: Option<nat>, n: nat)
    requires points <= UpTo(n) && (lo.Some? ==> lo.value <= n)
    ensures Normal(Ends(Cut(points, lo), lo), n) && Positions(Ends(Cut(points, lo), lo), n) == points + From(lo, n)
  {
  }

  lemma EarliestFrom(a: Option<nat>, b: Option<nat>, n: nat)
    ensures From(Earliest(a, b), n) == From(a, n) + From(b, n)
  {
  }

  function Union(a: Ends, b: Ends): Ends {
    var lo := Earliest(a.lo, b.lo);
    Ends(Cut(a.points + b.points, lo), lo)
  }

  /** The union stands for the union of the positions. */
  lemma UnionPositions(a: Ends, b: Ends, n: nat)
    requires Normal(a, n) && Normal(b, n)
    ensures Normal(Union(a, b), n) && Positions(Union(a, b), n) == Positions(a, n) + Positions(b, n)
  {
    EarliestFrom(a.lo, b.lo, n);
    CutPositions(a.points + b.points, Earliest(a.lo, b.lo), n);
  }

  function PositionsOfAll(all: seq<Ends>, n: nat): set<nat> {
    if all == [] then {} else PositionsOfAll(all[..|all| - 1], n) + Positions(all[|all| - 1], n)
  }

  predicate AllNormal(all: seq<Ends>, n: nat) {
    forall e | e in all :: Normal(e, n)
  }

  method Gather(all: seq<Ends>, ghost n: nat) returns (r: Ends)
    requires AllNormal(all, n)
    ensures Normal(r, n) && Positions(r, n) == PositionsOfAll(all, n)
  {
    var points: set<nat> := {};
    var lo: Option<nat> := None;
    for k := 0 to |all|
      invariant points <= UpTo(n) && (lo.Some? ==> lo.value <= n)
      invariant points + From(lo, n) == PositionsOfAll(all[..k], n)
    {
      assert all[..k + 1][..k] == all[..k] && Normal(all[k], n);
      EarliestFrom(lo, all[k].lo, n);
      points := points + all[k].points;
      lo := Earliest(lo, all[k].lo);
    }
    assert all[..|all|] == all;
    CutPositions(points, lo, n);
    r := Ends(Cut(points, lo), lo);
  }

  /** Whether a position within the input is one of the positions. */
  predicate Contains(e: Ends, j: nat) {
    j in e.points || (e.lo.Some? && j >= e.lo.value)
  }

  lemma ContainsPosition(e: Ends, j: nat, n: nat)
    requires j <= n
    ensures Contains(e, j) <==> j in Positions(e, n)
  {
  }

  /** Only one representation stands for no position. */
  lemma EmptyIsNoEnds(e: Ends, n: nat)
    requires Normal(e, n)
    ensures Positions(e, n) == {} <==> e == NO_ENDS
  {
    if e.lo.Some? {
      assert e.lo.value in Positions(e, n);
    }
  }

  /** The last position, if there is one. */
  method Last(e: Ends, n: nat) returns (r: Option<nat>)
    requires Normal(e, n)
    ensures r.None? <==> Positions(e, n) == {}
    ensures r.Some? ==> r.value in Positions(e, n) && forall j | j in Positions(e, n) :: j <= r.value
  {
    if e.lo.Some? {
      assert e.lo.value in Positions(e, n);
      return Some(n);
    }
    r := None;
    var rest := e.points;
    while rest != {}
      invariant rest <= e.points
      invariant r.None? <==> rest == e.points
      invariant r.Some? ==> r.value in e.points && forall j | j in e.points && j !in rest :: j <= r.value
      decreases rest
    {
      var p :| p in rest;
      if r.None? || p > r.value {
        r := Some(p);
      }
      rest := rest - {p};
    }
  }
}

/**
 How the language server schedules checks and defers requests: a request about a package whose
 check is pending is answered after the check.
 */
module Scheduling {
  import opened Wrappers

  type Path = string
  /** The main file of a package; empty if there is none. */
  type Root = string
  type Time = int

  const CHECK_DELAY := 250

  /** A request that may wait for a check: for semantic tokens or document symbols. */
  datatype Request = Request(id: nat, path: Path)

  /** What the server learns from the outside while it handles one message. */
  datatype World = World(
    now: Time,
    rootOf: Path -> Root,                  // the root file of an open document
    check: Root -> Option<set<Path>>,      // the files of the package, unless the check fails
    publishFails: Root -> bool)            // whether removing the diagnostics of a dropped root fails

  // ----- The requests that wait -----

  ghost function Waiting(deferred: map<Root, seq<Request>>): multiset<Request> {
    if deferred == map[] then multiset{}
    else
      var root :| root in deferred;
      multiset(deferred[root]) + Waiting(deferred - {root})
  }

  lemma {:induction false} WaitingFor(deferred: map<Root, seq<Request>>, root: Root)
    requires root in deferred
    ensures Waiting(deferred) == multiset(deferred[root]) + Waiting(deferred - {root})
    decreases |deferred|
  {
    var first :| first in deferred && Waiting(deferred) == multiset(deferred[first]) + Waiting(deferred - {first});
    if first != root {
      var rest := deferred - {first};
      WaitingFor(rest, root);
      assert rest - {root} == (deferred - {root}) - {first};
      WaitingFor(deferred - {root}, first);
    }
  }

  lemma WaitingMore(deferred: map<Root, seq<Request>>, root: Root, request: Request)
    ensures var before := if root in deferred then deferred[root] else [];
      Waiting(deferred[root := before + [request]]) == Waiting(deferred) + multiset{request}
  {
    hide Waiting;
    var before := if root in deferred then deferred[root] else [];
    var more := deferred[root := before + [request]];
    WaitingFor(more, root);
    assert multiset(before + [request]) == multiset(before) + multiset{request};
    assert more - {root} == deferred - {root};
    if root in deferred {
      WaitingFor(deferred, root);
    } else {
      assert deferred - {root} == deferred;
    }
  }

  /** If the root of a document changed, the old one is remembered and the new one scheduled. */
  predicate Moved(before: map<Path, Root>, after: map<Path, Root>, path: Path, previous: set<Root>,
                  scheduled: map<Root, Time>, now: Time)
    requires path in after
  {
    var root := if path in before then before[path] else "";
    root != after[path] ==>
      (root != "" ==> root in previous) && (after[path] != "" ==> after[path] in scheduled && scheduled[after[path]] <= now)
  }

  lemma MovedOnly(r1: map<Path, Root>, before: map<Path, Root>, after: map<Path, Root>, path: Path, left: set<Root>,
                  previous: set<Root>, scheduled: map<Root, Time>, now: Time)
    requires path in after && (path in r1 <==> path in before) && (path in r1 ==> r1[path] == before[path]) && left <= previous
    requires Moved(r1, after, path, left, scheduled, now)
    ensures Moved(before, after, path, previous, scheduled, now)
  {
  }

  lemma MovedStays(before: map<Path, Root>, r1: map<Path, Root>, r2: map<Path, Root>, path: Path, left1: set<Root>,
                   left2: set<Root>, s1: map<Root, Time>, s2: map<Root, Time>, now: Time)
    requires path in r1 && path in r2 && r1[path] == r2[path] && left1 <= left2
    requires forall root | root in s1 :: root in s2 && s2[root] <= s1[root]
    requires Moved(before, r1, path, left1, s1, now)
    ensures Moved(before, r2, path, left2, s2, now)
  {
  }

  /** The document has left a root. */
  predicate Left(before: map<Path, Root>, after: map<Path, Root>, path: Path) {
    path in before && path in after && before[path] != "" && before[path] != after[path]
  }

  /** Some document left the root. */
  ghost predicate WasLeft(before: map<Path, Root>, after: map<Path, Root>, root: Root) {
    exists path :: Left(before, after, path) && before[path] == root
  }

  lemma WasLeftMore(before: map<Path, Root>, r1: map<Path, Root>, r2: map<Path, Root>, path: Path, root: Root)
    requires path in r2 && forall other | other in r1 :: other in r2 && r2[other] == r1[other]
    requires WasLeft(before, r1, root) || (path in before && root == before[path] && root !in {"", r2[path]})
    ensures WasLeft(before, r2, root)
  {
    if WasLeft(before, r1, root) {
      var other :| Left(before, r1, other) && before[other] == root;
      assert Left(before, r2, other);
    } else {
      assert Left(before, r2, path);
    }
  }

  lemma UndroppableIs(before: map<Path, Root>, after: map<Path, Root>, world: World, left: set<Root>, root: Root)
    requires root in left && WasLeft(before, after, root) && root !in after.Values && world.publishFails(root)
    ensures root in Undroppable(before, after, world)
  {
  }

  lemma NoneUndroppable(before: map<Path, Root>, after: map<Path, Root>, world: World, left: set<Root>)
    requires forall path | Left(before, after, path) :: before[path] in left
    requires forall root | root in left :: root in after.Values || !world.publishFails(root)
    ensures Undroppable(before, after, world) == {}
  {
  }

  function Assigned(documents: set<Path>, world: World): map<Path, Root> {
    map path | path in documents :: world.rootOf(path)
  }

  /** The roots that a document left, no document belongs to, and whose diagnostics cannot be removed. */
  function Undroppable(before: map<Path, Root>, after: map<Path, Root>, world: World): set<Root> {
    set path | path in before && Left(before, after, path) && before[path] !in after.Values &&
               world.publishFails(before[path]) :: before[path]
  }

  /** Those that a message has to drop. It fails exactly if there is one. */
  function MustDrop(message: Message, roots: map<Path, Root>, world: World): set<Root> {
    match message
    case Opened(path) => if path == "" then {} else Undroppable(roots, Assigned(roots.Keys + {path}, world), world)
    case Changed(path, includesChanged) =>
      if path in roots && includesChanged then Undroppable(roots, Assigned(roots.Keys, world), world) else {}
    case Saved(path) => if path in roots then Undroppable(roots, Assigned(roots.Keys, world), world) else {}
    case Closed(path) =>
      var (root, rest) := (if path in roots then roots[path] else "", roots - {path});
      var after := Assigned(rest.Keys, world);
      Undroppable(rest, after, world) + (if root !in after.Values && world.publishFails(root) then {root} else {})
    case _ => {}
  }

  /** Closing a document fails if the roots cannot be updated, and otherwise if its own root cannot be dropped. */
  lemma ClosedFails(path: Path, roots: map<Path, Root>, world: World, updated: Option<Root>)
    requires FailsFor(updated, Undroppable(roots - {path}, Assigned((roots - {path}).Keys, world), world))
    ensures updated.Some? ==> FailsFor(updated, MustDrop(Closed(path), roots, world))
    ensures updated.None? ==>
              var root := if path in roots then roots[path] else "";
              var open := root in Assigned((roots - {path}).Keys, world).Values;
              FailsFor(if open || !world.publishFails(root) then None else Some(root), MustDrop(Closed(path), roots, world))
  {
    hide Undroppable, Assigned;
  }

  predicate FailsFor(failed: Option<Root>, roots: set<Root>) {
    if failed.Some? then failed.value in roots else roots == {}
  }

  /** Only roots that waited before, and were not answered, or are scheduled and open have waiting requests. */
  predicate WaitOnlyFor(now: map<Root, seq<Request>>, before: map<Root, seq<Request>>, done: set<Root>, pending: set<Root>) {
    forall root | root in now :: (root in before && root !in done) || root in pending
  }

  lemma WaitOnlyForTrans(now: map<Root, seq<Request>>, earlier: map<Root, seq<Request>>, before: map<Root, seq<Request>>,
                         done: set<Root>, pendingBefore: set<Root>, pending: set<Root>)
    requires WaitOnlyFor(now, earlier, {}, pending) && WaitOnlyFor(earlier, before, done, pendingBefore)
    requires pendingBefore <= pending
    ensures WaitOnlyFor(now, before, done, pending)
  {
  }

  lemma WaitedBefore(now: map<Root, seq<Request>>, before: map<Root, seq<Request>>, pending: set<Root>, root: Root)
    requires WaitOnlyFor(now, before, {}, pending) && root in now && root !in pending
    ensures root in before
  {
  }

  lemma AllWait(deferred: map<Root, seq<Request>>, scheduled: set<Root>)
    ensures WaitOnlyFor(deferred, deferred, {}, scheduled)
  {
  }

  lemma NoneLeft(deferred: map<Root, seq<Request>>, root: Root, scheduled: set<Root>)
    ensures WaitOnlyFor(deferred - {root}, deferred, {root}, scheduled)
    ensures root !in deferred ==> WaitOnlyFor(deferred, deferred, {root}, scheduled)
  {
  }

  /** No other root has waiting requests without being scheduled than before, but for those that are lost. */
  predicate ForgetsOnly(deferred: map<Root, seq<Request>>, scheduled: map<Root, Time>, before: map<Root, seq<Request>>,
                        scheduledBefore: map<Root, Time>, lost: set<Root>) {
    forall root | root in deferred && root !in scheduled :: (root in before && root !in scheduledBefore) || root in lost
  }

  lemma ForgetsNothing(deferred: map<Root, seq<Request>>, scheduled: map<Root, Time>)
    ensures ForgetsOnly(deferred, scheduled, deferred, scheduled, {})
  {
  }

  lemma ForgetsTrans(d0: map<Root, seq<Request>>, s0: map<Root, Time>, d1: map<Root, seq<Request>>, s1: map<Root, Time>,
                     d2: map<Root, seq<Request>>, s2: map<Root, Time>, lost: set<Root>)
    requires ForgetsOnly(d1, s1, d0, s0, {}) && ForgetsOnly(d2, s2, d1, s1, lost)
    ensures ForgetsOnly(d2, s2, d0, s0, lost)
  {
  }

  /** A message that failed to drop a root loses what waits for it. */
  function Lost(failed: Option<Root>, deferred: map<Root, seq<Request>>): set<Root> {
    if failed.Some? && failed.value in deferred then {failed.value} else {}
  }

  lemma LostWaits(failed: Option<Root>, deferred: map<Root, seq<Request>>, scheduled: map<Root, Time>)
    ensures failed.None? ==> Lost(failed, deferred) == {}
    ensures (failed.Some? ==> failed.value !in scheduled) ==>
            forall root | root in Lost(failed, deferred) :: root in deferred && root !in scheduled
  {
  }

  /** After a step that lost nothing another one loses what waited before both. */
  lemma LostAtLast(d0: map<Root, seq<Request>>, s0: map<Root, Time>, d1: map<Root, seq<Request>>, s1: map<Root, Time>,
                   p1: set<Root>, d2: map<Root, seq<Request>>, s2: map<Root, Time>, p2: set<Root>, failed: Option<Root>)
    requires WaitOnlyFor(d1, d0, {}, p1) && WaitOnlyFor(d2, d1, {}, p2) && p1 <= p2 <= s2.Keys
    requires ForgetsOnly(d1, s1, d0, s0, {}) && ForgetsOnly(d2, s2, d1, s1, Lost(failed, d2))
    requires failed.Some? ==> failed.value !in s2
    ensures ForgetsOnly(d2, s2, d0, s0, Lost(failed, d2)) && (failed.Some? && failed.value in d2 ==> failed.value in d0)
    ensures forall root | root in Lost(failed, d2) :: root in d2 && root !in s2
  {
  }

  datatype Message =
    | Opened(path: Path)
    | Changed(path: Path, includesChanged: bool)
    | Saved(path: Path)
    | Closed(path: Path)
    | Deferrable(request: Request)
    | AtPosition(request: Request, wellFormed: bool, checkPending: bool)
    | Timeout

  function Requests(message: Message): multiset<Request> {
    match message
    case Deferrable(request) => multiset{request}
    case AtPosition(request, _, _) => multiset{request}
    case _ => multiset{}
  }

  function AllRequests(messages: seq<(Message, World)>): multiset<Request> {
    if messages == [] then multiset{} else AllRequests(messages[..|messages| - 1]) + Requests(messages[|messages| - 1].0)
  }

  lemma NoRequests()
    ensures AllRequests([]) == multiset{}
  {
  }

  lemma MoreRequests(messages: seq<(Message, World)>, k: nat)
    requires k < |messages|
    ensures AllRequests(messages[..k + 1]) == AllRequests(messages[..k]) + Requests(messages[k].0)
  {
    assert messages[..k + 1][..k] == messages[..k];
  }

  // ----- What is planned -----

  /** What decides about checks: the roots of open documents, when checks are due, and what is known of packages. */
  datatype Plan = Plan(roots: map<Path, Root>, scheduled: map<Root, Time>, analyses: map<Root, set<Path>>) {
    function Schedule(these: set<Root>, time: Time): Plan {
      this.(scheduled := Sooner(scheduled, these, time))
    }

    function Drop(these: set<Root>): Plan {
      this.(scheduled := scheduled - these, analyses := analyses - these)
    }

    /** Checks that are run are not due anymore. One that fails leaves what was known before. */
    function Check(these: set<Root>, world: World): Plan {
      this.(scheduled := scheduled - these, analyses := Checked(analyses, these, world))
    }

    /** The documents have other roots: the new ones are due, and those that were left, or they are dropped. */
    function Update(documents: set<Path>, world: World): Plan {
      var after := Assigned(documents, world);
      Plan(after, scheduled, analyses).Schedule(Changes(roots, after), world.now).Leave(LeftRoots(roots, after), world.now)
    }

    /** Roots that documents left are due if others belong to them, and dropped otherwise. */
    function Leave(left: set<Root>, time: Time): Plan {
      Schedule(left * roots.Values, time).Drop(left - roots.Values)
    }

    /** Nothing is forgotten of packages with open documents, and nothing is due at any other time than before or now. */
    predicate Spares(before: Plan, now: Time) {
      && (forall root | root in roots.Values && root in before.analyses ::
            root in analyses && analyses[root] == before.analyses[root])
      && (forall root | root in roots.Values && root in before.scheduled ::
            root in scheduled && scheduled[root] <= before.scheduled[root])
      && forall root | root in scheduled ::
           scheduled[root] == now || (root in before.scheduled && scheduled[root] == before.scheduled[root])
    }

    /** The package of a file, and all open packages that contain it. */
    function Containing(path: Path): set<Root>
      requires path in roots
    {
      {roots[path]} + set root | root in analyses && path in analyses[root] && root in roots.Values
    }

    /** What a message that does not fail makes of it. */
    function Next(message: Message, world: World): Plan {
      match message
      case Opened(path) =>
        if path == "" then this else Update(roots.Keys + {path}, world).Schedule({world.rootOf(path)}, world.now)
      case Changed(path, includesChanged) =>
        if path !in roots then this
        else
          var plan := if includesChanged then Update(roots.Keys, world) else this;
          plan.Schedule(plan.Containing(path), world.now + CHECK_DELAY)
      case Saved(path) =>
        if path !in roots then this
        else
          var plan := Update(roots.Keys, world);
          plan.Schedule(plan.Containing(path), world.now)
      case Closed(path) =>
        var root := if path in roots then roots[path] else "";
        var plan := this.(roots := roots - {path}).Update(roots.Keys - {path}, world);
        if root in plan.roots.Values then plan.Schedule({root}, world.now) else plan.Drop({root})
      case Deferrable(_) => this
      case AtPosition(request, wellFormed, checkPending) =>
        if wellFormed && checkPending && request.path in roots && roots[request.path] in scheduled
        then Check({roots[request.path]}, world)
        else this
      case Timeout => Check((set root | root in scheduled && scheduled[root] <= world.now), world)
    }
  }

  /** The roots are due at the time, unless they are due before; there is no check of nothing. */
  function Sooner(scheduled: map<Root, Time>, these: set<Root>, time: Time): map<Root, Time> {
    map root | root in scheduled.Keys + (these - {""}) ::
      if root in scheduled && (root !in these || root == "" || scheduled[root] < time) then scheduled[root] else time
  }

  function Checked(analyses: map<Root, set<Path>>, these: set<Root>, world: World): map<Root, set<Path>> {
    map root | root in analyses.Keys + these && (root in analyses || world.check(root).Some?) ::
      if root in these && world.check(root).Some? then world.check(root).value else analyses[root]
  }

  /** The roots of documents that belong to another root than before. */
  function Changes(before: map<Path, Root>, after: map<Path, Root>): set<Root> {
    set path | path in after && (path !in before || before[path] != after[path]) :: after[path]
  }

  function LeftRoots(before: map<Path, Root>, after: map<Path, Root>): set<Root> {
    set path | path in before && Left(before, after, path) :: before[path]
  }

  lemma SoonerMore(scheduled: map<Root, Time>, these: set<Root>, those: set<Root>, time: Time)
    ensures Sooner(Sooner(scheduled, these, time), those, time) == Sooner(scheduled, these + those, time)
  {
  }

  lemma CheckedMore(analyses: map<Root, set<Path>>, these: set<Root>, those: set<Root>, world: World)
    ensures Checked(Checked(analyses, these, world), those, world) == Checked(analyses, these + those, world)
    ensures Checked(analyses, {}, world) == analyses
  {
  }

  lemma LeaveMore(plan: Plan, left: set<Root>, root: Root, time: Time)
    ensures plan.Leave(left + {root}, time) ==
            if root in plan.roots.Values then plan.Leave(left, time).Schedule({root}, time) else plan.Leave(left, time).Drop({root})
  {
    hide Sooner;
    var (all, open) := (left + {root}, plan.roots.Values);
    if root in open {
      assert all * open == left * open + {root} && all - open == left - open;
      SoonerMore(plan.scheduled, left * open, {root}, time);
      SoonerDrop(Sooner(plan.scheduled, left * open, time), {root}, left - open, time);
    } else {
      assert all * open == left * open && all - open == left - open + {root};
      DropMore(plan.Schedule(left * open, time), left - open, {root});
    }
  }

  lemma LeaveNone(plan: Plan, time: Time)
    ensures plan.Leave({}, time) == plan
  {
    SoonerNone(plan.scheduled, time);
    assert {} * plan.roots.Values == {} && {} - plan.roots.Values == {};
    assert plan.Drop({}) == plan;
  }

  lemma DropMore(plan: Plan, these: set<Root>, those: set<Root>)
    ensures plan.Drop(these + those) == plan.Drop(these).Drop(those)
  {
  }

  lemma SoonerDrop(scheduled: map<Root, Time>, these: set<Root>, dropped: set<Root>, time: Time)
    requires these !! dropped
    ensures Sooner(scheduled, these, time) - dropped == Sooner(scheduled - dropped, these, time)
  {
  }

  lemma LeaveSpares(before: Plan, after: map<Path, Root>, these: set<Root>, left: set<Root>, time: Time)
    ensures Plan(after, before.scheduled, before.analyses).Schedule(these, time).Leave(left, time).Spares(before, time)
  {
  }

  lemma OpenedNext(plan: Plan, path: Path, world: World)
    ensures path == "" ==> plan.Next(Opened(path), world) == plan
    ensures path != "" ==> plan.Next(Opened(path), world) ==
                           plan.Update(plan.roots.Keys + {path}, world).Schedule({world.rootOf(path)}, world.now)
  {
  }

  lemma SavedNext(plan: Plan, path: Path, world: World)
    ensures path !in plan.roots ==> plan.Next(Saved(path), world) == plan
    ensures var updated := plan.Update(plan.roots.Keys, world);
      path in plan.roots ==>
        plan.Next(Saved(path), world) == updated.Schedule(updated.Containing(path), world.now)
  {
  }

  lemma ChangedNext(plan: Plan, path: Path, includesChanged: bool, world: World)
    ensures path !in plan.roots ==> plan.Next(Changed(path, includesChanged), world) == plan
    ensures var updated := if includesChanged then plan.Update(plan.roots.Keys, world) else plan;
      path in plan.roots ==>
        plan.Next(Changed(path, includesChanged), world) == updated.Schedule(updated.Containing(path), world.now + CHECK_DELAY)
  {
  }

  lemma ClosedNext(plan: Plan, path: Path, root: Root, world: World)
    requires root == if path in plan.roots then plan.roots[path] else ""
    ensures var updated := plan.(roots := plan.roots - {path}).Update(plan.roots.Keys - {path}, world);
      plan.Next(Closed(path), world) ==
      if root in updated.roots.Values then updated.Schedule({root}, world.now) else updated.Drop({root})
  {
  }

  lemma SoonerNone(scheduled: map<Root, Time>, time: Time)
    ensures Sooner(scheduled, {}, time) == scheduled == Sooner(scheduled, {""}, time)
  {
  }

  class Server {
    var documents: set<Path>
    var roots: map<Path, Root>
    var analyses: map<Root, set<Path>>
    var scheduled: map<Root, Time>
    var deferred: map<Root, seq<Request>>
    /** The requests that were answered, in order. */
    var answered: seq<Request>
    /** The requests that were received. */
    ghost var received: multiset<Request>

    /** Waiting requests and answers together. */
    ghost function Known(): multiset<Request>
      reads this`answered, this`deferred
    {
      multiset(answered) + Waiting(deferred)
    }

    /** The roots with waiting requests that no check will answer. */
    ghost function Forgotten(): set<Root>
      reads this`deferred, this`scheduled
    {
      set root | root in deferred && root !in scheduled
    }

    lemma NoneForgotten()
      ensures Forgotten() == {} <==> forall root | root in deferred :: root in scheduled
    {
      if Forgotten() == {} {
        forall root | root in deferred ensures root in scheduled {
          assert root in scheduled || root in Forgotten();
        }
      }
    }

    /** Where nothing was forgotten before, only what is lost is. */
    lemma StillValid(before: map<Root, seq<Request>>, scheduledBefore: map<Root, Time>, lost: set<Root>)
      requires ForgetsOnly(deferred, scheduled, before, scheduledBefore, lost)
      requires forall root | root in lost :: root in deferred && root !in scheduled
      ensures (forall root | root in before :: root in scheduledBefore) ==> Forgotten() == lost
    {
    }

    lemma ForgottenNow()
      ensures Forgotten() == set root | root in deferred && root !in scheduled
    {
    }

    lemma ForgottenAfter(before: map<Root, seq<Request>>, scheduledBefore: map<Root, Time>, lost: set<Root>)
      requires ForgetsOnly(deferred, scheduled, before, scheduledBefore, lost)
      requires forall root | root in lost :: root in deferred && root !in scheduled
      ensures lost <= Forgotten() <= (set root | root in before && root !in scheduledBefore) + lost
    {
    }

    /** The roots that are scheduled and that an open document belongs to. */
    ghost function Pending(): set<Root>
      reads this`scheduled, this`roots
    {
      scheduled.Keys * roots.Values
    }

    ghost function Planned(): Plan
      reads this`roots, this`scheduled, this`analyses
    {
      Plan(roots, scheduled, analyses)
    }

    /** Every request that was received was answered once, or waits. */
    ghost predicate Conserved()
      reads this`answered, this`deferred, this`received
    {
      received == Known()
    }

    /** Between two messages: open documents have roots, and there is no check of nothing. */
    ghost predicate Intact()
      reads this
    {
      Conserved() && documents == roots.Keys && "" !in scheduled
    }

    /** And every root with waiting requests is scheduled. */
    ghost predicate Valid()
      reads this
    {
      Intact() && Forgotten() == {}
    }

    constructor ()
      ensures Valid() && received == multiset{}
    {
      documents, roots, analyses, scheduled, deferred, answered := {}, map[], map[], map[], map[], [];
      received := multiset{};
    }

    // ----- Scheduling -----

    /** The earlier time is kept. */
    method Schedule(root: Root, time: Time)
      modifies this`scheduled
      ensures scheduled == if root == "" then old(scheduled)
                           else old(scheduled)[root := if root in old(scheduled) && old(scheduled[root]) < time
                                                       then old(scheduled[root]) else time]
      ensures ForgetsOnly(deferred, scheduled, old(deferred), old(scheduled), {}) && Known() == old(Known())
      ensures "" !in old(scheduled) ==> "" !in scheduled
      ensures scheduled == Sooner(old(scheduled), {root}, time)
    {
      if root == "" {
        return;
      }
      if root !in scheduled {
        scheduled := scheduled[root := time];
      } else if time < scheduled[root] {
        scheduled := scheduled[root := time];
      } else {
        assert scheduled[root := scheduled[root]] == scheduled;
      }
    }

    /** Waits forever only if no check is scheduled. */
    method TimeToNextCheck(now: Time) returns (wait: Option<Time>)
      ensures wait.None? <==> scheduled == map[]
      ensures wait.Some? ==> wait.value >= 0 && (exists root :: root in scheduled && Later(now, scheduled[root]) == wait.value)
      ensures wait.Some? ==> forall root | root in scheduled :: wait.value <= Later(now, scheduled[root])
      ensures wait.Some? ==> forall root | root in scheduled :: wait.value == 0 || now + wait.value <= scheduled[root]
      ensures wait.Some? ==> exists root :: root in scheduled && scheduled[root] <= now + wait.value
    {
      wait := None;
      var rest := scheduled.Keys;
      while rest != {}
        invariant rest <= scheduled.Keys && (wait.None? <==> rest == scheduled.Keys)
        invariant wait.Some? ==> wait.value >= 0 && (exists root :: root in scheduled && Later(now, scheduled[root]) == wait.value)
        invariant wait.Some? ==> forall root | root in scheduled && root !in rest :: wait.value <= Later(now, scheduled[root])
        decreases rest
      {
        var root :| root in rest;
        if wait.None? || Later(now, scheduled[root]) < wait.value {
          wait := Some(Later(now, scheduled[root]));
        }
        rest := rest - {root};
      }
      if wait.None? { assert scheduled.Keys == {}; }
    }

    static function Later(now: Time, time: Time): Time {
      if time > now then time - now else 0
    }

    function IsRootOpen(root: Root): (open: bool)
      reads this`roots
      ensures open <==> exists path :: path in roots && roots[path] == root
    {
      root in roots.Values
    }

    // ----- Deferred requests -----

    /** Stores a request if the check of its package is pending. */
    method Defer(request: Request) returns (stored: bool)
      modifies this`deferred
      ensures stored <==> request.path in roots && roots[request.path] in scheduled
      ensures if stored then
                var root := roots[request.path];
                deferred == old(deferred)[root := (if root in old(deferred) then old(deferred[root]) else []) + [request]]
              else deferred == old(deferred)
    {
      if request.path !in roots || roots[request.path] !in scheduled {
        return false;
      }
      var root := roots[request.path];
      var before := if root in deferred then deferred[root] else [];
      deferred := deferred[root := before + [request]];
      stored := true;
    }

    method Respond(request: Request)
      modifies this`answered
      ensures answered == old(answered) + [request] && Known() == old(Known()) + multiset{request}
    {
      hide Waiting;
      answered := answered + [request];
    }

    /** Answers a request, with an error if that fails, or stores it again. */
    method HandleDeferrable(request: Request, world: World)
      modifies this`analyses, this`scheduled, this`deferred, this`answered
      ensures analyses == old(analyses)
      ensures scheduled == old(scheduled) && WaitOnlyFor(deferred, old(deferred), {}, Pending())
      ensures Known() == old(Known()) + multiset{request} && old(answered) <= answered
      ensures ForgetsOnly(deferred, scheduled, old(deferred), old(scheduled), {})
      ensures request.path !in roots || roots[request.path] !in scheduled ==>
              answered == old(answered) + [request] && deferred == old(deferred)
      ensures request.path in roots && roots[request.path] in scheduled ==> answered == old(answered)
      decreases scheduled.Keys, 1
    {
      hide Waiting;
      var stored := Defer(request);
      if stored {
        WaitingMore(old(deferred), roots[request.path], request);
        return;
      }
      if request.path in documents {
        // The package has no pending check now, so this does not force one.
        AnalysisFor(request.path, true, world);
      }
      Respond(request);
    }

    /** Answers what waited for a root. What waits again waits for another root that is scheduled. */
    method AnswerDeferred(root: Root, world: World)
      modifies this`analyses, this`scheduled, this`deferred, this`answered
      ensures analyses == old(analyses)
      ensures scheduled == old(scheduled) && WaitOnlyFor(deferred, old(deferred), {root}, Pending())
      ensures Known() == old(Known()) && old(answered) <= answered
      decreases scheduled.Keys, 3
    {
      NoneLeft(deferred, root, Pending());
      if root !in deferred {
        return;
      }
      hide Waiting, Known;
      var requests := TakeDeferred(root);
      HandleAll(requests, world);
    }

    method HandleAll(requests: seq<Request>, world: World)
      modifies this`analyses, this`scheduled, this`deferred, this`answered
      ensures analyses == old(analyses)
      ensures scheduled == old(scheduled) && WaitOnlyFor(deferred, old(deferred), {}, Pending())
      ensures Known() == old(Known()) + multiset(requests) && old(answered) <= answered
      decreases scheduled.Keys, 2
    {
      hide Waiting, WaitOnlyFor, Known;
      AllWait(deferred, Pending());
      for i := 0 to |requests|
        invariant analyses == old(analyses)
        invariant scheduled == old(scheduled) && WaitOnlyFor(deferred, old(deferred), {}, Pending())
        invariant Known() == old(Known()) + multiset(requests[..i]) && old(answered) <= answered
      {
        assert requests[..i + 1] == requests[..i] + [requests[i]];
        ghost var before := deferred;
        HandleDeferrable(requests[i], world);
        WaitOnlyForTrans(deferred, before, old(deferred), {}, Pending(), Pending());
      }
      assert requests[..|requests|] == requests;
    }

    method TakeDeferred(root: Root) returns (requests: seq<Request>)
      requires root in deferred
      modifies this`deferred
      ensures requests == old(deferred)[root] && deferred == old(deferred) - {root}
      ensures Known() + multiset(requests) == old(Known())
    {
      requests := deferred[root];
      WaitingFor(deferred, root);
      deferred := deferred - {root};
    }

    /** Checks a package. If that fails the waiting requests are still answered. */
    method Check(root: Root, world: World)
      modifies this`analyses, this`scheduled, this`deferred, this`answered
      ensures scheduled == old(scheduled) && WaitOnlyFor(deferred, old(deferred), {root}, Pending())
      ensures analyses == if world.check(root).Some? then old(analyses)[root := world.check(root).value] else old(analyses)
      ensures analyses == Checked(old(analyses), {root}, world)
      ensures Known() == old(Known()) && old(answered) <= answered
      decreases scheduled.Keys, 4
    {
      hide Waiting;
      var files := world.check(root);
      if files.Some? {
        analyses := analyses[root := files.value];
      }
      AnswerDeferred(root, world);
    }

    /** Checks the package of an open document now if its check is pending. */
    method AnalysisFor(path: Path, checkPending: bool, world: World)
      modifies this`analyses, this`scheduled, this`deferred, this`answered
      ensures path !in roots || !checkPending || roots[path] !in old(scheduled) ==>
              scheduled == old(scheduled) && deferred == old(deferred) && answered == old(answered) && analyses == old(analyses)
      ensures path in roots && checkPending && roots[path] in old(scheduled) ==>
              scheduled == old(scheduled) - {roots[path]} && WaitOnlyFor(deferred, old(deferred), {roots[path]}, Pending()) &&
              analyses == Checked(old(analyses), {roots[path]}, world)
      ensures Known() == old(Known()) && old(answered) <= answered
      ensures ForgetsOnly(deferred, scheduled, old(deferred), old(scheduled), {})
      ensures "" !in old(scheduled) ==> "" !in scheduled
      decreases scheduled.Keys, 0, 1
    {
      hide Waiting;
      if path !in roots {
        return;
      }
      if checkPending && roots[path] in scheduled {
        CheckNow(roots[path], world);
      }
    }

    /** A check that is run is not pending anymore. */
    method CheckNow(root: Root, world: World)
      requires root in scheduled
      modifies this`analyses, this`scheduled, this`deferred, this`answered
      ensures scheduled == old(scheduled) - {root} && WaitOnlyFor(deferred, old(deferred), {root}, Pending())
      ensures analyses == Checked(old(analyses), {root}, world)
      ensures root !in deferred && Known() == old(Known()) && old(answered) <= answered
      ensures ForgetsOnly(deferred, scheduled, old(deferred), old(scheduled), {})
      ensures "" !in old(scheduled) ==> "" !in scheduled
      decreases scheduled.Keys, 0, 0
    {
      hide Waiting, Known;
      scheduled := scheduled - {root};
      Check(root, world);
    }

    /** Runs every check that is due, and no other. Nothing waits for those roots anymore. */
    method RunChecks(world: World)
      requires Intact()
      modifies this`analyses, this`scheduled, this`deferred, this`answered
      ensures Intact() && old(answered) <= answered
      ensures ForgetsOnly(deferred, scheduled, old(deferred), old(scheduled), {})
      ensures scheduled == map root | root in old(scheduled) && old(scheduled)[root] > world.now :: old(scheduled)[root]
      ensures forall root | root in old(scheduled) && old(scheduled)[root] <= world.now :: root !in deferred
      ensures Planned() == old(Planned()).Next(Timeout, world)
    {
      hide Waiting, Known, ForgetsOnly, Checked, Plan.Next;
      ghost var before := scheduled;
      var due := set root | root in scheduled && scheduled[root] <= world.now;
      ghost var all, done := due, {};
      ForgetsNothing(deferred, scheduled);
      CheckedMore(analyses, {}, {}, world);
      while due != {}
        invariant Intact() && old(answered) <= answered
        invariant ForgetsOnly(deferred, scheduled, old(deferred), old(scheduled), {})
        invariant forall root | root in before && before[root] <= world.now && root !in due :: root !in deferred
        invariant due <= scheduled.Keys && forall root :: root in due <==> root in scheduled && scheduled[root] <= world.now
        invariant forall root :: root in scheduled <==> root in before && (before[root] > world.now || root in due)
        invariant forall root | root in scheduled :: scheduled[root] == before[root]
        invariant done + due == all && analyses == Checked(old(analyses), done, world)
        decreases due
      {
        var root :| root in due;
        due := due - {root};
        CheckedMore(old(analyses), done, {root}, world);
        done := done + {root};
        ghost var (deferredBefore, scheduledBefore) := (deferred, scheduled);
        CheckNow(root, world);
        ForgetsTrans(old(deferred), old(scheduled), deferredBefore, scheduledBefore, deferred, scheduled, {});
      }
      ChecksAreNext(old(Planned()), all, scheduled, world);
    }

    lemma ChecksAreNext(plan: Plan, due: set<Root>, left: map<Root, Time>, world: World)
      requires due == set root | root in plan.scheduled && plan.scheduled[root] <= world.now
      requires left == map root | root in plan.scheduled && plan.scheduled[root] > world.now :: plan.scheduled[root]
      ensures plan.Next(Timeout, world) == Plan(plan.roots, left, Checked(plan.analyses, due, world))
    {
      assert left == plan.scheduled - due;
    }

    // ----- Roots -----

    /**
     Forgets a root. If removing its diagnostics fails, what waits for it is lost: it is not
     scheduled anymore.
     */
    method DropRoot(root: Root, world: World) returns (ok: bool)
      modifies this`analyses, this`scheduled, this`deferred, this`answered
      ensures ok <==> !world.publishFails(root)
      ensures scheduled == old(scheduled) - {root} && analyses == old(analyses) - {root}
      ensures Known() == old(Known()) && old(answered) <= answered
      ensures ok ==> WaitOnlyFor(deferred, old(deferred), {root}, Pending())
      ensures !ok ==> deferred == old(deferred)
      ensures ForgetsOnly(deferred, scheduled, old(deferred), old(scheduled), Lost(if ok then None else Some(root), deferred))
      ensures old(Forgotten()) == {} ==> (Forgotten() == {} <==> ok || root !in old(deferred))
      ensures "" !in old(scheduled) ==> "" !in scheduled
    {
      hide Waiting;
      scheduled := scheduled - {root};
      analyses := analyses - {root};
      if world.publishFails(root) {
        assert root in deferred ==> root in Forgotten();
        return false;
      }
      AnswerDeferred(root, world);
      ok := true;
    }

    /** What becomes of a root that a document does not belong to anymore. */
    ghost predicate LeftBehind(root: Root, now: Time)
      reads this`roots, this`scheduled, this`deferred, this`analyses
    {
      if root in roots.Values then root != "" ==> root in scheduled && scheduled[root] <= now
      else root !in scheduled && root !in deferred && root !in analyses
    }

    /** A document that belongs to another root than before has that root checked. */
    ghost predicate ChangedScheduled(before: map<Path, Root>, now: Time)
      reads this`roots, this`scheduled
    {
      forall path | path in roots && (path !in before || before[path] != roots[path]) && roots[path] != "" ::
        roots[path] in scheduled && scheduled[roots[path]] <= now
    }

    /**
     Assigns roots to the open documents anew. New roots are due at once, and roots that nothing is
     assigned to are given up, until one cannot be: that is the failure.
     */
    method UpdateRoots(world: World) returns (failed: Option<Root>)
      requires "" !in scheduled && roots.Keys <= documents
      modifies this`roots, this`analyses, this`scheduled, this`deferred, this`answered
      ensures "" !in scheduled && Known() == old(Known()) && old(answered) <= answered
      ensures roots == Assigned(documents, world) && documents == roots.Keys
      ensures FailsFor(failed, Undroppable(old(roots), roots, world))
      ensures ChangedScheduled(old(roots), world.now)
      ensures failed.None? ==> forall path | Left(old(roots), roots, path) :: LeftBehind(old(roots)[path], world.now)
      ensures failed.Some? ==> failed.value !in scheduled
      ensures failed.Some? && failed.value in deferred ==> failed.value in old(deferred)
      ensures WaitOnlyFor(deferred, old(deferred), {}, Pending())
      ensures ForgetsOnly(deferred, scheduled, old(deferred), old(scheduled), Lost(failed, deferred))
      ensures failed.None? ==> Planned() == old(Planned()).Update(documents, world)
      ensures Planned().Spares(old(Planned()), world.now)
    {
      hide Waiting, ForgetsOnly, WaitOnlyFor, Known, LeftBehind, ChangedScheduled, Undroppable, Assigned, Left, WasLeft, Sooner,
        Changes, Plan.Leave, Plan.Spares;
      var previous := AssignRoots(world);
      ghost var (all, done, after) := (previous, {}, roots);
      ghost var plan := Planned();
      LeaveNone(plan, world.now);
      LeftAre(old(roots), roots, previous);
      assert plan == Plan(after, old(scheduled), old(analyses)).Schedule(Changes(old(roots), after), world.now);
      ghost var d1, s1 := deferred, scheduled;
      AllWait(deferred, Pending());
      ForgetsNothing(deferred, scheduled);
      while previous != {}
        invariant "" !in scheduled && Known() == old(Known()) && old(answered) <= answered
        invariant roots == after && ChangedScheduled(old(roots), world.now)
        invariant WaitOnlyFor(deferred, old(deferred), {}, Pending())
        invariant ForgetsOnly(deferred, scheduled, d1, s1, {})
        invariant previous + done == all && forall root | root in done :: LeftBehind(root, world.now)
        invariant forall root | root in done :: root in roots.Values || !world.publishFails(root)
        invariant Planned() == plan.Leave(done, world.now)
        decreases previous
      {
        var root :| root in previous;
        previous := previous - {root};
        LeaveMore(plan, done, root, world.now);
        LeaveSpares(old(Planned()), after, Changes(old(roots), after), done + {root}, world.now);
        ghost var (d2, s2, p2) := (deferred, scheduled, Pending());
        var ok := LeaveRoot(root, world, done, old(roots));
        WaitOnlyForTrans(deferred, d2, old(deferred), {}, p2, Pending());
        ForgetsTrans(d1, s1, d2, s2, deferred, scheduled, Lost(if ok then None else Some(root), deferred));
        if !ok {
          ForgetsTrans(old(deferred), old(scheduled), d1, s1, deferred, scheduled, Lost(Some(root), deferred));
          if root in deferred { WaitedBefore(deferred, old(deferred), Pending(), root); }
          UndroppableIs(old(roots), roots, world, all, root);
          return Some(root);
        }
        done := done + {root};
      }
      ForgetsTrans(old(deferred), old(scheduled), d1, s1, deferred, scheduled, {});
      NoneUndroppable(old(roots), roots, world, all);
      LeaveSpares(old(Planned()), after, Changes(old(roots), after), done, world.now);
      failed := None;
    }

    lemma LeftAre(before: map<Path, Root>, after: map<Path, Root>, left: set<Root>)
      requires forall path | Left(before, after, path) :: before[path] in left
      requires forall root | root in left :: WasLeft(before, after, root)
      ensures left == LeftRoots(before, after)
    {
    }

    /** A root that a document left is checked if another document belongs to it, and dropped otherwise. */
    method LeaveRoot(root: Root, world: World, ghost done: set<Root>, ghost before: map<Path, Root>) returns (ok: bool)
      requires "" !in scheduled && ChangedScheduled(before, world.now)
      requires forall other | other in done :: LeftBehind(other, world.now)
      modifies this`analyses, this`scheduled, this`deferred, this`answered
      ensures "" !in scheduled && ChangedScheduled(before, world.now)
      ensures Known() == old(Known()) && old(answered) <= answered && old(Pending()) <= Pending()
      ensures ok ==> forall other | other in done || other == root :: LeftBehind(other, world.now)
      ensures ok <==> root in roots.Values || !world.publishFails(root)
      ensures !ok ==> root !in scheduled
      ensures WaitOnlyFor(deferred, old(deferred), {}, Pending())
      ensures ForgetsOnly(deferred, scheduled, old(deferred), old(scheduled), Lost(if ok then None else Some(root), deferred))
      ensures Planned() == if root in roots.Values then old(Planned()).Schedule({root}, world.now) else old(Planned()).Drop({root})
    {
      hide Waiting, Known, Sooner;
      if IsRootOpen(root) {
        Schedule(root, world.now);
        ok := true;
      } else {
        ok := DropRoot(root, world);
      }
    }

    /** Returns the roots that some document does not belong to anymore. */
    method AssignRoots(world: World) returns (previous: set<Root>)
      requires "" !in scheduled && roots.Keys <= documents
      modifies this`roots, this`scheduled
      ensures "" !in scheduled && roots == Assigned(documents, world) && documents == roots.Keys && Known() == old(Known())
      ensures ChangedScheduled(old(roots), world.now)
      ensures forall path | Left(old(roots), roots, path) :: old(roots)[path] in previous
      ensures forall root | root in previous :: WasLeft(old(roots), roots, root)
      ensures ForgetsOnly(deferred, scheduled, old(deferred), old(scheduled), {})
      ensures scheduled == Sooner(old(scheduled), Changes(old(roots), roots), world.now)
    {
      hide Waiting, Known, ForgetsOnly, Moved, ChangedScheduled, WasLeft, Sooner, Changes;
      previous := {};
      NoChanges(roots);
      SoonerNone(scheduled, world.now);
      assert roots - documents == map[];
      ForgetsNothing(deferred, scheduled);
      var rest := documents;
      while rest != {}
        invariant rest <= documents && roots.Keys <= documents && documents - rest <= roots.Keys
        invariant forall path | path in documents && path !in rest :: roots[path] == world.rootOf(path)
        invariant forall path | path in rest :: path in roots <==> path in old(roots)
        invariant forall path | path in rest && path in roots :: roots[path] == old(roots)[path]
        invariant "" !in scheduled && Known() == old(Known())
        invariant ForgetsOnly(deferred, scheduled, old(deferred), old(scheduled), {})
        invariant forall path | path in documents && path !in rest ::
                    Moved(old(roots), roots, path, previous, scheduled, world.now)
        invariant forall root | root in previous :: WasLeft(old(roots), roots - rest, root)
        invariant scheduled == Sooner(old(scheduled), Changes(old(roots), roots - rest), world.now)
        decreases rest
      {
        var path :| path in rest;
        ghost var (r1, s1, handled) := (roots, scheduled, roots - rest);
        rest := rest - {path};
        MoreChanges(old(roots), roots, handled, path, world.rootOf(path));
        SoonerMore(old(scheduled), Changes(old(roots), handled), Changes(roots, map[path := world.rootOf(path)]), world.now);
        assert roots[path := world.rootOf(path)] - rest == handled[path := world.rootOf(path)];
        var left := Move(path, world.rootOf(path), world.now);
        ForgetsTrans(old(deferred), old(scheduled), deferred, s1, deferred, scheduled, {});
        forall other | other in documents && other !in rest
          ensures Moved(old(roots), roots, other, previous + left, scheduled, world.now)
        {
          if other == path {
            MovedOnly(r1, old(roots), roots, path, left, previous + left, scheduled, world.now);
          } else {
            MovedStays(old(roots), r1, roots, other, previous, previous + left, s1, scheduled, world.now);
          }
        }
        forall root | root in previous + left ensures WasLeft(old(roots), roots - rest, root) {
          WasLeftMore(old(roots), handled, roots - rest, path, root);
        }
        previous := previous + left;
      }
      assert roots - rest == roots;
      AllMoved(old(roots), previous, world.now);
    }

    lemma AllMoved(before: map<Path, Root>, previous: set<Root>, now: Time)
      requires forall path | path in roots :: Moved(before, roots, path, previous, scheduled, now)
      ensures ChangedScheduled(before, now) && forall path | Left(before, roots, path) :: before[path] in previous
    {
    }

    /** Returns the root that the document belonged to, if that was another one. */
    method Move(path: Path, root: Root, now: Time) returns (left: set<Root>)
      modifies this`roots, this`scheduled
      ensures roots == old(roots)[path := root] && Moved(old(roots), roots, path, left, scheduled, now)
      ensures forall other | other in left :: path in old(roots) && other == old(roots)[path] && other !in {"", root}
      ensures forall other | other in old(scheduled) :: other in scheduled && scheduled[other] <= old(scheduled)[other]
      ensures ForgetsOnly(deferred, scheduled, deferred, old(scheduled), {}) && Known() == old(Known())
      ensures "" !in old(scheduled) ==> "" !in scheduled
      ensures scheduled == Sooner(old(scheduled), Changes(old(roots), map[path := root]), now)
    {
      hide Waiting, Known, Sooner;
      MovedChanges(roots, path, root);
      SoonerNone(scheduled, now);
      left := {};
      var current := if path in roots then roots[path] else "";
      if current != root {
        if current != "" {
          left := {current};
        }
        Schedule(root, now);
      }
      roots := roots[path := root];
    }

    lemma NoChanges(before: map<Path, Root>)
      ensures Changes(before, map[]) == {}
    {
    }

    lemma MoreChanges(before: map<Path, Root>, now: map<Path, Root>, handled: map<Path, Root>, path: Path, root: Root)
      requires path !in handled && (path in now <==> path in before) && (path in now ==> now[path] == before[path])
      ensures Changes(before, handled[path := root]) == Changes(before, handled) + Changes(now, map[path := root])
    {
      var after := handled[path := root];
      forall other | other in handled ensures after[other] == handled[other] {
      }
    }

    lemma MovedChanges(before: map<Path, Root>, path: Path, root: Root)
      ensures Changes(before, map[path := root]) ==
              if root == (if path in before then before[path] else "") then (if path in before then {} else {""}) else {root}
    {
    }

    /** Scheduling an open root undoes nothing. */
    method ScheduleOpen(root: Root, time: Time, ghost before: map<Path, Root>, ghost now: Time)
      requires "" !in scheduled && (root == "" || root in roots.Values)
      modifies this`scheduled
      ensures "" !in scheduled && Known() == old(Known())
      ensures root != "" ==> root in scheduled && scheduled[root] <= time
      ensures forall other | other in old(scheduled) :: other in scheduled && scheduled[other] <= old(scheduled)[other]
      ensures old(ChangedScheduled(before, now)) ==> ChangedScheduled(before, now)
      ensures forall other :: old(LeftBehind(other, now)) ==> LeftBehind(other, now)
      ensures ForgetsOnly(deferred, scheduled, old(deferred), old(scheduled), {})
      ensures scheduled == Sooner(old(scheduled), {root}, time)
    {
      hide Waiting, Known, Sooner;
      Schedule(root, time);
    }

    /** The package of a file and all open packages that contain it are scheduled. */
    ghost predicate ContainingScheduled(path: Path, time: Time)
      requires path in roots
      reads this`roots, this`analyses, this`scheduled
    {
      && (roots[path] != "" ==> roots[path] in scheduled && scheduled[roots[path]] <= time)
      && forall root | root in analyses && path in analyses[root] && root in roots.Values && root != "" ::
           root in scheduled && scheduled[root] <= time
    }

    method ScheduleRootsContaining(path: Path, time: Time, ghost before: map<Path, Root>, ghost now: Time)
      requires path in roots && "" !in scheduled
      modifies this`scheduled
      ensures "" !in scheduled && ContainingScheduled(path, time) && Known() == old(Known())
      ensures old(ChangedScheduled(before, now)) ==> ChangedScheduled(before, now)
      ensures forall other :: old(LeftBehind(other, now)) ==> LeftBehind(other, now)
      ensures ForgetsOnly(deferred, scheduled, old(deferred), old(scheduled), {})
      ensures Planned() == old(Planned()).Schedule(old(Planned()).Containing(path), time)
    {
      hide Waiting, Known, ForgetsOnly, ChangedScheduled, LeftBehind, Sooner;
      ScheduleOpen(roots[path], time, before, now);
      var rest := analyses.Keys;
      ghost var these := {roots[path]};
      while rest != {}
        invariant rest <= analyses.Keys && "" !in scheduled && Known() == old(Known())
        invariant roots[path] != "" ==> roots[path] in scheduled && scheduled[roots[path]] <= time
        invariant forall root | root in analyses && root !in rest && path in analyses[root] && root in roots.Values && root != "" ::
                    root in scheduled && scheduled[root] <= time
        invariant old(ChangedScheduled(before, now)) ==> ChangedScheduled(before, now)
        invariant forall other :: old(LeftBehind(other, now)) ==> LeftBehind(other, now)
        invariant ForgetsOnly(deferred, scheduled, old(deferred), old(scheduled), {})
        invariant scheduled == Sooner(old(scheduled), these, time)
        invariant these == {roots[path]} + set root | root in analyses && root !in rest && path in analyses[root] && root in roots.Values
        decreases rest
      {
        var root :| root in rest;
        rest := rest - {root};
        if path in analyses[root] && IsRootOpen(root) {
          ghost var s1 := scheduled;
          SoonerMore(old(scheduled), these, {root}, time);
          these := these + {root};
          ScheduleOpen(root, time, before, now);
          ForgetsTrans(deferred, old(scheduled), deferred, s1, deferred, scheduled, {});
        }
      }
      assert these == old(Planned()).Containing(path);
    }

    // ----- Messages -----

    // A message that changes documents fails if dropping a root does. Then what waited for that root
    // is lost, and nothing else.

    method DidOpen(path: Path, world: World) returns (failed: Option<Root>)
      requires Intact()
      modifies this
      ensures Intact() && received == old(received) && old(answered) <= answered
      ensures documents == if path == "" then old(documents) else old(documents) + {path}
      ensures FailsFor(failed, MustDrop(Opened(path), old(roots), world)) && (failed.Some? ==> failed.value !in scheduled)
      ensures failed.Some? && failed.value in deferred ==> failed.value in old(deferred)
      ensures old(Forgotten()) == {} ==> Forgotten() == Lost(failed, deferred)
      ensures ForgetsOnly(deferred, scheduled, old(deferred), old(scheduled), Lost(failed, deferred))
      ensures path != "" ==> ChangedScheduled(old(roots), world.now)
      ensures failed.None? && path != "" && world.rootOf(path) != "" ==>
              world.rootOf(path) in scheduled && scheduled[world.rootOf(path)] <= world.now
      ensures failed.None? && path != "" ==>
              forall other | Left(old(roots), roots, other) :: LeftBehind(old(roots)[other], world.now)
      ensures if failed.None? then Planned() == old(Planned()).Next(Opened(path), world)
              else Planned().Spares(old(Planned()), world.now)
    {
      hide Waiting, Known, ForgetsOnly, WaitOnlyFor, ChangedScheduled, LeftBehind, Forgotten, Undroppable, Sooner, Plan.Update,
        Plan.Next, Plan.Spares;
      OpenedNext(Planned(), path, world);
      NoneForgotten();
      if path == "" {
        ForgetsNothing(deferred, scheduled);
        return None;
      }
      documents := documents + {path};
      failed := UpdateRoots(world);
      if failed.None? {
        ghost var s1 := scheduled;
        ScheduleOpen(roots[path], world.now, old(roots), world.now);
        ForgetsTrans(old(deferred), old(scheduled), deferred, s1, deferred, scheduled, {});
      }
      StillValid(old(deferred), old(scheduled), Lost(failed, deferred));
    }

    method DidChange(path: Path, includesChanged: bool, world: World) returns (failed: Option<Root>)
      requires Intact()
      modifies this
      ensures Intact() && received == old(received) && old(answered) <= answered && documents == old(documents)
      ensures FailsFor(failed, MustDrop(Changed(path, includesChanged), old(roots), world)) && (failed.Some? ==> failed.value !in scheduled)
      ensures failed.Some? && failed.value in deferred ==> failed.value in old(deferred)
      ensures old(Forgotten()) == {} ==> Forgotten() == Lost(failed, deferred)
      ensures ForgetsOnly(deferred, scheduled, old(deferred), old(scheduled), Lost(failed, deferred))
      ensures path in documents && includesChanged ==> ChangedScheduled(old(roots), world.now)
      ensures failed.None? && path in documents ==> ContainingScheduled(path, world.now + CHECK_DELAY)
      ensures failed.None? && path in documents && includesChanged ==>
              forall other | Left(old(roots), roots, other) :: LeftBehind(old(roots)[other], world.now)
      ensures if failed.None? then Planned() == old(Planned()).Next(Changed(path, includesChanged), world)
              else Planned().Spares(old(Planned()), world.now)
    {
      hide Waiting, Known, ForgetsOnly, WaitOnlyFor, ChangedScheduled, LeftBehind, ContainingScheduled, Forgotten, Undroppable,
        Sooner, Plan.Update, Plan.Next, Plan.Containing, Plan.Schedule, Plan.Spares;
      ChangedNext(Planned(), path, includesChanged, world);
      NoneForgotten();
      failed := None;
      ForgetsNothing(deferred, scheduled);
      if path !in documents {
        return;
      }
      if includesChanged {
        failed := UpdateRoots(world);
      }
      if failed.None? {
        ghost var s1 := scheduled;
        ScheduleRootsContaining(path, world.now + CHECK_DELAY, old(roots), world.now);
        ForgetsTrans(old(deferred), old(scheduled), deferred, s1, deferred, scheduled, {});
      }
      StillValid(old(deferred), old(scheduled), Lost(failed, deferred));
    }

    method DidSave(path: Path, world: World) returns (failed: Option<Root>)
      requires Intact()
      modifies this
      ensures Intact() && received == old(received) && old(answered) <= answered && documents == old(documents)
      ensures FailsFor(failed, MustDrop(Saved(path), old(roots), world)) && (failed.Some? ==> failed.value !in scheduled)
      ensures failed.Some? && failed.value in deferred ==> failed.value in old(deferred)
      ensures old(Forgotten()) == {} ==> Forgotten() == Lost(failed, deferred)
      ensures ForgetsOnly(deferred, scheduled, old(deferred), old(scheduled), Lost(failed, deferred))
      ensures path in documents ==> ChangedScheduled(old(roots), world.now)
      ensures failed.None? && path in documents ==> ContainingScheduled(path, world.now)
      ensures failed.None? && path in documents ==>
              forall other | Left(old(roots), roots, other) :: LeftBehind(old(roots)[other], world.now)
      ensures if failed.None? then Planned() == old(Planned()).Next(Saved(path), world)
              else Planned().Spares(old(Planned()), world.now)
    {
      hide Waiting, Known, ForgetsOnly, WaitOnlyFor, ChangedScheduled, LeftBehind, ContainingScheduled, Forgotten, Undroppable,
        Sooner, Plan.Update, Plan.Next, Plan.Containing, Plan.Schedule, Plan.Spares;
      SavedNext(Planned(), path, world);
      NoneForgotten();
      if path !in documents {
        ForgetsNothing(deferred, scheduled);
        return None;
      }
      failed := UpdateRoots(world);
      if failed.None? {
        ghost var s1 := scheduled;
        ScheduleRootsContaining(path, world.now, old(roots), world.now);
        ForgetsTrans(old(deferred), old(scheduled), deferred, s1, deferred, scheduled, {});
      }
      StillValid(old(deferred), old(scheduled), Lost(failed, deferred));
    }

    lemma ClosedSpares(before: Plan, without: Plan, updated: Plan, root: Root, now: Time)
      requires without == before.(roots := without.roots) && updated.Spares(without, now)
      ensures updated.Spares(before, now)
      ensures root !in updated.roots.Values ==> updated.Drop({root}).Spares(before, now)
    {
    }

    lemma ChangedWithout(before: map<Path, Root>, path: Path, now: Time)
      requires path !in roots && ChangedScheduled(before - {path}, now)
      ensures ChangedScheduled(before, now)
    {
    }

    /** The root of the document is dropped if no other document belongs to it, and checked otherwise. */
    method DidClose(path: Path, world: World) returns (failed: Option<Root>)
      requires Intact()
      modifies this
      ensures Intact() && received == old(received) && old(answered) <= answered && documents == old(documents) - {path}
      ensures FailsFor(failed, MustDrop(Closed(path), old(roots), world)) && (failed.Some? ==> failed.value !in scheduled)
      ensures failed.Some? && failed.value in deferred ==> failed.value in old(deferred)
      ensures old(Forgotten()) == {} ==> Forgotten() == Lost(failed, deferred)
      ensures ForgetsOnly(deferred, scheduled, old(deferred), old(scheduled), Lost(failed, deferred))
      ensures ChangedScheduled(old(roots), world.now)
      ensures failed.None? && path in old(roots) ==> LeftBehind(old(roots)[path], world.now)
      ensures if failed.None? then Planned() == old(Planned()).Next(Closed(path), world)
              else Planned().Spares(old(Planned()), world.now)
    {
      hide Waiting, Known, Forgotten, ForgetsOnly, WaitOnlyFor, Undroppable, Assigned, MustDrop, ChangedScheduled, LeftBehind, Lost,
        Sooner, Plan.Update, Plan.Next, Plan.Schedule, Plan.Drop, Plan.Spares, FailsFor, Left;
      NoneForgotten();
      var root := if path in roots then roots[path] else "";
      documents := documents - {path};
      roots := roots - {path};
      assert documents == roots.Keys;
      ghost var planned := Planned();
      ClosedNext(old(Planned()), path, root, world);
      failed := UpdateRoots(world);
      ghost var updated := Planned();
      ClosedSpares(old(Planned()), planned, updated, root, world.now);
      ClosedFails(path, old(roots), world, failed);
      if failed.Some? {
        ChangedWithout(old(roots), path, world.now);
        LostWaits(failed, deferred, scheduled);
        StillValid(old(deferred), old(scheduled), Lost(failed, deferred));
        return;
      }
      ghost var (d1, s1, p1) := (deferred, scheduled, Pending());
      ChangedWithout(old(roots), path, world.now);
      var ok := LeaveRoot(root, world, {}, old(roots));
      LostWaits(failed, d1, s1);
      failed := if ok then None else Some(root);
      LostAtLast(old(deferred), old(scheduled), d1, s1, p1, deferred, scheduled, Pending(), failed);
      StillValid(old(deferred), old(scheduled), Lost(failed, deferred));
    }

    /** A request that waits if the check of its package is pending. */
    method RequestDeferrable(request: Request, world: World)
      requires Intact()
      modifies this
      ensures Intact() && received == old(received) + multiset{request} && old(answered) <= answered
      ensures ForgetsOnly(deferred, scheduled, old(deferred), old(scheduled), {})
      ensures request.path in roots && roots[request.path] in old(scheduled) ==> answered == old(answered)
      ensures request.path !in roots || roots[request.path] !in old(scheduled) ==> answered == old(answered) + [request]
      ensures scheduled == old(scheduled) && Planned() == old(Planned())
    {
      hide Waiting, Known;
      received := received + multiset{request};
      HandleDeferrable(request, world);
    }

    /**
     A request about a position: a pending check of its package is run first, and all that waits for
     it answered, unless the position is malformed.
     */
    method RequestAtPosition(request: Request, wellFormed: bool, checkPending: bool, world: World)
      requires Intact()
      modifies this
      ensures Intact() && received == old(received) + multiset{request} && old(answered) <= answered
      ensures ForgetsOnly(deferred, scheduled, old(deferred), old(scheduled), {})
      ensures request in answered
      ensures wellFormed && checkPending && request.path in roots && roots[request.path] in old(scheduled) ==>
              roots[request.path] !in scheduled && roots[request.path] !in deferred
      ensures !wellFormed || !checkPending ==> scheduled == old(scheduled) && deferred == old(deferred)
      ensures Planned() == old(Planned()).Next(AtPosition(request, wellFormed, checkPending), world)
    {
      hide Waiting, Known;
      received := received + multiset{request};
      ForgetsNothing(deferred, scheduled);
      if request.path in documents && wellFormed {
        AnalysisFor(request.path, checkPending, world);
      }
      Respond(request);
    }

    /** If no check is scheduled and none was lost, every request was answered exactly once. */
    lemma NothingWaits()
      requires Valid() && scheduled == map[]
      ensures received == multiset(answered)
    {
      assert forall root | root in deferred :: root in Forgotten();
      assert deferred == map[];
    }

    lemma NothingNext(plan: Plan, message: Message, world: World)
      ensures message.Deferrable? ==> plan.Next(message, world) == plan
    {
    }

    /** Handles one message, or the timeout of the next check. */
    method Handle(message: Message, world: World) returns (failed: Option<Root>)
      requires Intact()
      modifies this
      ensures Intact() && old(answered) <= answered && received == old(received) + Requests(message)
      ensures FailsFor(failed, MustDrop(message, old(roots), world)) && (failed.Some? ==> failed.value !in scheduled)
      ensures failed.Some? && failed.value in deferred ==> failed.value in old(deferred)
      ensures Lost(failed, deferred) <= Forgotten() <= old(Forgotten()) + Lost(failed, deferred)
      ensures if failed.None? then Planned() == old(Planned()).Next(message, world) else Planned().Spares(old(Planned()), world.now)
    {
      hide Waiting, Known, Intact, LeftBehind, ChangedScheduled, ContainingScheduled, Undroppable, ForgetsOnly, Forgotten, Lost,
        Assigned, Plan.Next, Plan.Spares;
      NothingNext(Planned(), message, world);
      failed := None;
      ForgottenNow();
      match message {
        case Opened(path) => failed := DidOpen(path, world);
        case Changed(path, includesChanged) => failed := DidChange(path, includesChanged, world);
        case Saved(path) => failed := DidSave(path, world);
        case Closed(path) => failed := DidClose(path, world);
        case Deferrable(request) => RequestDeferrable(request, world);
        case AtPosition(request, wellFormed, checkPending) => RequestAtPosition(request, wellFormed, checkPending, world);
        case Timeout => RunChecks(world);
      }
      LostWaits(failed, deferred, scheduled);
      ForgottenAfter(old(deferred), old(scheduled), Lost(failed, deferred));
    }

    /**
     Handles messages. One that fails is reported, and the next one is handled. Requests are forgotten
     at some boundary exactly if a message failed to drop a root with waiting requests. It cannot if
     none of the roots that it must drop, and that cannot be dropped, had some when it came.
     */
    method Run(messages: seq<(Message, World)>)
        returns (failures: seq<Option<Root>>, ghost boundaries: seq<Boundary>, ghost lost: seq<set<Root>>)
      requires Intact()
      modifies this
      ensures Intact() && old(answered) <= answered && received == old(received) + AllRequests(messages)
      ensures |failures| == |lost| == |messages| && |boundaries| == |messages| + 1
      ensures boundaries[0].forgotten == old(Forgotten()) && boundaries[|messages|].forgotten == Forgotten()
      ensures forall k | 0 <= k < |messages| :: Step(messages[k], boundaries[k], failures[k], lost[k], boundaries[k + 1])
      ensures old(Valid()) ==>
              ((forall k | 0 <= k <= |messages| :: boundaries[k].forgotten == {}) <==> forall k | 0 <= k < |messages| :: lost[k] == {})
    {
      hide Intact, AllRequests, Requests, Forgotten, MustDrop, Plan.Next, Plan.Spares;
      NoRequests();
      failures, lost, boundaries := [], [], [Boundary(Planned(), Forgotten(), deferred.Keys)];
      for k := 0 to |messages|
        invariant Intact() && old(answered) <= answered && received == old(received) + AllRequests(messages[..k])
        invariant |failures| == |lost| == k && |boundaries| == k + 1
        invariant boundaries[0].forgotten == old(Forgotten()) && boundaries[k] == Boundary(Planned(), Forgotten(), deferred.Keys)
        invariant forall j | 0 <= j < k :: Step(messages[j], boundaries[j], failures[j], lost[j], boundaries[j + 1])
      {
        MoreRequests(messages, k);
        var failed := Handle(messages[k].0, messages[k].1);
        failures := failures + [failed];
        lost := lost + [Lost(failed, deferred)];
        boundaries := boundaries + [Boundary(Planned(), Forgotten(), deferred.Keys)];
      }
      assert messages[..|messages|] == messages;
      if old(Valid()) { NothingLost(messages, boundaries, failures, lost); }
    }
  }

  /**
   Between two messages: what is planned, the roots whose requests are forgotten, and all that have
   waiting requests.
   */
  datatype Boundary = Boundary(plan: Plan, forgotten: set<Root>, waiting: set<Root>)

  /** What one message does to what is planned and to the forgotten requests. */
  ghost predicate Step(message: (Message, World), before: Boundary, failed: Option<Root>, lost: set<Root>, after: Boundary) {
    var stuck := MustDrop(message.0, before.plan.roots, message.1);
    && FailsFor(failed, stuck)
    && (if failed.None? then after.plan == before.plan.Next(message.0, message.1)
        else after.plan.Spares(before.plan, message.1.now))
    && lost == (if failed.Some? && failed.value in after.waiting then {failed.value} else {})
    && lost <= after.forgotten <= before.forgotten + lost && lost <= before.waiting
    && lost <= stuck && (stuck !! before.waiting ==> lost == {})
  }

  lemma {:induction false} NothingLost(messages: seq<(Message, World)>, boundaries: seq<Boundary>,
                                       failures: seq<Option<Root>>, lost: seq<set<Root>>)
    requires |failures| == |lost| == |messages| && |boundaries| == |messages| + 1 && boundaries[0].forgotten == {}
    requires forall k | 0 <= k < |messages| :: Step(messages[k], boundaries[k], failures[k], lost[k], boundaries[k + 1])
    ensures (forall k | 0 <= k <= |messages| :: boundaries[k].forgotten == {}) <==>
            forall k | 0 <= k < |messages| :: lost[k] == {}
    decreases |messages|
  {
    hide MustDrop, Plan.Next, Plan.Spares;
    var n := |messages|;
    if n > 0 {
      assert Step(messages[n - 1], boundaries[n - 1], failures[n - 1], lost[n - 1], boundaries[n - 1 + 1]);
      forall k | 0 <= k < n - 1
        ensures Step(messages[..n - 1][k], boundaries[..n][k], failures[..n - 1][k], lost[..n - 1][k], boundaries[..n][k + 1])
      {
        assert Step(messages[k], boundaries[k], failures[k], lost[k], boundaries[k + 1]);
      }
      NothingLost(messages[..n - 1], boundaries[..n], failures[..n - 1], lost[..n - 1]);
      assert forall k | 0 <= k < n :: boundaries[..n][k] == boundaries[k];
      assert forall k | 0 <= k < n - 1 :: lost[..n - 1][k] == lost[k];
    }
  }

  // ----- What checks lead to -----

  /** The message runs the pending check of the root. */
  predicate Checks(plan: Plan, message: Message, world: World, root: Root) {
    root in plan.scheduled &&
    match message
    case Timeout => plan.scheduled[root] <= world.now
    case AtPosition(request, wellFormed, checkPending) =>
      wellFormed && checkPending && request.path in plan.roots && plan.roots[request.path] == root
    case _ => false
  }

  predicate Contains(plan: Plan, root: Root, path: Path) {
    root in plan.analyses && path in plan.analyses[root]
  }

  /** After a check that succeeds the package has the files that the check found. */
  lemma CheckFinds(plan: Plan, message: Message, world: World, root: Root)
    requires Checks(plan, message, world, root) && world.check(root).Some?
    ensures var after := plan.Next(message, world);
      root in after.analyses && after.analyses[root] == world.check(root).value && root !in after.scheduled
  {
  }

  /** It keeps them as long as a document belongs to it, until the next check that succeeds. */
  lemma StepKeeps(message: (Message, World), before: Boundary, failed: Option<Root>, lost: set<Root>, after: Boundary,
                  root: Root, path: Path)
    requires Step(message, before, failed, lost, after)
    requires root in after.plan.roots.Values && Contains(before.plan, root, path)
    requires message.1.check(root).Some? ==> path in message.1.check(root).value
    ensures Contains(after.plan, root, path)
  {
    hide MustDrop, Sooner;
    if failed.None? { NextKeeps(before.plan, message.0, message.1, root, path); }
  }

  lemma NextKeeps(plan: Plan, message: Message, world: World, root: Root, path: Path)
    requires root in plan.Next(message, world).roots.Values && Contains(plan, root, path)
    requires world.check(root).Some? ==> path in world.check(root).value
    ensures Contains(plan.Next(message, world), root, path)
  {
    hide Sooner, Changes, LeftRoots, Assigned;
  }

  /**
   Once a check has found a file in a package, a change of the file leads to a check of the package as
   long as a document belongs to it, whatever happens in between: after the delay, or at once if the
   file is saved.
   */
  lemma {:induction false} ChangeLeadsToCheck(messages: seq<(Message, World)>, boundaries: seq<Boundary>,
                                              failures: seq<Option<Root>>, lost: seq<set<Root>>, j: nat, k: nat, root: Root,
                                              path: Path)
    requires |failures| == |lost| == |messages| && |boundaries| == |messages| + 1 && j < k < |messages| && root != ""
    requires forall i | 0 <= i < |messages| :: Step(messages[i], boundaries[i], failures[i], lost[i], boundaries[i + 1])
    requires Checks(boundaries[j].plan, messages[j].0, messages[j].1, root)
    requires messages[j].1.check(root).Some? && path in messages[j].1.check(root).value
    requires forall i | j < i <= k + 1 :: root in boundaries[i].plan.roots.Values
    requires forall i | j < i < k :: messages[i].1.check(root).Some? ==> path in messages[i].1.check(root).value
    requires messages[k].0.Changed? || messages[k].0.Saved?
    requires messages[k].0.path == path && path in boundaries[k].plan.roots && failures[k].None?
    ensures root in boundaries[k + 1].plan.scheduled
    ensures boundaries[k + 1].plan.scheduled[root] <= messages[k].1.now + if messages[k].0.Saved? then 0 else CHECK_DELAY
  {
    hide Step, Plan.Next;
    StillContains(messages, boundaries, failures, lost, j, k, root, path);
    assert Step(messages[k], boundaries[k], failures[k], lost[k], boundaries[k + 1]);
    StepNext(messages[k], boundaries[k], failures[k], lost[k], boundaries[k + 1]);
    ChangeSchedules(boundaries[k].plan, messages[k].0, messages[k].1, root, path);
  }

  lemma StepNext(message: (Message, World), before: Boundary, failed: Option<Root>, lost: set<Root>, after: Boundary)
    requires Step(message, before, failed, lost, after) && (failed.None? || message.0.Timeout? || message.0.AtPosition?)
    ensures after.plan == before.plan.Next(message.0, message.1)
  {
    hide Plan.Next;
  }

  lemma {:induction false} StillContains(messages: seq<(Message, World)>, boundaries: seq<Boundary>,
                                         failures: seq<Option<Root>>, lost: seq<set<Root>>, j: nat, k: nat, root: Root,
                                         path: Path)
    requires |failures| == |lost| == |messages| && |boundaries| == |messages| + 1 && j < k <= |messages|
    requires forall i | 0 <= i < |messages| :: Step(messages[i], boundaries[i], failures[i], lost[i], boundaries[i + 1])
    requires Checks(boundaries[j].plan, messages[j].0, messages[j].1, root)
    requires messages[j].1.check(root).Some? && path in messages[j].1.check(root).value
    requires forall i | j < i <= k :: root in boundaries[i].plan.roots.Values
    requires forall i | j < i < k :: messages[i].1.check(root).Some? ==> path in messages[i].1.check(root).value
    ensures Contains(boundaries[k].plan, root, path)
    decreases k
  {
    hide Step, Plan.Next;
    var i := k - 1;
    assert Step(messages[i], boundaries[i], failures[i], lost[i], boundaries[i + 1]);
    if i == j {
      StepNext(messages[j], boundaries[j], failures[j], lost[j], boundaries[j + 1]);
      CheckFinds(boundaries[j].plan, messages[j].0, messages[j].1, root);
    } else {
      StillContains(messages, boundaries, failures, lost, j, i, root, path);
      StepKeeps(messages[i], boundaries[i], failures[i], lost[i], boundaries[k], root, path);
    }
  }

  lemma ChangeSchedules(plan: Plan, message: Message, world: World, root: Root, path: Path)
    requires (message.Changed? || message.Saved?) && message.path == path && path in plan.roots
    requires root != "" && Contains(plan, root, path) && root in plan.Next(message, world).roots.Values
    ensures var after := plan.Next(message, world);
      root in after.scheduled && after.scheduled[root] <= world.now + if message.Saved? then 0 else CHECK_DELAY
  {
    hide Changes, LeftRoots, Assigned;
  }

  // ----- Typing -----

  function After(plan: Plan, messages: seq<(Message, World)>): Plan {
    if messages == [] then plan
    else
      var (message, world) := messages[|messages| - 1];
      After(plan, messages[..|messages| - 1]).Next(message, world)
  }

  /**
   However often a document is changed, its package is checked a quarter of a second after the first
   change, unless a check was due before.
   */
  lemma {:induction false} TypingIsCheckedInTime(plan: Plan, messages: seq<(Message, World)>, path: Path)
    requires path in plan.roots && plan.roots[path] != "" && messages != []
    requires forall m | m in messages :: m.0 == Changed(path, false) && m.1.now >= messages[0].1.now
    ensures var (after, root, time) := (After(plan, messages), plan.roots[path], messages[0].1.now + 250);
      && after.roots == plan.roots && after.analyses == plan.analyses && root in after.scheduled
      && after.scheduled[root] == if root in plan.scheduled && plan.scheduled[root] < time then plan.scheduled[root] else time
    decreases |messages|
  {
    var n := |messages| - 1;
    if n > 0 {
      assert messages[..n][0] == messages[0];
      TypingIsCheckedInTime(plan, messages[..n], path);
    } else {
      assert messages[..n] == [];
    }
    assert messages[n] in messages;
  }
}

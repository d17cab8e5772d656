/**
 The reference counts of one heap object, shared by any number of threads. Every atomic operation
 on a count, and every use of the object or its control block in between, is one step of a thread.
 */
module RefCount {
  type Thread = nat
  type Ref = nat

  /** Where a thread is inside a runtime function. */
  datatype Pc =
    | Idle
    | Destructing                              // in releaseStrong, the strong count reached zero
    | Freeing
    | DroppingShare
    | Deleting                                 // the weak count reached zero
    | StoringBlock(source: Ref, weak: Ref)     // in ejcCreateWeak, the weak count was raised
    | Acquiring(weak: Ref, expected: int)      // in ejcAcquireStrong, with the count read last
  {
    predicate Ending() {
      Destructing? || Freeing? || DroppingShare?
    }
  }

  datatype Event = LastReleased(deinit: bool) | Destructed | Freed | Deleted

  /** The counts, the references that are held, and what happened to the object and its control block. */
  datatype State = State(strongCount: int, weakCount: int, strong: set<Ref>, weak: set<Ref>, pcs: map<Thread, Pc>,
                         log: seq<Event>)
  {
    function At(t: Thread): Pc {
      if t in pcs then pcs[t] else Idle
    }
    function Go(t: Thread, pc: Pc): State {
      this.(pcs := pcs[t := pc])
    }
    function Log(e: Event): State {
      this.(log := log + [e])
    }
  }

  datatype Action =
    | Retain(from: Ref, added: Ref)
    | ReleaseStrong(ref: Ref, deinit: bool)
    | Destruct
    | Free
    | DropShare
    | Delete
    | CountWeak(from: Ref, added: Ref)
    | StoreBlock
    | RetainWeak(from: Ref, added: Ref)
    | ReleaseWeak(ref: Ref)
    | Load(ref: Ref)
    | Exchange(spurious: bool, added: Ref)
    | GiveUp

  /** The object was just allocated: one strong reference, which holds the share of the weak count. */
  function Initial(first: Ref): State {
    State(1, 1, {first}, {}, map[], [])
  }

  ghost predicate Creating(s: State, weak: Ref) {
    exists t: Thread :: s.At(t).StoringBlock? && s.At(t).weak == weak
  }

  ghost predicate StrongInUse(s: State, ref: Ref) {
    exists t: Thread :: s.At(t).StoringBlock? && s.At(t).source == ref
  }

  ghost predicate WeakInUse(s: State, ref: Ref) {
    exists t: Thread :: (s.At(t).StoringBlock? || s.At(t).Acquiring?) && s.At(t).weak == ref
  }

  /** The destructor is part of the program. It may use weak references to the object it destructs. */
  predicate RunsProgram(s: State, t: Thread) {
    s.At(t) == Idle || s.At(t) == Destructing
  }

  /**
   The program only uses references that it holds, and releases none while it is in use. The rest
   are the conditions under which the runtime gets to the step.
   */
  ghost predicate Enabled(s: State, t: Thread, a: Action) {
    match a
    case Retain(from, added) => s.At(t) == Idle && from in s.strong && added !in s.strong
    case ReleaseStrong(ref, _) => s.At(t) == Idle && ref in s.strong && !StrongInUse(s, ref)
    case Destruct => s.At(t) == Destructing
    case Free => s.At(t) == Freeing
    case DropShare => s.At(t) == DroppingShare
    case Delete => s.At(t) == Deleting
    case CountWeak(from, added) => s.At(t) == Idle && from in s.strong && added !in s.weak
    case StoreBlock => s.At(t).StoringBlock?
    case RetainWeak(from, added) => RunsProgram(s, t) && from in s.weak && !Creating(s, from) && added !in s.weak
    case ReleaseWeak(ref) => RunsProgram(s, t) && ref in s.weak && !WeakInUse(s, ref)
    case Load(ref) => RunsProgram(s, t) && ref in s.weak && !Creating(s, ref)
    case Exchange(_, added) => s.At(t).Acquiring? && s.At(t).expected != 0 && added !in s.strong
    case GiveUp => s.At(t).Acquiring? && s.At(t).expected == 0
  }

  /** fetch_sub on the weak count; whoever takes it to zero deletes the block. */
  function SubWeak(s: State, t: Thread, back: Pc): State {
    s.(weakCount := s.weakCount - 1).Go(t, if s.weakCount - 1 == 0 then Deleting else back)
  }

  function Apply(s: State, t: Thread, a: Action): State {
    match a
    case Retain(_, added) => s.(strongCount := s.strongCount + 1, strong := s.strong + {added})
    case ReleaseStrong(ref, deinit) =>
      var s1 := s.(strongCount := s.strongCount - 1, strong := s.strong - {ref});
      if s.strongCount - 1 != 0 then s1
      else s1.Log(LastReleased(deinit)).Go(t, if deinit then Destructing else Freeing)
    case Destruct => s.Log(Destructed).Go(t, Freeing)
    case Free => s.Log(Freed).Go(t, DroppingShare)
    case DropShare => SubWeak(s, t, Idle)
    case Delete => s.Log(Deleted).Go(t, Idle)
    case CountWeak(from, added) =>
      s.(weakCount := s.weakCount + 1, weak := s.weak + {added}).Go(t, StoringBlock(from, added))
    case StoreBlock => s.Go(t, Idle)
    case RetainWeak(_, added) => s.(weakCount := s.weakCount + 1, weak := s.weak + {added})
    case ReleaseWeak(ref) => SubWeak(s.(weak := s.weak - {ref}), t, s.At(t))
    case Load(ref) => if s.At(t) == Destructing && s.strongCount == 0 then s else s.Go(t, Acquiring(ref, s.strongCount))
    case Exchange(spurious, added) =>
      var pc := s.At(t);
      if !pc.Acquiring? then s
      else if !spurious && s.strongCount == pc.expected then
        s.(strongCount := s.strongCount + 1, strong := s.strong + {added}).Go(t, Idle)
      else s.Go(t, Acquiring(pc.weak, s.strongCount))
    case GiveUp => s.Go(t, Idle)
  }

  predicate TouchesObject(a: Action) {
    a.Retain? || a.ReleaseStrong? || a.Destruct? || a.Free? || a.CountWeak? || a.StoreBlock?
  }

  predicate TouchesBlock(a: Action) {
    !a.Destruct? && !a.Free? && !a.GiveUp?
  }

  // ----- The invariant -----

  function Ended(deinit: bool): seq<Event> {
    if deinit then [LastReleased(true), Destructed] else [LastReleased(false)]
  }

  ghost predicate SomeoneEnds(s: State) {
    exists t: Thread :: s.At(t).Ending()
  }

  ghost predicate SomeoneDeletes(s: State) {
    exists t: Thread :: s.At(t) == Deleting
  }

  /** Counts are references. The strong references hold one share of the weak count until it is dropped. */
  ghost predicate Counted(s: State) {
    && s.strongCount == |s.strong|
    && s.weakCount == |s.weak| + (if s.strong != {} || SomeoneEnds(s) then 1 else 0)
  }

  ghost predicate AtMostOne(s: State) {
    && (forall t: Thread, u: Thread :: s.At(t).Ending() && s.At(u).Ending() ==> t == u)
    && (forall t: Thread, u: Thread :: s.At(t) == Deleting && s.At(u) == Deleting ==> t == u)
    && (SomeoneEnds(s) ==> s.strong == {})
    && (SomeoneDeletes(s) ==> s.weakCount == 0)
  }

  /** The log says how far the object's end has come. */
  ghost predicate Logged(s: State) {
    && (s.strong != {} ==> s.log == [])
    && (forall t: Thread :: s.At(t) == Destructing ==> s.log == [LastReleased(true)])
    && (forall t: Thread :: s.At(t) == Freeing ==> s.log == Ended(true) || s.log == Ended(false))
    && (forall t: Thread :: s.At(t) == DroppingShare ==> s.log == Ended(true) + [Freed] || s.log == Ended(false) + [Freed])
    && (s.strong == {} && !SomeoneEnds(s) ==> AfterFree(s))
  }

  ghost predicate AfterFree(s: State) {
    var d := if s.weakCount == 0 && !SomeoneDeletes(s) then [Deleted] else [];
    s.log == Ended(true) + [Freed] + d || s.log == Ended(false) + [Freed] + d
  }

  ghost predicate UsesHeld(s: State) {
    forall t: Thread ::
      && (s.At(t).StoringBlock? ==> s.At(t).source in s.strong && s.At(t).weak in s.weak)
      && (s.At(t).Acquiring? ==> s.At(t).weak in s.weak && 0 <= s.At(t).expected)
      && (s.At(t).Acquiring? && s.At(t).expected == 0 ==> s.strong == {})
  }

  ghost predicate Inv(s: State) {
    Counted(s) && AtMostOne(s) && Logged(s) && UsesHeld(s)
  }

  lemma InitialInv(first: Ref)
    ensures Inv(Initial(first))
  {
  }

  /** A step only moves its own thread. */
  lemma OthersStay(s: State, t: Thread, a: Action, u: Thread)
    requires u != t
    ensures Apply(s, t, a).At(u) == s.At(u)
  {
  }

  lemma StepShare(s: State, t: Thread, a: Action)
    requires Inv(s) && Enabled(s, t, a)
    ensures var s' := Apply(s, t, a);
      && (SomeoneEnds(s') <==> s'.At(t).Ending() || (SomeoneEnds(s) && !s.At(t).Ending()))
      && (SomeoneDeletes(s') <==> s'.At(t) == Deleting || (SomeoneDeletes(s) && s.At(t) != Deleting))
  {
    hide Enabled, Counted, Logged, UsesHeld, Apply;
    var s' := Apply(s, t, a);
    forall u: Thread | u != t ensures s'.At(u) == s.At(u) {
      OthersStay(s, t, a, u);
    }
  }

  lemma StrongCounted(s: State, t: Thread, a: Action)
    requires Inv(s) && Enabled(s, t, a)
    ensures Apply(s, t, a).strongCount == |Apply(s, t, a).strong|
  {
    hide Logged, AtMostOne, SomeoneEnds, SomeoneDeletes, WeakInUse, StrongInUse, Creating;
    match a
    case ReleaseStrong(ref, _) => assert |s.strong - {ref}| == |s.strong| - 1;
    case _ =>
  }

  lemma WeakCounted(s: State, t: Thread, a: Action)
    requires Inv(s) && Enabled(s, t, a)
    ensures var s' := Apply(s, t, a);
      s'.weakCount - |s'.weak| == s.weakCount - |s.weak| - (if a.DropShare? then 1 else 0)
  {
    hide Counted, Logged, AtMostOne, UsesHeld, StrongInUse, Creating, WeakInUse;
    match a
    case ReleaseWeak(ref) => assert |s.weak - {ref}| == |s.weak| - 1;
    case CountWeak(_, added) => assert |s.weak + {added}| == |s.weak| + 1;
    case RetainWeak(_, added) => assert |s.weak + {added}| == |s.weak| + 1;
    case _ =>
  }

  ghost predicate ShareHeld(s: State) {
    s.strong != {} || SomeoneEnds(s)
  }

  lemma ShareDropped(s: State, t: Thread, a: Action)
    requires Inv(s) && Enabled(s, t, a)
    ensures ShareHeld(Apply(s, t, a)) <==> ShareHeld(s) && !a.DropShare?
    ensures a.DropShare? ==> ShareHeld(s)
  {
    hide Apply, Enabled, Counted, UsesHeld, Logged, AtMostOne, SomeoneEnds, SomeoneDeletes;
    StepShare(s, t, a);
    EndsIf(s, t);
    EndedIsGone(s);
    EndingAfter(s, t, a);
  }

  /** Releasing the last strong reference begins the end, and dropping the share completes it. */
  lemma EndingAfter(s: State, t: Thread, a: Action)
    requires Inv(s) && Enabled(s, t, a)
    ensures var (s', last) := (Apply(s, t, a), a.ReleaseStrong? && s.strongCount == 1);
      && (s'.strong == {} <==> s.strong == {} || last) && (last ==> s.strong != {})
      && (s'.At(t).Ending() <==> last || (s.At(t).Ending() && !a.DropShare?)) && (a.DropShare? ==> s.At(t).Ending())
  {
    hide Counted, Logged, AtMostOne, SomeoneEnds, SomeoneDeletes, StrongInUse, Creating, WeakInUse;
    LastStrong(s);
    if s.At(t) == Destructing { InDestructor(s, t, a); }
  }

  /** In the destructor no strong reference is left, and the share keeps the block. */
  lemma InDestructor(s: State, t: Thread, a: Action)
    requires Inv(s) && Enabled(s, t, a) && s.At(t) == Destructing
    ensures s.strongCount == 0 && (a.ReleaseWeak? ==> s.weakCount > 1)
  {
    hide Logged, UsesHeld, SomeoneDeletes;
    EndsIf(s, t);
    EndedIsGone(s);
    if a.ReleaseWeak? { assert |s.weak - {a.ref}| == |s.weak| - 1; }
  }

  lemma LastStrong(s: State)
    requires Counted(s)
    ensures s.strongCount == 0 <==> s.strong == {}
    ensures forall ref | ref in s.strong :: s.strongCount == 1 <==> s.strong - {ref} == {}
  {
    forall ref | ref in s.strong ensures |s.strong - {ref}| == |s.strong| - 1 {
    }
  }

  lemma StepCounted(s: State, t: Thread, a: Action)
    requires Inv(s) && Enabled(s, t, a)
    ensures Counted(Apply(s, t, a))
  {
    hide Logged, AtMostOne, SomeoneEnds, SomeoneDeletes, Enabled, Apply;
    StrongCounted(s, t, a);
    WeakCounted(s, t, a);
    ShareDropped(s, t, a);
  }

  lemma EndsIf(s: State, t: Thread)
    ensures s.At(t).Ending() ==> SomeoneEnds(s)
    ensures s.At(t) == Deleting ==> SomeoneDeletes(s)
  {
  }

  lemma EndedIsGone(s: State)
    requires Inv(s)
    ensures SomeoneEnds(s) ==> s.strong == {} && s.strongCount == 0
    ensures SomeoneDeletes(s) ==> s.weakCount == 0
  {
    hide Logged, UsesHeld, SomeoneEnds, SomeoneDeletes;
  }

  lemma StepAtMostOne(s: State, t: Thread, a: Action)
    requires Inv(s) && Enabled(s, t, a)
    ensures AtMostOne(Apply(s, t, a))
  {
    hide Logged, UsesHeld, SomeoneEnds, SomeoneDeletes, Apply, Enabled;
    var s' := Apply(s, t, a);
    StepShare(s, t, a);
    NewEnd(s, t, a);
    NewDelete(s, t, a);
    forall u: Thread ensures (u != t ==> s'.At(u) == s.At(u)) && (s.At(u).Ending() ==> SomeoneEnds(s)) &&
                             (s.At(u) == Deleting ==> SomeoneDeletes(s))
    {
      EndsIf(s, u);
      if u != t { OthersStay(s, t, a, u); }
    }
  }

  /** A thread starts to end the object only if nobody else does. */
  lemma NewEnd(s: State, t: Thread, a: Action)
    requires Inv(s) && Enabled(s, t, a)
    ensures var s' := Apply(s, t, a);
      && (s'.At(t).Ending() && !s.At(t).Ending() ==> s.strong != {} && s'.strong == {})
      && (s'.At(t).Ending() && s.At(t).Ending() ==> s'.strong == s.strong)
      && (SomeoneEnds(s) ==> s'.strong == {})
  {
    hide Apply, Enabled, Counted, UsesHeld, Logged, AtMostOne, SomeoneEnds, SomeoneDeletes;
    EndsIf(s, t);
    EndedIsGone(s);
    EndingAfter(s, t, a);
  }

  lemma NewDelete(s: State, t: Thread, a: Action)
    requires Inv(s) && Enabled(s, t, a)
    ensures var s' := Apply(s, t, a);
      && (s'.At(t) == Deleting ==> s.At(t) != Deleting && s.weakCount != 0 && s'.weakCount == 0)
      && (s.weakCount == 0 ==> s'.weakCount == 0)
      && (s'.weakCount == 0 && s.weakCount != 0 ==> s'.At(t) == Deleting)
  {
    hide Logged, SomeoneEnds, SomeoneDeletes, StrongInUse, Creating, WeakInUse;
    EndsIf(s, t);
    match a
    case ReleaseWeak(ref) => assert |s.weak - {ref}| == |s.weak| - 1;
    case _ =>
  }

  lemma StepLogged(s: State, t: Thread, a: Action)
    requires Inv(s) && Enabled(s, t, a)
    ensures Logged(Apply(s, t, a))
  {
    hide Apply, Enabled, Counted, Logged, UsesHeld, AtMostOne;
    if a.ReleaseStrong? || a.Destruct? || a.Free? || a.DropShare? || a.Delete? {
      LoggedEnd(s, t, a);
    } else {
      LoggedSame(s, t, a);
    }
  }

  lemma LoggedSame(s: State, t: Thread, a: Action)
    requires Inv(s) && Enabled(s, t, a)
    requires !(a.ReleaseStrong? || a.Destruct? || a.Free? || a.DropShare? || a.Delete?)
    ensures Logged(Apply(s, t, a))
  {
    hide SomeoneEnds, SomeoneDeletes, Apply, Enabled, Counted, UsesHeld;
    var s' := Apply(s, t, a);
    StepShare(s, t, a);
    NewDelete(s, t, a);
    EndsIf(s', t);
    QuietStep(s, t, a);
    forall u: Thread ensures s'.At(u) == s.At(u) || u == t {
      if u != t { OthersStay(s, t, a, u); }
    }
  }

  lemma QuietStep(s: State, t: Thread, a: Action)
    requires Inv(s) && Enabled(s, t, a)
    requires !(a.ReleaseStrong? || a.Destruct? || a.Free? || a.DropShare? || a.Delete?)
    ensures var s' := Apply(s, t, a);
      && s'.log == s.log && (s'.strong == {} <==> s.strong == {})
      && (s.At(t).Ending() || s'.At(t).Ending() ==> s'.At(t) == s.At(t)) && s.At(t) != Deleting
  {
    hide AtMostOne, Logged;
    if s.At(t) == Destructing { InDestructor(s, t, a); }
  }

  lemma LoggedEnd(s: State, t: Thread, a: Action)
    requires Inv(s) && Enabled(s, t, a)
    requires a.ReleaseStrong? || a.Destruct? || a.Free? || a.DropShare? || a.Delete?
    ensures Logged(Apply(s, t, a))
  {
    hide SomeoneEnds, SomeoneDeletes, StrongInUse, Creating, WeakInUse, UsesHeld;
    var s' := Apply(s, t, a);
    StepShare(s, t, a);
    NewDelete(s, t, a);
    EndsIf(s, t);
    EndsIf(s', t);
    forall u: Thread | u != t ensures s'.At(u) == s.At(u) && (s.At(u).Ending() ==> SomeoneEnds(s)) {
      EndsIf(s, u);
      OthersStay(s, t, a, u);
    }
    if a.ReleaseStrong? {
      assert |s.strong - {a.ref}| == |s.strong| - 1;
    } else if a.DropShare? {
      assert s.log + [] == s.log;
    }
  }

  lemma StepUses(s: State, t: Thread, a: Action)
    requires Inv(s) && Enabled(s, t, a)
    ensures UsesHeld(Apply(s, t, a))
  {
    hide Logged, SomeoneEnds, SomeoneDeletes;
    var s' := Apply(s, t, a);
    forall u: Thread | u != t ensures s'.At(u) == s.At(u) {
      OthersStay(s, t, a, u);
    }
  }

  /** Every step of every thread keeps the invariant. */
  lemma StepInv(s: State, t: Thread, a: Action)
    requires Inv(s) && Enabled(s, t, a)
    ensures Inv(Apply(s, t, a))
  {
    StepCounted(s, t, a);
    StepAtMostOne(s, t, a);
    StepLogged(s, t, a);
    StepUses(s, t, a);
  }

  // ----- Runs -----

  datatype Move = Move(thread: Thread, action: Action)

  function After(s: State, moves: seq<Move>): State
    decreases moves
  {
    if moves == [] then s else After(Apply(s, moves[0].thread, moves[0].action), moves[1..])
  }

  /** The threads can take these steps, interleaved in this order. */
  ghost predicate CanRun(s: State, moves: seq<Move>)
    decreases moves
  {
    moves == [] ||
    (Enabled(s, moves[0].thread, moves[0].action) && CanRun(Apply(s, moves[0].thread, moves[0].action), moves[1..]))
  }

  lemma {:induction false} RunInv(s: State, moves: seq<Move>)
    requires Inv(s) && CanRun(s, moves)
    ensures Inv(After(s, moves))
    decreases moves
  {
    if moves != [] {
      StepInv(s, moves[0].thread, moves[0].action);
      RunInv(Apply(s, moves[0].thread, moves[0].action), moves[1..]);
    }
  }

  /** A state in which some interleaving of some threads results. */
  ghost predicate Reachable(s: State) {
    exists first: Ref, moves: seq<Move> :: CanRun(Initial(first), moves) && After(Initial(first), moves) == s
  }

  lemma ReachableInv(s: State)
    requires Reachable(s)
    ensures Inv(s)
  {
    var first: Ref, moves: seq<Move> :| CanRun(Initial(first), moves) && After(Initial(first), moves) == s;
    InitialInv(first);
    RunInv(Initial(first), moves);
  }

  /** The counts are the references held, and the share of the strong side while it has not been dropped. */
  lemma CountsAreReferences(s: State)
    requires Reachable(s)
    ensures s.strongCount == |s.strong|
    ensures s.weakCount == |s.weak| + (if s.strong != {} || SomeoneEnds(s) then 1 else 0)
    ensures s.weakCount == 0 <==> s.weak == {} && Freed in s.log && !SomeoneEnds(s)
  {
    ReachableInv(s);
    LogOf(s);
  }

  /** All that ever happens to an object. */
  function Lifetime(deinit: bool): seq<Event> {
    Ended(deinit) + [Freed, Deleted]
  }

  lemma LogOf(s: State)
    requires Inv(s)
    ensures s.log <= Lifetime(true) || s.log <= Lifetime(false)
    ensures s.strong != {} <==> s.log == []
    ensures Freed in s.log <==> s.strong == {} && forall t: Thread :: s.At(t) != Destructing && s.At(t) != Freeing
    ensures Deleted in s.log <==> s.weakCount == 0 && !SomeoneDeletes(s)
  {
    if t: Thread :| s.At(t).Ending() {
    } else {
    }
  }

  /**
   The object is destructed (unless the last reference was released without), freed, and its
   control block deleted: each at most once, in this order, and not before the last strong
   reference was released. The block lives as long as there is a weak reference.
   */
  lemma EndsOnce(s: State)
    requires Reachable(s)
    ensures s.log <= Lifetime(true) || s.log <= Lifetime(false)
    ensures s.strong != {} <==> s.log == []
    ensures s.weak != {} ==> Deleted !in s.log
    ensures s.strong == {} && s.weak == {} && (forall t: Thread :: s.At(t) == Idle) ==>
            s.log == Lifetime(true) || s.log == Lifetime(false)
  {
    ReachableInv(s);
    LogOf(s);
  }

  lemma {:induction false} AfterMore(s: State, moves: seq<Move>, k: nat)
    requires k <= |moves| && CanRun(s, moves)
    ensures CanRun(s, moves[..k]) && CanRun(After(s, moves[..k]), moves[k..])
    ensures After(s, moves) == After(After(s, moves[..k]), moves[k..])
    decreases moves
  {
    if k == 0 {
      assert moves[0..] == moves;
    } else {
      AfterMore(Apply(s, moves[0].thread, moves[0].action), moves[1..], k - 1);
      assert moves[..k][0] == moves[0] && moves[..k][1..] == moves[1..][..k - 1] && moves[1..][k - 1..] == moves[k..];
    }
  }

  /** This move releases the last strong reference. */
  predicate ReleasesLast(first: Ref, moves: seq<Move>, k: nat) {
    k < |moves| && moves[k].action.ReleaseStrong? && After(Initial(first), moves[..k + 1]).strong == {}
  }

  /** The object ends as the release of its last strong reference asks, with or without its destructor. */
  lemma EndsAsAsked(first: Ref, moves: seq<Move>, k: nat)
    requires CanRun(Initial(first), moves) && ReleasesLast(first, moves, k)
    ensures var s := After(Initial(first), moves);
      && [LastReleased(moves[k].action.deinit)] <= s.log <= Lifetime(moves[k].action.deinit)
      && (s.weak == {} && (forall t: Thread :: s.At(t) == Idle) ==> s.log == Lifetime(moves[k].action.deinit))
  {
    hide Inv, Enabled;
    var s0 := Initial(first);
    InitialInv(first);
    AfterMore(s0, moves, k);
    var before, move := After(s0, moves[..k]), moves[k];
    RunInv(s0, moves[..k]);
    assert moves[..k + 1][..k] == moves[..k] && moves[..k + 1][k..] == [move];
    AfterMore(s0, moves, k + 1);
    AfterMore(s0, moves[..k + 1], k);
    var last := Apply(before, move.thread, move.action);
    assert After(before, [move]) == last;
    StepInv(before, move.thread, move.action);
    LastIsLogged(before, move.thread, move.action);
    NoResurrection(last, moves[k + 1..]);
    RunInv(last, moves[k + 1..]);
    var s := After(s0, moves);
    assert Reachable(s);
    EndsOnce(s);
    assert s.log[0] == LastReleased(move.action.deinit);
  }

  lemma LastIsLogged(s: State, t: Thread, a: Action)
    requires Inv(s) && Enabled(s, t, a) && a.ReleaseStrong? && Apply(s, t, a).strong == {}
    ensures Apply(s, t, a).log == [LastReleased(a.deinit)]
  {
    hide AtMostOne, UsesHeld, SomeoneEnds, SomeoneDeletes, StrongInUse;
    LastStrong(s);
  }

  /** Without strong references there was such a release, exactly one. */
  lemma {:induction false} LastRelease(first: Ref, moves: seq<Move>) returns (k: nat)
    requires CanRun(Initial(first), moves) && After(Initial(first), moves).strong == {}
    ensures ReleasesLast(first, moves, k) && forall j: nat | ReleasesLast(first, moves, j) :: j == k
    decreases |moves|
  {
    hide Inv, Enabled;
    var n, s0 := |moves| - 1, Initial(first);
    InitialInv(first);
    AfterMore(s0, moves, n);
    var s, move := After(s0, moves[..n]), moves[n];
    RunInv(s0, moves[..n]);
    assert moves[n..] == [move] && After(s, [move]) == Apply(s, move.thread, move.action);
    StepStrong(s, move.thread, move.action);
    forall j: nat | j < n ensures ReleasesLast(first, moves, j) <==> ReleasesLast(first, moves[..n], j) {
      assert moves[..n][..j + 1] == moves[..j + 1];
    }
    assert moves[..n + 1] == moves;
    if s.strong == {} {
      k := LastRelease(first, moves[..n]);
    } else {
      k := n;
      forall j: nat | j < n ensures !ReleasesLast(first, moves[..n], j) {
        if ReleasesLast(first, moves[..n], j) { StaysReleased(first, moves[..n], j); }
      }
    }
  }

  lemma StepStrong(s: State, t: Thread, a: Action)
    requires Inv(s) && Enabled(s, t, a)
    ensures s.strong == {} ==> Apply(s, t, a).strong == {} && !a.ReleaseStrong?
    ensures s.strong != {} && Apply(s, t, a).strong == {} ==> a.ReleaseStrong?
  {
  }

  lemma StaysReleased(first: Ref, moves: seq<Move>, k: nat)
    requires CanRun(Initial(first), moves) && ReleasesLast(first, moves, k)
    ensures After(Initial(first), moves).strong == {}
  {
    InitialInv(first);
    AfterMore(Initial(first), moves, k + 1);
    RunInv(Initial(first), moves[..k + 1]);
    NoResurrection(After(Initial(first), moves[..k + 1]), moves[k + 1..]);
  }

  /** No step uses an object that was freed or a control block that was deleted. */
  lemma NothingDangles(s: State, t: Thread, a: Action)
    requires Reachable(s) && Enabled(s, t, a)
    ensures TouchesObject(a) ==> Freed !in s.log
    ensures TouchesBlock(a) ==> Deleted !in s.log
    ensures a.ReleaseStrong? ==> s.strongCount > 0
    ensures a.ReleaseWeak? || a.DropShare? ==> s.weakCount > 0
  {
    ReachableInv(s);
    LogOf(s);
    EndsIf(s, t);
    match a
    case ReleaseWeak(ref) => assert |s.weak - {ref}| == |s.weak| - 1;
    case ReleaseStrong(ref, _) => assert |s.strong - {ref}| == |s.strong| - 1;
    case CountWeak(_, _) =>
    case _ =>
  }

  /** Once the last strong reference is gone there is never another. */
  lemma {:induction false} NoResurrection(s: State, moves: seq<Move>)
    requires Inv(s) && s.strong == {} && CanRun(s, moves)
    ensures After(s, moves).strong == {} && s.log <= After(s, moves).log
    decreases moves
  {
    if moves != [] {
      var s1 := Apply(s, moves[0].thread, moves[0].action);
      StepInv(s, moves[0].thread, moves[0].action);
      assert s1.strong == {};
      NoResurrection(s1, moves[1..]);
    }
  }

  /**
   An upgrade of a weak reference returns an object that nobody has begun to end, with a strong
   reference of its own. It returns no value only if the last strong reference is gone for good.
   */
  lemma AcquireOnlyLive(s: State, t: Thread, a: Action, moves: seq<Move>)
    requires Reachable(s) && Enabled(s, t, a) && s.At(t).Acquiring? && CanRun(s, moves)
    ensures a.Exchange? && Apply(s, t, a).At(t) == Idle ==>
            s.strongCount > 0 && s.log == [] && Apply(s, t, a).strong == s.strong + {a.added} && a.added !in s.strong
    ensures a.GiveUp? ==> s.strongCount == 0 && After(s, moves).strong == {}
    ensures a.Exchange? && Apply(s, t, a).strongCount != s.strongCount ==> s.strongCount > 0 && Apply(s, t, a).At(t) == Idle
  {
    ReachableInv(s);
    if a.GiveUp? {
      NoResurrection(s, moves);
    }
  }

  /** Alone, an upgrade ends with a strong reference if the object is live, and without one otherwise. */
  lemma AcquiresLive(s: State, t: Thread, ref: Ref, added: Ref) returns (moves: seq<Move>)
    requires Reachable(s) && s.At(t) == Idle && Enabled(s, t, Load(ref)) && added !in s.strong
    ensures CanRun(s, moves) && After(s, moves).At(t) == Idle && forall m | m in moves :: m.thread == t
    ensures After(s, moves).strong == (if s.strong == {} then {} else s.strong + {added}) && After(s, moves).log == s.log
    ensures |moves| == 2
  {
    hide Inv, Enabled, Apply;
    ReachableInv(s);
    var (first, second) := (Load(ref), if s.strong == {} then GiveUp else Exchange(false, added));
    LoadedThen(s, t, ref, second);
    moves := [Move(t, first), Move(t, second)];
    assert moves[1..] == [Move(t, second)] && moves[1..][1..] == [];
    var s1 := Apply(s, t, first);
    assert CanRun(Apply(s1, t, second), []) && CanRun(s1, moves[1..]);
    assert After(s, moves) == After(s1, moves[1..]) == Apply(s1, t, second);
  }

  lemma LoadedThen(s: State, t: Thread, ref: Ref, second: Action)
    requires Inv(s) && s.At(t) == Idle && Enabled(s, t, Load(ref))
    requires if s.strong == {} then second == GiveUp else second.Exchange? && !second.spurious && second.added !in s.strong
    ensures var (s1, s2) := (Apply(s, t, Load(ref)), Apply(Apply(s, t, Load(ref)), t, second));
      && Enabled(s1, t, second) && s2.At(t) == Idle && s2.log == s.log
      && s2.strong == if s.strong == {} then {} else s.strong + {second.added}
  {
    hide Logged, AtMostOne, UsesHeld, SomeoneEnds, SomeoneDeletes;
    LastStrong(s);
  }

  /** An exchange that does not fail by chance succeeds exactly if no other thread changed the count. */
  lemma ExchangeSucceeds(s: State, t: Thread, added: Ref)
    requires Reachable(s) && Enabled(s, t, Exchange(false, added))
    ensures added in Apply(s, t, Exchange(false, added)).strong <==> s.strongCount == s.At(t).expected
    ensures s.strongCount != s.At(t).expected ==>
              Apply(s, t, Exchange(false, added)) == s.Go(t, Acquiring(s.At(t).weak, s.strongCount))
  {
  }

  // ----- Nothing is left behind -----

  /** The steps a thread still has to take to end the object. */
  function StepsLeft(pc: Pc): nat {
    match pc
    case Destructing => 4
    case Freeing => 3
    case DroppingShare => 2
    case Deleting => 1
    case _ => 0
  }

  function NextStep(pc: Pc): Action {
    match pc
    case Destructing => Destruct
    case Freeing => Free
    case DroppingShare => DropShare
    case _ => Delete
  }

  /** Without references, the thread that ends the object can always go on until the block is deleted. */
  lemma {:induction false} CanFinish(s: State, t: Thread) returns (moves: seq<Move>)
    requires Inv(s) && s.strong == {} && s.weak == {} && (s.At(t).Ending() || s.At(t) == Deleting)
    ensures CanRun(s, moves) && Deleted in After(s, moves).log && |moves| == StepsLeft(s.At(t))
    ensures forall m | m in moves :: m.thread == t
    decreases StepsLeft(s.At(t))
  {
    var a := NextStep(s.At(t));
    var s1 := Apply(s, t, a);
    StepInv(s, t, a);
    EndsIf(s, t);
    moves := [];
    if a != Delete {
      moves := CanFinish(s1, t);
    }
    assert ([Move(t, a)] + moves)[1..] == moves;
    moves := [Move(t, a)] + moves;
  }

  /** If no reference is left, the block is deleted or one thread is about to get there. */
  lemma NothingLeaks(s: State) returns (t: Thread)
    requires Reachable(s) && s.strong == {} && s.weak == {} && Deleted !in s.log
    ensures s.At(t).Ending() || s.At(t) == Deleting
    ensures forall u: Thread :: u == t || !(s.At(u).Ending() || s.At(u) == Deleting)
  {
    ReachableInv(s);
    t := SomeoneIsLeft(s);
    forall u: Thread ensures u == t || !(s.At(u).Ending() || s.At(u) == Deleting) {
      EndsIf(s, u);
      EndsIf(s, t);
    }
  }

  // ----- Nothing gets stuck -----

  /** Who holds a strong reference can make another one, and a weak one. */
  lemma MoreReferences(s: State, t: Thread, ref: Ref) returns (moves: seq<Move>, strong: Ref, weak: Ref)
    requires Inv(s) && s.At(t) == Idle && ref in s.strong
    ensures CanRun(s, moves) && strong !in s.strong && weak !in s.weak
    ensures var s' := After(s, moves);
      s'.strong == s.strong + {strong} && s'.weak == s.weak + {weak} && s'.At(t) == Idle && s'.log == s.log
  {
    hide Inv, Enabled, Apply;
    strong := Fresh(s.strong);
    weak := Fresh(s.weak);
    var (retain, count) := (Retain(ref, strong), CountWeak(ref, weak));
    RetainsAndCounts(s, t, ref, strong, weak);
    var s1 := Apply(s, t, retain);
    var s2 := Apply(s1, t, count);
    var first := One(s, t, retain);
    var second := One(s1, t, count);
    var third := One(s2, t, StoreBlock);
    Joined(s1, second, third);
    Joined(s, first, second + third);
    moves := first + (second + third);
  }

  lemma RetainsAndCounts(s: State, t: Thread, ref: Ref, strong: Ref, weak: Ref)
    requires s.At(t) == Idle && ref in s.strong && strong !in s.strong && weak !in s.weak
    ensures var (retain, count) := (Retain(ref, strong), CountWeak(ref, weak));
      var s1 := Apply(s, t, retain);
      var s2 := Apply(s1, t, count);
      var s3 := Apply(s2, t, StoreBlock);
      && Enabled(s, t, retain) && Enabled(s1, t, count) && Enabled(s2, t, StoreBlock)
      && s3.strong == s.strong + {strong} && s3.weak == s.weak + {weak} && s3.At(t) == Idle && s3.log == s.log
  {
  }

  /** Who holds a weak reference can make another one, in the destructor of the object, too. */
  lemma MoreWeakReferences(s: State, t: Thread, ref: Ref) returns (weak: Ref)
    requires Inv(s) && s.At(t) in {Idle, Destructing} && ref in s.weak && !Creating(s, ref)
    ensures weak !in s.weak && Enabled(s, t, RetainWeak(ref, weak))
    ensures Apply(s, t, RetainWeak(ref, weak)).weak == s.weak + {weak}
    ensures Apply(s, t, RetainWeak(ref, weak)).At(t) == s.At(t)
  {
    hide Inv, Creating;
    weak := Fresh(s.weak);
  }

  /** The threads inside a runtime function that does not end the object. */
  function Busy(s: State): set<Thread> {
    set t | t in s.pcs && (s.pcs[t].StoringBlock? || s.pcs[t].Acquiring?)
  }

  lemma {:induction false} Fresh(taken: set<nat>) returns (n: nat)
    ensures forall x | x in taken :: x < n
    decreases taken
  {
    n := 0;
    if taken != {} {
      var x :| x in taken;
      var m := Fresh(taken - {x});
      n := if x < m then m else x + 1;
      assert forall y | y in taken :: y == x || y in taken - {x};
    }
  }

  /** A busy thread can leave the runtime function, whatever the others do. */
  lemma Leave(s: State, t: Thread) returns (moves: seq<Move>)
    requires Inv(s) && t in Busy(s)
    ensures CanRun(s, moves) && Busy(After(s, moves)) == Busy(s) - {t}
  {
    hide Counted, Logged, AtMostOne;
    if s.pcs[t].StoringBlock? {
      moves := One(s, t, StoreBlock);
    } else if s.pcs[t].expected == 0 {
      moves := One(s, t, GiveUp);
    } else {
      var added := Fresh(s.strong);
      var exchange := Exchange(false, added);
      moves := One(s, t, exchange);
      if s.strongCount != s.pcs[t].expected {
        var s1 := Apply(s, t, exchange);
        var last := if s.strongCount == 0 then GiveUp else exchange;
        var more := One(s1, t, last);
        assert [Move(t, exchange)] + more == [Move(t, exchange), Move(t, last)];
        assert ([Move(t, exchange)] + more)[1..] == more;
        assert Busy(Apply(s1, t, last)) == Busy(s) - {t};
        moves := [Move(t, exchange)] + more;
      } else {
        assert Busy(Apply(s, t, exchange)) == Busy(s) - {t};
      }
    }
  }

  lemma One(s: State, t: Thread, a: Action) returns (moves: seq<Move>)
    requires Enabled(s, t, a)
    ensures moves == [Move(t, a)] && CanRun(s, moves) && After(s, moves) == Apply(s, t, a)
  {
    hide Enabled, Apply;
    moves := [Move(t, a)];
    assert CanRun(Apply(s, t, a), []) && moves[1..] == [];
  }

  lemma {:induction false} Joined(s: State, first: seq<Move>, second: seq<Move>)
    requires CanRun(s, first) && CanRun(After(s, first), second)
    ensures CanRun(s, first + second) && After(s, first + second) == After(After(s, first), second)
    decreases first
  {
    hide Enabled, Apply;
    if first == [] {
      assert first + second == second;
    } else {
      assert (first + second)[0] == first[0] && (first + second)[1..] == first[1..] + second;
      Joined(Apply(s, first[0].thread, first[0].action), first[1..], second);
    }
  }

  /** A thread that is not busy, and no thread is, can release any reference. */
  lemma ReleaseOne(s: State) returns (moves: seq<Move>)
    requires Inv(s) && Busy(s) == {} && (s.strong != {} || s.weak != {})
    ensures CanRun(s, moves) && Busy(After(s, moves)) == {}
    ensures |After(s, moves).strong| + |After(s, moves).weak| < |s.strong| + |s.weak|
  {
    hide Counted, Logged, AtMostOne, UsesHeld;
    var t := Fresh(s.pcs.Keys);
    assert t !in s.pcs.Keys;
    forall u: Thread ensures !s.At(u).StoringBlock? && !s.At(u).Acquiring? {
      assert u !in Busy(s);
    }
    if s.strong != {} {
      var ref :| ref in s.strong;
      assert |s.strong - {ref}| == |s.strong| - 1;
      moves := One(s, t, ReleaseStrong(ref, true));
      assert Busy(Apply(s, t, ReleaseStrong(ref, true))) == {};
    } else {
      var ref :| ref in s.weak;
      assert |s.weak - {ref}| == |s.weak| - 1;
      moves := One(s, t, ReleaseWeak(ref));
      assert Busy(Apply(s, t, ReleaseWeak(ref))) == {};
    }
  }

  /** Nothing ever gets stuck: from every state there is a way to the end of the object and its block. */
  lemma {:induction false} CanAlwaysEnd(s: State) returns (moves: seq<Move>)
    requires Inv(s)
    ensures CanRun(s, moves) && Deleted in After(s, moves).log
    decreases |Busy(s)|, |s.strong| + |s.weak|
  {
    hide Inv, Apply, Enabled;
    if Deleted in s.log {
      moves := [];
    } else if Busy(s) != {} || s.strong != {} || s.weak != {} {
      if Busy(s) != {} {
        var t :| t in Busy(s);
        moves := Leave(s, t);
        assert |Busy(s) - {t}| == |Busy(s)| - 1;
      } else {
        moves := ReleaseOne(s);
      }
      RunInv(s, moves);
      var more := CanAlwaysEnd(After(s, moves));
      Joined(s, moves, more);
      moves := moves + more;
    } else {
      var t := SomeoneIsLeft(s);
      moves := CanFinish(s, t);
    }
  }

  lemma SomeoneIsLeft(s: State) returns (t: Thread)
    requires Inv(s) && s.strong == {} && s.weak == {} && Deleted !in s.log
    ensures s.At(t).Ending() || s.At(t) == Deleting
  {
    LogOf(s);
    assert SomeoneEnds(s) || SomeoneDeletes(s);
    t :| s.At(t).Ending() || s.At(t) == Deleting;
  }
}

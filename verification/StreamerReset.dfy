/** What the streamer has recorded of the calls made, and the delay before a start that resets. */
module StreamerReset {
  import opened StreamerProtocol
  import opened StreamerSafety

  // ----- demand -----

  function LastInternal(es: seq<Event>): bool
    decreases |es|
  {
    if es == [] then false
    else if es[|es| - 1].SetInternal? then es[|es| - 1].need else LastInternal(es[..|es| - 1])
  }

  function LastExternal(es: seq<Event>): bool
    decreases |es|
  {
    if es == [] then false
    else if es[|es| - 1].SetExternal? then es[|es| - 1].need else LastExternal(es[..|es| - 1])
  }

  predicate SameDemand(s: State, t: State) {
    t.internal == s.internal && t.external == s.external && t.hasDelay == s.hasDelay
  }

  /** What happens to the queues when the lock is given up. */
  predicate Left(s: State, t: State)
    requires s.lock != []
  {
    && SameDemand(s, t)
    && t.lock == s.lock[1..]
    && (t.ready == s.ready || t.ready == s.ready + [TimerTask])
    && (t.resumed == s.resumed
        || (s.lock[0].Call? && s.lock[0].next.MaybeStart? && t.resumed == s.resumed + [s.lock[0].next.reset]))
  }

  predicate Stayed(s: State, t: State) {
    SameDemand(s, t) && t.lock == s.lock && t.ready == s.ready && t.resumed == s.resumed
  }

  lemma ReleaseLeaves(s: State, u: State)
    requires u.lock == s.lock != [] && u.resumed == s.resumed && SameDemand(s, u)
    requires u.ready == s.ready || u.ready == s.ready + [TimerTask]
    ensures Left(s, Release(u))
  {}

  lemma StopLeavesOrStays(s: State, immediately: bool, force: bool)
    requires s.lock != []
    ensures var t := EnsureStopLocked(s, immediately, force); Left(s, t) || Stayed(s, t)
  {
    ReleaseLeaves(s, s);
    ReleaseLeaves(s, s.(timer := Fresh, ready := s.ready + [TimerTask]));
    hide Release;
    hide Left;
  }

  lemma StartLeavesOrStays(s: State, reset: bool)
    requires s.lock != []
    ensures var t := EnsureStartLocked(s, reset); Left(s, t) || Stayed(s, t)
  {
    ReleaseLeaves(s, s);
    hide Release;
    hide Left;
  }

  lemma AdvanceLeavesOrStays(s: State)
    requires s.lock != []
    ensures Left(s, AdvanceSpec(s)) || Stayed(s, AdvanceSpec(s))
  {
    ReleaseLeaves(s, s);
    hide Left;
    match s.phase
    case Idle =>
      match s.lock[0] {
        case Call(Start(reset), _) => StartLeavesOrStays(s, reset);
        case Call(Stop(immediately, force), _) => StopLeavesOrStays(s, immediately, force);
        case Restart(_, _) =>
        case TimerTask => hide Release;
      }
    case Starting => ReleaseLeaves(s, s.(task := true, live := s.live + 1));
    case Clearing => ReleaseLeaves(s, s.(task := false));
    case _ => hide Release;
  }

  lemma OthersKeepDemand(s: State, e: Event)
    ensures !e.SetInternal? ==> Next(s, e).internal == s.internal
    ensures !e.SetExternal? ==> Next(s, e).external == s.external
    ensures Next(s, e).hasDelay == s.hasDelay
  {
    if e.Advance? && s.lock != [] { AdvanceLeavesOrStays(s); }
    hide AdvanceSpec;
    hide WithoutTimer;
  }

  /** Over every run the streamer is required exactly if the last call of one of the setters asked
      for it. */
  lemma {:induction false} DemandIsRecorded(hasDelay: bool, es: seq<Event>)
    ensures Required(Run(Init(hasDelay), es)) <==> LastInternal(es) || LastExternal(es)
    ensures Run(Init(hasDelay), es).internal == LastInternal(es)
    ensures Run(Init(hasDelay), es).external == LastExternal(es)
    ensures Run(Init(hasDelay), es).hasDelay == hasDelay
    decreases |es|
  {
    if es != [] {
      DemandIsRecorded(hasDelay, es[..|es| - 1]);
      OthersKeepDemand(Run(Init(hasDelay), es[..|es| - 1]), es[|es| - 1]);
    }
  }

  // ----- the reset delay -----

  /** Every call that can start the streamer gives this `reset`. */
  predicate Asks(e: Event, reset: bool) {
    match e
    case SetInternal(need, r, _) => need ==> r == reset
    case SetExternal(need) => need ==> !reset
    case RestartCall(r, _) => r == reset
    case EnsureCall(op) => op.Start? ==> op.reset == reset
    case _ => true
  }

  predicate ItemAsks(x: Item, reset: bool) {
    match x
    case Call(op, next) => (op.Start? ==> op.reset == reset) && (next.MaybeStart? ==> next.reset == reset)
    case Restart(r, _) => r == reset
    case TimerTask => true
  }

  /** The lock's holder has slept for the reset delay. */
  function Waited(s: State, es: seq<Event>): bool
    decreases |es|
  {
    var t := Run(s, es);
    t.phase.Delaying? || (es != [] && !t.phase.Idle? && Waited(s, es[..|es| - 1]))
  }

  predicate AllAsk(s: State, reset: bool) {
    && (forall x :: x in s.ready ==> ItemAsks(x, reset))
    && (forall x :: x in s.lock ==> ItemAsks(x, reset))
    && (forall r :: r in s.resumed ==> r == reset)
  }

  lemma SpawnAsks(s: State, t: State, reset: bool)
    requires AllAsk(s, reset) && t.lock == s.lock && (forall r :: r in t.resumed ==> r in s.resumed)
    requires t.ready == s.ready || (|t.ready| == |s.ready| + 1 && t.ready == s.ready + [t.ready[|s.ready|]])
    requires t.ready != s.ready ==> ItemAsks(t.ready[|s.ready|], reset)
    ensures AllAsk(t, reset)
  {}

  lemma AdvanceAsks(s: State, reset: bool)
    requires AllAsk(s, reset)
    ensures AllAsk(AdvanceSpec(s), reset)
  {
    if s.lock != [] {
      assert s.lock[0] in s.lock;
      AdvanceLeavesOrStays(s);
      hide AdvanceSpec;
    }
  }

  lemma SetterAsks(s: State, e: Event, reset: bool)
    requires AllAsk(s, reset) && Asks(e, reset) && (e.SetInternal? || e.SetExternal? || e.RestartCall? || e.EnsureCall?)
    ensures AllAsk(Next(s, e), reset)
  {
    hide AllAsk;
    SpawnAsks(s, Next(s, e), reset);
  }

  lemma DispatchAsks(s: State, reset: bool)
    requires AllAsk(s, reset)
    ensures AllAsk(DispatchSpec(s), reset)
  {
    if s.ready != [] {
      assert s.ready[0] in s.ready;
      var t := s.(ready := s.ready[1..]);
      if s.ready[0].Restart? { SpawnAsks(t, DispatchSpec(s), reset); }
    }
  }

  lemma NextAsks(s: State, e: Event, reset: bool)
    requires AllAsk(s, reset) && Asks(e, reset)
    ensures AllAsk(Next(s, e), reset)
  {
    match e {
      case Advance => AdvanceAsks(s, reset);
      case Dispatch => DispatchAsks(s, reset);
      case TimerUnwinds => WithoutTimerProperties(s.lock);
      case TimerElapses =>
      case ResumeRestart(index) =>
        if index < |s.resumed| { assert s.resumed[index] in s.resumed; SpawnAsks(s, Next(s, e), reset); }
      case _ => hide AllAsk; SetterAsks(s, e, reset);
    }
  }

  /** If every call gives this `reset`, then a streamer task starts after the reset delay exactly if
      `reset` is set and there is a delay. */
  lemma {:induction false} ResetDelayIsWaited(hasDelay: bool, es: seq<Event>, reset: bool)
    requires forall e :: e in es ==> Asks(e, reset)
    ensures AllAsk(Run(Init(hasDelay), es), reset)
    ensures Run(Init(hasDelay), es).phase.Starting? ==> (Waited(Init(hasDelay), es) <==> reset && hasDelay)
    ensures Waited(Init(hasDelay), es) ==> reset && hasDelay
    decreases |es|
  {
    hide Next;
    hide Asks;
    hide AllAsk;
    if es == [] {
      NothingAsked(hasDelay, reset);
    } else {
      var before, e := es[..|es| - 1], es[|es| - 1];
      assert e in es && forall x :: x in before ==> x in es;
      ResetDelayIsWaited(hasDelay, before, reset);
      NextAsks(Run(Init(hasDelay), before), e, reset);
      DemandIsRecorded(hasDelay, before);
      PhaseStep(Run(Init(hasDelay), before), e, reset);
    }
  }

  lemma NothingAsked(hasDelay: bool, reset: bool)
    ensures AllAsk(Init(hasDelay), reset)
  {}

  lemma PhaseStep(s: State, e: Event, reset: bool)
    requires AllAsk(s, reset)
    ensures Next(s, e).phase.Delaying? ==> s.phase.Delaying? || (reset && s.hasDelay)
    ensures Next(s, e).phase.Starting? ==>
              s.phase.Starting? || s.phase.Delaying? || (s.phase.Idle? && !(reset && s.hasDelay))
  {
    if e.Advance? {
      AdvancePhase(s, reset);
    } else {
      hide AdvanceSpec;
      hide AllAsk;
    }
  }

  lemma ReleaseIdles(s: State)
    requires s.lock != []
    ensures Release(s).phase.Idle?
  {}

  lemma StopPhase(s: State, immediately: bool, force: bool)
    requires s.lock != [] && s.phase.Idle?
    ensures var t := EnsureStopLocked(s, immediately, force); !t.phase.Delaying? && !t.phase.Starting?
  {
    ReleaseIdles(s);
    ReleaseIdles(s.(timer := Fresh, ready := s.ready + [TimerTask]));
    hide Release;
  }

  lemma StartPhase(s: State, reset: bool)
    requires s.lock != [] && s.phase.Idle?
    ensures var t := EnsureStartLocked(s, reset);
      && (t.phase.Delaying? ==> reset && s.hasDelay)
      && (t.phase.Starting? ==> !(reset && s.hasDelay))
  {
    ReleaseIdles(s);
    hide Release;
  }

  lemma AdvancePhase(s: State, reset: bool)
    requires AllAsk(s, reset)
    ensures var t := AdvanceSpec(s);
      && (t.phase.Delaying? ==> s.phase.Delaying? || (reset && s.hasDelay))
      && (t.phase.Starting? ==> s.phase.Starting? || s.phase.Delaying? || (s.phase.Idle? && !(reset && s.hasDelay)))
  {
    if s.lock != [] {
      assert ItemAsks(s.lock[0], reset);
      hide AllAsk;
      ReleaseIdles(s);
      match s.phase
      case Idle =>
        if s.lock[0].Call? {
          var op := s.lock[0].op;
          if op.Start? { StartPhase(s, op.reset); } else { StopPhase(s, op.immediately, op.force); }
          hide EnsureStartLocked;
          hide EnsureStopLocked;
        }
      case Starting => ReleaseIdles(s.(task := true, live := s.live + 1));
      case Clearing => ReleaseIdles(s.(task := false));
      case _ =>
    }
  }
}

/** Which calls end the streamer task: restarts and dropped demand, if they are at once. */
module StreamerRestart {
  import opened StreamerProtocol
  import opened StreamerSafety
  import opened StreamerDemand
  import opened StreamerDrain

  // ----- the history of the streamer task -----

  function Excess(a: int, b: int): nat { if a > b then a - b else 0 }

  /** How many streamer tasks have ended during a run, told by the number of live ones alone. */
  function Ended(s: State, es: seq<Event>): nat
    decreases |es|
  {
    if es == [] then 0
    else
      var before := es[..|es| - 1];
      Ended(s, before) + Excess(Run(s, before).live, Run(s, es).live)
  }

  function Started(s: State, es: seq<Event>): nat
    decreases |es|
  {
    if es == [] then 0
    else
      var before := es[..|es| - 1];
      Started(s, before) + Excess(Run(s, es).live, Run(s, before).live)
  }

  /** Every task that was started and has not ended is live. */
  lemma {:induction false} TasksAreConserved(hasDelay: bool, es: seq<Event>)
    ensures Run(Init(hasDelay), es).live == Started(Init(hasDelay), es) - Ended(Init(hasDelay), es)
    decreases |es|
  {
    hide Next;
    if es == [] {
      assert Init(hasDelay).live == 0;
    } else {
      TasksAreConserved(hasDelay, es[..|es| - 1]);
    }
  }

  // ----- calls that end the live task -----

  /** A restart: the method itself, or the setter's wish to reset a working streamer. */
  predicate IsRestart(e: Event) {
    || e.RestartCall?
    || (e.SetInternal? && e.need && e.reset)
  }

  /** A setter that leaves no demand, and does not return at its first line. */
  predicate Drops(s: State, e: Event) {
    && !Required(Next(s, e))
    && ((e.SetInternal? && !e.need && (s.internal || e.reset)) || (e.SetExternal? && !e.need && s.external))
  }

  /** The call does not wait for the shutdown delay; the setter's restart finds no planned stop. */
  predicate AtOnce(s: State, e: Event) {
    match e
    case RestartCall(_, immediately) => immediately
    case SetInternal(need, _, stopImmediately) => if need then Working(s) else stopImmediately
    case _ => true
  }

  predicate EndsTask(x: Item, forced: bool) {
    (x.Restart? && x.immediately) || (x.Call? && x.op.Stop? && x.op.immediately && (forced ==> x.op.force))
  }

  /** The live task's end is in line, whether wanted or not if it is forced. */
  predicate Due(s: State, forced: bool) {
    && s.live == 1
    && (forced || !Required(s))
    && ((exists x :: x in s.ready && EndsTask(x, forced)) || (exists x :: x in s.lock && EndsTask(x, forced)))
  }

  lemma ReleaseDue(s: State, forced: bool)
    requires Due(s, forced) && s.lock != [] && !EndsTask(s.lock[0], forced)
    ensures Due(Release(s), forced)
  {
    assert s.lock == [s.lock[0]] + s.lock[1..];
  }

  lemma PlannedDue(s: State, forced: bool)
    requires Due(s, forced) && s.lock != [] && !EndsTask(s.lock[0], forced)
    ensures Due(Release(s.(timer := Fresh, ready := s.ready + [TimerTask])), forced)
  {
    var planned := s.(timer := Fresh, ready := s.ready + [TimerTask]);
    assert forall x :: x in s.ready ==> x in planned.ready;
    ReleaseDue(planned, forced);
  }

  /** A forced stop at the head of the lock's queue gives the lock up only after the task's end. */
  lemma EndingHolder(s: State, forced: bool)
    requires Structure(s) && Due(s, forced) && s.lock != [] && EndsTask(s.lock[0], forced)
    ensures var t := AdvanceSpec(s); t.live < s.live || (t.live == s.live && t.lock == s.lock)
  {
    Heads(s);
  }

  lemma AdvanceDue(s: State, forced: bool)
    requires Structure(s) && Due(s, forced)
    ensures AdvanceSpec(s).live < s.live || Due(AdvanceSpec(s), forced)
  {
    Heads(s);
    if s.lock != [] {
      hide Structure;
      hide Release;
      if EndsTask(s.lock[0], forced) {
        EndingHolder(s, forced);
      } else {
        ReleaseDue(s, forced);
        PlannedDue(s, forced);
        OtherHolder(s, forced);
      }
    }
  }

  lemma OtherHolder(s: State, forced: bool)
    requires Structure(s) && Due(s, forced) && s.lock != [] && !EndsTask(s.lock[0], forced)
    ensures var t := AdvanceSpec(s);
      || t.live < s.live
      || (t.live == s.live && t.lock == s.lock && t.ready == s.ready)
      || t == Release(s)
      || t == Release(s.(timer := Fresh, ready := s.ready + [TimerTask]))
  {
    hide Release;
    Heads(s);
  }

  lemma SpawnDue(s: State, t: State, forced: bool)
    requires Due(s, forced) && t.live == s.live && s.ready <= t.ready && t.lock == s.lock
    requires forced || !Required(t)
    ensures Due(t, forced)
  {
    assert forall x :: x in s.ready ==> x in t.ready;
  }

  lemma DispatchDue(s: State, forced: bool)
    requires Structure(s) && Due(s, forced) && s.ready != []
    ensures Due(DispatchSpec(s), forced)
  {
    var first, rest := s.ready[0], s.ready[1..];
    assert s.ready == [first] + rest;
    match first
    case Call(_, _) =>
      assert first in s.lock + [first] && forall x :: x in s.lock ==> x in s.lock + [first];
    case Restart(reset, immediately) =>
      var stop := Call(Stop(immediately, true), MaybeStart(reset));
      assert stop in rest + [stop] && forall x :: x in rest ==> x in rest + [stop];
    case TimerTask =>
  }

  predicate Raises(e: Event) { (e.SetInternal? && e.need) || (e.SetExternal? && e.need) }

  lemma NextDue(s: State, e: Event, forced: bool)
    requires Structure(s) && Due(s, forced) && (forced || !Raises(e))
    ensures Next(s, e).live < s.live || Due(Next(s, e), forced)
  {
    match e {
      case Advance => AdvanceDue(s, forced);
      case Dispatch => if s.ready != [] { DispatchDue(s, forced); }
      case TimerUnwinds => WithoutTimerProperties(s.lock);
      case TimerElapses => assert forall x :: x in s.lock ==> x in s.lock + [TimerTask];
      case _ => hide Structure; assert forced || !Required(Next(s, e)); hide Due; SpawnDue(s, Next(s, e), forced);
    }
  }

  lemma CallIsDue(s: State, e: Event)
    requires Structure(s) && s.live == 1 && (IsRestart(e) || Drops(s, e)) && AtOnce(s, e)
    ensures Due(Next(s, e), IsRestart(e))
  {
    var t := Next(s, e);
    assert t.ready[|t.ready| - 1] in t.ready;
  }

  lemma {:induction false} StaysDue(hasDelay: bool, es: seq<Event>, more: seq<Event>, forced: bool)
    requires Due(Run(Init(hasDelay), es), forced) && (forced || forall e :: e in more ==> !Raises(e))
    ensures Ended(Init(hasDelay), es + more) > Ended(Init(hasDelay), es)
            || (Ended(Init(hasDelay), es + more) == Ended(Init(hasDelay), es) && Due(Run(Init(hasDelay), es + more), forced))
    decreases |more|
  {
    hide Next;
    hide Structure;
    hide Due;
    hide Raises;
    if more == [] {
      assert es + more == es;
    } else {
      var before := more[..|more| - 1];
      assert (es + more)[..|es + more| - 1] == es + before;
      assert more[|more| - 1] in more && forall e :: e in before ==> e in more;
      StaysDue(hasDelay, es, before, forced);
      AtMostOneStreamerTask(hasDelay, es + before);
      if Due(Run(Init(hasDelay), es + before), forced) {
        NextDue(Run(Init(hasDelay), es + before), more[|more| - 1], forced);
      }
    }
  }

  /** Over every run, direct calls and lost timers included: when no call is in flight again after
      an immediate restart, after the setter's restart of a working streamer, or after an
      immediate drop of the last demand that is not taken back, the task that was live has
      ended. */
  lemma CallEndsTask(hasDelay: bool, es: seq<Event>, e: Event, more: seq<Event>)
    requires Run(Init(hasDelay), es).live == 1
    requires IsRestart(e) || (Drops(Run(Init(hasDelay), es), e) && forall x :: x in more ==> !Raises(x))
    requires AtOnce(Run(Init(hasDelay), es), e)
    requires !InFlight(Run(Init(hasDelay), es + [e] + more))
    ensures Ended(Init(hasDelay), es + [e] + more) > Ended(Init(hasDelay), es)
  {
    hide Next;
    hide Structure;
    hide AtOnce;
    hide Raises;
    var s := Run(Init(hasDelay), es);
    assert (es + [e])[..|es|] == es;
    AtMostOneStreamerTask(hasDelay, es);
    CallIsDue(s, e);
    StaysDue(hasDelay, es + [e], more, IsRestart(e));
    var t := Run(Init(hasDelay), es + [e] + more);
    assert forall x :: x in t.ready || x in t.lock ==> x in t.lock + t.ready;
  }

  /** If demand still holds then, and the handle was never lost, a new task has been started and
      runs with no planned stop; if it does not, none runs but to be stopped. */
  lemma RestartStartsTask(hasDelay: bool, es: seq<Event>, e: Event, more: seq<Event>)
    requires DemandOnly(es + [e] + more) && Clean(Init(hasDelay), es + [e] + more)
    requires Run(Init(hasDelay), es).live == 1
    requires IsRestart(e) && AtOnce(Run(Init(hasDelay), es), e)
    requires !InFlight(Run(Init(hasDelay), es + [e] + more))
    ensures var t := Run(Init(hasDelay), es + [e] + more);
      if Required(t) then
        Working(t) && t.live == 1 && Started(Init(hasDelay), es + [e] + more) > Started(Init(hasDelay), es)
      else !t.task || PlannedStop(t)
  {
    CallEndsTask(hasDelay, es, e, more);
    DemandAgreement(hasDelay, es + [e] + more);
    TasksAreConserved(hasDelay, es);
    TasksAreConserved(hasDelay, es + [e] + more);
  }

  // ----- calls that are not at once -----

  /** A continuation that leaves the live task alone. */
  predicate Spared(hasDelay: bool, es: seq<Event>, more: seq<Event>) {
    (forall e :: e in more ==> Internal(e)) && Ended(Init(hasDelay), es + more) == Ended(Init(hasDelay), es)
  }

  lemma Extend(hasDelay: bool, es: seq<Event>, more: seq<Event>, e: Event, expected: State) returns (more': seq<Event>)
    requires Spared(hasDelay, es, more) && Internal(e)
    requires Next(Run(Init(hasDelay), es + more), e) == expected
    requires expected.live == Run(Init(hasDelay), es + more).live
    ensures Spared(hasDelay, es, more') && Run(Init(hasDelay), es + more') == expected
  {
    more' := more + [e];
    assert (es + more')[..|es + more'| - 1] == es + more;
  }

  lemma StartCancelsStop(hasDelay: bool, es: seq<Event>, more: seq<Event>, s: State, reset: bool) returns (more': seq<Event>)
    requires Spared(hasDelay, es, more) && Run(Init(hasDelay), es + more) == s
    requires s.ready == [Call(Start(reset), Done)] && s.lock == [] && s.phase.Idle? && s.task && s.timer.Sleeping?
    ensures Spared(hasDelay, es, more') && Run(Init(hasDelay), es + more') == s.(ready := [], timer := Off)
  {
    hide Run;
    hide Spared;
    var start := Call(Start(reset), Done);
    more' := Extend(hasDelay, es, more, Dispatch, s.(ready := [], lock := [start]));
    more' := Extend(hasDelay, es, more', Advance, s.(ready := [], lock := [start], phase := CancellingTimer));
    more' := Extend(hasDelay, es, more', TimerUnwinds,
                    s.(ready := [], lock := [start], phase := CancellingTimer, timer := Off));
    more' := Extend(hasDelay, es, more', Advance, s.(ready := [], timer := Off));
  }

  lemma StopPlans(s: State, reset: bool)
    requires s.lock == [Call(Stop(false, true), MaybeStart(reset))] && s.ready == [] && s.resumed == [] && s.phase.Idle?
    requires s.task
    ensures Next(s, Advance) ==
      if s.timer.Off? then s.(lock := [], ready := [TimerTask], timer := Fresh, resumed := [reset])
      else s.(lock := [], resumed := [reset])
  {}

  lemma DelayedStopPlanned(hasDelay: bool, es: seq<Event>, s: State, reset: bool) returns (more: seq<Event>)
    requires s == Run(Init(hasDelay), es)
    requires s.ready == [Call(Stop(false, true), MaybeStart(reset))] && s.lock == [] && s.resumed == [] && s.phase.Idle?
    requires s.task && (s.timer.Off? || s.timer.Sleeping?)
    ensures Spared(hasDelay, es, more)
    ensures Run(Init(hasDelay), es + more) == s.(ready := [], timer := Sleeping, resumed := [reset])
  {
    assert es + [] == es;
    assert Spared(hasDelay, es, []);
    hide Run;
    hide Spared;
    var stop := Call(Stop(false, true), MaybeStart(reset));
    more := Extend(hasDelay, es, [], Dispatch, s.(ready := [], lock := [stop]));
    StopPlans(s.(ready := [], lock := [stop]), reset);
    hide AdvanceSpec;
    if s.timer.Off? {
      more := Extend(hasDelay, es, more, Advance, s.(ready := [TimerTask], timer := Fresh, resumed := [reset]));
      more := Extend(hasDelay, es, more, Dispatch, s.(ready := [], timer := Sleeping, resumed := [reset]));
    } else {
      more := Extend(hasDelay, es, more, Advance, s.(ready := [], resumed := [reset]));
    }
  }

  lemma DelayedRestartSpares(hasDelay: bool, es: seq<Event>, s: State, reset: bool) returns (more: seq<Event>)
    requires s == Run(Init(hasDelay), es)
    requires s.ready == [Call(Stop(false, true), MaybeStart(reset))] && s.lock == [] && s.resumed == [] && s.phase.Idle?
    requires s.task && (s.timer.Off? || s.timer.Sleeping?)
    ensures Spared(hasDelay, es, more) && !InFlight(Run(Init(hasDelay), es + more))
  {
    hide Run;
    hide Spared;
    more := DelayedStopPlanned(hasDelay, es, s, reset);
    var planned := s.(ready := [], timer := Sleeping);
    if Required(s) {
      var start := Call(Start(reset), Done);
      more := Extend(hasDelay, es, more, ResumeRestart(0), planned.(ready := [start]));
      more := StartCancelsStop(hasDelay, es, more, planned.(ready := [start]), reset);
    } else {
      more := Extend(hasDelay, es, more, ResumeRestart(0), planned);
    }
  }

  lemma DelayedDropSpares(hasDelay: bool, es: seq<Event>, s: State) returns (more: seq<Event>)
    requires s == Run(Init(hasDelay), es)
    requires s.ready == [Call(Stop(false, false), Done)] && s.lock == [] && s.resumed == [] && s.phase.Idle?
    requires s.task && !Required(s) && (s.timer.Off? || s.timer.Sleeping?)
    ensures Spared(hasDelay, es, more) && !InFlight(Run(Init(hasDelay), es + more))
  {
    assert es + [] == es;
    assert Spared(hasDelay, es, []);
    hide Run;
    hide Spared;
    more := Extend(hasDelay, es, [], Dispatch, s.(ready := [], lock := [Call(Stop(false, false), Done)]));
    more := Extend(hasDelay, es, more, Advance,
                   if s.timer.Off? then s.(ready := [TimerTask], timer := Fresh) else s.(ready := []));
  }

  lemma LateCallSpares(hasDelay: bool, es: seq<Event>, e: Event) returns (more: seq<Event>)
    requires DemandOnly(es) && Clean(Init(hasDelay), es)
    requires AtRest(Run(Init(hasDelay), es)) && Run(Init(hasDelay), es).live == 1
    requires (IsRestart(e) || Drops(Run(Init(hasDelay), es), e)) && !AtOnce(Run(Init(hasDelay), es), e)
    ensures forall x :: x in more ==> Internal(x)
    ensures !InFlight(Run(Init(hasDelay), es + [e] + more))
    ensures Ended(Init(hasDelay), es + [e] + more) == Ended(Init(hasDelay), es)
  {
    var s := Run(Init(hasDelay), es);
    AtMostOneStreamerTask(hasDelay, es);
    WedgedExactlyWhenCancelledFresh(hasDelay, es);
    assert (es + [e])[..|es|] == es;
    assert (es + [e]) + [] == es + [e];
    if e.RestartCall? {
      more := DelayedRestartSpares(hasDelay, es + [e], Run(Init(hasDelay), es + [e]), e.reset);
    } else if e.need {
      more := StartCancelsStop(hasDelay, es + [e], [], Run(Init(hasDelay), es + [e]), true);
    } else {
      more := DelayedDropSpares(hasDelay, es + [e], Run(Init(hasDelay), es + [e]));
    }
  }

  lemma InternalRaisesNothing(more: seq<Event>)
    requires forall x :: x in more ==> Internal(x)
    ensures forall x :: x in more ==> !Raises(x)
  {}

  /** From rest, with a live task: whatever the event loop does, a restart or a drop of the last
      demand ends the task before no call is in flight again, exactly if it is at once. */
  lemma EndsExactlyAtOnce(hasDelay: bool, es: seq<Event>, e: Event)
    requires DemandOnly(es) && Clean(Init(hasDelay), es)
    requires AtRest(Run(Init(hasDelay), es)) && Run(Init(hasDelay), es).live == 1
    requires IsRestart(e) || Drops(Run(Init(hasDelay), es), e)
    ensures AtOnce(Run(Init(hasDelay), es), e) <==>
      forall more :: (forall x :: x in more ==> Internal(x)) && !InFlight(Run(Init(hasDelay), es + [e] + more))
        ==> Ended(Init(hasDelay), es + [e] + more) > Ended(Init(hasDelay), es)
  {
    hide Run;
    hide Ended;
    hide Clean;
    hide InFlight;
    hide AtRest;
    hide AtOnce;
    hide Drops;
    hide Raises;
    if AtOnce(Run(Init(hasDelay), es), e) {
      forall more | (forall x :: x in more ==> Internal(x)) && !InFlight(Run(Init(hasDelay), es + [e] + more))
        ensures Ended(Init(hasDelay), es + [e] + more) > Ended(Init(hasDelay), es)
      {
        InternalRaisesNothing(more);
        CallEndsTask(hasDelay, es, e, more);
      }
    } else {
      var more := LateCallSpares(hasDelay, es, e);
    }
  }
}

/** Safety of the streamer protocol over every run, and when its stop handle goes stale. */
module StreamerSafety {
  import opened StreamerProtocol

  lemma {:induction false} TimersConcat(a: seq<Item>, b: seq<Item>)
    ensures Timers(a + b) == Timers(a) + Timers(b)
  {
    if a == [] {
      assert a + b == b;
    } else {
      assert (a + b)[1..] == a[1..] + b;
      TimersConcat(a[1..], b);
    }
  }

  lemma {:induction false} WithoutTimerProperties(items: seq<Item>)
    ensures Timers(WithoutTimer(items)) == if Timers(items) > 0 then Timers(items) - 1 else 0
    ensures items != [] && !items[0].TimerTask? ==> WithoutTimer(items) != [] && WithoutTimer(items)[0] == items[0]
    ensures forall x :: x in WithoutTimer(items) ==> x in items
    ensures forall x :: x in items && !x.TimerTask? ==> x in WithoutTimer(items)
  {
    if items != [] {
      assert items == [items[0]] + items[1..];
      if !items[0].TimerTask? {
        WithoutTimerProperties(items[1..]);
        TimersConcat([items[0]], WithoutTimer(items[1..]));
      }
    }
  }

  // ----- one segment at a time -----

  /** The first item of each queue says where the timer is. */
  lemma Heads(s: State)
    requires Queues(s)
    ensures s.lock != [] ==> !s.lock[0].Restart?
    ensures TimerAtHead(s) ==> s.timer.Waiting? || s.timer.Holding?
    ensures s.ready != [] && s.ready[0].TimerTask? ==> s.timer.Fresh?
  {
    if s.lock != [] { assert s.lock[0] in s.lock; }
  }

  lemma ReleaseQueues(s: State)
    requires s.lock != []
    ensures Timers(Release(s).lock) == Timers(s.lock) - (if s.lock[0].TimerTask? then 1 else 0)
    ensures forall x :: x in Release(s).lock ==> x in s.lock
  {}

  lemma StartSegment(s: State)
    requires Structure(s) && CallAtHead(s) && s.lock[0].op.Start? && s.phase.Idle?
    ensures Structure(AdvanceSpec(s))
  {
    hide Timers;
    ReleaseQueues(s);
  }

  lemma StopSegmentControl(s: State)
    requires Structure(s) && CallAtHead(s) && s.lock[0].op.Stop? && s.phase.Idle?
    ensures Control(AdvanceSpec(s))
  {}

  /** A new timer joins the ready queue as the lock is given up. */
  lemma PlannedQueues(s: State)
    requires Queues(s) && CallAtHead(s) && s.timer.Off?
    ensures Queues(Release(s.(timer := Fresh, ready := s.ready + [TimerTask])))
  {
    TimersConcat(s.ready, [TimerTask]);
    assert Timers([TimerTask]) == 1;
    hide Timers;
    ReleaseQueues(s.(timer := Fresh, ready := s.ready + [TimerTask]));
  }

  lemma ReleasedQueues(s: State)
    requires Queues(s) && CallAtHead(s)
    ensures Queues(Release(s))
  {
    hide Timers;
    ReleaseQueues(s);
  }

  lemma StopSegmentQueues(s: State)
    requires Structure(s) && CallAtHead(s) && s.lock[0].op.Stop? && s.phase.Idle?
    ensures Queues(AdvanceSpec(s))
  {
    hide Timers;
    hide Control;
    hide Release;
    ReleasedQueues(s);
    if s.timer.Off? { PlannedQueues(s); }
  }

  lemma TimerSegment(s: State)
    requires Structure(s) && TimerAtHead(s) && s.phase.Idle?
    ensures Structure(AdvanceSpec(s))
  {
    Heads(s);
  }

  lemma CancelledSegment(s: State)
    requires Structure(s) && s.phase.CancellingTimer?
    ensures Structure(AdvanceSpec(s))
  {
    Heads(s);
    ReleaseQueues(s);
  }

  lemma StartingSegment(s: State)
    requires Structure(s) && (s.phase.Delaying? || s.phase.Starting?)
    ensures Structure(AdvanceSpec(s))
  {
    Heads(s);
    ReleaseQueues(s);
    ReleaseQueues(s.(task := true, live := s.live + 1));
  }

  lemma StoppingSegment(s: State)
    requires Structure(s) && (s.phase.Ending? || s.phase.Clearing?)
    ensures Structure(AdvanceSpec(s))
  {
    Heads(s);
    ReleaseQueues(s.(task := false));
  }

  lemma AdvanceKeepsStructure(s: State)
    requires Structure(s)
    ensures Structure(AdvanceSpec(s))
  {
    Heads(s);
    match s.phase
    case Idle =>
      if CallAtHead(s) {
        if s.lock[0].op.Start? { StartSegment(s); } else { StopSegmentControl(s); StopSegmentQueues(s); }
      } else if TimerAtHead(s) {
        TimerSegment(s);
      }
    case CancellingTimer => CancelledSegment(s);
    case Delaying => StartingSegment(s);
    case Starting => StartingSegment(s);
    case Ending => StoppingSegment(s);
    case Clearing => StoppingSegment(s);
  }

  lemma DispatchRestartStructure(s: State)
    requires Structure(s) && s.ready != [] && s.ready[0].Restart?
    ensures Structure(DispatchSpec(s))
  {
    var first, s' := s.ready[0], s.(ready := s.ready[1..]);
    assert Structure(s');
    hide Timers;
    SpawnTimers(s', RestartSpec(s', first.reset, first.immediately));
  }

  lemma DispatchKeepsStructure(s: State)
    requires Structure(s)
    ensures Structure(DispatchSpec(s))
  {
    Heads(s);
    if s.ready != [] {
      if s.ready[0].Restart? {
        DispatchRestartStructure(s);
      } else {
        TimersConcat(s.lock, [s.ready[0]]);
      }
    }
  }

  /** A call from outside touches neither the lock nor the timer. */
  lemma CallKeepsStructure(s: State, t: State)
    requires Structure(s)
    requires t == s.(internal := t.internal, external := t.external, resumed := t.resumed, ready := t.ready)
    requires t.ready == s.ready || exists item: Item :: !item.TimerTask? && t.ready == s.ready + [item]
    ensures Structure(t)
  {
    if t.ready != s.ready {
      TimersConcat(s.ready, [t.ready[|s.ready|]]);
    }
  }

  lemma TimerKeepsStructure(s: State)
    requires Structure(s)
    ensures Structure(TimerElapsesSpec(s)) && Structure(TimerUnwindsSpec(s))
  {
    WithoutTimerProperties(s.lock);
    TimersConcat(s.lock, [TimerTask]);
  }

  lemma SetInternalKeepsStructure(s: State, need: bool, reset: bool, immediately: bool)
    requires Structure(s)
    ensures Structure(SetInternalSpec(s, need, reset, immediately))
  {
    var t := SetInternalSpec(s, need, reset, immediately);
    if t.ready != s.ready { assert t.ready == s.ready + [t.ready[|s.ready|]]; }
    CallKeepsStructure(s, t);
  }

  lemma RestartKeepsStructure(s: State, e: Event)
    requires Structure(s) && (e.RestartCall? || e.ResumeRestart?)
    ensures Structure(Next(s, e))
  {
    var t := Next(s, e);
    if t.ready != s.ready { assert t.ready == s.ready + [t.ready[|s.ready|]]; }
    CallKeepsStructure(s, t);
  }

  lemma NextKeepsStructure(s: State, e: Event)
    requires Structure(s)
    ensures Structure(Next(s, e))
  {
    match e
    case Advance => AdvanceKeepsStructure(s);
    case Dispatch => DispatchKeepsStructure(s);
    case TimerUnwinds => TimerKeepsStructure(s);
    case TimerElapses => TimerKeepsStructure(s);
    case SetInternal(need, reset, immediately) => SetInternalKeepsStructure(s, need, reset, immediately);
    case RestartCall(_, _) => RestartKeepsStructure(s, e);
    case ResumeRestart(_) => RestartKeepsStructure(s, e);
    case SetExternal(_) => CallKeepsStructure(s, Next(s, e));
    case EnsureCall(_) => CallKeepsStructure(s, Next(s, e));
  }

  /** Calls add no timer to the ready queue. */
  lemma SpawnTimers(s: State, t: State)
    requires |t.ready| <= |s.ready| || (s.ready <= t.ready && |t.ready| == |s.ready| + 1)
    requires |t.ready| <= |s.ready| ==> t.ready == s.ready
    ensures |t.ready| > |s.ready| ==>
      Timers(t.ready) == Timers(s.ready) + (if t.ready[|s.ready|].TimerTask? then 1 else 0)
  {
    if |t.ready| > |s.ready| {
      assert t.ready == s.ready + [t.ready[|s.ready|]];
      TimersConcat(s.ready, [t.ready[|s.ready|]]);
    }
  }

  /** Over every run, cancelled timers and direct calls included: at most one streamer task
      exists, it exists exactly while the handle is set (but for its last steps), and a planned
      stop has a live task to stop unless the timer itself holds the lock. */
  lemma {:induction false} AtMostOneStreamerTask(hasDelay: bool, es: seq<Event>)
    ensures var s := Run(Init(hasDelay), es);
      && Structure(s)
      && 0 <= s.live <= 1
      && (s.live == 1 ==> s.task)
      && (Cancellable(s.timer) ==> s.live == 1)
      && (s.lock == [] && PlannedStop(s) ==> s.live == 1)
    decreases |es|
  {
    if es != [] {
      AtMostOneStreamerTask(hasDelay, es[..|es| - 1]);
      NextKeepsStructure(Run(Init(hasDelay), es[..|es| - 1]), es[|es| - 1]);
    }
  }

  // ----- wedging -----

  lemma WedgedStays(s: State, e: Event)
    requires Structure(s) && Wedged(s)
    ensures Wedged(Next(s, e))
  {
    Heads(s);
  }

  lemma WedgedAdvance(s: State)
    requires Structure(s) && !Wedged(s)
    ensures Wedged(AdvanceSpec(s)) <==> CancelsFresh(s, Advance)
  {
    Heads(s);
  }

  lemma WedgedSteps(s: State, e: Event)
    requires Structure(s) && !Wedged(s)
    ensures Wedged(Next(s, e)) <==> CancelsFresh(s, e)
  {
    if e.Advance? { WedgedAdvance(s); }
  }

  /** `__stop_task` always refers to a timer that will clear it if and only if no step of the
      run cancels a timer before its first turn. */
  lemma {:induction false} WedgedExactlyWhenCancelledFresh(hasDelay: bool, es: seq<Event>)
    ensures Wedged(Run(Init(hasDelay), es)) <==> !Clean(Init(hasDelay), es)
    decreases |es|
  {
    if es != [] {
      var before := es[..|es| - 1];
      WedgedExactlyWhenCancelledFresh(hasDelay, before);
      AtMostOneStreamerTask(hasDelay, before);
      var s := Run(Init(hasDelay), before);
      if Wedged(s) { WedgedStays(s, es[|es| - 1]); } else { WedgedSteps(s, es[|es| - 1]); }
    }
  }

  predicate StaleAndDown(s: State) {
    s.timer.Stale? && !s.task && (s.phase.Idle? || s.phase.CancellingTimer?)
  }

  lemma StaleAndDownStays(s: State, e: Event)
    requires Structure(s) && StaleAndDown(s)
    ensures StaleAndDown(Next(s, e))
  {
    Heads(s);
  }

  /** Once the handle is stale and the streamer is down, nothing starts it again. */
  lemma {:induction false} StaleAndDownForever(s: State, es: seq<Event>)
    requires Structure(s) && StaleAndDown(s)
    ensures Structure(Run(s, es)) && StaleAndDown(Run(s, es)) && Run(s, es).live == 0
    decreases |es|
  {
    if es != [] {
      var t := Run(s, es[..|es| - 1]);
      StaleAndDownForever(s, es[..|es| - 1]);
      NextKeepsStructure(t, es[|es| - 1]);
      StaleAndDownStays(t, es[|es| - 1]);
    }
  }
}

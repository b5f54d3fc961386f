/** A run of the demand setters after which the streamer can never be started again. */
module StreamerWedge {
  import opened StreamerProtocol
  import opened StreamerSafety

  lemma Extend(es: seq<Event>, s: State, e: Event, expected: State) returns (es': seq<Event>, s': State)
    requires s == Run(Init(false), es) && DemandOnly(es) && !e.EnsureCall?
    requires Next(s, e) == expected
    ensures DemandOnly(es') && s' == expected == Run(Init(false), es')
  {
    es' := es + [e];
    s' := expected;
    assert es'[..|es'| - 1] == es;
  }

  const BEGIN := Call(Start(false), Done)
  const DELAYED_END := Call(Stop(false, false), Done)
  const QUICK_END := Call(Stop(true, false), Done)

  lemma StreamerUp() returns (es: seq<Event>, s: State)
    ensures DemandOnly(es) && s == Run(Init(false), es)
    ensures s == State(false, true, false, true, 1, Off, [], [], Idle, [])
  {
    es, s := Extend([], Init(false), SetInternal(true, false, false), State(false, true, false, false, 0, Off, [BEGIN], [], Idle, []));
    es, s := Extend(es, s, Dispatch, State(false, true, false, false, 0, Off, [], [BEGIN], Idle, []));
    es, s := Extend(es, s, Advance, State(false, true, false, false, 0, Off, [], [BEGIN], Starting, []));
    es, s := Extend(es, s, Advance, State(false, true, false, true, 1, Off, [], [], Idle, []));
  }

  lemma ThreeSettersQueued() returns (es: seq<Event>, s: State)
    ensures DemandOnly(es) && s == Run(Init(false), es)
    ensures s == State(false, false, false, true, 1, Off, [DELAYED_END, BEGIN, QUICK_END], [], Idle, [])
  {
    es, s := StreamerUp();
    es, s := Extend(es, s, SetInternal(false, false, false), State(false, false, false, true, 1, Off, [DELAYED_END], [], Idle, []));
    es, s := Extend(es, s, SetExternal(true), State(false, false, true, true, 1, Off, [DELAYED_END, BEGIN], [], Idle, []));
    es, s := Extend(es, s, SetExternal(false), State(false, false, false, true, 1, Off, [DELAYED_END, BEGIN, QUICK_END], [], Idle, []));
  }

  /** Three setters in one turn of the loop: a delayed stop, a start and an immediate stop
      are created; the start runs before the timer that the stop has just created. */
  lemma FreshTimerCancelled() returns (es: seq<Event>, s: State)
    ensures DemandOnly(es) && s == Run(Init(false), es)
    ensures s == State(false, false, false, true, 1, Fresh, [QUICK_END, TimerTask], [BEGIN], CancellingTimer, [])
  {
    es, s := ThreeSettersQueued();
    es, s := Extend(es, s, Dispatch, State(false, false, false, true, 1, Off, [BEGIN, QUICK_END], [DELAYED_END], Idle, []));
    es, s := Extend(es, s, Advance, State(false, false, false, true, 1, Fresh, [BEGIN, QUICK_END, TimerTask], [], Idle, []));
    es, s := Extend(es, s, Dispatch, State(false, false, false, true, 1, Fresh, [QUICK_END, TimerTask], [BEGIN], Idle, []));
    es, s := Extend(es, s, Advance, State(false, false, false, true, 1, Fresh, [QUICK_END, TimerTask], [BEGIN], CancellingTimer, []));
  }

  lemma StreamerDownAndStale() returns (es: seq<Event>, s: State)
    ensures DemandOnly(es) && s == Run(Init(false), es)
    ensures s == State(false, false, false, false, 0, Stale, [], [], Idle, [])
  {
    es, s := FreshTimerCancelled();
    es, s := Extend(es, s, Dispatch, State(false, false, false, true, 1, Fresh, [TimerTask], [BEGIN, QUICK_END], CancellingTimer, []));
    es, s := Extend(es, s, Dispatch, State(false, false, false, true, 1, Stale, [], [BEGIN, QUICK_END], CancellingTimer, []));
    es, s := Extend(es, s, Advance, State(false, false, false, true, 1, Stale, [], [QUICK_END], Idle, []));
    es, s := Extend(es, s, Advance, State(false, false, false, true, 1, Stale, [], [QUICK_END], CancellingTimer, []));
    es, s := Extend(es, s, Advance, State(false, false, false, true, 1, Stale, [], [QUICK_END], Ending, []));
    es, s := Extend(es, s, Advance, State(false, false, false, true, 0, Stale, [], [QUICK_END], Clearing, []));
    es, s := Extend(es, s, Advance, State(false, false, false, false, 0, Stale, [], [], Idle, []));
  }

  /** A run of the demand setters alone after which demand is recorded, no call is in flight,
      the streamer is down, and no continuation whatsoever starts it again. */
  lemma SettersCanWedge() returns (es: seq<Event>)
    ensures DemandOnly(es)
    ensures var s := Run(Init(false), es);
      !InFlight(s) && Required(s) && forall more :: !Run(s, more).task
  {
    var s;
    es, s := StreamerDownAndStale();
    es, s := Extend(es, s, SetInternal(true, false, false), State(false, true, false, false, 0, Stale, [BEGIN], [], Idle, []));
    es, s := Extend(es, s, Dispatch, State(false, true, false, false, 0, Stale, [], [BEGIN], Idle, []));
    es, s := Extend(es, s, Advance, State(false, true, false, false, 0, Stale, [], [BEGIN], CancellingTimer, []));
    es, s := Extend(es, s, Advance, State(false, true, false, false, 0, Stale, [], [], Idle, []));
    AtMostOneStreamerTask(false, es);
    forall more ensures !Run(s, more).task { StaleAndDownForever(s, more); }
  }
}

/** Every state comes to rest, and callers that wait for their calls never meet the lost timer. */
module StreamerDrain {
  import opened StreamerProtocol
  import opened StreamerSafety
  import opened StreamerDemand

  // ----- calls come to an end -----

  /** What happens without a new call. */
  predicate Internal(e: Event) { e.Dispatch? || e.Advance? || e.TimerElapses? || e.TimerUnwinds? || e.ResumeRestart? }

  predicate AtRest(s: State) { s.ready == [] && s.lock == [] && s.resumed == [] }

  /** The next event on the way to rest. */
  function Pick(s: State): Event {
    if s.lock != [] then
      if s.phase.CancellingTimer? && s.timer.Fresh? then Dispatch
      else if s.phase.CancellingTimer? && Cancellable(s.timer) then TimerUnwinds
      else Advance
    else if s.ready != [] then Dispatch
    else ResumeRestart(0)
  }

  function ReadyWeight(x: Item): nat {
    match x
    case Restart(_, _) => 24
    case Call(_, MaybeStart(_)) => 23
    case Call(_, Done) => 11
    case TimerTask => 3
  }

  function LockWeight(x: Item): nat { if x.Call? && x.next.MaybeStart? then 22 else 10 }

  function Ready(items: seq<Item>): nat { if items == [] then 0 else ReadyWeight(items[0]) + Ready(items[1..]) }

  function Locked(items: seq<Item>): nat { if items == [] then 0 else LockWeight(items[0]) + Locked(items[1..]) }

  function PhaseWeight(p: Phase): nat {
    match p
    case Idle => 6
    case CancellingTimer => 5
    case Delaying => 4
    case Starting => 3
    case Ending => 2
    case Clearing => 1
  }

  function TimerWeight(t: Timer): nat { if t.Fresh? then 2 else if t.Sleeping? then 1 else 0 }

  /** What is left to do. */
  function Work(s: State): nat {
    Ready(s.ready) + Locked(s.lock) + 12 * |s.resumed| + PhaseWeight(s.phase) + TimerWeight(s.timer)
  }

  lemma {:induction false} ReadySnoc(items: seq<Item>, x: Item)
    ensures Ready(items + [x]) == Ready(items) + ReadyWeight(x)
  {
    if items == [] {
      assert items + [x] == [x];
    } else {
      assert (items + [x])[1..] == items[1..] + [x];
      ReadySnoc(items[1..], x);
    }
  }

  lemma {:induction false} LockedSnoc(items: seq<Item>, x: Item)
    ensures Locked(items + [x]) == Locked(items) + LockWeight(x)
  {
    if items == [] {
      assert items + [x] == [x];
    } else {
      assert (items + [x])[1..] == items[1..] + [x];
      LockedSnoc(items[1..], x);
    }
  }

  lemma {:induction false} LockedWithoutTimer(items: seq<Item>)
    requires Timers(items) > 0
    ensures Locked(WithoutTimer(items)) < Locked(items)
  {
    if !items[0].TimerTask? { LockedWithoutTimer(items[1..]); }
  }

  lemma ReleaseWorks(s: State)
    requires s.lock != []
    ensures Work(Release(s)) < Work(s)
  {
    hide Ready;
  }

  lemma PlannedWorks(s: State)
    requires s.lock != [] && s.timer.Off? && s.phase.Idle?
    ensures Work(Release(s.(timer := Fresh, ready := s.ready + [TimerTask]))) < Work(s)
  {
    ReadySnoc(s.ready, TimerTask);
    hide Ready;
  }

  lemma CallAdvances(s: State)
    requires Structure(s) && CallAtHead(s) && !(s.phase.CancellingTimer? && Cancellable(s.timer))
    ensures Work(AdvanceSpec(s)) < Work(s)
  {
    hide Work;
    hide Queues;
    PhaseWorks(s, Starting);
    PhaseWorks(s, Delaying);
    PhaseWorks(s, CancellingTimer);
    PhaseWorks(s, Ending);
    hide Release;
    ReleaseWorks(s);
    match s.phase {
      case Idle => if s.timer.Off? { PlannedWorks(s); }
      case CancellingTimer =>
      case Delaying =>
      case Starting =>
        SameWork(s, s.(task := true, live := s.live + 1));
        ReleaseWorks(s.(task := true, live := s.live + 1));
      case Ending => EndingWorks(s);
      case Clearing =>
        SameWork(s, s.(task := false));
        ReleaseWorks(s.(task := false));
    }
  }

  lemma PhaseWorks(s: State, p: Phase)
    ensures PhaseWeight(p) < PhaseWeight(s.phase) ==> Work(s.(phase := p)) < Work(s)
  {}

  lemma EndingWorks(s: State)
    requires s.phase.Ending?
    ensures Work(s.(live := s.live - 1, phase := Clearing)) < Work(s)
  {}

  lemma SameWork(s: State, t: State)
    requires t == s.(task := t.task, live := t.live)
    ensures Work(t) == Work(s)
  {}

  lemma HoldingWorks(s: State)
    requires s.phase.Idle?
    ensures Work(s.(timer := Holding, phase := Ending)) < Work(s)
  {}

  lemma TimerAdvances(s: State)
    requires Structure(s) && TimerAtHead(s)
    ensures Work(AdvanceSpec(s)) < Work(s)
  {
    hide Work;
    hide Release;
    hide Queues;
    match s.phase {
      case Idle =>
        ReleaseWorks(s);
        HoldingWorks(s);
      case Ending => EndingWorks(s);
      case Clearing =>
        SameWork(s, s.(task := false));
        ReleaseWorks(s.(task := false));
    }
  }

  lemma DispatchWorks(s: State)
    requires s.ready != []
    ensures Work(DispatchSpec(s)) < Work(s)
  {
    var first, rest := s.ready[0], s.ready[1..];
    LockedSnoc(s.lock, first);
    if first.Restart? {
      ReadySnoc(rest, Call(Start(first.reset), Done));
      ReadySnoc(rest, Call(Stop(first.immediately, true), MaybeStart(first.reset)));
    }
    assert Ready(s.ready) == ReadyWeight(first) + Ready(rest);
    hide Ready;
    hide Locked;
  }

  lemma ResumeWorks(s: State)
    requires s.resumed != []
    ensures Work(ResumeSpec(s, 0)) < Work(s)
  {
    ReadySnoc(s.ready, Call(Start(s.resumed[0]), Done));
    hide Ready;
    hide Locked;
  }

  lemma PickWorks(s: State)
    requires Structure(s) && !AtRest(s)
    ensures Work(Next(s, Pick(s))) < Work(s)
  {
    Heads(s);
    hide Work;
    if s.lock != [] {
      if s.phase.CancellingTimer? && s.timer.Fresh? {
        DispatchWorks(s);
      } else if s.phase.CancellingTimer? && Cancellable(s.timer) {
        UnwindWorks(s);
      } else if CallAtHead(s) {
        CallAdvances(s);
      } else {
        TimerAdvances(s);
      }
    } else if s.ready != [] {
      DispatchWorks(s);
    } else {
      ResumeWorks(s);
    }
  }

  lemma UnwindWorks(s: State)
    requires Structure(s) && s.phase.CancellingTimer? && (s.timer.Sleeping? || s.timer.Waiting?)
    ensures Work(TimerUnwindsSpec(s)) < Work(s)
  {
    if s.timer.Waiting? { LockedWithoutTimer(s.lock); }
  }

  lemma {:induction false} RunCons(s: State, e: Event, es: seq<Event>)
    ensures Run(s, [e] + es) == Run(Next(s, e), es)
    decreases |es|
  {
    hide Next;
    if es == [] {
      assert [e] + es == [e] && [e][..0] == [];
    } else {
      assert ([e] + es)[..|es|] == [e] + es[..|es| - 1];
      RunCons(s, e, es[..|es| - 1]);
    }
  }

  lemma {:induction false} RunConcat(s: State, a: seq<Event>, b: seq<Event>)
    ensures Run(s, a + b) == Run(Run(s, a), b)
    decreases |b|
  {
    hide Next;
    if b == [] {
      assert a + b == a;
    } else {
      assert (a + b)[..|a + b| - 1] == a + b[..|b| - 1];
      RunConcat(s, a, b[..|b| - 1]);
    }
  }

  lemma {:induction false} Drain(s: State) returns (es: seq<Event>)
    requires Structure(s)
    ensures AtRest(Run(s, es)) && forall e :: e in es ==> Internal(e)
    decreases Work(s)
  {
    hide Next;
    hide Structure;
    hide Work;
    if AtRest(s) {
      es := [];
    } else {
      var e := Pick(s);
      PickWorks(s);
      NextKeepsStructure(s, e);
      var rest := Drain(Next(s, e));
      RunCons(s, e, rest);
      es := [e] + rest;
    }
  }

  /** From every reachable state, forced stops and direct calls included, some sequence of events
      without a new call ends with no call in flight. */
  lemma EveryRunDrains(hasDelay: bool, es: seq<Event>) returns (more: seq<Event>)
    ensures forall e :: e in more ==> Internal(e)
    ensures !InFlight(Run(Init(hasDelay), es + more))
  {
    hide Structure;
    AtMostOneStreamerTask(hasDelay, es);
    more := Drain(Run(Init(hasDelay), es));
    RunConcat(Init(hasDelay), es, more);
  }

  // ----- callers that wait -----

  /** Each call is made when no other is in flight and a new delayed stop has had its first turn. */
  predicate Patient(s: State, es: seq<Event>)
    decreases |es|
  {
    es == []
    || (var before, e := es[..|es| - 1], es[|es| - 1];
        && Patient(s, before)
        && (Internal(e) || (!InFlight(Run(s, before)) && !Run(s, before).timer.Fresh?)))
  }

  function NonTimers(items: seq<Item>): nat {
    if items == [] then 0 else (if items[0].TimerTask? then 0 else 1) + NonTimers(items[1..])
  }

  lemma {:induction false} NonTimersSnoc(items: seq<Item>, x: Item)
    ensures NonTimers(items + [x]) == NonTimers(items) + if x.TimerTask? then 0 else 1
  {
    if items == [] {
      assert items + [x] == [x];
    } else {
      assert (items + [x])[1..] == items[1..] + [x];
      NonTimersSnoc(items[1..], x);
    }
  }

  lemma {:induction false} NonTimersZero(items: seq<Item>)
    ensures NonTimers(items) == 0 <==> forall x :: x in items ==> x.TimerTask?
  {
    if items != [] {
      assert items == [items[0]] + items[1..];
      NonTimersZero(items[1..]);
    }
  }

  lemma {:induction false} NonTimersWithoutTimer(items: seq<Item>)
    ensures NonTimers(WithoutTimer(items)) == NonTimers(items)
  {
    if items != [] && !items[0].TimerTask? { NonTimersWithoutTimer(items[1..]); }
  }

  lemma NothingLeft(items: seq<Item>)
    requires NonTimers(items) == 0 && Timers(items) == 0
    ensures items == []
  {}

  function Calls(s: State): nat { NonTimers(s.ready) + NonTimers(s.lock) + |s.resumed| }

  /** At most one call is in flight, and none is ahead of a new timer. */
  predicate Solo(s: State) {
    Calls(s) <= 1 && (s.timer.Fresh? ==> s.lock == [] && s.ready != [] && s.ready[0].TimerTask?)
  }

  lemma QuietHasNoCalls(s: State)
    requires !InFlight(s)
    ensures Calls(s) == 0
  {
    NonTimersZero(s.ready);
    NonTimersZero(s.lock);
    assert forall x :: x in s.ready || x in s.lock ==> x in s.lock + s.ready;
  }

  lemma SpawnSolo(s: State, t: State, item: Item)
    requires Calls(s) == 0 && t.timer == s.timer && !s.timer.Fresh? && t.lock == s.lock && t.resumed == s.resumed
    requires t.ready == s.ready || t.ready == s.ready + [item]
    ensures Solo(t)
  {
    NonTimersSnoc(s.ready, item);
  }

  lemma CallSolo(s: State, e: Event)
    requires !InFlight(s) && !s.timer.Fresh? && (e.SetInternal? || e.SetExternal? || e.RestartCall?)
    ensures Solo(Next(s, e))
  {
    QuietHasNoCalls(s);
    hide InFlight;
    hide Solo;
    hide Calls;
    var n := Next(s, e);
    SpawnSolo(s, n, if |n.ready| > |s.ready| then n.ready[|s.ready|] else TimerTask);
  }

  lemma DispatchSolo(s: State)
    requires Structure(s) && Solo(s)
    ensures Solo(DispatchSpec(s))
  {
    Heads(s);
    if s.ready != [] {
      var first, rest := s.ready[0], s.ready[1..];
      NonTimersSnoc(s.lock, first);
      if first.Restart? {
        NonTimersSnoc(rest, Call(Start(first.reset), Done));
        NonTimersSnoc(rest, Call(Stop(first.immediately, true), MaybeStart(first.reset)));
      }
    }
  }

  lemma ReleaseSolo(s: State)
    requires Solo(s) && s.lock != [] && !s.timer.Fresh?
    ensures Solo(Release(s))
  {}

  lemma PlannedSolo(s: State)
    requires Structure(s) && Solo(s) && CallAtHead(s) && s.timer.Off?
    ensures Solo(Release(s.(timer := Fresh, ready := s.ready + [TimerTask])))
  {
    NothingLeft(s.ready);
    NothingLeft(s.lock[1..]);
    NonTimersSnoc(s.ready, TimerTask);
  }

  lemma AdvanceSolo(s: State)
    requires Structure(s) && Solo(s)
    ensures Solo(AdvanceSpec(s))
  {
    hide Release;
    hide NonTimers;
    hide Timers;
    Heads(s);
    if s.lock != [] {
      ReleaseSolo(s);
      ReleaseSolo(s.(task := true, live := s.live + 1));
      ReleaseSolo(s.(task := false));
      if CallAtHead(s) && s.timer.Off? { PlannedSolo(s); }
    }
  }

  lemma ResumeSolo(s: State, index: nat)
    requires Solo(s)
    ensures Solo(ResumeSpec(s, index))
  {
    if index < |s.resumed| { NonTimersSnoc(s.ready, Call(Start(s.resumed[index]), Done)); }
  }

  lemma TimerSolo(s: State)
    requires Structure(s) && Solo(s)
    ensures Solo(TimerElapsesSpec(s)) && Solo(TimerUnwindsSpec(s))
  {
    NonTimersSnoc(s.lock, TimerTask);
    NonTimersWithoutTimer(s.lock);
  }

  lemma StepSolo(s: State, e: Event)
    requires Structure(s) && Solo(s) && !e.EnsureCall?
    requires Internal(e) || (!InFlight(s) && !s.timer.Fresh?)
    ensures Solo(Next(s, e)) && !CancelsFresh(s, e)
  {
    match e {
      case Dispatch => DispatchSolo(s);
      case Advance => AdvanceSolo(s);
      case ResumeRestart(index) => ResumeSolo(s, index);
      case TimerElapses => TimerSolo(s);
      case TimerUnwinds => TimerSolo(s);
      case _ => CallSolo(s, e);
    }
  }

  lemma {:induction false} PatientRuns(hasDelay: bool, es: seq<Event>)
    requires DemandOnly(es) && Patient(Init(hasDelay), es)
    ensures Solo(Run(Init(hasDelay), es)) && Clean(Init(hasDelay), es)
    decreases |es|
  {
    hide Next;
    hide Structure;
    hide Solo;
    hide CancelsFresh;
    if es == [] {
      StartsSolo(hasDelay);
    } else {
      var before, e := es[..|es| - 1], es[|es| - 1];
      assert e in es && forall x :: x in before ==> x in es;
      PatientRuns(hasDelay, before);
      AtMostOneStreamerTask(hasDelay, before);
      StepSolo(Run(Init(hasDelay), before), e);
    }
  }

  lemma StartsSolo(hasDelay: bool)
    ensures Solo(Init(hasDelay))
  {}

  /** With callers that wait for their calls, and for a new delayed stop's first turn, demand and the
      running state agree whenever no call is in flight. */
  lemma PatientCallersAreServed(hasDelay: bool, es: seq<Event>)
    requires DemandOnly(es) && Patient(Init(hasDelay), es)
    requires !InFlight(Run(Init(hasDelay), es))
    ensures Agreement(Run(Init(hasDelay), es))
  {
    PatientRuns(hasDelay, es);
    DemandAgreement(hasDelay, es);
  }
}

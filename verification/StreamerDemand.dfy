/** Demand and the running state agree whenever no call is in flight. */
module StreamerDemand {
  import opened Options
  import opened StreamerProtocol
  import opened StreamerSafety

  /** The last start or stop that is queued or running. */
  function LastOp(items: seq<Item>): Option<Op> {
    if items == [] then None
    else if items[|items| - 1].Call? then Some(items[|items| - 1].op)
    else LastOp(items[..|items| - 1])
  }

  lemma {:induction false} LastOpConcat(a: seq<Item>, b: seq<Item>)
    ensures LastOp(a + b) == if LastOp(b).Some? then LastOp(b) else LastOp(a)
  {
    if b == [] {
      assert a + b == a;
    } else {
      assert (a + b)[..|a + b| - 1] == a + b[..|b| - 1];
      LastOpConcat(a, b[..|b| - 1]);
    }
  }

  lemma {:induction false} WithoutTimerLast(items: seq<Item>)
    ensures LastOp(WithoutTimer(items)) == LastOp(items)
  {
    if items != [] {
      var first, rest := items[0], items[1..];
      assert items == [first] + rest;
      LastOpConcat([first], rest);
      if !first.TimerTask? {
        WithoutTimerLast(rest);
        LastOpConcat([first], WithoutTimer(rest));
      }
    }
  }

  predicate Promises(x: Item) { x.Restart? || (x.Call? && (x.op.Start? || x.next.MaybeStart?)) }

  predicate Promised(s: State) {
    s.resumed != [] || (exists x :: x in s.lock && Promises(x)) || (exists x :: x in s.ready && Promises(x))
  }

  predicate Up(s: State) { Working(s) && !s.phase.CancellingTimer? && !s.phase.Ending? && !s.phase.Clearing? }

  /** The line of operations: the lock's queue, then the tasks about to join it. */
  function Last(s: State): Option<Op> { LastOp(s.lock + s.ready) }

  predicate DemandServed(s: State) {
    && (Required(s) ==> Up(s) || Promised(s))
    && (!Required(s) ==> if Last(s).Some? then Last(s).value.Stop? else !s.task || !s.timer.Off?)
    && (forall x | x in s.lock + s.ready :: x.Call? && x.op.Stop? && x.op.force ==> x.next.MaybeStart?)
  }

  lemma SpawnLast(s: State, item: Item)
    ensures Last(Spawn(s, item)) == if item.Call? then Some(item.op) else Last(s)
  {
    assert s.lock + (s.ready + [item]) == (s.lock + s.ready) + [item];
    LastOpConcat(s.lock + s.ready, [item]);
    assert LastOp([item]) == if item.Call? then Some(item.op) else None;
  }

  lemma SpawnServed(s: State, item: Item)
    requires DemandServed(s)
    requires !Required(s) ==> (item.Call? ==> item.op.Stop?)
    requires item.Call? && item.op.Stop? && item.op.force ==> item.next.MaybeStart?
    ensures DemandServed(Spawn(s, item))
  {
    SpawnLast(s, item);
    assert forall x :: x in (s.lock + (s.ready + [item])) ==> x in s.lock + s.ready || x == item;
    assert forall x :: x in s.ready ==> x in Spawn(s, item).ready;
  }

  lemma PromisedBy(s: State, x: Item)
    requires (x in s.lock || x in s.ready) && Promises(x)
    ensures Promised(s)
  {}

  /** A setter that raises demand spawns a start; one that drops it spawns a stop, last in line. */
  lemma SetterServed(s: State, s': State, item: Item)
    requires DemandServed(s)
    requires s' == Spawn(s.(internal := s'.internal, external := s'.external), item)
    requires Required(s') ==> Promises(item)
    requires !Required(s') ==> item.Call? && item.op.Stop?
    requires item.Call? && item.op.Stop? && item.op.force ==> item.next.MaybeStart?
    ensures DemandServed(s')
  {
    SpawnLast(s.(internal := s'.internal, external := s'.external), item);
    assert item in s'.ready;
    assert forall x :: x in (s.lock + (s.ready + [item])) ==> x in s.lock + s.ready || x == item;
  }

  lemma SetInternalServed(s: State, need: bool, reset: bool, immediately: bool)
    requires DemandServed(s)
    ensures DemandServed(SetInternalSpec(s, need, reset, immediately))
  {
    var s' := SetInternalSpec(s, need, reset, immediately);
    if s' != s && s'.ready != s.ready {
      SetterServed(s, s', s'.ready[|s'.ready| - 1]);
    }
  }

  lemma SetExternalServed(s: State, need: bool)
    requires DemandServed(s)
    ensures DemandServed(SetExternalSpec(s, need))
  {
    var s' := SetExternalSpec(s, need);
    if s' != s && s'.ready != s.ready {
      SetterServed(s, s', s'.ready[|s'.ready| - 1]);
    }
  }

  lemma RestartServed(s: State, reset: bool, immediately: bool)
    requires DemandServed(s)
    ensures DemandServed(RestartSpec(s, reset, immediately))
  {
    if s.task {
      SpawnServed(s, Call(Stop(immediately, true), MaybeStart(reset)));
    } else if Required(s) {
      SpawnServed(s, Call(Start(reset), Done));
    }
  }

  lemma ResumeServed(s: State, index: nat)
    requires DemandServed(s)
    ensures DemandServed(ResumeSpec(s, index))
  {
    if index < |s.resumed| {
      var s' := s.(resumed := s.resumed[..index] + s.resumed[index + 1..]);
      if Required(s') {
        var item := Call(Start(s.resumed[index]), Done);
        SpawnLast(s', item);
        PromisedBy(Spawn(s', item), item);
        assert forall x :: x in (s.lock + (s.ready + [item])) ==> x in s.lock + s.ready || x == item;
      }
    }
  }

  lemma DispatchLast(s: State)
    requires s.ready != []
    ensures Last(s) == if LastOp(s.ready[1..]).Some? then LastOp(s.ready[1..])
                       else if s.ready[0].Call? then Some(s.ready[0].op) else LastOp(s.lock)
    ensures LastOp(s.lock + s.ready[1..]) ==
            if LastOp(s.ready[1..]).Some? then LastOp(s.ready[1..]) else LastOp(s.lock)
  {
    var first, rest := s.ready[0], s.ready[1..];
    assert s.lock + s.ready == (s.lock + [first]) + rest;
    LastOpConcat(s.lock + [first], rest);
    LastOpConcat(s.lock, [first]);
    LastOpConcat(s.lock, rest);
    assert LastOp([first]) == if first.Call? then Some(first.op) else None;
  }

  lemma DispatchRestartServed(s: State)
    requires DemandServed(s) && s.ready != [] && s.ready[0].Restart?
    ensures DemandServed(DispatchSpec(s))
  {
    var first, rest := s.ready[0], s.ready[1..];
    assert s.ready == [first] + rest;
    DispatchLast(s);
    var s' := s.(ready := rest);
    var t := DispatchSpec(s);
    if t != s' {
      var item := t.ready[|rest|];
      assert t == Spawn(s', item);
      SpawnLast(s', item);
      if Required(s) { PromisedBy(t, item); }
    }
  }

  lemma DispatchCallServed(s: State)
    requires DemandServed(s) && s.ready != [] && s.ready[0].Call?
    ensures DemandServed(DispatchSpec(s))
  {
    var first, rest := s.ready[0], s.ready[1..];
    assert s.ready == [first] + rest;
    assert (s.lock + [first]) + rest == s.lock + s.ready;
  }

  lemma DispatchTimerServed(s: State)
    requires DemandServed(s) && s.timer.Fresh? && s.ready != [] && s.ready[0].TimerTask?
    ensures DemandServed(DispatchSpec(s))
  {
    hide LastOp;
    assert s.ready == [s.ready[0]] + s.ready[1..];
    DispatchLast(s);
  }

  lemma DispatchServed(s: State)
    requires Structure(s) && DemandServed(s)
    ensures DemandServed(DispatchSpec(s))
  {
    Heads(s);
    if s.ready != [] {
      match s.ready[0]
      case Call(_, _) => DispatchCallServed(s);
      case TimerTask => DispatchTimerServed(s);
      case Restart(_, _) => DispatchRestartServed(s);
    }
  }

  lemma ReleaseLast(s: State)
    requires s.lock != []
    ensures var rest := Last(Release(s));
            Last(s) == if rest.Some? then rest else if s.lock[0].Call? then Some(s.lock[0].op) else None
    ensures forall x :: x in Release(s).lock + Release(s).ready ==> x in s.lock + s.ready
  {
    var first, rest := s.lock[0], s.lock[1..];
    assert s.lock == [first] + rest;
    assert s.lock + s.ready == [first] + (rest + s.ready);
    LastOpConcat([first], rest + s.ready);
    assert LastOp([first]) == if first.Call? then Some(first.op) else None;
  }

  /** What a segment must have reached before it gives the lock up. */
  lemma ReleaseServed(s: State)
    requires s.lock != []
    requires forall x | x in s.lock + s.ready :: x.Call? && x.op.Stop? && x.op.force ==> x.next.MaybeStart?
    requires Required(s) ==> (Working(s) || (s.lock[0].Call? && s.lock[0].next.MaybeStart?)
                              || (!Promises(s.lock[0]) && Promised(s)))
    requires !Required(s) && Last(s).Some? ==> Last(s).value.Stop?
    requires !Required(s) && (s.lock[0].Call? ==> s.lock[0].op.Stop?) ==> !s.task || !s.timer.Off?
    requires s.lock[0].TimerTask? ==> !s.task
    ensures DemandServed(Release(s))
  {
    hide LastOp;
    ReleaseLast(s);
    assert s.lock == [s.lock[0]] + s.lock[1..];
  }

  lemma StartServed(s: State)
    requires Structure(s) && DemandServed(s) && CallAtHead(s) && s.lock[0].op.Start? && s.phase.Idle?
    ensures DemandServed(AdvanceSpec(s))
  {
    if s.task && s.timer.Off? { ReleaseServed(s); }
  }

  lemma StopServed(s: State)
    requires Structure(s) && DemandServed(s) && CallAtHead(s) && s.lock[0].op.Stop? && s.phase.Idle?
    ensures DemandServed(AdvanceSpec(s))
  {
    var Stop(immediately, force) := s.lock[0].op;
    assert s.lock[0] in s.lock + s.ready;
    if !s.task || (!force && Required(s)) {
      ReleaseServed(s);
    } else if !immediately && s.timer.Off? {
      var s' := s.(timer := Fresh);
      SpawnLast(s', TimerTask);
      ReleaseServed(Spawn(s', TimerTask));
    } else if !immediately {
      ReleaseServed(s);
    }
  }

  lemma HolderServed(s: State)
    requires Structure(s) && DemandServed(s) && !Wedged(s) && CallAtHead(s) && !s.phase.Idle?
    ensures DemandServed(AdvanceSpec(s))
  {
    assert s.lock[0] in s.lock;
    match s.phase
    case CancellingTimer =>
      if s.timer.Off? && s.lock[0].op.Start? { ReleaseServed(s); }
    case Delaying =>
    case Starting => ReleaseServed(s.(task := true, live := s.live + 1));
    case Ending =>
    case Clearing => ReleaseServed(s.(task := false));
  }

  lemma TimerServed(s: State)
    requires Structure(s) && DemandServed(s) && TimerAtHead(s)
    ensures DemandServed(AdvanceSpec(s))
  {
    Heads(s);
    match s.phase
    case Idle =>
    case Ending =>
    case Clearing => ReleaseServed(s.(task := false));
  }

  lemma TimerUnwindsServed(s: State)
    requires Structure(s) && DemandServed(s)
    ensures DemandServed(TimerUnwindsSpec(s))
  {
    if s.phase.CancellingTimer? {
      Heads(s);
      assert s.lock[0] in s.lock;
      WithoutTimerProperties(s.lock);
      WithoutTimerLast(s.lock);
      LastOpConcat(s.lock, s.ready);
      LastOpConcat(WithoutTimer(s.lock), s.ready);
      if LastOp(s.lock + s.ready).None? { NoOpNoCall(s.lock, 0); }
    }
  }

  lemma {:induction false} NoOpNoCall(items: seq<Item>, i: nat)
    requires LastOp(items).None? && i < |items|
    ensures !items[i].Call?
  {
    if i < |items| - 1 { NoOpNoCall(items[..|items| - 1], i); }
  }

  lemma TimerElapsesServed(s: State)
    requires DemandServed(s)
    ensures DemandServed(TimerElapsesSpec(s))
  {
    LastOpConcat(s.lock, s.ready);
    LastOpConcat(s.lock + [TimerTask], s.ready);
    LastOpConcat(s.lock, [TimerTask]);
    assert LastOp([TimerTask]) == None;
  }

  lemma NextServed(s: State, e: Event)
    requires Structure(s) && DemandServed(s) && !Wedged(s) && !e.EnsureCall?
    ensures DemandServed(Next(s, e))
  {
    match e
    case SetInternal(need, reset, immediately) => SetInternalServed(s, need, reset, immediately);
    case SetExternal(need) => SetExternalServed(s, need);
    case RestartCall(reset, immediately) => RestartServed(s, reset, immediately);
    case Dispatch => DispatchServed(s);
    case Advance =>
      Heads(s);
      if CallAtHead(s) {
        if !s.phase.Idle? { HolderServed(s); }
        else if s.lock[0].op.Start? { StartServed(s); }
        else { StopServed(s); }
      } else if s.lock != [] {
        TimerServed(s);
      }
    case TimerElapses => TimerElapsesServed(s);
    case TimerUnwinds => TimerUnwindsServed(s);
    case ResumeRestart(index) => ResumeServed(s, index);
  }

  lemma {:induction false} CleanRunsServeDemand(hasDelay: bool, es: seq<Event>)
    requires DemandOnly(es) && Clean(Init(hasDelay), es)
    ensures DemandServed(Run(Init(hasDelay), es))
    decreases |es|
  {
    if es != [] {
      var before := es[..|es| - 1];
      assert es[|es| - 1] in es && forall e :: e in before ==> e in es;
      CleanRunsServeDemand(hasDelay, before);
      AtMostOneStreamerTask(hasDelay, before);
      WedgedExactlyWhenCancelledFresh(hasDelay, before);
      NextServed(Run(Init(hasDelay), before), es[|es| - 1]);
    }
  }

  lemma {:induction false} NoCallNoOp(items: seq<Item>)
    requires forall x | x in items :: !x.Call?
    ensures LastOp(items).None?
  {
    if items != [] {
      assert items[|items| - 1] in items;
      NoCallNoOp(items[..|items| - 1]);
    }
  }

  /** The main result.  Whenever no call is in flight, demand means a running streamer with no
      planned stop, and no demand means a stopped streamer or a live planned stop; this holds
      exactly when no timer was cancelled before its first turn, or nothing is wanted and
      nothing runs. */
  lemma DemandAgreement(hasDelay: bool, es: seq<Event>)
    requires DemandOnly(es)
    requires !InFlight(Run(Init(hasDelay), es))
    ensures var s := Run(Init(hasDelay), es);
      Agreement(s) <==> (Clean(Init(hasDelay), es) || (!Required(s) && !s.task))
  {
    var s := Run(Init(hasDelay), es);
    AtMostOneStreamerTask(hasDelay, es);
    WedgedExactlyWhenCancelledFresh(hasDelay, es);
    Heads(s);
    if s.lock != [] { assert s.lock[0] in s.lock + s.ready; }
    if Clean(Init(hasDelay), es) {
      CleanRunsServeDemand(hasDelay, es);
      assert forall x :: x in s.lock || x in s.ready ==> x in s.lock + s.ready;
      NoCallNoOp(s.lock + s.ready);
    }
  }
}

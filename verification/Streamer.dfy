/** `Streamer` itself: each method is the code between two awaits, and the whole new state is
    the protocol's next state. */
module StreamerClass {
  import opened StreamerProtocol

  class Streamer {
    const hasDelay: bool
    var internalRequired: bool
    var externalRequired: bool
    var streamerTask: bool
    ghost var live: int
    var stopTask: Timer
    var ready: seq<Item>
    var procLock: seq<Item>
    var phase: Phase
    var resumed: seq<bool>

    ghost function View(): State
      reads this
    {
      State(hasDelay, internalRequired, externalRequired, streamerTask, live, stopTask, ready, procLock, phase, resumed)
    }

    constructor (hasDelay: bool)
      ensures View() == Init(hasDelay)
    {
      this.hasDelay := hasDelay;
      internalRequired, externalRequired := false, false;
      streamerTask, live := false, 0;
      stopTask, ready, procLock, phase, resumed := Off, [], [], Idle, [];
    }

    function IsRequired(): (r: bool)
      reads this
      ensures r == Required(View())
    {
      internalRequired || externalRequired
    }

    function IsWorking(): (r: bool)
      reads this
      ensures r == Working(View())
    {
      streamerTask && stopTask.Off?
    }

    method SetInternalStreamRequired(need: bool, reset: bool, stopImmediately: bool)
      modifies this
      ensures View() == SetInternalSpec(old(View()), need, reset, stopImmediately)
    {
      if internalRequired == need && !reset {
        return;
      }
      internalRequired := need;
      if need {
        if reset && IsWorking() {
          ready := ready + [Restart(true, true)];
        } else {
          ready := ready + [Call(Start(reset), Done)];
        }
      } else {
        MaybeStopCall(stopImmediately);
      }
    }

    method SetExternalStreamRequired(need: bool)
      modifies this
      ensures View() == SetExternalSpec(old(View()), need)
    {
      if externalRequired == need {
        return;
      }
      externalRequired := need;
      if need {
        ready := ready + [Call(Start(false), Done)];
      } else {
        MaybeStopCall(true);
      }
    }

    method MaybeStopCall(immediately: bool)
      modifies this
      ensures View() == MaybeStop(old(View()), immediately)
    {
      if !IsRequired() {
        ready := ready + [Call(Stop(immediately, false), Done)];
      }
    }

    method RestartTask(reset: bool, immediately: bool)
      modifies this
      ensures View() == RestartSpec(old(View()), reset, immediately)
    {
      if !streamerTask {
        if IsRequired() {
          ready := ready + [Call(Start(reset), Done)];
        }
        return;
      }
      ready := ready + [Call(Stop(immediately, true), MaybeStart(reset))];
    }

    method ResumeRestartTask(index: nat)
      modifies this
      ensures View() == ResumeSpec(old(View()), index)
    {
      if index < |resumed| {
        var reset := resumed[index];
        resumed := resumed[..index] + resumed[index + 1..];
        if IsRequired() {
          ready := ready + [Call(Start(reset), Done)];
        }
      }
    }

    method DispatchReady()
      modifies this
      ensures View() == DispatchSpec(old(View()))
    {
      if ready == [] {
        return;
      }
      var task := ready[0];
      ready := ready[1..];
      match task
      case Call(_, _) => procLock := procLock + [task];
      case Restart(reset, immediately) => RestartTask(reset, immediately);
      case TimerTask => stopTask := if phase.CancellingTimer? then Stale else Sleeping;
    }

    method ReleaseLock()
      requires procLock != []
      modifies this
      ensures View() == Release(old(View()))
    {
      var holder := procLock[0];
      procLock, phase := procLock[1..], Idle;
      match holder
      case Call(_, MaybeStart(reset)) => resumed := resumed + [reset];
      case Call(_, Done) =>
      case Restart(_, _) =>
      case TimerTask => stopTask := Off;
    }

    method EnsureStart(reset: bool)
      requires procLock != []
      modifies this
      ensures View() == EnsureStartLocked(old(View()), reset)
    {
      if !streamerTask || !stopTask.Off? {
        if !stopTask.Off? {
          phase := CancellingTimer;
          return;
        }
        if reset && hasDelay {
          phase := Delaying;
          return;
        }
        phase := Starting;
        return;
      }
      ReleaseLock();
    }

    method EnsureStop(immediately: bool, force: bool)
      requires procLock != []
      modifies this
      ensures View() == EnsureStopLocked(old(View()), immediately, force)
    {
      if streamerTask {
        if !force && IsRequired() {
          ReleaseLock();
          return;
        }
        if immediately {
          phase := if !stopTask.Off? then CancellingTimer else Ending;
          return;
        } else if stopTask.Off? {
          stopTask := Fresh;
          ready := ready + [TimerTask];
        }
      }
      ReleaseLock();
    }

    method DelayedStop()
      requires procLock != []
      modifies this
      ensures View() == DelayedStopLocked(old(View()))
    {
      if !streamerTask {
        ReleaseLock();
      } else {
        stopTask, phase := Holding, Ending;
      }
    }

    method AdvanceHolder()
      modifies this
      ensures View() == AdvanceSpec(old(View()))
    {
      if procLock == [] {
        return;
      }
      match phase
      case Idle =>
        match procLock[0] {
          case Call(Start(reset), _) => EnsureStart(reset);
          case Call(Stop(immediately, force), _) => EnsureStop(immediately, force);
          case Restart(_, _) =>
          case TimerTask => DelayedStop();
        }
      case CancellingTimer =>
        if Cancellable(stopTask) {
          return;
        }
        if procLock[0].Call? && procLock[0].op.Stop? && streamerTask {
          phase := Ending;
        } else {
          ReleaseLock();
        }
      case Delaying =>
        if streamerTask {
          ReleaseLock();
        } else {
          phase := Starting;
        }
      case Starting =>
        streamerTask, live := true, live + 1;
        ReleaseLock();
      case Ending =>
        live, phase := live - 1, Clearing;
      case Clearing =>
        streamerTask := false;
        ReleaseLock();
    }

    method TimerTurn(elapsed: bool)
      modifies this
      ensures View() == if elapsed then TimerElapsesSpec(old(View())) else TimerUnwindsSpec(old(View()))
    {
      var cancelled := phase.CancellingTimer?;
      if elapsed && !cancelled && stopTask.Sleeping? {
        stopTask, procLock := Waiting, procLock + [TimerTask];
      } else if !elapsed && cancelled && stopTask.Sleeping? {
        stopTask := Off;
      } else if !elapsed && cancelled && stopTask.Waiting? {
        stopTask, procLock := Off, WithoutTimer(procLock);
      }
    }

    method Turn(e: Event)
      modifies this
      ensures View() == Next(old(View()), e)
    {
      match e
      case SetInternal(need, reset, immediately) => SetInternalStreamRequired(need, reset, immediately);
      case SetExternal(need) => SetExternalStreamRequired(need);
      case RestartCall(reset, immediately) => RestartTask(reset, immediately);
      case EnsureCall(op) => ready := ready + [Call(op, Done)];
      case Dispatch => DispatchReady();
      case Advance => AdvanceHolder();
      case TimerElapses => TimerTurn(true);
      case TimerUnwinds => TimerTurn(false);
      case ResumeRestart(index) => ResumeRestartTask(index);
    }
  }
}

/** The streamer life cycle as a protocol between the event loop's turns.
    A state is what `Streamer` holds between two awaits; an event is the code that runs
    from one await to the next.  Everything the event loop decides (when a sleep ends, when a
    hook or the streamer task finishes, which call comes next) is the choice of the event. */
module StreamerProtocol {

  datatype Op = Start(reset: bool) | Stop(immediately: bool, force: bool)

  /** What follows an `ensure_*` call: nothing, or the second half of `restart`. */
  datatype Then = Done | MaybeStart(reset: bool)

  /** Tasks in the loop's ready queue, and the holder and waiters of `__proc_lock`. */
  datatype Item =
    | Call(op: Op, next: Then)
    | Restart(reset: bool, immediately: bool)
    | TimerTask

  /** The task behind `__stop_task`; `Off` is `None`.  `Stale` is a task that has ended
      without running its `finally`, so the field still refers to it. */
  datatype Timer = Off | Fresh | Sleeping | Waiting | Holding | Stale

  /** How far the holder of the lock has come. */
  datatype Phase = Idle | CancellingTimer | Delaying | Starting | Ending | Clearing

  datatype State = State(
    hasDelay: bool,        // __reset_delay > 0
    internal: bool,
    external: bool,
    task: bool,            // __streamer_task is not None
    live: int,             // streamer tasks that exist and have not ended
    timer: Timer,
    ready: seq<Item>,      // created tasks whose first turn has not come, oldest first
    lock: seq<Item>,       // holder first, then the waiters in arrival order
    phase: Phase,
    resumed: seq<bool>     // restarts whose ensure_stop has returned (their `reset`)
  )

  /** The timer is before the point where it stops the streamer, so it may be cancelled. */
  predicate Cancellable(timer: Timer) { timer.Fresh? || timer.Sleeping? || timer.Waiting? }

  function Init(hasDelay: bool): State {
    State(hasDelay, false, false, false, 0, Off, [], [], Idle, [])
  }

  predicate Required(s: State) { s.internal || s.external }

  predicate Working(s: State) { s.task && s.timer.Off? }

  datatype Event =
    | SetInternal(need: bool, reset: bool, stopImmediately: bool)
    | SetExternal(need: bool)
    | RestartCall(reset: bool, immediately: bool)
    | EnsureCall(op: Op)
    | Dispatch             // the oldest ready task gets its first turn
    | Advance              // the lock's holder runs to its next await
    | TimerElapses
    | TimerUnwinds         // a cancelled timer leaves its await
    | ResumeRestart(index: nat)

  // ----- pieces of the source's methods, each up to the next await -----

  function Spawn(s: State, item: Item): State { s.(ready := s.ready + [item]) }

  function SetInternalSpec(s: State, need: bool, reset: bool, immediately: bool): State {
    if s.internal == need && !reset then s else
    var s' := s.(internal := need);
    if need then
      if reset && Working(s') then Spawn(s', Restart(true, true)) else Spawn(s', Call(Start(reset), Done))
    else MaybeStop(s', immediately)
  }

  function SetExternalSpec(s: State, need: bool): State {
    if s.external == need then s else
    var s' := s.(external := need);
    if need then Spawn(s', Call(Start(false), Done)) else MaybeStop(s', true)
  }

  function MaybeStop(s: State, immediately: bool): State {
    if Required(s) then s else Spawn(s, Call(Stop(immediately, false), Done))
  }

  function RestartSpec(s: State, reset: bool, immediately: bool): State {
    if !s.task then
      if Required(s) then Spawn(s, Call(Start(reset), Done)) else s
    else Spawn(s, Call(Stop(immediately, true), MaybeStart(reset)))
  }

  function ResumeSpec(s: State, index: nat): State {
    if index >= |s.resumed| then s else
    var s' := s.(resumed := s.resumed[..index] + s.resumed[index + 1..]);
    if Required(s') then Spawn(s', Call(Start(s.resumed[index]), Done)) else s'
  }

  function DispatchSpec(s: State): State {
    if s.ready == [] then s else
    var s' := s.(ready := s.ready[1..]);
    match s.ready[0]
    case Call(_, _) => s'.(lock := s.lock + [s.ready[0]])
    case Restart(reset, immediately) => RestartSpec(s', reset, immediately)
    case TimerTask =>
      // A task cancelled before its first turn never enters the coroutine's body.
      if s.phase.CancellingTimer? then s'.(timer := Stale) else s'.(timer := Sleeping)
  }

  /** The holder returns: the lock passes on and the caller goes on or is done. */
  function Release(s: State): State
    requires s.lock != []
  {
    var s' := s.(lock := s.lock[1..], phase := Idle);
    match s.lock[0]
    case Call(_, MaybeStart(reset)) => s'.(resumed := s.resumed + [reset])
    case Call(_, Done) => s'
    case Restart(_, _) => s'
    case TimerTask => s'.(timer := Off)
  }

  function InnerStart(s: State): State
    requires s.lock != []
  {
    if s.task then Release(s) else s.(phase := Starting)
  }

  function InnerStop(s: State): State
    requires s.lock != []
  {
    if !s.task then Release(s) else s.(phase := Ending)
  }

  function EnsureStartLocked(s: State, reset: bool): State
    requires s.lock != []
  {
    if s.task && s.timer.Off? then Release(s)
    else if !s.timer.Off? then s.(phase := CancellingTimer)
    else if reset && s.hasDelay then s.(phase := Delaying)
    else InnerStart(s)
  }

  function EnsureStopLocked(s: State, immediately: bool, force: bool): State
    requires s.lock != []
  {
    if !s.task then Release(s)
    else if !force && Required(s) then Release(s)
    else if immediately then
      if !s.timer.Off? then s.(phase := CancellingTimer) else InnerStop(s)
    else if s.timer.Off? then Release(s.(timer := Fresh, ready := s.ready + [TimerTask]))
    else Release(s)
  }

  function DelayedStopLocked(s: State): State
    requires s.lock != []
  {
    if !s.task then Release(s) else s.(timer := Holding, phase := Ending)
  }

  function AdvanceSpec(s: State): State {
    if s.lock == [] then s else
    match s.phase
    case Idle =>
      (match s.lock[0]
       case Call(Start(reset), _) => EnsureStartLocked(s, reset)
       case Call(Stop(immediately, force), _) => EnsureStopLocked(s, immediately, force)
       case Restart(_, _) => s
       case TimerTask => DelayedStopLocked(s))
    case CancellingTimer =>
      if Cancellable(s.timer) then s      // gather() still waits for the cancelled timer
      else if s.lock[0].Call? && s.lock[0].op.Stop? then InnerStop(s)
      else Release(s)
    case Delaying => if s.task && s.timer.Off? then Release(s) else InnerStart(s)
    case Starting => Release(s.(task := true, live := s.live + 1))
    case Ending => s.(live := s.live - 1, phase := Clearing)
    case Clearing => Release(s.(task := false))
  }

  function TimerElapsesSpec(s: State): State {
    if s.timer.Sleeping? && !s.phase.CancellingTimer?
    then s.(timer := Waiting, lock := s.lock + [TimerTask])
    else s
  }

  function WithoutTimer(items: seq<Item>): seq<Item> {
    if items == [] then []
    else if items[0].TimerTask? then items[1..]
    else [items[0]] + WithoutTimer(items[1..])
  }

  function TimerUnwindsSpec(s: State): State {
    if s.phase.CancellingTimer? && s.timer.Sleeping? then s.(timer := Off)
    else if s.phase.CancellingTimer? && s.timer.Waiting? then s.(timer := Off, lock := WithoutTimer(s.lock))
    else s
  }

  function Next(s: State, e: Event): State {
    match e
    case SetInternal(need, reset, immediately) => SetInternalSpec(s, need, reset, immediately)
    case SetExternal(need) => SetExternalSpec(s, need)
    case RestartCall(reset, immediately) => RestartSpec(s, reset, immediately)
    case EnsureCall(op) => Spawn(s, Call(op, Done))
    case Dispatch => DispatchSpec(s)
    case Advance => AdvanceSpec(s)
    case TimerElapses => TimerElapsesSpec(s)
    case TimerUnwinds => TimerUnwindsSpec(s)
    case ResumeRestart(index) => ResumeSpec(s, index)
  }

  /** Any order of events is a run; an event that is not enabled changes nothing. */
  function Run(s: State, es: seq<Event>): State
    decreases |es|
  {
    if es == [] then s else Next(Run(s, es[..|es| - 1]), es[|es| - 1])
  }

  // ----- what is claimed -----

  /** The holder has called cancel() on a timer task that has not had its first turn. */
  predicate CancelsFresh(s: State, e: Event) {
    s.timer.Fresh? && !s.phase.CancellingTimer? && Next(s, e).phase.CancellingTimer?
  }

  /** The timer's `finally` has been or will be skipped. */
  predicate Wedged(s: State) { s.timer.Stale? || (s.timer.Fresh? && s.phase.CancellingTimer?) }

  predicate Clean(s: State, es: seq<Event>)
    decreases |es|
  {
    es == [] ||
    (Clean(s, es[..|es| - 1]) && !CancelsFresh(Run(s, es[..|es| - 1]), es[|es| - 1]))
  }

  /** The streamer is driven through its demand setters and `restart` only. */
  predicate DemandOnly(es: seq<Event>) { forall e | e in es :: !e.EnsureCall? }

  predicate InFlight(s: State) {
    s.resumed != [] || exists x :: x in s.lock + s.ready && !x.TimerTask?
  }

  predicate PlannedStop(s: State) { Cancellable(s.timer) || s.timer.Holding? }

  /** Demand and the running state agree. */
  predicate Agreement(s: State) {
    if Required(s) then Working(s) && s.live == 1 && s.phase.Idle? else !s.task || PlannedStop(s)
  }

  // ----- structure -----

  predicate CallAtHead(s: State) { s.lock != [] && s.lock[0].Call? }

  predicate TimerAtHead(s: State) { s.lock != [] && s.lock[0].TimerTask? }

  /** What the handles, the live task, the timer and the holder's progress have to do with
      each other. */
  predicate Control(s: State) {
    && (if s.phase.Clearing? then s.task && s.live == 0 else s.live == if s.task then 1 else 0)
    && (Cancellable(s.timer) ==> s.task && (s.phase.Idle? || s.phase.CancellingTimer?))
    && (!s.phase.Idle? ==> CallAtHead(s) || TimerAtHead(s))
    && (TimerAtHead(s) ==> s.phase.Idle? || s.phase.Ending? || s.phase.Clearing?)
    && (s.timer.Holding? <==> TimerAtHead(s) && !s.phase.Idle?)
    && (s.phase.CancellingTimer? ==> s.task || s.timer.Stale?)
    && (s.phase.Delaying? || s.phase.Starting? ==> s.lock[0].op.Start? && !s.task && s.timer.Off?)
    && (s.phase.Ending? || s.phase.Clearing? ==> s.task)
    && (CallAtHead(s) && (s.phase.Ending? || s.phase.Clearing?) ==>
          s.lock[0].op.Stop? && (s.timer.Off? || s.timer.Stale?))
  }

  function Timers(items: seq<Item>): nat {
    if items == [] then 0
    else (if items[0].TimerTask? then 1 else 0) + Timers(items[1..])
  }

  /** Where the one timer task is queued. */
  predicate Queues(s: State) {
    && Timers(s.ready) == (if s.timer.Fresh? then 1 else 0)
    && Timers(s.lock) == (if s.timer.Waiting? || s.timer.Holding? then 1 else 0)
    && (forall x | x in s.lock :: !x.Restart?)
  }

  predicate Structure(s: State) { Control(s) && Queues(s) }
}

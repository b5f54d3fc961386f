/** The lockout of one client after failed logins. */
module RateLimit {
  import opened Options

  type Time = real

  datatype Config = Config(maxAttempts: int, window: Time, lockout: Time)

  datatype Entry = Entry(lockedUntil: Time, attempts: seq<Time>)

  /** The attempts after a cutoff, in order. */
  function After(ts: seq<Time>, cutoff: Time): (r: seq<Time>)
    ensures |r| <= |ts|
    decreases |ts|
  {
    if ts == [] then []
    else After(ts[..|ts| - 1], cutoff) + (if ts[|ts| - 1] > cutoff then [ts[|ts| - 1]] else [])
  }

  // ----- the four operations on a client's entry -----

  predicate Locked(e: Option<Entry>, now: Time) { e.Some? && e.value.lockedUntil > now }

  /** What a query leaves: an entry whose lock has expired is deleted. */
  function Queried(e: Option<Entry>, now: Time): Option<Entry> {
    if e.Some? && 0.0 < e.value.lockedUntil <= now then None else e
  }

  function Recorded(c: Config, e: Option<Entry>, now: Time): Option<Entry> {
    var before := if e.None? then Entry(0.0, []) else e.value;
    var attempts := After(before.attempts + [now], now - c.window);
    Some(Entry(if |attempts| >= c.maxAttempts then now + c.lockout else before.lockedUntil, attempts))
  }

  function Cleaned(c: Config, e: Option<Entry>, now: Time): Option<Entry> {
    if e.None? then None
    else
      var until := if 0.0 < e.value.lockedUntil <= now then 0.0 else e.value.lockedUntil;
      var attempts := After(e.value.attempts, now - c.window);
      if attempts == [] && until <= now then None else Some(Entry(until, attempts))
  }

  function Unlocked(e: Option<Entry>, now: Time): Option<Entry> {
    if Locked(e, now) then Some(Entry(0.0, [])) else e
  }

  /** The entry of a client after the query and the cleaning that precede an authorization. */
  function Admitted(c: Config, e: Option<Entry>, asked: Time, sweep: bool, swept: Time): Option<Entry> {
    if sweep then Cleaned(c, Queried(e, asked), swept) else Queried(e, asked)
  }

  // ----- runs -----

  /** What happens to one client: a query before or after an attempt, a failed attempt, the
      cleaning started by a login of any client, a manual unlock. */
  datatype Event = Query(now: Time) | Failure(now: Time) | Clean(now: Time) | Unlock(now: Time)

  /** The entry; all failures so far; how many of them precede the last deletion of the entry by a
      query; the latest cutoff of the attempt list; and whether a query has let the client through
      since its last failure. */
  datatype State = State(entry: Option<Entry>, now: Time, failures: seq<Time>, reset: nat, cutoff: Time, passed: bool)

  function Init(c: Config, start: Time): State { State(None, start, [], 0, start - c.window, false) }

  function Max(a: Time, b: Time): Time { if a < b then b else a }

  function Next(c: Config, s: State, e: Event): State {
    match e
    case Query(now) =>
      var deleted := s.entry.Some? && Queried(s.entry, now) == None;
      s.(entry := Queried(s.entry, now), now := now, reset := if deleted then |s.failures| else s.reset,
         passed := !Locked(s.entry, now))
    case Failure(now) =>
      s.(entry := Recorded(c, s.entry, now), now := now, failures := s.failures + [now],
         cutoff := Max(s.cutoff, now - c.window), passed := false)
    case Clean(now) =>
      s.(entry := Cleaned(c, s.entry, now), now := now, cutoff := Max(s.cutoff, now - c.window))
    case Unlock(now) =>
      s.(entry := Unlocked(s.entry, now), now := now,
         reset := if Locked(s.entry, now) then |s.failures| else s.reset)
  }

  function Run(c: Config, start: Time, es: seq<Event>): State
    decreases |es|
  {
    if es == [] then Init(c, start) else Next(c, Run(c, start, es[..|es| - 1]), es[|es| - 1])
  }

  predicate ClockOk(start: Time, es: seq<Event>) {
    && start > 0.0
    && (forall i :: 0 <= i < |es| ==> start <= es[i].now)
    && (forall i, j :: 0 <= i < j < |es| ==> es[i].now <= es[j].now)
  }

  /** Logins one at a time and no manual unlock: every failure follows a query that let the client
      through, with no other failure in between. */
  predicate Serial(c: Config, start: Time, es: seq<Event>)
    decreases |es|
  {
    es == [] || (var before, e := es[..|es| - 1], es[|es| - 1];
                 && Serial(c, start, before) && !e.Unlock?
                 && (e.Failure? ==> Run(c, start, before).passed))
  }

  /** The failures since the entry was last reset. */
  function History(s: State): seq<Time>
    requires s.reset <= |s.failures|
  {
    s.failures[s.reset..]
  }

  function Attempts(e: Option<Entry>): seq<Time> { if e.None? then [] else e.value.attempts }

  predicate Sorted(ts: seq<Time>) { forall i, j :: 0 <= i < j < |ts| ==> ts[i] <= ts[j] }

  // ----- pruned lists -----

  lemma {:induction false} AfterAfter(ts: seq<Time>, a: Time, b: Time)
    ensures After(After(ts, a), b) == After(ts, Max(a, b))
    decreases |ts|
  {
    if ts != [] {
      var init, last := ts[..|ts| - 1], ts[|ts| - 1];
      AfterAfter(init, a, b);
      if last > a {
        assert After(ts, a)[..|After(ts, a)| - 1] == After(init, a);
      } else {
        assert After(ts, a) == After(init, a);
        assert After(ts, Max(a, b)) == After(init, Max(a, b));
      }
    }
  }

  lemma AfterSnoc(ts: seq<Time>, t: Time, cutoff: Time)
    ensures After(ts + [t], cutoff) == After(ts, cutoff) + (if t > cutoff then [t] else [])
  {
    assert (ts + [t])[..|ts|] == ts;
  }

  /** Pruning a pruned list together with a new attempt prunes the whole history. */
  lemma PruneAgain(ts: seq<Time>, a: Time, t: Time, b: Time)
    requires a <= b
    ensures After(After(ts, a) + [t], b) == After(ts + [t], b)
  {
    hide After;
    AfterSnoc(After(ts, a), t, b);
    AfterAfter(ts, a, b);
    AfterSnoc(ts, t, b);
  }

  lemma {:induction false} AfterCounts(ts: seq<Time>, cutoff: Time, i: nat)
    requires Sorted(ts) && i < |ts| && ts[i] > cutoff
    ensures |After(ts, cutoff)| >= |ts| - i
    decreases |ts|
  {
    var init := ts[..|ts| - 1];
    if i < |init| { AfterCounts(init, cutoff, i); }
  }

  lemma {:induction false} AfterNothing(ts: seq<Time>, cutoff: Time)
    requires forall i :: 0 <= i < |ts| ==> ts[i] <= cutoff
    ensures After(ts, cutoff) == []
    decreases |ts|
  {
    if ts != [] { AfterNothing(ts[..|ts| - 1], cutoff); }
  }

  // ----- the attempt list is the windowed failure history -----

  predicate Ordered(c: Config, s: State) {
    && s.cutoff <= s.now - c.window
    && Sorted(s.failures) && (forall i :: 0 <= i < |s.failures| ==> s.failures[i] <= s.now)
  }

  predicate Pruned(s: State) {
    s.reset <= |s.failures| && Attempts(s.entry) == After(History(s), s.cutoff)
  }

  predicate Bookkeeping(c: Config, s: State) { Ordered(c, s) && Pruned(s) }

  lemma KeepsBookkeeping(c: Config, s: State, e: Event)
    requires Bookkeeping(c, s) && s.now <= e.now
    ensures Pruned(Next(c, s, e))
    ensures Ordered(c, Next(c, s, e))
  {
    hide After;
    var n := Next(c, s, e);
    match e {
      case Query(now) =>
        if n.reset != s.reset { assert History(n) == []; AfterNothing([], s.cutoff); }
      case Failure(now) =>
        assert History(n) == History(s) + [now];
        PruneAgain(History(s), s.cutoff, now, now - c.window);
      case Clean(now) =>
        AfterAfter(History(s), s.cutoff, now - c.window);
      case Unlock(now) =>
        if n.reset != s.reset { assert History(n) == []; AfterNothing([], s.cutoff); }
    }
  }

  /** With a nondecreasing clock, the entry's attempt list is the failure history since the entry
      was last reset, cut at some time no later than the window's start; so the two agree on
      every window that ends now or later. */
  lemma {:induction false} AttemptsAreHistory(c: Config, start: Time, es: seq<Event>, now: Time)
    requires ClockOk(start, es) && Run(c, start, es).now <= now
    ensures Pruned(Run(c, start, es))
    ensures Ordered(c, Run(c, start, es))
    ensures After(Attempts(Run(c, start, es).entry), now - c.window) == After(History(Run(c, start, es)), now - c.window)
    decreases |es|
  {
    hide After;
    hide Next;
    var s := Run(c, start, es);
    if es != [] {
      var before, e := es[..|es| - 1], es[|es| - 1];
      ClockOkPrefix(c, start, es);
      AttemptsAreHistory(c, start, before, e.now);
      KeepsBookkeeping(c, Run(c, start, before), e);
    } else {
      AfterNothing([], s.cutoff);
    }
    AfterAfter(History(s), s.cutoff, now - c.window);
  }

  lemma ClockOkPrefix(c: Config, start: Time, es: seq<Event>)
    requires ClockOk(start, es) && es != []
    ensures ClockOk(start, es[..|es| - 1])
    ensures Run(c, start, es[..|es| - 1]).now <= es[|es| - 1].now
    ensures Run(c, start, es).now == es[|es| - 1].now
  {
    var before := es[..|es| - 1];
    if before != [] { assert Run(c, start, before).now == before[|before| - 1].now; }
  }

  // ----- the lock -----

  function Last(s: State): Time
    requires s.failures != []
  {
    s.failures[|s.failures| - 1]
  }

  /** The last failure made the windowed history long enough to lock. */
  predicate Reached(c: Config, s: State)
    requires s.reset <= |s.failures|
  {
    s.reset < |s.failures| && |After(History(s), Last(s) - c.window)| >= c.maxAttempts
  }

  function Bound(c: Config): (n: nat)
    ensures n >= 1 && n >= c.maxAttempts
  {
    if c.maxAttempts < 1 then 1 else c.maxAttempts
  }

  function Span(c: Config): Time { if c.window < c.lockout then c.window else c.lockout }

  /** However logins overlap: once a failure has locked a client, nothing but a manual unlock lets
      it through before lockout_duration has passed. */
  lemma {:induction false} LockHolds(c: Config, start: Time, es: seq<Event>, k: nat, now: Time)
    requires ClockOk(start, es) && k < |es| && es[k].Failure?
    requires |Attempts(Run(c, start, es[..k + 1]).entry)| >= c.maxAttempts
    requires forall i :: k < i < |es| ==> !es[i].Unlock?
    requires Run(c, start, es).now <= now < es[k].now + c.lockout
    ensures Locked(Run(c, start, es).entry, now)
    ensures Run(c, start, es).entry.value.lockedUntil >= es[k].now + c.lockout
    decreases |es|
  {
    hide After;
    var before, e := es[..|es| - 1], es[|es| - 1];
    ClockOkPrefix(c, start, es);
    if k == |es| - 1 {
      assert es[..k + 1] == es;
    } else {
      assert before[..k + 1] == es[..k + 1];
      LockHolds(c, start, before, k, e.now);
    }
  }

  /** A login that is let through and fails, with no other login of the client in between, is
      serial. */
  lemma LoginIsSerial(c: Config, start: Time, es: seq<Event>, asked: Time, sweep: bool, swept: Time, recorded: Time,
                      answered: Time)
    requires Serial(c, start, es) && !Locked(Run(c, start, es).entry, asked)
    ensures var more := es + [Query(asked)] + (if sweep then [Clean(swept)] else []) + [Failure(recorded)] + [Query(answered)];
      && Serial(c, start, more)
      && Run(c, start, more).entry
           == Queried(Recorded(c, Admitted(c, Run(c, start, es).entry, asked, sweep, swept), recorded), answered)
  {
    hide Recorded;
    hide Cleaned;
    hide Queried;
    var es1 := es + [Query(asked)];
    var es2 := es1 + if sweep then [Clean(swept)] else [];
    var es3 := es2 + [Failure(recorded)];
    SerialSnoc(c, start, es, Query(asked));
    if sweep { SerialSnoc(c, start, es1, Clean(swept)); } else { assert es2 == es1; }
    SerialSnoc(c, start, es2, Failure(recorded));
    SerialSnoc(c, start, es3, Query(answered));
  }

  lemma SerialSnoc(c: Config, start: Time, es: seq<Event>, e: Event)
    ensures Run(c, start, es + [e]) == Next(c, Run(c, start, es), e)
    ensures Serial(c, start, es) && !e.Unlock? && (e.Failure? ==> Run(c, start, es).passed) ==> Serial(c, start, es + [e])
  {
    hide Next;
    assert (es + [e])[..|es|] == es;
  }

  /** Overlapping logins: both are let through before either fails, so with max_attempts 1 a
      client fails twice at the same moment. */
  lemma OverlapBreaksTheBound()
    ensures var c, es := Config(1, 60.0, 60.0), [Query(1.0), Query(1.0), Failure(1.0), Failure(1.0)];
      && ClockOk(1.0, es) && !Serial(c, 1.0, es)
      && Run(c, 1.0, es).failures == [1.0, 1.0] && Bound(c) == 1 && Span(c) == 60.0
  {
    hide After;
    hide Recorded;
    var c := Config(1, 60.0, 60.0);
    var es1 := [Query(1.0)];
    var es2, es3 := es1 + [Query(1.0)], es1 + [Query(1.0)] + [Failure(1.0)];
    assert [] + [Query(1.0)] == es1;
    RunSnoc(c, 1.0, [], Query(1.0));
    RunSnoc(c, 1.0, es1, Query(1.0));
    RunSnoc(c, 1.0, es2, Failure(1.0));
    RunSnoc(c, 1.0, es3, Failure(1.0));
    hide Run;
    var es := es3 + [Failure(1.0)];
    assert es == [Query(1.0), Query(1.0), Failure(1.0), Failure(1.0)];
    assert es[..3] == es3;
  }

  lemma RunSnoc(c: Config, start: Time, es: seq<Event>, e: Event)
    ensures Run(c, start, es + [e]) == Next(c, Run(c, start, es), e)
  {
    assert (es + [e])[..|es|] == es;
  }
}

/** The lockout when logins of one client overlap: how far they can exceed the limit. */
module RateLimitOverlap {
  import opened Options
  import opened RateLimit

  /** A run, its failures that follow a query which let the client through since the failure before
      (`prompt`, at these positions), the other ones, and when the lock was last set. */
  datatype Track = Track(s: State, prompt: seq<Time>, promptAt: seq<nat>, late: seq<Time>, lockedAt: Time)

  function NextTrack(c: Config, t: Track, e: Event): Track {
    var n := Next(c, t.s, e);
    if !e.Failure? then t.(s := n)
    else
      var locks := |Recorded(c, t.s.entry, e.now).value.attempts| >= c.maxAttempts;
      var u := t.(s := n, lockedAt := if locks then e.now else t.lockedAt);
      if t.s.passed then u.(prompt := t.prompt + [e.now], promptAt := t.promptAt + [|t.s.failures|])
      else u.(late := t.late + [e.now])
  }

  function TrackOf(c: Config, start: Time, es: seq<Event>): Track
    decreases |es|
  {
    if es == [] then Track(Init(c, start), [], [], [], start)
    else NextTrack(c, TrackOf(c, start, es[..|es| - 1]), es[|es| - 1])
  }

  predicate NoUnlock(es: seq<Event>) { forall i :: 0 <= i < |es| ==> !es[i].Unlock? }

  // ----- the invariant -----

  predicate PromptPlaces(t: Track) {
    && |t.prompt| == |t.promptAt|
    && Sorted(t.prompt)
    && (forall a :: 0 <= a < |t.prompt| ==>
          && t.promptAt[a] + (|t.prompt| - a) <= |t.s.failures|
          && t.s.failures[t.promptAt[a]] == t.prompt[a] && t.prompt[a] <= t.s.now)
  }

  predicate LockTimes(c: Config, t: Track)
    requires |t.prompt| == |t.promptAt| && t.s.reset <= |t.s.failures|
  {
    && t.s.now > 0.0
    && (t.s.entry.Some? && t.s.entry.value.lockedUntil > 0.0 ==>
          t.s.entry.value.lockedUntil == t.lockedAt + c.lockout
          && (forall a :: 0 <= a < |t.prompt| ==> t.prompt[a] <= t.lockedAt)
          && (t.late == [] ==> Reached(c, t.s) && t.lockedAt == Last(t.s)))
    && (t.s.passed && t.s.entry.Some? ==> t.s.entry.value.lockedUntil <= 0.0)
    && (forall a :: 0 <= a < |t.prompt| && t.promptAt[a] < t.s.reset ==> t.s.now >= t.prompt[a] + c.lockout)
  }

  predicate ReachedLocks(c: Config, s: State)
    requires s.reset <= |s.failures|
  {
    Reached(c, s) ==>
      (s.entry.Some? && s.entry.value.lockedUntil == Last(s) + c.lockout) || s.now >= Last(s) + c.lockout
  }

  predicate Spread(c: Config, ts: seq<Time>) {
    forall a, b :: 0 <= a < |ts| && 0 <= b < |ts| && b == a + Bound(c) ==> ts[b] >= ts[a] + Span(c)
  }

  predicate TrackInv(c: Config, t: Track) {
    Bookkeeping(c, t.s) && PromptPlaces(t) && LockTimes(c, t) && ReachedLocks(c, t.s) && Spread(c, t.prompt)
  }

  lemma PromptIsSpread(c: Config, t: Track, now: Time, a: nat)
    requires TrackInv(c, t) && t.s.now <= now && t.s.passed && a + Bound(c) == |t.prompt|
    ensures now >= t.prompt[a] + Span(c)
  {
    hide After;
    var s, i := t.s, t.promptAt[a];
    if i >= s.reset && s.failures[i] > Last(s) - c.window {
      var h := History(s);
      assert h[i - s.reset] == s.failures[i] && Sorted(h);
      AfterCounts(h, Last(s) - c.window, i - s.reset);
      assert Reached(c, s);
    }
  }

  lemma FailureKeepsTrack(c: Config, t: Track, now: Time)
    requires TrackInv(c, t) && t.s.now <= now
    ensures var n := NextTrack(c, t, Failure(now));
      Bookkeeping(c, n.s) && PromptPlaces(n) && LockTimes(c, n)
  {
    hide After;
    hide Spread;
    hide ReachedLocks;
    KeepsBookkeeping(c, t.s, Failure(now));
  }

  lemma FailureReachedLocks(c: Config, t: Track, now: Time)
    requires Bookkeeping(c, t.s) && t.s.now <= now
    ensures Bookkeeping(c, Next(c, t.s, Failure(now))) && ReachedLocks(c, Next(c, t.s, Failure(now)))
  {
    hide After;
    KeepsBookkeeping(c, t.s, Failure(now));
    var n := Next(c, t.s, Failure(now));
    assert n.cutoff == now - c.window;
    assert Attempts(n.entry) == After(History(n), Last(n) - c.window);
  }

  lemma FailureKeepsSpread(c: Config, t: Track, now: Time)
    requires TrackInv(c, t) && t.s.now <= now
    ensures Spread(c, NextTrack(c, t, Failure(now)).prompt)
  {
    hide Recorded;
    hide Next;
    hide PromptPlaces;
    hide LockTimes;
    hide Bookkeeping;
    hide Reached;
    var a := |t.prompt| - Bound(c);
    if t.s.passed && a >= 0 { PromptIsSpread(c, t, now, a); }
  }

  lemma QueryKeepsTrack(c: Config, t: Track, now: Time)
    requires TrackInv(c, t) && t.s.now <= now
    ensures TrackInv(c, NextTrack(c, t, Query(now)))
  {
    hide After;
    hide Spread;
    KeepsBookkeeping(c, t.s, Query(now));
  }

  lemma CleanKeepsTrack(c: Config, t: Track, now: Time)
    requires TrackInv(c, t) && t.s.now <= now
    ensures TrackInv(c, NextTrack(c, t, Clean(now)))
  {
    hide After;
    hide Spread;
    KeepsBookkeeping(c, t.s, Clean(now));
    assert Reached(c, Next(c, t.s, Clean(now))) == Reached(c, t.s);
  }

  lemma {:induction false} RunsKeepTrack(c: Config, start: Time, es: seq<Event>)
    requires ClockOk(start, es) && NoUnlock(es)
    ensures TrackInv(c, TrackOf(c, start, es)) && TrackOf(c, start, es).s == Run(c, start, es)
    decreases |es|
  {
    hide After;
    hide TrackInv;
    hide Recorded;
    hide Next;
    if es == [] {
      StartsInv(c, start);
    } else {
      var before, e := es[..|es| - 1], es[|es| - 1];
      ClockOkPrefix(c, start, es);
      RunsKeepTrack(c, start, before);
      var t := TrackOf(c, start, before);
      match e {
        case Query(now) => QueryKeepsTrack(c, t, now);
        case Clean(now) => CleanKeepsTrack(c, t, now);
        case Failure(now) => FailureTrack(c, t, now);
      }
    }
  }

  lemma FailureTrack(c: Config, t: Track, now: Time)
    requires TrackInv(c, t) && t.s.now <= now
    ensures TrackInv(c, NextTrack(c, t, Failure(now)))
  {
    FailureKeepsTrack(c, t, now);
    FailureReachedLocks(c, t, now);
    FailureKeepsSpread(c, t, now);
    hide NextTrack;
    hide Next;
    hide Spread;
    hide ReachedLocks;
    hide LockTimes;
    hide PromptPlaces;
    hide Bookkeeping;
    assert NextTrack(c, t, Failure(now)).s == Next(c, t.s, Failure(now)) by { NextTrackRuns(c, t, Failure(now)); }
  }

  lemma NextTrackRuns(c: Config, t: Track, e: Event)
    ensures NextTrack(c, t, e).s == Next(c, t.s, e)
  {}

  lemma StartsInv(c: Config, start: Time)
    requires start > 0.0
    ensures TrackInv(c, Track(Init(c, start), [], [], [], start))
  {
    AfterNothing([], start - c.window);
  }

  // ----- counting -----

  predicate InSpan(t: Time, from: Time, length: Time) { from <= t < from + length }

  function CountIn(ts: seq<Time>, from: Time, length: Time): (n: nat)
    ensures n <= |ts|
    decreases |ts|
  {
    if ts == [] then 0
    else CountIn(ts[..|ts| - 1], from, length) + if InSpan(ts[|ts| - 1], from, length) then 1 else 0
  }

  lemma CountSnoc(ts: seq<Time>, t: Time, from: Time, length: Time)
    ensures CountIn(ts + [t], from, length) == CountIn(ts, from, length) + if InSpan(t, from, length) then 1 else 0
  {
    assert (ts + [t])[..|ts|] == ts;
  }

  lemma {:induction false} CountConcat(a: seq<Time>, b: seq<Time>, from: Time, length: Time)
    ensures CountIn(a + b, from, length) == CountIn(a, from, length) + CountIn(b, from, length)
    decreases |b|
  {
    if b == [] {
      assert a + b == a;
    } else {
      assert (a + b)[..|a + b| - 1] == a + b[..|b| - 1];
      CountConcat(a, b[..|b| - 1], from, length);
    }
  }

  lemma {:induction false} CountNone(ts: seq<Time>, from: Time, length: Time)
    requires forall i :: 0 <= i < |ts| ==> !InSpan(ts[i], from, length)
    ensures CountIn(ts, from, length) == 0
    decreases |ts|
  {
    if ts != [] { CountNone(ts[..|ts| - 1], from, length); }
  }

  lemma {:induction false} SpreadCount(c: Config, ts: seq<Time>, from: Time)
    requires Sorted(ts) && Spread(c, ts)
    ensures CountIn(ts, from, Span(c)) <= Bound(c)
    decreases |ts|
  {
    if |ts| > Bound(c) {
      var init, x := ts[..|ts| - 1], ts[|ts| - 1];
      if InSpan(x, from, Span(c)) {
        var n := |ts| - Bound(c);
        var early, rest := ts[..n], ts[n..];
        assert ts == early + rest;
        assert ts[n - 1] + Span(c) <= x;
        CountNone(early, from, Span(c));
        CountConcat(early, rest, from, Span(c));
      } else {
        SpreadCount(c, init, from);
      }
    }
  }

  lemma {:induction false} PromptOrLate(c: Config, start: Time, es: seq<Event>, from: Time, length: Time)
    ensures var t := TrackOf(c, start, es);
      CountIn(t.s.failures, from, length) == CountIn(t.prompt, from, length) + CountIn(t.late, from, length)
    decreases |es|
  {
    hide CountIn;
    hide Recorded;
    hide Cleaned;
    hide Queried;
    if es == [] {
      CountNone([], from, length);
    } else {
      var t, e := TrackOf(c, start, es[..|es| - 1]), es[|es| - 1];
      PromptOrLate(c, start, es[..|es| - 1], from, length);
      CountSnoc(t.s.failures, e.now, from, length);
      CountSnoc(t.prompt, e.now, from, length);
      CountSnoc(t.late, e.now, from, length);
    }
  }

  // ----- main results -----

  /** However logins overlap: the failures that follow a query admitted since the failure before are
      spread as if there were no others. */
  lemma PromptFailuresAreSpread(c: Config, start: Time, es: seq<Event>, a: nat)
    requires ClockOk(start, es) && NoUnlock(es) && a + Bound(c) < |TrackOf(c, start, es).prompt|
    ensures TrackOf(c, start, es).prompt[a + Bound(c)] - TrackOf(c, start, es).prompt[a] >= Span(c)
  {
    RunsKeepTrack(c, start, es);
  }

  /** However logins overlap: in any half-open span of min(window, lockout) a client fails at most
      max_attempts times (once, if that is less), and once more for each failure of a login that was
      admitted before the failure preceding it. */
  lemma OverlapIsBounded(c: Config, start: Time, es: seq<Event>, from: Time)
    requires ClockOk(start, es) && NoUnlock(es)
    ensures CountIn(Run(c, start, es).failures, from, Span(c))
            <= Bound(c) + CountIn(TrackOf(c, start, es).late, from, Span(c))
  {
    RunsKeepTrack(c, start, es);
    PromptOrLate(c, start, es, from, Span(c));
    SpreadCount(c, TrackOf(c, start, es).prompt, from);
  }

  lemma TrackSplits(c: Config, t: Track, e: Event)
    requires t.late == [] ==> t.prompt == t.s.failures
    ensures var n := NextTrack(c, t, e); n.late == [] ==> t.late == [] && n.prompt == n.s.failures
  {
    hide Recorded;
  }

  /** A run is serial exactly if it has no such failure; then the failures spread are all. */
  lemma {:induction false} SerialExactly(c: Config, start: Time, es: seq<Event>)
    requires NoUnlock(es)
    ensures TrackOf(c, start, es).s == Run(c, start, es)
    ensures Serial(c, start, es) <==> TrackOf(c, start, es).late == []
    ensures Serial(c, start, es) ==> TrackOf(c, start, es).prompt == Run(c, start, es).failures
    decreases |es|
  {
    hide Next;
    hide Recorded;
    if es != [] {
      SerialExactly(c, start, es[..|es| - 1]);
      TrackSplits(c, TrackOf(c, start, es[..|es| - 1]), es[|es| - 1]);
    }
  }

  lemma {:induction false} SerialHasNoUnlock(c: Config, start: Time, es: seq<Event>)
    requires Serial(c, start, es)
    ensures NoUnlock(es)
    decreases |es|
  {
    hide Run;
    if es != [] {
      var before := es[..|es| - 1];
      SerialHasNoUnlock(c, start, before);
      assert forall i :: 0 <= i < |before| ==> before[i] == es[i];
    }
  }

  /** With logins one at a time, in any half-open span of min(window, lockout) a client fails at
      most max_attempts times (once, if max_attempts is less). */
  lemma FailuresAreSpread(c: Config, start: Time, es: seq<Event>, i: nat)
    requires ClockOk(start, es) && Serial(c, start, es)
    requires i + Bound(c) < |Run(c, start, es).failures|
    ensures Run(c, start, es).failures[i + Bound(c)] - Run(c, start, es).failures[i] >= Span(c)
  {
    SerialHasNoUnlock(c, start, es);
    SerialExactly(c, start, es);
    PromptFailuresAreSpread(c, start, es, i);
  }

  /** With logins one at a time, a client is locked out exactly when its last failure made the
      windowed history since the reset reach max_attempts, and only for lockout_duration. */
  lemma LockedExactly(c: Config, start: Time, es: seq<Event>, now: Time)
    requires ClockOk(start, es) && Serial(c, start, es) && Run(c, start, es).now <= now
    ensures var s := Run(c, start, es);
      && s.reset <= |s.failures|
      && (Locked(s.entry, now) <==> Reached(c, s) && now < Last(s) + c.lockout)
  {
    hide Serial;
    SerialHasNoUnlock(c, start, es);
    SerialExactly(c, start, es);
    RunsKeepTrack(c, start, es);
    hide Run;
    hide TrackOf;
  }
}

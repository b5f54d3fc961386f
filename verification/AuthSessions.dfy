/** What a session token is good for, over whole runs. */
module AuthSessions {
  import opened Options
  import opened AuthProtocol

  // ----- with a global limit, no session is open-ended -----

  /** The monotonic clock does not go back. */
  function ClockOf(e: Event, otherwise: nat): nat {
    if e.LoginOk? || e.Complete? || e.Check? || e.Refresh? then e.now else otherwise
  }

  function Clock(es: seq<Event>): nat
    decreases |es|
  {
    if es == [] then 0 else ClockOf(es[|es| - 1], Clock(es[..|es| - 1]))
  }

  predicate ClockOk(es: seq<Event>)
    decreases |es|
  {
    es == [] || (ClockOk(es[..|es| - 1]) && Clock(es[..|es| - 1]) <= Clock(es))
  }

  predicate Bounded(sessions: map<Token, Session>, until: nat) {
    forall token :: token in sessions ==> 0 < sessions[token].expireTs <= until
  }

  lemma StepBounded(limit: nat, s: State, e: Event, now: nat)
    requires limit > 0 && Bounded(s.sessions, now + limit) && now <= ClockOf(e, now)
    ensures Bounded(Next(limit, s, e).sessions, ClockOf(e, now) + limit)
  {
    hide Find;
    hide Remove;
    hide Approved;
    hide Swept;
  }

  /** With a global limit, every session keeps 0 < expire_ts <= now + limit, whatever expiry was
      asked for. */
  lemma {:induction false} SessionsAreLimited(limit: nat, es: seq<Event>)
    requires limit > 0 && ClockOk(es)
    ensures Bounded(Run(limit, es).sessions, Clock(es) + limit)
    decreases |es|
  {
    hide Next;
    hide Bounded;
    hide ClockOf;
    if es != [] {
      SessionsAreLimited(limit, es[..|es| - 1]);
      StepBounded(limit, Run(limit, es[..|es| - 1]), es[|es| - 1], Clock(es[..|es| - 1]));
    } else {
      NoneBounded(limit);
    }
  }

  lemma NoneBounded(until: nat)
    ensures Bounded(map[], until)
  {}

  // ----- idle sessions end -----

  predicate Touches(e: Event, token: Token, since: int) {
    (e.LoginOk? || e.Complete? || e.Refresh?) && e.token == token && e.now > since
  }

  predicate TouchedSince(es: seq<Event>, token: Token, since: int) {
    exists i :: 0 <= i < |es| && Touches(es[i], token, since)
  }

  lemma TouchedSnoc(es: seq<Event>, token: Token, since: int)
    requires es != []
    ensures TouchedSince(es, token, since) <==>
            TouchedSince(es[..|es| - 1], token, since) || Touches(es[|es| - 1], token, since)
  {
    hide Touches;
    var before := es[..|es| - 1];
    if TouchedSince(before, token, since) {
      var i :| 0 <= i < |before| && Touches(before[i], token, since);
      assert before[i] == es[i];
    }
  }

  lemma StepTouched(limit: nat, s: State, e: Event, token: Token, since: int)
    requires limit > 0 && token in Next(limit, s, e).sessions
    requires Next(limit, s, e).sessions[token].expireTs > since + limit
    ensures Touches(e, token, since) || (token in s.sessions && s.sessions[token].expireTs > since + limit)
  {
    hide Find;
    hide Remove;
    hide Approved;
    hide Swept;
  }

  lemma {:induction false} ExpiryNeedsTouch(limit: nat, es: seq<Event>, token: Token, since: int)
    requires limit > 0 && token in Run(limit, es).sessions && Run(limit, es).sessions[token].expireTs > since + limit
    ensures TouchedSince(es, token, since)
    decreases |es|
  {
    hide Next;
    hide TouchedSince;
    hide Touches;
    if es != [] {
      var before, e := es[..|es| - 1], es[|es| - 1];
      StepTouched(limit, Run(limit, before), e, token, since);
      if !Touches(e, token, since) { ExpiryNeedsTouch(limit, before, token, since); }
      TouchedSnoc(es, token, since);
    }
  }

  /** With a global limit, a session that nobody minted or refreshed during the last `limit`
      seconds is refused. */
  lemma {:induction false} IdleSessionsEnd(limit: nat, es: seq<Event>, token: Token, now: nat)
    requires limit > 0 && ClockOk(es) && Clock(es) <= now
    requires !TouchedSince(es, token, now - limit)
    ensures CheckAnswer(Run(limit, es), token, now) == None
  {
    hide TouchedSince;
    var s := Run(limit, es);
    SessionsAreLimited(limit, es);
    if token in s.sessions && s.sessions[token].expireTs > now {
      ExpiryNeedsTouch(limit, es, token, now - limit);
    }
  }

  // ----- a session lives as long as was asked for -----

  /** Neither refreshes, logs out nor issues this token; checks of it are all right. */
  predicate Spares(e: Event, token: Token) {
    !((e.LoginOk? || e.Complete? || e.Refresh? || e.Logout?) && e.token == token)
  }

  /** The session is as it was, or a check has found it expired. */
  predicate AliveOrExpired(sessions: map<Token, Session>, token: Token, session: Session, now: nat) {
    if token in sessions then sessions[token] == session else 0 < session.expireTs <= now
  }

  lemma StepSpares(limit: nat, s: State, e: Event, token: Token, session: Session, now: nat)
    requires AliveOrExpired(s.sessions, token, session, now) && Spares(e, token) && now <= ClockOf(e, now)
    ensures AliveOrExpired(Next(limit, s, e).sessions, token, session, ClockOf(e, now))
  {
    hide Find;
    hide Remove;
    hide Approved;
    hide Swept;
    hide MakeExpireTs;
  }

  lemma {:induction false} RunSpares(limit: nat, es: seq<Event>, k: nat, token: Token)
    requires k <= |es| && ClockOk(es) && token in Run(limit, es[..k]).sessions
    requires forall j :: k <= j < |es| ==> Spares(es[j], token)
    ensures AliveOrExpired(Run(limit, es).sessions, token, Run(limit, es[..k]).sessions[token], Clock(es))
    decreases |es|
  {
    hide Next;
    hide Spares;
    hide ClockOf;
    hide AliveOrExpired;
    if k == |es| {
      assert es[..k] == es;
      StillAlive(Run(limit, es).sessions, token, Clock(es));
    } else {
      var before := es[..|es| - 1];
      assert before[..k] == es[..k];
      RunSpares(limit, before, k, token);
      StepSpares(limit, Run(limit, before), es[|es| - 1], token, Run(limit, es[..k]).sessions[token], Clock(before));
    }
  }

  lemma StillAlive(sessions: map<Token, Session>, token: Token, now: nat)
    requires token in sessions
    ensures AliveOrExpired(sessions, token, sessions[token], now)
  {}

  /** Who asked for the session that this event mints, and for how long. */
  function AskedFor(s: State, e: Event): (asked: (User, nat))
    requires Mints(s, e)
  {
    if e.LoginOk? then (e.user, e.expire)
    else var p := Find(s.twoStep, e.twoToken).value; (p.user, p.originalExpire)
  }

  lemma MintedAsAsked(limit: nat, s: State, e: Event)
    requires Mints(s, e)
    ensures e.token in Next(limit, s, e).sessions
    ensures var (user, expire) := AskedFor(s, e);
            Next(limit, s, e).sessions[e.token] == Session(user, MakeExpireTs(limit, expire, e.now))
  {
    hide Find;
    hide Remove;
    hide MakeExpireTs;
  }

  /** A session, minted by a login or by a two-step exchange, that is neither refreshed nor logged
      out nor issued again is accepted until the time its user asked for and the global limit
      allow, whichever is shorter, and for ever if neither is set, however often it is checked. */
  lemma SessionLivesAsAsked(limit: nat, es: seq<Event>, k: nat, at: nat)
    requires ClockOk(es) && Clock(es) <= at
    requires k < |es| && Mints(Run(limit, es[..k]), es[k])
    requires forall j :: k < j < |es| ==> Spares(es[j], es[k].token)
    ensures var e := es[k];
      var (user, expire) := AskedFor(Run(limit, es[..k]), e);
      CheckAnswer(Run(limit, es), e.token, at) ==
      if (expire > 0 ==> at < e.now + expire) && (limit > 0 ==> at < e.now + limit) then Some(user) else None
  {
    hide Next;
    hide CompleteStatus;
    hide AskedFor;
    hide Spares;
    hide Clock;
    assert es[..k + 1][..k] == es[..k];
    var before, e := Run(limit, es[..k]), es[k];
    var after := Run(limit, es[..k + 1]);
    assert after == Next(limit, before, e);
    MintedAsAsked(limit, before, e);
    RunSpares(limit, es, k + 1, e.token);
    var session := Session(AskedFor(before, e).0, MakeExpireTs(limit, AskedFor(before, e).1, e.now));
    assert after.sessions[e.token] == session;
    hide Run;
    assert AliveOrExpired(Run(limit, es).sessions, e.token, session, Clock(es));
  }

  // ----- a refresh -----

  /** The expiry of a session after a refresh: a whole limit from now, if less than half of the
      limit is left of a session that has an expiry. */
  function Prolonged(limit: nat, expireTs: int, now: nat): int {
    if limit > 0 && expireTs > 0 && 2 * (expireTs - now + 1) <= limit then now + limit else expireTs
  }

  lemma RefreshLeaves(limit: nat, s: State, token: Token, now: nat)
    requires token in s.sessions
    ensures var after := Next(limit, s, Refresh(token, now)).sessions;
      token in after
      && after[token] == Session(s.sessions[token].user, Prolonged(limit, s.sessions[token].expireTs, now))
  {}

  /** After a refresh, a session that is then left alone is accepted exactly until its prolonged
      expiry; so one that was alive is accepted for half of the limit at least. */
  lemma RefreshedSessionLives(limit: nat, es: seq<Event>, k: nat, at: nat)
    requires ClockOk(es) && Clock(es) <= at
    requires k < |es| && es[k].Refresh? && es[k].token in Run(limit, es[..k]).sessions && es[k].now <= at
    requires forall j :: k < j < |es| ==> Spares(es[j], es[k].token)
    ensures var (token, now) := (es[k].token, es[k].now);
      var session := Run(limit, es[..k]).sessions[token];
      var until := Prolonged(limit, session.expireTs, now);
      && CheckAnswer(Run(limit, es), token, at) == (if until <= 0 || at < until then Some(session.user) else None)
      && (CheckAnswer(Run(limit, es[..k]), token, now) != None && 2 * (at - now + 1) <= limit ==>
            CheckAnswer(Run(limit, es), token, at) == Some(session.user))
  {
    hide Next;
    hide Spares;
    hide Clock;
    var (token, now) := (es[k].token, es[k].now);
    var before := Run(limit, es[..k]);
    var session := before.sessions[token];
    assert es[..k + 1][..k] == es[..k] && es[k] == Refresh(token, now);
    RefreshLeaves(limit, before, token, now);
    RunSpares(limit, es, k + 1, token);
    var after := Session(session.user, Prolonged(limit, session.expireTs, now));
    assert Run(limit, es[..k + 1]).sessions[token] == after;
    hide Run;
    assert AliveOrExpired(Run(limit, es).sessions, token, after, Clock(es));
  }

  // ----- a refused token stays refused -----

  predicate Issues(e: Event, token: Token) { (e.LoginOk? || e.Complete?) && e.token == token }

  lemma StepStaysDead(limit: nat, s: State, e: Event, token: Token)
    requires token !in s.sessions && !Issues(e, token)
    ensures token !in Next(limit, s, e).sessions
  {
    hide Find;
    hide Remove;
    hide Approved;
    hide Swept;
  }

  /** A token for which `check` once answered None is refused until it is issued again. */
  lemma {:induction false} RefusedStaysRefused(limit: nat, es: seq<Event>, k: nat, token: Token, now: nat)
    requires k < |es| && es[k].Check? && es[k].token == token
    requires CheckAnswer(Run(limit, es[..k]), token, es[k].now) == None
    requires forall j :: k < j < |es| ==> !Issues(es[j], token)
    ensures token !in Run(limit, es).sessions && CheckAnswer(Run(limit, es), token, now) == None
    decreases |es|
  {
    hide Issues;
    var before, e := es[..|es| - 1], es[|es| - 1];
    if k == |es| - 1 {
      assert es[..k] == before;
    } else {
      hide Next;
      assert before[k] == es[k] && before[..k] == es[..k];
      RefusedStaysRefused(limit, before, k, token, now);
      StepStaysDead(limit, Run(limit, before), e, token);
    }
  }

  /** A token that was logged out is refused until it is issued again. */
  lemma {:induction false} LoggedOutStaysRefused(limit: nat, es: seq<Event>, k: nat, token: Token, now: nat)
    requires k < |es| && es[k] == Logout(token)
    requires forall j :: k < j < |es| ==> !Issues(es[j], token)
    ensures token !in Run(limit, es).sessions && CheckAnswer(Run(limit, es), token, now) == None
    decreases |es|
  {
    hide Issues;
    var before, e := es[..|es| - 1], es[|es| - 1];
    if k < |es| - 1 {
      hide Next;
      assert before[k] == es[k];
      LoggedOutStaysRefused(limit, before, k, token, now);
      StepStaysDead(limit, Run(limit, before), e, token);
    }
  }

  /** An expired session that no check has deleted yet is accepted again after a refresh, exactly
      when the limit is at least 2 or it expired before this very second. */
  lemma RefreshRevives(limit: nat, s: State, token: Token, now: nat)
    requires limit > 0 && token in s.sessions && s.sessions[token].expireTs > 0
    requires CheckAnswer(s, token, now) == None
    ensures CheckAnswer(Next(limit, s, Refresh(token, now)), token, now) != None
            <==> limit >= 2 || s.sessions[token].expireTs < now
  {}

  // ----- a session belongs to the user it was issued to -----

  /** The user of the last event that put this token into the dictionary. */
  function Owner(limit: nat, es: seq<Event>, token: Token): Option<User>
    decreases |es|
  {
    if es == [] then None
    else
      var before, e := es[..|es| - 1], es[|es| - 1];
      var s := Run(limit, before);
      if Issues(e, token) && Mints(s, e)
      then Some(if e.LoginOk? then e.user else Find(s.twoStep, e.twoToken).value.user)
      else Owner(limit, before, token)
  }

  lemma StepKeepsUser(limit: nat, s: State, e: Event, token: Token)
    requires token in Next(limit, s, e).sessions && !(Issues(e, token) && Mints(s, e))
    ensures token in s.sessions && Next(limit, s, e).sessions[token].user == s.sessions[token].user
  {
    hide Find;
    hide Remove;
    hide Approved;
    hide Swept;
    hide MakeExpireTs;
  }

  /** `check` never answers a user other than the one the token was last issued to. */
  lemma {:induction false} CheckAnswersOwner(limit: nat, es: seq<Event>, token: Token)
    requires token in Run(limit, es).sessions
    ensures Owner(limit, es, token) == Some(Run(limit, es).sessions[token].user)
    decreases |es|
  {
    hide Find;
    hide Remove;
    hide MakeExpireTs;
    var before, e := es[..|es| - 1], es[|es| - 1];
    var s := Run(limit, before);
    if !(Issues(e, token) && Mints(s, e)) {
      StepKeepsUser(limit, s, e, token);
      CheckAnswersOwner(limit, before, token);
    }
  }
}

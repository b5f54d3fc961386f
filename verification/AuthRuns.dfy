/** Whole runs of the login manager: what a two-step token mints, and which request is pending. */
module AuthRuns {
  import opened Options
  import opened AuthProtocol
  import opened AuthTwoStep

  lemma FreshPrefix(es: seq<Event>)
    requires FreshTokens(es) && es != []
    ensures FreshTokens(es[..|es| - 1])
  {}

  lemma IssuedBefore(es: seq<Event>, token: Token)
    requires FreshTokens(es) && es != [] && IssuedAt(es[..|es| - 1], token) >= 0
    ensures IssuedAt(es, token) == IssuedAt(es[..|es| - 1], token)
  {
    var i := IssuedAt(es[..|es| - 1], token);
    assert es[..|es| - 1][i] == es[i];
  }

  lemma StillInOrder(es: seq<Event>, ts: seq<TwoStep>)
    requires FreshTokens(es) && es != [] && InOrder(es[..|es| - 1], ts)
    ensures InOrder(es, ts)
  {
    hide IssuedAt;
    forall a | 0 <= a < |ts| ensures IssuedAt(es, ts[a].token) == IssuedAt(es[..|es| - 1], ts[a].token) {
      IssuedBefore(es, ts[a].token);
    }
  }

  lemma AppendedInOrder(es: seq<Event>, ts: seq<TwoStep>, p: TwoStep)
    requires FreshTokens(es) && es != [] && InOrder(es[..|es| - 1], ts)
    requires es[|es| - 1].PreLoginOk? && es[|es| - 1].twoToken == p.token
    ensures InOrder(es, ts + [p])
  {
    hide FreshTokens;
    StillInOrder(es, ts);
    forall a | 0 <= a < |ts| ensures IssuedAt(es, ts[a].token) < |es| - 1 {
      IssuedBefore(es, ts[a].token);
    }
  }

  lemma StepInOrder(limit: nat, s: State, e: Event, es: seq<Event>)
    requires FreshTokens(es) && es != [] && es[|es| - 1] == e && InOrder(es[..|es| - 1], s.twoStep)
    ensures InOrder(es, Next(limit, s, e).twoStep)
  {
    hide MakeExpireTs;
    hide Remove;
    hide Approved;
    hide Swept;
    hide Find;
    hide Minted;
    hide InOrder;
    hide FreshTokens;
    hide Within;
    StillInOrder(es, s.twoStep);
    InOrderDistinct(es, s.twoStep);
    var t := Next(limit, s, e).twoStep;
    match e {
      case PreLoginOk(twoToken, user, expire, wall) =>
        AppendedInOrder(es, s.twoStep, TwoStep(twoToken, user, wall + TWO_STEP_EXPIRE, expire, false));
      case Complete(twoToken, _, wall, _) =>
        RemoveWithin(s.twoStep, twoToken);
        WithinInOrder(es, Remove(s.twoStep, twoToken), s.twoStep);
      case Approve(twoToken, wall) =>
        RemoveWithin(s.twoStep, twoToken);
        ApprovedWithin(s.twoStep, twoToken);
        WithinInOrder(es, Remove(s.twoStep, twoToken), s.twoStep);
        WithinInOrder(es, Approved(s.twoStep, twoToken), s.twoStep);
      case Reject(twoToken) =>
        RemoveWithin(s.twoStep, twoToken);
        WithinInOrder(es, Remove(s.twoStep, twoToken), s.twoStep);
      case Enable(on) => NothingInOrder(es);
      case Sweep(wall) =>
        SweptWithin(s.twoStep, wall);
        WithinInOrder(es, Swept(s.twoStep, wall), s.twoStep);
      case _ =>
    }
  }

  lemma NothingInOrder(es: seq<Event>)
    ensures InOrder(es, [])
  {}

  /** The pending sessions are kept in the order in which their tokens were issued. */
  lemma {:induction false} RunInOrder(limit: nat, es: seq<Event>)
    requires FreshTokens(es)
    ensures InOrder(es, Run(limit, es).twoStep) && Distinct(Run(limit, es).twoStep)
    decreases |es|
  {
    hide Next;
    if es != [] {
      var before := es[..|es| - 1];
      FreshPrefix(es);
      RunInOrder(limit, before);
      StepInOrder(limit, Run(limit, before), es[|es| - 1], es);
    }
    InOrderDistinct(es, Run(limit, es).twoStep);
  }

  // ----- what a waiting session has behind it -----

  predicate Ends(e: Event, token: Token) { e == Reject(token) || e == Enable(false) }

  predicate ApprovesInTime(e: Event, token: Token, deadline: Wall) {
    e.Approve? && e.twoToken == token && e.wall <= deadline
  }

  predicate ApprovedSince(es: seq<Event>, i: int, token: Token, deadline: Wall) {
    exists j :: 0 <= j < |es| && i < j && ApprovesInTime(es[j], token, deadline)
  }

  predicate NotEndedSince(es: seq<Event>, i: int, token: Token) {
    forall j :: 0 <= j < |es| && i < j ==> !Ends(es[j], token)
  }

  /** The first step that was event i issued this token to this user. */
  predicate IssuedTo(e: Event, token: Token, user: User, expire: nat, deadline: Wall) {
    e.PreLoginOk? && e.twoToken == token && e.user == user && e.expire == expire && deadline == e.wall + TWO_STEP_EXPIRE
  }

  predicate Earned(es: seq<Event>, i: int, p: TwoStep) {
    && 0 <= i < |es| && IssuedTo(es[i], p.token, p.user, p.originalExpire, p.expireTs)
    && NotEndedSince(es, i, p.token)
    && (p.approved ==> ApprovedSince(es, i, p.token, p.expireTs))
  }

  lemma EarnedStep(es: seq<Event>, i: int, p: TwoStep, q: TwoStep)
    requires es != [] && Earned(es[..|es| - 1], i, p) && !Ends(es[|es| - 1], p.token)
    requires q == p || (q == p.(approved := true) && ApprovesInTime(es[|es| - 1], p.token, p.expireTs))
    ensures Earned(es, i, q)
  {
    hide ApprovesInTime;
    hide Ends;
    hide IssuedTo;
    var before := es[..|es| - 1];
    assert forall j :: 0 <= j < |before| ==> before[j] == es[j];
    if p.approved {
      var j :| 0 <= j < |before| && i < j && ApprovesInTime(before[j], p.token, p.expireTs);
      assert ApprovesInTime(es[j], p.token, p.expireTs);
    }
  }

  lemma {:induction false} WaitingIsEarned(limit: nat, es: seq<Event>, token: Token)
    requires FreshTokens(es) && Find(Run(limit, es).twoStep, token).Some?
    ensures Earned(es, IssuedAt(es, token), Find(Run(limit, es).twoStep, token).value)
    decreases |es|
  {
    hide Next;
    hide Find;
    assert es != [] by { FindNone([], token); }
    var before, e := es[..|es| - 1], es[|es| - 1];
    var s := Run(limit, before);
    FreshPrefix(es);
    RunInOrder(limit, before);
    hide InOrder;
    hide Distinct;
    TokensAreIndependent(limit, s, e, token);
    hide Run;
    if Find(s.twoStep, token).Some? {
      WaitingIsEarned(limit, before, token);
      IssuedBefore(es, token);
      hide IssuedAt;
      hide FreshTokens;
      EarnedStep(es, IssuedAt(es, token), Find(s.twoStep, token).value, Advance(Find(s.twoStep, token), e, token).value);
    }
  }

  // ----- what a token mints -----

  /** Event k exchanges its two-step token for a session. */
  predicate MintsAt(limit: nat, es: seq<Event>, k: nat) {
    k < |es| && es[k].Complete? && Mints(Run(limit, es[..k]), es[k])
  }

  lemma FreshTake(es: seq<Event>, k: nat)
    requires FreshTokens(es) && k <= |es|
    ensures FreshTokens(es[..k])
  {}

  /** A two-step token mints a session only for the user whose first step issued it, with the expiry
      that user asked for; only after an approval, and not after a rejection, a disabling, or the
      token's 60 seconds. */
  lemma MintIsEarned(limit: nat, es: seq<Event>, k: nat)
    requires FreshTokens(es) && MintsAt(limit, es, k)
    ensures var i := IssuedAt(es[..k], es[k].twoToken);
      && 0 <= i < k && es[i].PreLoginOk? && es[i].twoToken == es[k].twoToken
      && NotEndedSince(es[..k], i, es[k].twoToken)
      && ApprovedSince(es[..k], i, es[k].twoToken, es[i].wall + 60.0)
      && es[k].wall <= es[i].wall + 60.0
      && Run(limit, es[..k + 1]).sessions
           == Minted(limit, Run(limit, es[..k]).sessions, es[k].token, es[i].user, es[i].expire, es[k].now)
  {
    hide Find;
    hide Remove;
    hide Minted;
    FreshTake(es, k);
    hide FreshTokens;
    WaitingIsEarned(limit, es[..k], es[k].twoToken);
    hide NotEndedSince;
    hide ApprovedSince;
    assert es[..k + 1][..k] == es[..k];
  }

  lemma {:induction false} StaysGone(limit: nat, es: seq<Event>, k: nat, token: Token)
    requires FreshTokens(es) && k <= |es| && Find(Run(limit, es[..k]).twoStep, token) == None
    requires IssuedAt(es[..k], token) >= 0
    ensures Find(Run(limit, es).twoStep, token) == None && IssuedAt(es, token) >= 0
    decreases |es|
  {
    hide Next;
    hide Find;
    if k == |es| {
      assert es[..k] == es;
    } else {
      var before := es[..|es| - 1];
      assert before[..k] == es[..k];
      FreshPrefix(es);
      StaysGone(limit, before, k, token);
      IssuedBefore(es, token);
      RunInOrder(limit, before);
      TokensAreIndependent(limit, Run(limit, before), es[|es| - 1], token);
      assert before[IssuedAt(before, token)] == es[IssuedAt(before, token)];
    }
  }

  lemma GoneAfterMint(limit: nat, es: seq<Event>, k: nat)
    requires FreshTokens(es) && MintsAt(limit, es, k)
    ensures Find(Run(limit, es[..k + 1]).twoStep, es[k].twoToken) == None
    ensures IssuedAt(es[..k + 1], es[k].twoToken) >= 0
  {
    hide Find;
    hide Remove;
    hide Minted;
    FreshTake(es, k);
    hide FreshTokens;
    WaitingIsEarned(limit, es[..k], es[k].twoToken);
    FindRemove(Run(limit, es[..k]).twoStep, es[k].twoToken, es[k].twoToken);
    assert es[..k + 1][..k] == es[..k];
  }

  /** A two-step token mints at most one session. */
  lemma MintsAtMostOnce(limit: nat, es: seq<Event>, j: nat, k: nat)
    requires FreshTokens(es) && MintsAt(limit, es, j) && MintsAt(limit, es, k) && j <= k
    requires es[j].twoToken == es[k].twoToken
    ensures j == k
  {
    hide Find;
    hide Next;
    if j < k {
      GoneAfterMint(limit, es, j);
      FreshTake(es, k);
      assert es[..k][..j + 1] == es[..j + 1];
      StaysGone(limit, es[..k], j + 1, es[j].twoToken);
    }
  }

  // ----- and what it does not need -----

  predicate SeesExpiry(e: Event, token: Token, deadline: Wall) {
    && (e.Sweep? || ((e.Approve? || e.Complete?) && e.twoToken == token))
    && e.wall > deadline
  }

  predicate Exchanges(s: State, e: Event, token: Token) {
    e.Complete? && e.twoToken == token && CompleteStatus(s, token, e.wall) == Ok
  }

  predicate Quiet(limit: nat, es: seq<Event>, i: int, token: Token, deadline: Wall) {
    forall j :: 0 <= j < |es| && i < j ==>
      !Ends(es[j], token) && !SeesExpiry(es[j], token, deadline) && !Exchanges(Run(limit, es[..j]), es[j], token)
  }

  lemma NotYetIssued(limit: nat, es: seq<Event>, token: Token)
    requires FreshTokens(es) && (forall i :: 0 <= i < |es| && es[i].PreLoginOk? ==> es[i].twoToken != token)
    ensures Find(Run(limit, es).twoStep, token) == None
  {
    hide Next;
    hide Find;
    RunInOrder(limit, es);
    FindNone(Run(limit, es).twoStep, token);
  }

  lemma ApprovedSinceSnoc(es: seq<Event>, i: int, token: Token, deadline: Wall)
    requires es != [] && i < |es| - 1
    ensures ApprovedSince(es, i, token, deadline)
            <==> ApprovedSince(es[..|es| - 1], i, token, deadline) || ApprovesInTime(es[|es| - 1], token, deadline)
  {
    hide ApprovesInTime;
    var before := es[..|es| - 1];
    assert forall j :: 0 <= j < |before| ==> before[j] == es[j];
    if ApprovedSince(before, i, token, deadline) {
      var j :| 0 <= j < |before| && i < j && ApprovesInTime(before[j], token, deadline);
      assert ApprovesInTime(es[j], token, deadline);
    }
  }

  lemma QuietPrefix(limit: nat, es: seq<Event>, i: int, token: Token, deadline: Wall)
    requires es != [] && Quiet(limit, es, i, token, deadline)
    ensures Quiet(limit, es[..|es| - 1], i, token, deadline)
  {
    hide Run;
    hide Exchanges;
    hide SeesExpiry;
    var before := es[..|es| - 1];
    assert forall j :: 0 <= j < |before| ==> before[j] == es[j] && before[..j] == es[..j];
  }

  /** Conversely: until a rejection, a disabling, an exchange, or an event that sees it expired, a
      token keeps waiting, and is approved exactly if some approval came in time. */
  lemma {:induction false} TokenWaits(limit: nat, es: seq<Event>, i: nat, token: Token, user: User, expire: nat, deadline: Wall)
    requires FreshTokens(es) && i < |es| && IssuedTo(es[i], token, user, expire, deadline)
    requires Quiet(limit, es, i, token, deadline)
    ensures Find(Run(limit, es).twoStep, token)
            == Some(TwoStep(token, user, deadline, expire, ApprovedSince(es, i, token, deadline)))
    decreases |es|
  {
    hide Next;
    hide Find;
    var before, e := es[..|es| - 1], es[|es| - 1];
    var s := Run(limit, before);
    FreshPrefix(es);
    RunInOrder(limit, before);
    TokensAreIndependent(limit, s, e, token);
    if i == |es| - 1 {
      hide Run;
      NotYetIssued(limit, before, token);
    } else {
      assert before[i] == es[i];
      QuietPrefix(limit, es, i, token, deadline);
      TokenWaits(limit, before, i, token, user, expire, deadline);
      ApprovedSinceSnoc(es, i, token, deadline);
      assert !Exchanges(Run(limit, es[..|es| - 1]), e, token);
      hide Run;
    }
  }

  // ----- the pending request -----

  predicate Live(p: TwoStep, wall: Wall) { !p.approved && !Expired(p, wall) }

  lemma {:induction false} NewestIsLast(ts: seq<TwoStep>, wall: Wall, a: nat)
    requires a < |ts| && Live(ts[a], wall)
    ensures Newest(ts, wall).Some?
    ensures exists b :: a <= b < |ts| && ts[b] == Newest(ts, wall).value && Live(ts[b], wall)
    decreases |ts|
  {
    var last := ts[|ts| - 1];
    if Live(last, wall) {
      assert ts[|ts| - 1] == Newest(ts, wall).value;
    } else {
      var init := ts[..|ts| - 1];
      NewestIsLast(init, wall, a);
      var b :| a <= b < |init| && init[b] == Newest(init, wall).value && Live(init[b], wall);
      assert ts[b] == init[b];
    }
  }

  lemma {:induction false} NewestIsLive(ts: seq<TwoStep>, wall: Wall)
    requires Newest(ts, wall).Some?
    ensures exists b :: 0 <= b < |ts| && ts[b] == Newest(ts, wall).value && Live(ts[b], wall)
    decreases |ts|
  {
    if Live(ts[|ts| - 1], wall) {
      assert ts[|ts| - 1] == Newest(ts, wall).value;
    } else {
      var init := ts[..|ts| - 1];
      NewestIsLive(init, wall);
      var b :| 0 <= b < |init| && init[b] == Newest(init, wall).value && Live(init[b], wall);
      assert ts[b] == init[b];
    }
  }

  lemma {:induction false} FindAt(ts: seq<TwoStep>, token: Token)
    requires Find(ts, token).Some?
    ensures exists a :: 0 <= a < |ts| && ts[a] == Find(ts, token).value
    decreases |ts|
  {
    if ts[|ts| - 1].token != token {
      var init := ts[..|ts| - 1];
      FindAt(init, token);
      var a :| 0 <= a < |init| && init[a] == Find(init, token).value;
      assert ts[a] == init[a];
    } else {
      assert ts[|ts| - 1] == Find(ts, token).value;
    }
  }

  /** What is left of the pending sessions by a sweep. */
  lemma SweptRun(limit: nat, es: seq<Event>, wall: Wall)
    requires FreshTokens(es)
    ensures InOrder(es, Swept(Run(limit, es).twoStep, wall)) && Distinct(Swept(Run(limit, es).twoStep, wall))
    ensures Distinct(Run(limit, es).twoStep)
  {
    hide IssuedAt;
    hide Swept;
    hide Within;
    var ts := Run(limit, es).twoStep;
    RunInOrder(limit, es);
    SweptWithin(ts, wall);
    WithinInOrder(es, Swept(ts, wall), ts);
    InOrderDistinct(es, Swept(ts, wall));
  }

  /** The reported request is unapproved and not expired. */
  lemma PendingIsLive(limit: nat, es: seq<Event>, wall: Wall)
    requires FreshTokens(es) && PendingAnswer(Run(limit, es), wall).Some?
    ensures var q := PendingAnswer(Run(limit, es), wall).value;
            Live(q, wall) && Find(Run(limit, es).twoStep, q.token) == Some(q)
  {
    hide Run;
    hide FreshTokens;
    hide Swept;
    hide Find;
    hide Newest;
    var ts := Run(limit, es).twoStep;
    SweptRun(limit, es, wall);
    var swept := Swept(ts, wall);
    NewestIsLive(swept, wall);
    var b :| 0 <= b < |swept| && swept[b] == Newest(swept, wall).value && Live(swept[b], wall);
    FindIs(swept, b);
    FindSwept(ts, wall, swept[b].token);
  }

  /** The reported request is the newest one that is unapproved and not expired. */
  lemma PendingIsNewest(limit: nat, es: seq<Event>, wall: Wall, token: Token)
    requires FreshTokens(es)
    requires Find(Run(limit, es).twoStep, token).Some? && Live(Find(Run(limit, es).twoStep, token).value, wall)
    ensures PendingAnswer(Run(limit, es), wall).Some?
    ensures IssuedAt(es, token) <= IssuedAt(es, PendingAnswer(Run(limit, es), wall).value.token)
  {
    hide Run;
    hide FreshTokens;
    hide Swept;
    hide Find;
    hide Newest;
    hide IssuedAt;
    var ts := Run(limit, es).twoStep;
    SweptRun(limit, es, wall);
    var swept := Swept(ts, wall);
    FindSwept(ts, wall, token);
    FindAt(swept, token);
    var a :| 0 <= a < |swept| && swept[a] == Find(swept, token).value;
    NewestIsLast(swept, wall, a);
  }
}

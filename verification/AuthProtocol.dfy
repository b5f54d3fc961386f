/** Sessions, two-step tokens and the failure counter of the login manager, as one state machine. */
module AuthProtocol {
  import opened Options

  type Token = string
  type User = string
  type Wall = real

  datatype Session = Session(user: User, expireTs: int)

  datatype TwoStep = TwoStep(token: Token, user: User, expireTs: Wall, originalExpire: nat, approved: bool)

  /** `twoStep` lists the two-step sessions in the order of their dictionary. */
  datatype State = State(sessions: map<Token, Session>, twoStep: seq<TwoStep>, failed: nat)

  const INIT := State(map[], [], 0)

  const TWO_STEP_EXPIRE: Wall := 60.0

  /** `wall` is time.time(), `now` is time.monotonic() in whole seconds. A failed authorization is
      the same event in a login and in a first step. */
  datatype Event =
    | LoginOk(token: Token, user: User, expire: nat, now: nat)
    | AuthFailed
    | PreLoginOk(twoToken: Token, user: User, expire: nat, wall: Wall)
    | Complete(twoToken: Token, token: Token, wall: Wall, now: nat)
    | Approve(twoToken: Token, wall: Wall)
    | Reject(twoToken: Token)
    | Enable(on: bool)
    | Sweep(wall: Wall)
    | Logout(token: Token)
    | Check(token: Token, now: nat)
    | Refresh(token: Token, now: nat)

  // ----- sessions -----

  /** `limit` is the global session limit, 0 for none. */
  function MakeExpireTs(limit: nat, expire: nat, now: nat): int {
    var e := if expire == 0 then limit else if limit > 0 && limit < expire then limit else expire;
    if e > 0 then now + e else 0
  }

  function Minted(limit: nat, sessions: map<Token, Session>, token: Token, user: User, expire: nat, now: nat)
    : map<Token, Session>
  {
    sessions[token := Session(user, MakeExpireTs(limit, expire, now))]
  }

  predicate Alive(sessions: map<Token, Session>, token: Token, now: nat) {
    token in sessions && (sessions[token].expireTs <= 0 || now < sessions[token].expireTs)
  }

  function CheckAnswer(s: State, token: Token, now: nat): Option<User> {
    if Alive(s.sessions, token, now) then Some(s.sessions[token].user) else None
  }

  function Checked(sessions: map<Token, Session>, token: Token, now: nat): map<Token, Session> {
    if Alive(sessions, token, now) then sessions else sessions - {token}
  }

  function Refreshed(limit: nat, sessions: map<Token, Session>, token: Token, now: nat): map<Token, Session> {
    if token in sessions && limit > 0 && sessions[token].expireTs > 0
       && sessions[token].expireTs - now < limit / 2
    then sessions[token := sessions[token].(expireTs := now + limit)]
    else sessions
  }

  // ----- two-step sessions -----

  function Find(ts: seq<TwoStep>, token: Token): (p: Option<TwoStep>)
    ensures p.Some? ==> p.value.token == token && p.value in ts
    decreases |ts|
  {
    if ts == [] then None
    else if ts[|ts| - 1].token == token then Some(ts[|ts| - 1])
    else Find(ts[..|ts| - 1], token)
  }

  function Remove(ts: seq<TwoStep>, token: Token): seq<TwoStep>
    decreases |ts|
  {
    if ts == [] then []
    else Remove(ts[..|ts| - 1], token) + (if ts[|ts| - 1].token == token then [] else [ts[|ts| - 1]])
  }

  predicate Expired(p: TwoStep, wall: Wall) { wall > p.expireTs }

  function Swept(ts: seq<TwoStep>, wall: Wall): seq<TwoStep>
    decreases |ts|
  {
    if ts == [] then []
    else Swept(ts[..|ts| - 1], wall) + (if Expired(ts[|ts| - 1], wall) then [] else [ts[|ts| - 1]])
  }

  function Approved(ts: seq<TwoStep>, token: Token): seq<TwoStep>
    decreases |ts|
  {
    if ts == [] then []
    else
      var last := ts[|ts| - 1];
      Approved(ts[..|ts| - 1], token) + [if last.token == token then last.(approved := true) else last]
  }

  /** The last unapproved session that is not expired. */
  function Newest(ts: seq<TwoStep>, wall: Wall): Option<TwoStep>
    decreases |ts|
  {
    if ts == [] then None
    else if !ts[|ts| - 1].approved && !Expired(ts[|ts| - 1], wall) then Some(ts[|ts| - 1])
    else Newest(ts[..|ts| - 1], wall)
  }

  function PendingAnswer(s: State, wall: Wall): Option<TwoStep> { Newest(Swept(s.twoStep, wall), wall) }

  // ----- steps and runs -----

  datatype Status = Ok | Pending | ExpiredToken | Invalid

  function CompleteStatus(s: State, twoToken: Token, wall: Wall): Status {
    var p := Find(s.twoStep, twoToken);
    if p.None? then Invalid
    else if Expired(p.value, wall) then ExpiredToken
    else if !p.value.approved then Pending
    else Ok
  }

  /** A new token that is already taken makes the call raise: after the two-step session was
      removed, but before anything else. */
  function Next(limit: nat, s: State, e: Event): State {
    match e
    case LoginOk(token, user, expire, now) =>
      if token in s.sessions then s
      else s.(sessions := Minted(limit, s.sessions, token, user, expire, now), failed := 0)
    case AuthFailed => s.(failed := s.failed + 1)
    case PreLoginOk(twoToken, user, expire, wall) =>
      if Find(s.twoStep, twoToken).Some? then s
      else s.(twoStep := s.twoStep + [TwoStep(twoToken, user, wall + TWO_STEP_EXPIRE, expire, false)])
    case Complete(twoToken, token, wall, now) =>
      var status := CompleteStatus(s, twoToken, wall);
      if status == Invalid || status == Pending then s
      else if status == ExpiredToken || token in s.sessions then s.(twoStep := Remove(s.twoStep, twoToken))
      else
        var p := Find(s.twoStep, twoToken).value;
        State(Minted(limit, s.sessions, token, p.user, p.originalExpire, now), Remove(s.twoStep, twoToken), 0)
    case Approve(twoToken, wall) =>
      var p := Find(s.twoStep, twoToken);
      if p.None? then s
      else if Expired(p.value, wall) then s.(twoStep := Remove(s.twoStep, twoToken))
      else s.(twoStep := Approved(s.twoStep, twoToken))
    case Reject(twoToken) => s.(twoStep := Remove(s.twoStep, twoToken))
    case Enable(on) => if on then s else s.(twoStep := [])
    case Sweep(wall) => s.(twoStep := Swept(s.twoStep, wall))
    case Logout(token) => s.(sessions := s.sessions - {token})
    case Check(token, now) => s.(sessions := Checked(s.sessions, token, now))
    case Refresh(token, now) => s.(sessions := Refreshed(limit, s.sessions, token, now))
  }

  function Run(limit: nat, es: seq<Event>): State
    decreases |es|
  {
    if es == [] then INIT else Next(limit, Run(limit, es[..|es| - 1]), es[|es| - 1])
  }

  /** This event ends with a new session, and so reports and clears the failure counter. */
  predicate Mints(s: State, e: Event) {
    || (e.LoginOk? && e.token !in s.sessions)
    || (e.Complete? && CompleteStatus(s, e.twoToken, e.wall) == Ok && e.token !in s.sessions)
  }

  // ----- the failure counter -----

  function Reported(limit: nat, es: seq<Event>): nat
    decreases |es|
  {
    if es == [] then 0
    else
      var before, e := Run(limit, es[..|es| - 1]), es[|es| - 1];
      Reported(limit, es[..|es| - 1]) + if Mints(before, e) then before.failed else 0
  }

  function Failures(es: seq<Event>): nat
    decreases |es|
  {
    if es == [] then 0 else Failures(es[..|es| - 1]) + if es[|es| - 1].AuthFailed? then 1 else 0
  }

  /** No failure is lost or reported twice: the reports made so far and the counter add up to the
      failed authorizations. */
  lemma {:induction false} FailuresAreConserved(limit: nat, es: seq<Event>)
    ensures Reported(limit, es) + Run(limit, es).failed == Failures(es)
    decreases |es|
  {
    hide Find;
    hide Remove;
    hide Approved;
    hide Swept;
    hide MakeExpireTs;
    if es != [] { FailuresAreConserved(limit, es[..|es| - 1]); }
  }
}

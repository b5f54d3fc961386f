/** The login manager itself: its dictionaries and its failure counter, changed in place. Whether
    the credentials are right, new random tokens, and the clocks are parameters. */
module AuthManagerClass {
  import opened Options
  import opened AuthProtocol
  import R = RateLimit
  import T = AuthTwoStep

  type Ip = string

  /** What a login or a first step ends with. */
  datatype LoginResult = Granted(token: Token, failedSinceLast: nat) | Denied | RateLimited(remaining: int) | NoToken

  class AuthManager {
    const limit: nat
    const rateLimited: bool
    const rates: R.Config
    var sessions: map<Token, Session>
    var twoStep: seq<TwoStep>
    var failed: nat
    var clientLocks: map<Ip, R.Entry>

    constructor (limit: nat, rateLimited: bool, rates: R.Config)
      ensures this.limit == limit && this.rateLimited == rateLimited && this.rates == rates
      ensures View() == INIT && clientLocks == map[]
    {
      this.limit, this.rateLimited, this.rates := limit, rateLimited, rates;
      sessions, twoStep, failed, clientLocks := map[], [], 0, map[];
    }

    function View(): State
      reads this
    {
      State(sessions, twoStep, failed)
    }

    function EntryOf(ip: Ip): Option<R.Entry>
      reads this
    {
      if ip in clientLocks then Some(clientLocks[ip]) else None
    }

    // ----- rate limiting -----

    method IsClientLocked(ip: Ip, now: R.Time) returns (locked: bool, remaining: int)
      modifies `clientLocks
      ensures locked == (rateLimited && R.Locked(old(EntryOf(ip)), now))
      ensures locked ==> clientLocks == old(clientLocks) && remaining == (old(clientLocks[ip]).lockedUntil - now).Floor
      ensures !locked ==> remaining == 0
      ensures EntryOf(ip) == if rateLimited then R.Queried(old(EntryOf(ip)), now) else old(EntryOf(ip))
      ensures forall other :: other != ip ==> EntryOf(other) == old(EntryOf(other))
    {
      if !rateLimited || ip !in clientLocks { return false, 0; }
      var info := clientLocks[ip];
      if info.lockedUntil > now { return true, (info.lockedUntil - now).Floor; }
      if info.lockedUntil > 0.0 {
        clientLocks := clientLocks - {ip};
      }
      return false, 0;
    }

    method Prune(attempts: seq<R.Time>, cutoff: R.Time) returns (kept: seq<R.Time>)
      ensures kept == R.After(attempts, cutoff)
    {
      kept := [];
      for i := 0 to |attempts|
        invariant kept == R.After(attempts[..i], cutoff)
      {
        assert attempts[..i + 1][..i] == attempts[..i];
        if attempts[i] > cutoff {
          kept := kept + [attempts[i]];
        }
      }
      assert attempts[..|attempts|] == attempts;
    }

    method RecordFailedAttempt(ip: Ip, now: R.Time)
      modifies `clientLocks
      ensures EntryOf(ip) == if rateLimited then R.Recorded(rates, old(EntryOf(ip)), now) else old(EntryOf(ip))
      ensures forall other :: other != ip ==> EntryOf(other) == old(EntryOf(other))
    {
      hide R.After;
      if !rateLimited { return; }
      if ip !in clientLocks {
        clientLocks := clientLocks[ip := R.Entry(0.0, [])];
      }
      var info := clientLocks[ip];
      var attempts := Prune(info.attempts + [now], now - rates.window);
      clientLocks := clientLocks[ip := info.(attempts := attempts)];
      if |attempts| >= rates.maxAttempts {
        clientLocks := clientLocks[ip := R.Entry(now + rates.lockout, attempts)];
      }
    }

    method CleanupExpiredData(now: R.Time)
      modifies `clientLocks
      ensures forall ip :: EntryOf(ip) == if rateLimited then R.Cleaned(rates, old(EntryOf(ip)), now) else old(EntryOf(ip))
    {
      if !rateLimited { return; }
      ghost var was := clientLocks;
      var todo, remove := clientLocks.Keys, {};
      while todo != {}
        invariant todo <= was.Keys && clientLocks.Keys == was.Keys && remove <= was.Keys - todo
        invariant forall ip :: ip in todo ==> clientLocks[ip] == was[ip]
        invariant forall ip :: ip in was && ip !in todo ==>
                    R.Cleaned(rates, Some(was[ip]), now) == if ip in remove then None else Some(clientLocks[ip])
        decreases todo
      {
        var ip :| ip in todo;
        var info := clientLocks[ip];
        var until := if 0.0 < info.lockedUntil <= now then 0.0 else info.lockedUntil;
        var attempts := Prune(info.attempts, now - rates.window);
        clientLocks := clientLocks[ip := R.Entry(until, attempts)];
        if attempts == [] && until <= now {
          remove := remove + {ip};
        }
        todo := todo - {ip};
      }
      clientLocks := clientLocks - remove;
    }

    method UnlockClient(ip: Ip, now: R.Time) returns (unlocked: bool)
      modifies `clientLocks
      ensures unlocked == (rateLimited && R.Locked(old(EntryOf(ip)), now))
      ensures EntryOf(ip) == if rateLimited then R.Unlocked(old(EntryOf(ip)), now) else old(EntryOf(ip))
      ensures forall other :: other != ip ==> EntryOf(other) == old(EntryOf(other))
    {
      if !rateLimited || ip !in clientLocks { return false; }
      unlocked := clientLocks[ip].lockedUntil > now;
      if unlocked {
        clientLocks := clientLocks[ip := R.Entry(0.0, [])];
      }
    }

    // ----- logging in -----

    /** `asked`, `swept`, `recorded` and `answered` are the times of the steps in between. */
    method Login(user: User, expire: nat, ip: Ip, authorized: bool, token: Token, now: nat, sweep: bool,
                 asked: R.Time, swept: R.Time, recorded: R.Time, answered: R.Time)
      returns (r: LoginResult)
      modifies this
      ensures old(rateLimited && R.Locked(EntryOf(ip), asked)) ==>
                r.RateLimited? && View() == old(View()) && clientLocks == old(clientLocks)
      ensures !old(rateLimited && R.Locked(EntryOf(ip), asked)) ==>
                && View() == Next(limit, old(View()), if authorized then LoginOk(token, user, expire, now) else AuthFailed)
                && (r == Granted(token, old(failed)) <==> authorized && token !in old(sessions))
                && (r == NoToken <==> authorized && token in old(sessions))
                && (rateLimited ==> var e := R.Admitted(rates, old(EntryOf(ip)), asked, sweep, swept);
                      EntryOf(ip) == (if authorized then e
                                      else R.Queried(R.Recorded(rates, e, recorded), answered))
                      && (r.RateLimited? <==> !authorized && R.Locked(R.Recorded(rates, e, recorded), answered)))
      ensures forall other :: other != ip && !(rateLimited && sweep) ==> EntryOf(other) == old(EntryOf(other))
    {
      hide R.Recorded;
      hide R.Cleaned;
      hide MakeExpireTs;
      var locked, remaining := IsClientLocked(ip, asked);
      if locked {
        return RateLimited(remaining);
      }
      if rateLimited && sweep {
        CleanupExpiredData(swept);
      }
      if authorized {
        if token in sessions { return NoToken; }
        sessions := sessions[token := Session(user, MakeExpireTs(limit, expire, now))];
        r := Granted(token, failed);
        failed := 0;
      } else {
        failed := failed + 1;
        RecordFailedAttempt(ip, recorded);
        locked, remaining := IsClientLocked(ip, answered);
        r := if locked then RateLimited(remaining) else Denied;
      }
    }

    method PreLogin(user: User, expire: nat, ip: Ip, authorized: bool, twoToken: Token, wall: Wall, sweep: bool,
                    asked: R.Time, swept: Wall, recorded: R.Time, answered: R.Time)
      returns (r: LoginResult)
      modifies this
      ensures old(rateLimited && R.Locked(EntryOf(ip), asked)) ==>
                r.RateLimited? && View() == old(View()) && clientLocks == old(clientLocks)
      ensures !old(rateLimited && R.Locked(EntryOf(ip), asked)) ==>
                var s := if sweep then Next(limit, old(View()), Sweep(swept)) else old(View());
                && View() == Next(limit, s, if authorized then PreLoginOk(twoToken, user, expire, wall) else AuthFailed)
                && (r == Granted(twoToken, 0) <==> authorized && Find(s.twoStep, twoToken) == None)
                && (r == NoToken <==> authorized && Find(s.twoStep, twoToken) != None)
                && (rateLimited ==> var e := R.Queried(old(EntryOf(ip)), asked);
                      EntryOf(ip) == (if authorized then e
                                      else R.Queried(R.Recorded(rates, e, recorded), answered))
                      && (r.RateLimited? <==> !authorized && R.Locked(R.Recorded(rates, e, recorded), answered)))
      ensures forall other :: other != ip ==> EntryOf(other) == old(EntryOf(other))
    {
      hide R.Recorded;
      hide Swept;
      hide Find;
      var locked, remaining := IsClientLocked(ip, asked);
      if locked { return RateLimited(remaining); }
      if sweep {
        CleanupTwoStepSessions(swept);
      }
      if authorized {
        if Find(twoStep, twoToken).Some? { return NoToken; }
        twoStep := twoStep + [TwoStep(twoToken, user, wall + TWO_STEP_EXPIRE, expire, false)];
        r := Granted(twoToken, 0);
      } else {
        failed := failed + 1;
        RecordFailedAttempt(ip, recorded);
        locked, remaining := IsClientLocked(ip, answered);
        r := if locked then RateLimited(remaining) else Denied;
      }
    }

    // ----- two steps -----

    method CleanupTwoStepSessions(wall: Wall)
      modifies `twoStep
      ensures View() == Next(limit, old(View()), Sweep(wall))
    {
      var kept := [];
      for i := 0 to |twoStep|
        invariant twoStep == old(twoStep) && kept == Swept(twoStep[..i], wall)
      {
        assert twoStep[..i + 1][..i] == twoStep[..i];
        if !(wall > twoStep[i].expireTs) {
          kept := kept + [twoStep[i]];
        }
      }
      assert twoStep[..|twoStep|] == twoStep;
      twoStep := kept;
    }

    /** `NoToken` stands for the exception when no unused session token was found. */
    method CompleteTwoStepLogin(twoToken: Token, token: Token, wall: Wall, now: nat)
      returns (status: Status, r: LoginResult)
      modifies this
      ensures View() == Next(limit, old(View()), Complete(twoToken, token, wall, now))
      ensures status == CompleteStatus(old(View()), twoToken, wall)
      ensures r.Granted? <==> Mints(old(View()), Complete(twoToken, token, wall, now))
      ensures r.Granted? ==> r == Granted(token, old(failed))
      ensures clientLocks == old(clientLocks)
    {
      hide Find;
      hide Remove;
      hide MakeExpireTs;
      var session := Find(twoStep, twoToken);
      if session.None? { return Invalid, Denied; }
      if wall > session.value.expireTs {
        twoStep := Remove(twoStep, twoToken);
        return ExpiredToken, Denied;
      }
      if !session.value.approved { return Pending, Denied; }
      twoStep := Remove(twoStep, twoToken);
      if token in sessions { return Ok, NoToken; }
      sessions := sessions[token := Session(session.value.user, MakeExpireTs(limit, session.value.originalExpire, now))];
      r := Granted(token, failed);
      failed := 0;
      status := Ok;
    }

    method ApproveTwoStepSession(twoToken: Token, wall: Wall) returns (approved: bool)
      modifies `twoStep
      ensures View() == Next(limit, old(View()), Approve(twoToken, wall))
      ensures approved == (Find(old(twoStep), twoToken).Some? && !Expired(Find(old(twoStep), twoToken).value, wall))
    {
      hide Find;
      hide Remove;
      hide Approved;
      var session := Find(twoStep, twoToken);
      if session.None? { return false; }
      if wall > session.value.expireTs {
        twoStep := Remove(twoStep, twoToken);
        return false;
      }
      twoStep := Approved(twoStep, twoToken);
      return true;
    }

    method RejectTwoStepSession(twoToken: Token) returns (rejected: bool)
      modifies `twoStep
      ensures View() == Next(limit, old(View()), Reject(twoToken))
      ensures rejected == Find(old(twoStep), twoToken).Some?
    {
      hide Find;
      hide Remove;
      if Find(twoStep, twoToken).None? {
        T.RemoveAbsent(twoStep, twoToken);
        return false;
      }
      twoStep := Remove(twoStep, twoToken);
      return true;
    }

    method SetTwoStepLoginEnabled(on: bool)
      modifies `twoStep
      ensures View() == Next(limit, old(View()), Enable(on))
    {
      if !on {
        twoStep := [];
      }
    }

    method GetPendingTwoStepSession(wall: Wall) returns (pending: Option<TwoStep>)
      modifies `twoStep
      ensures View() == Next(limit, old(View()), Sweep(wall))
      ensures pending == PendingAnswer(old(View()), wall)
    {
      hide Swept;
      CleanupTwoStepSessions(wall);
      var i := |twoStep|;
      assert twoStep[..i] == twoStep;
      while i > 0
        invariant i <= |twoStep| && Newest(twoStep, wall) == Newest(twoStep[..i], wall)
      {
        i := i - 1;
        assert twoStep[..i + 1][..i] == twoStep[..i];
        if !twoStep[i].approved && wall <= twoStep[i].expireTs { return Some(twoStep[i]); }
      }
      return None;
    }

    // ----- sessions -----

    method LogoutToken(token: Token)
      modifies `sessions
      ensures View() == Next(limit, old(View()), Logout(token))
    {
      if token in sessions {
        sessions := sessions - {token};
      }
    }

    method CheckToken(token: Token, now: nat) returns (user: Option<User>)
      modifies `sessions
      ensures View() == Next(limit, old(View()), Check(token, now))
      ensures user == CheckAnswer(old(View()), token, now)
    {
      if token in sessions {
        var session := sessions[token];
        if session.expireTs <= 0 { return Some(session.user); }
        if now < session.expireTs { return Some(session.user); }
        sessions := sessions - {token};
      }
      return None;
    }

    method RefreshTokenExpiry(token: Token, now: nat) returns (found: bool)
      modifies `sessions
      ensures View() == Next(limit, old(View()), Refresh(token, now))
      ensures found == (token in old(sessions) && limit > 0 && old(sessions)[token].expireTs > 0)
    {
      if token in sessions && limit > 0 && sessions[token].expireTs > 0 {
        var remaining := sessions[token].expireTs - now;
        if remaining < limit / 2 {
          sessions := sessions[token := sessions[token].(expireTs := now + limit)];
        }
        return true;
      }
      return false;
    }
  }
}

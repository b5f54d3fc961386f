/** What a two-step token can and cannot do, over whole runs. */
module AuthTwoStep {
  import opened Options
  import opened AuthProtocol

  // ----- the dictionary, seen from one token -----

  predicate Distinct(ts: seq<TwoStep>) { forall a, b :: 0 <= a < b < |ts| ==> ts[a].token != ts[b].token }

  lemma {:induction false} FindIs(ts: seq<TwoStep>, a: nat)
    requires Distinct(ts) && a < |ts|
    ensures Find(ts, ts[a].token) == Some(ts[a])
    decreases |ts|
  {
    if a < |ts| - 1 { FindIs(ts[..|ts| - 1], a); }
  }

  lemma {:induction false} FindNone(ts: seq<TwoStep>, token: Token)
    ensures Find(ts, token) == None <==> forall a :: 0 <= a < |ts| ==> ts[a].token != token
    decreases |ts|
  {
    if ts != [] {
      var init := ts[..|ts| - 1];
      FindNone(init, token);
      assert forall a :: 0 <= a < |init| ==> init[a] == ts[a];
      assert (forall a :: 0 <= a < |ts| ==> ts[a].token != token) ==> forall a :: 0 <= a < |init| ==> init[a].token != token;
    }
  }

  lemma {:induction false} FindRemove(ts: seq<TwoStep>, gone: Token, token: Token)
    ensures Find(Remove(ts, gone), token) == if token == gone then None else Find(ts, token)
    decreases |ts|
  {
    if ts != [] {
      var init := ts[..|ts| - 1];
      FindRemove(init, gone, token);
      FindSnoc(Remove(init, gone), ts[|ts| - 1], token);
      assert Remove(init, gone) + [] == Remove(init, gone);
    }
  }

  lemma FindSnoc(ts: seq<TwoStep>, p: TwoStep, token: Token)
    ensures Find(ts + [p], token) == if p.token == token then Some(p) else Find(ts, token)
  {
    assert (ts + [p])[..|ts|] == ts;
  }

  lemma {:induction false} FindApproved(ts: seq<TwoStep>, approved: Token, token: Token)
    ensures Find(Approved(ts, approved), token) ==
            var p := Find(ts, token);
            if token == approved && p.Some? then Some(p.value.(approved := true)) else p
    decreases |ts|
  {
    if ts != [] {
      var init, last := ts[..|ts| - 1], ts[|ts| - 1];
      FindApproved(init, approved, token);
      FindSnoc(Approved(init, approved), if last.token == approved then last.(approved := true) else last, token);
    }
  }

  lemma {:induction false} RemoveAbsent(ts: seq<TwoStep>, token: Token)
    requires Find(ts, token) == None
    ensures Remove(ts, token) == ts
    decreases |ts|
  {
    if ts != [] {
      var init, last := ts[..|ts| - 1], ts[|ts| - 1];
      assert last.token != token && Find(init, token) == None;
      RemoveAbsent(init, token);
      hide Find;
      assert Remove(ts, token) == init + [last];
    }
  }

  lemma DistinctInit(ts: seq<TwoStep>)
    requires Distinct(ts) && ts != []
    ensures Distinct(ts[..|ts| - 1]) && Find(ts[..|ts| - 1], ts[|ts| - 1].token) == None
  {
    FindNone(ts[..|ts| - 1], ts[|ts| - 1].token);
  }

  lemma {:induction false} FindSwept(ts: seq<TwoStep>, wall: Wall, token: Token)
    requires Distinct(ts)
    ensures Find(Swept(ts, wall), token) ==
            var p := Find(ts, token);
            if p.Some? && Expired(p.value, wall) then None else p
    decreases |ts|
  {
    if ts != [] {
      var init, last := ts[..|ts| - 1], ts[|ts| - 1];
      DistinctInit(ts);
      FindSwept(init, wall, token);
      FindSnoc(Swept(init, wall), last, token);
      assert Swept(init, wall) + [] == Swept(init, wall);
    }
  }

  /** What an event does to one token's session, whatever else is pending. */
  function Advance(p: Option<TwoStep>, e: Event, token: Token): Option<TwoStep> {
    match e
    case PreLoginOk(twoToken, user, expire, wall) =>
      if twoToken == token && p.None? then Some(TwoStep(token, user, wall + TWO_STEP_EXPIRE, expire, false)) else p
    case Complete(twoToken, _, wall, _) =>
      if twoToken == token && p.Some? && (Expired(p.value, wall) || p.value.approved) then None else p
    case Approve(twoToken, wall) =>
      if twoToken != token || p.None? then p
      else if Expired(p.value, wall) then None
      else Some(p.value.(approved := true))
    case Reject(twoToken) => if twoToken == token then None else p
    case Enable(on) => if on then p else None
    case Sweep(wall) => if p.Some? && Expired(p.value, wall) then None else p
    case _ => p
  }

  /** Tokens do not influence each other. */
  lemma TokensAreIndependent(limit: nat, s: State, e: Event, token: Token)
    requires Distinct(s.twoStep)
    ensures Find(Next(limit, s, e).twoStep, token) == Advance(Find(s.twoStep, token), e, token)
  {
    hide MakeExpireTs;
    hide Remove;
    hide Approved;
    hide Swept;
    hide Find;
    hide Minted;
    match e {
      case PreLoginOk(twoToken, user, expire, wall) =>
        FindSnoc(s.twoStep, TwoStep(twoToken, user, wall + TWO_STEP_EXPIRE, expire, false), token);
      case Complete(twoToken, _, wall, _) => FindRemove(s.twoStep, twoToken, token);
      case Approve(twoToken, wall) =>
        FindRemove(s.twoStep, twoToken, token);
        FindApproved(s.twoStep, twoToken, token);
      case Reject(twoToken) => FindRemove(s.twoStep, twoToken, token);
      case Enable(on) => FindNone([], token);
      case Sweep(wall) => FindSwept(s.twoStep, wall, token);
      case _ =>
    }
  }

  // ----- the dictionary's order is the order of issue -----

  function IssuedAt(es: seq<Event>, token: Token): (i: int)
    ensures -1 <= i < |es|
    ensures i >= 0 ==> es[i].PreLoginOk? && es[i].twoToken == token
    decreases |es|
  {
    if es == [] then -1
    else
      var last := es[|es| - 1];
      if last.PreLoginOk? && last.twoToken == token then |es| - 1 else IssuedAt(es[..|es| - 1], token)
  }

  /** Two-step tokens are random: no two first steps are given the same one. */
  predicate FreshTokens(es: seq<Event>) {
    forall i, j :: 0 <= i < j < |es| && es[i].PreLoginOk? && es[j].PreLoginOk? ==> es[i].twoToken != es[j].twoToken
  }

  predicate InOrder(es: seq<Event>, ts: seq<TwoStep>) {
    && (forall a :: 0 <= a < |ts| ==> IssuedAt(es, ts[a].token) >= 0)
    && (forall a, b :: 0 <= a < b < |ts| ==> IssuedAt(es, ts[a].token) < IssuedAt(es, ts[b].token))
  }

  lemma InOrderDistinct(es: seq<Event>, ts: seq<TwoStep>)
    requires InOrder(es, ts)
    ensures Distinct(ts)
  {}

  /** `a` keeps some of `b`'s sessions, in order. */
  predicate Within(a: seq<TwoStep>, b: seq<TwoStep>)
    decreases |b|
  {
    if b == [] then a == []
    else if a != [] && a[|a| - 1].token == b[|b| - 1].token then Within(a[..|a| - 1], b[..|b| - 1])
    else Within(a, b[..|b| - 1])
  }

  lemma {:induction false} WithinSelf(ts: seq<TwoStep>)
    ensures Within(ts, ts)
    decreases |ts|
  {
    if ts != [] { WithinSelf(ts[..|ts| - 1]); }
  }

  lemma {:induction false} WithinMembers(a: seq<TwoStep>, b: seq<TwoStep>, i: nat) returns (j: nat)
    requires Within(a, b) && i < |a|
    ensures j < |b| && a[i].token == b[j].token
    decreases |b|
  {
    var init := b[..|b| - 1];
    if a[|a| - 1].token == b[|b| - 1].token {
      if i == |a| - 1 { j := |b| - 1; } else { j := WithinMembers(a[..|a| - 1], init, i); }
    } else {
      j := WithinMembers(a, init, i);
    }
  }

  lemma {:induction false} WithinInOrder(es: seq<Event>, a: seq<TwoStep>, b: seq<TwoStep>)
    requires Within(a, b) && InOrder(es, b)
    ensures InOrder(es, a)
    decreases |b|
  {
    if b != [] {
      var init := b[..|b| - 1];
      assert InOrder(es, init);
      if a != [] && a[|a| - 1].token == b[|b| - 1].token {
        var front := a[..|a| - 1];
        WithinInOrder(es, front, init);
        forall i | 0 <= i < |front|
          ensures IssuedAt(es, front[i].token) < IssuedAt(es, a[|a| - 1].token)
        {
          var j := WithinMembers(front, init, i);
          assert init[j] == b[j];
        }
        assert forall i :: 0 <= i < |front| ==> front[i] == a[i];
      } else {
        WithinInOrder(es, a, init);
      }
    }
  }

  lemma WithinSnoc(a: seq<TwoStep>, b: seq<TwoStep>, p: TwoStep, q: TwoStep)
    requires Within(a, b) && p.token == q.token
    ensures Within(a + [p], b + [q])
  {
    assert (a + [p])[..|a|] == a && (b + [q])[..|b|] == b;
  }

  lemma {:induction false} WithinSkip(a: seq<TwoStep>, b: seq<TwoStep>, q: TwoStep)
    requires Within(a, b) && (forall i :: 0 <= i < |a| ==> a[i].token != q.token)
    ensures Within(a, b + [q])
  {
    assert (b + [q])[..|b|] == b;
  }

  lemma {:induction false} RemoveGone(ts: seq<TwoStep>, token: Token)
    ensures forall i :: 0 <= i < |Remove(ts, token)| ==> Remove(ts, token)[i].token != token
    decreases |ts|
  {
    if ts != [] { RemoveGone(ts[..|ts| - 1], token); }
  }

  lemma {:induction false} RemoveWithin(ts: seq<TwoStep>, token: Token)
    ensures Within(Remove(ts, token), ts)
    decreases |ts|
  {
    if ts != [] {
      var init, last := ts[..|ts| - 1], ts[|ts| - 1];
      RemoveWithin(init, token);
      RemoveGone(init, token);
      assert ts == init + [last];
      if last.token == token {
        assert Remove(ts, token) == Remove(init, token);
        WithinSkip(Remove(init, token), init, last);
      } else {
        WithinSnoc(Remove(init, token), init, last, last);
      }
    }
  }

  lemma {:induction false} ApprovedWithin(ts: seq<TwoStep>, token: Token)
    ensures Within(Approved(ts, token), ts)
    decreases |ts|
  {
    if ts != [] {
      var init, last := ts[..|ts| - 1], ts[|ts| - 1];
      ApprovedWithin(init, token);
      assert ts == init + [last];
      WithinSnoc(Approved(init, token), init, Approved(ts, token)[|Approved(ts, token)| - 1], last);
    }
  }

  lemma {:induction false} SweptWithin(ts: seq<TwoStep>, wall: Wall)
    requires Distinct(ts)
    ensures Within(Swept(ts, wall), ts)
    decreases |ts|
  {
    if ts != [] {
      var init, last := ts[..|ts| - 1], ts[|ts| - 1];
      DistinctInit(ts);
      SweptWithin(init, wall);
      assert ts == init + [last];
      if Expired(last, wall) {
        assert Swept(ts, wall) == Swept(init, wall);
        FindSwept(init, wall, last.token);
        FindNone(Swept(init, wall), last.token);
        WithinSkip(Swept(init, wall), init, last);
      } else {
        WithinSnoc(Swept(init, wall), init, last, last);
      }
    }
  }
}

/** Who is a client, and when the source asks its encoder for a key frame, told from the history. */
module MediaRequests {
  import opened Media

  /** The last word about this socket was a "start". */
  predicate Connected(es: seq<Event>, ws: Ws)
    decreases |es|
  {
    es != [] &&
    match es[|es| - 1]
    case Start(w) => w == ws || Connected(es[..|es| - 1], ws)
    case Closed(w) => w != ws && Connected(es[..|es| - 1], ws)
    case _ => Connected(es[..|es| - 1], ws)
  }

  /** Its sender has had its first turn since then. */
  predicate Sending(es: seq<Event>, ws: Ws)
    decreases |es|
  {
    es != [] &&
    match es[|es| - 1]
    case SenderStarts(w) => (w == ws && Connected(es, ws)) || Sending(es[..|es| - 1], ws)
    case Closed(w) => w != ws && Sending(es[..|es| - 1], ws)
    case _ => Sending(es[..|es| - 1], ws)
  }

  lemma StepConnected(s: State, e: Event, ws: Ws)
    ensures ws in Next(s, e).clients <==> (e.Start? && e.ws == ws) || (ws in s.clients && !(e.Closed? && e.ws == ws))
    ensures ws in Next(s, e).clients ==>
      (Next(s, e).clients[ws].started <==>
         ws in s.clients && (s.clients[ws].started || (e.SenderStarts? && e.ws == ws)))
    ensures Next(s, e).diff == s.diff
  {}

  lemma {:induction false} SendingIsConnected(es: seq<Event>, ws: Ws)
    ensures Sending(es, ws) ==> Connected(es, ws)
    decreases |es|
  {
    if es != [] { SendingIsConnected(es[..|es| - 1], ws); }
  }

  /** The clients are the sockets that have started and not been closed since, each sending once its
      sender has had its first turn. */
  lemma {:induction false} ClientsAreConnected(diff: bool, es: seq<Event>, ws: Ws)
    ensures ws in Run(Init(diff), es).clients <==> Connected(es, ws)
    ensures ws in Run(Init(diff), es).clients ==> (Run(Init(diff), es).clients[ws].started <==> Sending(es, ws))
    ensures Run(Init(diff), es).diff == diff
    decreases |es|
  {
    if es != [] {
      var before := es[..|es| - 1];
      hide Next;
      ClientsAreConnected(diff, before, ws);
      StepConnected(Run(Init(diff), before), es[|es| - 1], ws);
      SendingIsConnected(before, ws);
    }
  }

  /** The k-th event calls for a key frame: a client of an H.264 source asks for one, the sender of
      such a client begins, or a frame is delivered to a client whose queue is full. */
  predicate Calls(diff: bool, es: seq<Event>, k: int)
    requires 0 <= k < |es|
  {
    match es[k]
    case AskKey(ws) => diff && Connected(es[..k], ws)
    case SenderStarts(ws) => diff && Connected(es[..k], ws) && !Sending(es[..k], ws)
    case Delivered(_) =>
      var clients := Run(Init(diff), es[..k]).clients;
      exists ws | ws in clients :: Overflows(clients, ws)
    case _ => false
  }

  predicate IsKey(e: Event) { e.Delivered? && e.frame.key }

  predicate Called(diff: bool, es: seq<Event>, k: int)
    requires 0 <= k < |es|
  {
    Calls(diff, es, k) && forall j :: k < j < |es| ==> !IsKey(es[j])
  }

  lemma StepFlag(s: State, e: Event)
    ensures Next(s, e).keyRequired <==>
      || (s.keyRequired && !IsKey(e))
      || (match e
          case AskKey(ws) => s.diff && ws in s.clients
          case SenderStarts(ws) => s.diff && ws in s.clients && !s.clients[ws].started
          case Delivered(_) => exists ws | ws in s.clients :: Overflows(s.clients, ws)
          case _ => false)
  {}

  /** Over every run the flag is set exactly if some event has called for a key frame and none has
      been read since. */
  lemma {:induction false} FlagIsHistory(diff: bool, es: seq<Event>)
    ensures Run(Init(diff), es).keyRequired <==> exists k :: 0 <= k < |es| && Called(diff, es, k)
    decreases |es|
  {
    hide Next;
    if es != [] {
      var before, e := es[..|es| - 1], es[|es| - 1];
      FlagIsHistory(diff, before);
      StepFlag(Run(Init(diff), before), e);
      if e.AskKey? || e.SenderStarts? { ClientsAreConnected(diff, before, e.ws); }
      ClientsAreConnected(diff, before, 0);
      hide Connected;
      hide Sending;
      hide Run;
      CalledSnoc(diff, es);
      assert Called(diff, es, |es| - 1) <==> Calls(diff, es, |es| - 1);
    }
  }

  lemma CalledSnoc(diff: bool, es: seq<Event>)
    requires es != []
    ensures var before := es[..|es| - 1];
      (exists k :: 0 <= k < |es| && Called(diff, es, k)) <==>
      ((exists k :: 0 <= k < |before| && Called(diff, before, k)) && !IsKey(es[|es| - 1])) || Called(diff, es, |es| - 1)
  {
    var before := es[..|es| - 1];
    hide Calls;
    if k :| 0 <= k < |before| && Called(diff, before, k) {
      CallsPrefix(diff, es, k);
      if !IsKey(es[|es| - 1]) { assert Called(diff, es, k); }
    }
    if k :| 0 <= k < |before| && Called(diff, es, k) {
      CallsPrefix(diff, es, k);
      assert Called(diff, before, k);
    }
  }

  lemma CallsPrefix(diff: bool, es: seq<Event>, k: int)
    requires 0 <= k < |es| - 1
    ensures Calls(diff, es[..|es| - 1], k) <==> Calls(diff, es, k)
  {
    assert es[..|es| - 1][..k] == es[..k];
  }

  // ----- the sender -----

  function Turns(ws: Ws, n: nat): seq<Event> { seq(n, _ => SenderTakes(ws)) }

  /** From the first key frame on. */
  function FromKey(queue: seq<Frame>): (r: seq<Frame>)
    ensures |r| <= |queue| && r == queue[|queue| - |r|..]
    ensures r != [] ==> r[0].key
    ensures forall i :: 0 <= i < |queue| - |r| ==> !queue[i].key
    decreases |queue|
  {
    if queue == [] then []
    else
      var init, last := queue[..|queue| - 1], queue[|queue| - 1];
      var before := FromKey(init);
      if before != [] || last.key then before + [last] else []
  }

  function PassedOn(diff: bool, c: Client, k: nat): seq<Frame>
    requires k <= |c.queue|
  {
    if diff && !c.hasKey then FromKey(c.queue[..k]) else c.queue[..k]
  }

  /** `d` is the client `c` after `k` turns of its sender. */
  predicate AfterTurns(diff: bool, c: Client, d: Client, k: nat)
    requires k <= |c.queue|
  {
    && d.started
    && d.queue == c.queue[k..] && d.sent == c.sent + PassedOn(diff, c, k)
    && (diff ==> (d.hasKey <==> c.hasKey || PassedOn(diff, c, k) != []))
  }

  lemma {:induction false} PassedSnoc(diff: bool, c: Client, k: nat)
    requires k < |c.queue|
    ensures PassedOn(diff, c, k + 1) ==
      PassedOn(diff, c, k) + if !diff || c.hasKey || PassedOn(diff, c, k) != [] || c.queue[k].key then [c.queue[k]] else []
  {
    assert c.queue[..k + 1][..k] == c.queue[..k];
    assert c.queue[..k + 1] == c.queue[..k] + [c.queue[k]];
  }

  lemma TakenAfter(diff: bool, c: Client, d: Client, k: nat)
    requires k < |c.queue| && AfterTurns(diff, c, d, k)
    ensures AfterTurns(diff, c, Taken(diff, d), k + 1)
  {
    PassedSnoc(diff, c, k);
    hide PassedOn;
    assert c.queue[k..][1..] == c.queue[k + 1..];
  }

  lemma NoTurn(diff: bool, c: Client)
    requires c.started
    ensures AfterTurns(diff, c, c, 0)
  {
    assert c.queue[..0] == [];
  }

  lemma TurnTakes(diff: bool, s: State, ws: Ws)
    requires s.diff == diff && ws in s.clients && s.clients[ws].started && s.clients[ws].queue != []
    ensures ws in Next(s, SenderTakes(ws)).clients
    ensures Next(s, SenderTakes(ws)).clients[ws] == Taken(diff, s.clients[ws])
  {}

  lemma {:induction false} RunTurns(diff: bool, es: seq<Event>, ws: Ws, k: nat)
    ensures Run(Init(diff), es + Turns(ws, 0)) == Run(Init(diff), es)
    ensures k > 0 ==> Run(Init(diff), es + Turns(ws, k)) == Next(Run(Init(diff), es + Turns(ws, k - 1)), SenderTakes(ws))
  {
    hide Next;
    assert es + Turns(ws, 0) == es;
    if k > 0 {
      var all := es + Turns(ws, k);
      assert all[..|all| - 1] == es + Turns(ws, k - 1);
    }
  }

  lemma {:induction false} TurnsPass(diff: bool, es: seq<Event>, ws: Ws, k: nat)
    requires ws in Run(Init(diff), es).clients && Run(Init(diff), es).clients[ws].started
    requires k <= |Run(Init(diff), es).clients[ws].queue|
    ensures ws in Run(Init(diff), es + Turns(ws, k)).clients
    ensures AfterTurns(diff, Run(Init(diff), es).clients[ws], Run(Init(diff), es + Turns(ws, k)).clients[ws], k)
    decreases k
  {
    RunTurns(diff, es, ws, k);
    var c := Run(Init(diff), es).clients[ws];
    if k == 0 {
      NoTurn(diff, c);
    } else {
      TurnsPass(diff, es, ws, k - 1);
      ClientsAreConnected(diff, es + Turns(ws, k - 1), ws);
      var t := Run(Init(diff), es + Turns(ws, k - 1));
      hide Run;
      hide Turns;
      hide Next;
      hide PassedOn;
      hide Taken;
      TurnTakes(diff, t, ws);
      TakenAfter(diff, c, t.clients[ws], k - 1);
    }
  }

  /** A sending client is sent its whole queue by as many turns of its sender: everything in order,
      or for H.264, if it has had no key frame yet, everything from the first one on. */
  lemma SenderCatchesUp(diff: bool, es: seq<Event>, ws: Ws)
    requires Sending(es, ws)
    ensures ws in Run(Init(diff), es).clients
    ensures var c := Run(Init(diff), es).clients[ws];
      var t := Run(Init(diff), es + Turns(ws, |c.queue|));
      && ws in t.clients && t.clients[ws].queue == []
      && t.clients[ws].sent == c.sent + if diff && !c.hasKey then FromKey(c.queue) else c.queue
  {
    hide Run;
    SendingIsConnected(es, ws);
    ClientsAreConnected(diff, es, ws);
    var c := Run(Init(diff), es).clients[ws];
    TurnsPass(diff, es, ws, |c.queue|);
    assert c.queue[..|c.queue|] == c.queue;
  }
}

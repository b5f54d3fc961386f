/** The media server's fan-out: one reader, many bounded queues, and one flag per source that
    asks the encoder for a key frame. */
module Media {

  const QUEUE_SIZE: nat := 32

  type Ws = nat

  datatype Frame = Frame(key: bool, data: seq<bv8>)

  /** `started` is set by the sender's first turn; `gap` notes that queued frames were thrown
      away and no key frame has been queued since; `sent` is what the socket was given. */
  datatype Client = Client(queue: seq<Frame>, started: bool, hasKey: bool, gap: bool, sent: seq<Frame>)

  datatype State = State(diff: bool, keyRequired: bool, clients: map<Ws, Client>, read: seq<Frame>)

  datatype Event =
    | Start(ws: Ws)          // the "start" message
    | SenderStarts(ws: Ws)   // the first turn of the sender task
    | SenderTakes(ws: Ws)    // the sender takes one frame
    | Delivered(frame: Frame)  // read_frame() returned
    | AskKey(ws: Ws)
    | Closed(ws: Ws)

  function Init(diff: bool): State { State(diff, false, map[], []) }

  function StartSpec(s: State, ws: Ws): State {
    if ws in s.clients then s else s.(clients := s.clients[ws := Client([], false, false, false, [])])
  }

  function SenderStartsSpec(s: State, ws: Ws): State {
    if ws !in s.clients || s.clients[ws].started then s else
    s.(keyRequired := s.keyRequired || s.diff, clients := s.clients[ws := s.clients[ws].(started := true)])
  }

  function Taken(diff: bool, c: Client): Client
    requires c.queue != []
  {
    var frame := c.queue[0];
    var hasKey := !diff || c.hasKey || frame.key;
    c.(queue := c.queue[1..], hasKey := hasKey, sent := if hasKey then c.sent + [frame] else c.sent)
  }

  function SenderTakesSpec(s: State, ws: Ws): State {
    if ws !in s.clients || !s.clients[ws].started || s.clients[ws].queue == [] then s else
    s.(clients := s.clients[ws := Taken(s.diff, s.clients[ws])])
  }

  predicate Full(c: Client) { |c.queue| >= QUEUE_SIZE }

  function Offered(c: Client, frame: Frame): Client {
    if Full(c) then c.(queue := [], gap := true)
    else c.(queue := c.queue + [frame], gap := c.gap && !frame.key)
  }

  predicate Overflows(clients: map<Ws, Client>, ws: Ws) { ws in clients && Full(clients[ws]) }

  function DeliveredSpec(s: State, frame: Frame): State {
    s.(keyRequired := (s.keyRequired && !frame.key) || exists ws | ws in s.clients :: Overflows(s.clients, ws),
       clients := map ws | ws in s.clients :: Offered(s.clients[ws], frame),
       read := s.read + [frame])
  }

  function AskKeySpec(s: State, ws: Ws): State {
    if ws in s.clients && s.diff then s.(keyRequired := true) else s
  }

  function ClosedSpec(s: State, ws: Ws): State { s.(clients := s.clients - {ws}) }

  function Next(s: State, e: Event): State {
    match e
    case Start(ws) => StartSpec(s, ws)
    case SenderStarts(ws) => SenderStartsSpec(s, ws)
    case SenderTakes(ws) => SenderTakesSpec(s, ws)
    case Delivered(frame) => DeliveredSpec(s, frame)
    case AskKey(ws) => AskKeySpec(s, ws)
    case Closed(ws) => ClosedSpec(s, ws)
  }

  function Run(s: State, es: seq<Event>): State
    decreases |es|
  {
    if es == [] then s else Next(Run(s, es[..|es| - 1]), es[|es| - 1])
  }

  // ----- subsequences -----

  /** `a` results from `b` by leaving elements out. */
  predicate Subsequence(a: seq<Frame>, b: seq<Frame>)
    decreases |b|
  {
    a == [] ||
    (b != [] &&
     ((a[|a| - 1] == b[|b| - 1] && Subsequence(a[..|a| - 1], b[..|b| - 1])) || Subsequence(a, b[..|b| - 1])))
  }

  lemma SubsequenceSnoc(a: seq<Frame>, b: seq<Frame>, x: Frame)
    requires Subsequence(a, b)
    ensures Subsequence(a, b + [x]) && Subsequence(a + [x], b + [x])
  {
    assert (b + [x])[..|b|] == b && (a + [x])[..|a|] == a;
  }

  lemma {:induction false} SubsequenceCut(a: seq<Frame>, b: seq<Frame>, i: nat, j: nat)
    requires Subsequence(a, b) && i <= j <= |a|
    ensures Subsequence(a[..i] + a[j..], b)
    decreases |b|
  {
    var cut := a[..i] + a[j..];
    if cut != [] {
      var a', b' := a[..|a| - 1], b[..|b| - 1];
      if a[|a| - 1] == b[|b| - 1] && Subsequence(a', b') {
        if j < |a| {
          SubsequenceCut(a', b', i, j);
          assert cut[..|cut| - 1] == a'[..i] + a'[j..];
        } else if i < |a| {
          SubsequenceCut(a', b', i, |a'|);
          assert cut == a'[..i] + a'[|a'|..];
        } else {
          assert cut == a;
        }
      } else {
        SubsequenceCut(a, b', i, j);
      }
    }
  }

  // ----- the invariant -----

  predicate Waiting(c: Client) { c.started && !c.hasKey }

  predicate KeyQueued(c: Client) { exists f :: f in c.queue && f.key }

  predicate Served(diff: bool, keyRequired: bool, read: seq<Frame>, c: Client) {
    && |c.queue| <= QUEUE_SIZE
    && (diff && Waiting(c) ==> KeyQueued(c) || keyRequired)
    && (c.gap ==> keyRequired)
    && (diff ==> if c.hasKey then c.sent != [] && c.sent[0].key else c.sent == [])
    && Subsequence(c.sent + c.queue, read)
  }

  ghost predicate Inv(s: State) {
    forall ws :: ws in s.clients ==> Served(s.diff, s.keyRequired, s.read, s.clients[ws])
  }

  lemma TakenServed(diff: bool, keyRequired: bool, read: seq<Frame>, c: Client)
    requires Served(diff, keyRequired, read, c) && c.started && c.queue != []
    ensures Served(diff, keyRequired, read, Taken(diff, c))
  {
    hide Subsequence;
    var n := |c.sent|;
    var all := c.sent + c.queue;
    assert (c.sent + [c.queue[0]]) + c.queue[1..] == all;
    SubsequenceCut(all, read, n, n + 1);
    assert all[..n] + all[n + 1..] == c.sent + c.queue[1..];
  }

  lemma QueuedServed(diff: bool, before: bool, after: bool, read: seq<Frame>, frame: Frame, c: Client)
    requires Served(diff, before, read, c) && !Full(c)
    requires before && !frame.key ==> after
    ensures Served(diff, after, read + [frame], Offered(c, frame))
  {
    hide Subsequence;
    hide KeyQueued;
    SubsequenceSnoc(c.sent + c.queue, read, frame);
    assert (c.sent + c.queue) + [frame] == c.sent + (c.queue + [frame]);
    KeyStaysQueued(c, frame);
  }

  lemma KeyStaysQueued(c: Client, frame: Frame)
    requires !Full(c)
    ensures KeyQueued(c) || frame.key ==> KeyQueued(Offered(c, frame))
  {
    var queue := Offered(c, frame).queue;
    assert frame in queue && forall f :: f in c.queue ==> f in queue;
  }

  lemma OverflowServed(diff: bool, before: bool, read: seq<Frame>, frame: Frame, c: Client)
    requires Served(diff, before, read, c) && Full(c)
    ensures Served(diff, true, read + [frame], Offered(c, frame))
  {
    var all := c.sent + c.queue;
    SubsequenceSnoc(all, read, frame);
    SubsequenceCut(all, read + [frame], |c.sent|, |all|);
    hide Subsequence;
    assert all[..|c.sent|] + all[|all|..] == c.sent + [];
  }

  lemma NextKeepsInv(s: State, e: Event)
    requires Inv(s)
    ensures Inv(Next(s, e))
  {
    match e
    case SenderTakes(ws) =>
      if ws in s.clients && s.clients[ws].started && s.clients[ws].queue != [] {
        TakenServed(s.diff, s.keyRequired, s.read, s.clients[ws]);
      }
    case Delivered(frame) =>
      forall ws | ws in s.clients
        ensures Served(s.diff, DeliveredSpec(s, frame).keyRequired, s.read + [frame], Offered(s.clients[ws], frame))
      {
        var after := DeliveredSpec(s, frame).keyRequired;
        if Overflows(s.clients, ws) { OverflowServed(s.diff, s.keyRequired, s.read, frame, s.clients[ws]); }
        else { QueuedServed(s.diff, s.keyRequired, after, s.read, frame, s.clients[ws]); }
      }
    case _ =>
  }

  lemma {:induction false} RunsKeepInv(diff: bool, es: seq<Event>)
    ensures Inv(Run(Init(diff), es)) && Run(Init(diff), es).diff == diff
    decreases |es|
  {
    if es != [] {
      RunsKeepInv(diff, es[..|es| - 1]);
      NextKeepsInv(Run(Init(diff), es[..|es| - 1]), es[|es| - 1]);
    }
  }

  // ----- main results -----

  /** The request for a key frame is never lost: a started H.264 client that still waits for its
      first one has it in its queue, or the flag is set; after an overflow the flag stays set
      until a key frame has been queued again. */
  lemma KeyRequestNeverLost(es: seq<Event>, ws: Ws)
    requires ws in Run(Init(true), es).clients
    ensures var s := Run(Init(true), es);
      var c := s.clients[ws];
      && (Waiting(c) ==> KeyQueued(c) || s.keyRequired)
      && (c.gap ==> s.keyRequired)
  {
    RunsKeepInv(true, es);
  }

  /** What a client is sent: a subsequence of what was read, at most 32 frames behind, and for
      H.264 starting with a key frame. */
  lemma SentFrames(diff: bool, es: seq<Event>, ws: Ws)
    requires ws in Run(Init(diff), es).clients
    ensures var s := Run(Init(diff), es);
      var c := s.clients[ws];
      && |c.queue| <= 32
      && Subsequence(c.sent + c.queue, s.read)
      && (diff && c.sent != [] ==> c.sent[0].key)
  {
    RunsKeepInv(diff, es);
  }

  /** A client that already has its key frame is next sent whatever is read after its queue was
      thrown away. */
  lemma DeltaSentAfterOverflow(s: State, ws: Ws, lost: Frame, delta: Frame)
    requires s.diff && ws in s.clients && !delta.key
    requires s.clients[ws].started && s.clients[ws].hasKey && Full(s.clients[ws])
    ensures var s1 := Next(Next(s, Delivered(lost)), Delivered(delta));
      var s2 := Next(s1, SenderTakes(ws));
      && s1.clients[ws].gap
      && s2.clients[ws].sent == s.clients[ws].sent + [delta]
  {
    var c1 := Offered(s.clients[ws], lost);
    var c2 := Offered(c1, delta);
    assert c2.queue == [delta];
  }

  // ----- the source object -----

  class Source {
    const diff: bool
    var keyRequired: bool
    var clients: map<Ws, Client>
    ghost var read: seq<Frame>

    ghost function View(): State
      reads this
    {
      State(diff, keyRequired, clients, read)
    }

    constructor (diff: bool)
      ensures View() == Init(diff)
    {
      this.diff := diff;
      keyRequired, clients, read := false, map[], [];
    }

    method WsStartHandler(ws: Ws)
      modifies this
      ensures View() == StartSpec(old(View()), ws)
    {
      if ws !in clients {
        clients := clients[ws := Client([], false, false, false, [])];
      }
    }

    method WsBinKeyHandler(ws: Ws)
      modifies this
      ensures View() == AskKeySpec(old(View()), ws)
    {
      if ws in clients && diff {
        keyRequired := true;
      }
    }

    method OnWsClosed(ws: Ws)
      modifies this
      ensures View() == ClosedSpec(old(View()), ws)
    {
      clients := clients - {ws};
    }

    method SenderBegins(ws: Ws)
      modifies this
      ensures View() == SenderStartsSpec(old(View()), ws)
    {
      if ws in clients && !clients[ws].started {
        if diff {
          keyRequired := true;
        }
        clients := clients[ws := clients[ws].(started := true)];
      }
    }

    method SenderTurn(ws: Ws)
      modifies this
      ensures View() == SenderTakesSpec(old(View()), ws)
    {
      if ws in clients && clients[ws].started && clients[ws].queue != [] {
        var c := clients[ws];
        var frame := c.queue[0];
        var hasKey := !diff || c.hasKey || frame.key;
        c := c.(queue := c.queue[1..], hasKey := hasKey);
        if hasKey {
          c := c.(sent := c.sent + [frame]);
        }
        clients := clients[ws := c];
      }
    }

    /** put_nowait(), or an emptied queue and a request for a key frame. */
    method PutOrClear(ws: Ws, frame: Frame)
      requires ws in clients
      modifies this
      ensures clients == old(clients)[ws := Offered(old(clients[ws]), frame)]
      ensures keyRequired == (old(keyRequired) || Full(old(clients[ws])))
      ensures read == old(read)
    {
      var c := clients[ws];
      if |c.queue| < QUEUE_SIZE {
        clients := clients[ws := c.(queue := c.queue + [frame], gap := c.gap && !frame.key)];
      } else {
        clients := clients[ws := c.(queue := [], gap := true)];
        keyRequired := true;
      }
    }

    method StreamerTurn(frame: Frame)
      modifies this
      ensures View() == DeliveredSpec(old(View()), frame)
    {
      read := read + [frame];
      if frame.key {
        keyRequired := false;
      }
      ghost var was, flag := clients, keyRequired;
      var todo := clients.Keys;
      while todo != {}
        invariant todo <= was.Keys && clients.Keys == was.Keys && read == old(read) + [frame]
        invariant forall ws :: ws in todo ==> clients[ws] == was[ws]
        invariant forall ws :: ws in was && ws !in todo ==> clients[ws] == Offered(was[ws], frame)
        invariant keyRequired == (flag || exists ws | ws in was :: ws !in todo && Overflows(was, ws))
        decreases todo
      {
        var ws :| ws in todo;
        PutOrClear(ws, frame);
        todo := todo - {ws};
      }
      assert clients == map ws | ws in was :: Offered(was[ws], frame);
    }
  }
}

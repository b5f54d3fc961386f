/** What reaches a client of the media server over whole runs: everything, as long as its queue
    does not overflow after its first key frame. */
module MediaDelivery {
  import opened Media

  // ----- the moments that matter -----

  /** A frame meets this client with a full queue after its sender has let a frame through: all
      that is queued is lost, and the frame too. */
  predicate Loses(s: State, e: Event, ws: Ws) {
    e.Delivered? && ws in s.clients && Full(s.clients[ws]) && s.clients[ws].hasKey
  }

  /** Nothing of that kind has happened since the client came. */
  predicate NeverLost(diff: bool, es: seq<Event>, ws: Ws)
    decreases |es|
  {
    es == [] || es[|es| - 1] == Closed(ws)
    || (NeverLost(diff, es[..|es| - 1], ws) && !Loses(Run(Init(diff), es[..|es| - 1]), es[|es| - 1], ws))
  }

  predicate Suffix(a: seq<Frame>, b: seq<Frame>) { |a| <= |b| && b[|b| - |a|..] == a }

  function Kept(c: Client): seq<Frame> { c.sent + c.queue }

  lemma SuffixSnoc(a: seq<Frame>, b: seq<Frame>, f: Frame)
    requires Suffix(a, b)
    ensures Suffix(a + [f], b + [f])
  {
    var n := |b| - |a|;
    assert (b + [f])[n..] == b[n..] + [f];
  }

  lemma SuffixTail(a: seq<Frame>, b: seq<Frame>)
    requires Suffix(a, b) && a != []
    ensures Suffix(a[1..], b)
  {
    var n := |b| - |a|;
    assert b[n + 1..] == b[n..][1..];
  }

  // ----- nothing is lost without such a moment -----

  predicate Complete(c: Client, read: seq<Frame>) {
    (!c.hasKey ==> c.sent == []) && (c.hasKey ==> c.sent != []) && Suffix(Kept(c), read)
  }

  lemma TakenComplete(diff: bool, c: Client, read: seq<Frame>)
    requires Complete(c, read) && c.queue != []
    ensures Complete(Taken(diff, c), read)
  {
    var t := Taken(diff, c);
    if t.hasKey {
      assert Kept(t) == Kept(c);
    } else {
      assert Kept(t) == Kept(c)[1..];
      SuffixTail(Kept(c), read);
    }
  }

  lemma OfferedComplete(c: Client, read: seq<Frame>, f: Frame)
    requires Complete(c, read) && !(Full(c) && c.hasKey)
    ensures Complete(Offered(c, f), read + [f])
  {
    if Full(c) {
      assert Kept(Offered(c, f)) == [];
    } else {
      SuffixSnoc(Kept(c), read, f);
      assert Kept(Offered(c, f)) == Kept(c) + [f];
    }
  }

  lemma NextComplete(s: State, e: Event, ws: Ws)
    requires ws in s.clients ==> Complete(s.clients[ws], s.read)
    requires !Loses(s, e, ws)
    ensures var n := Next(s, e); ws in n.clients ==> Complete(n.clients[ws], n.read)
  {
    hide Suffix;
    EmptySuffix(s.read);
    match e
    case Start(_) => assert Kept(Client([], false, false, false, [])) == [];
    case SenderStarts(_) => if ws in s.clients { assert Kept(s.clients[ws].(started := true)) == Kept(s.clients[ws]); }
    case SenderTakes(w) =>
      if w == ws && ws in s.clients && s.clients[ws].started && s.clients[ws].queue != [] {
        TakenComplete(s.diff, s.clients[ws], s.read);
      }
    case Delivered(f) => if ws in s.clients { OfferedComplete(s.clients[ws], s.read, f); }
    case _ =>
  }

  lemma EmptySuffix(b: seq<Frame>)
    ensures Suffix([], b)
  {}

  lemma {:induction false} RunComplete(diff: bool, es: seq<Event>, ws: Ws)
    requires NeverLost(diff, es, ws) && ws in Run(Init(diff), es).clients
    ensures Complete(Run(Init(diff), es).clients[ws], Run(Init(diff), es).read)
    decreases |es|
  {
    hide Complete;
    hide Next;
    var before, e := es[..|es| - 1], es[|es| - 1];
    var s := Run(Init(diff), before);
    if e == Closed(ws) {
      ClosedIsGone(s, ws);
    } else {
      if ws in s.clients { RunComplete(diff, before, ws); }
      NextComplete(s, e, ws);
    }
  }

  lemma ClosedIsGone(s: State, ws: Ws)
    ensures ws !in Next(s, Closed(ws)).clients
  {}

  // ----- and something is lost with one -----

  predicate Distinct(read: seq<Frame>) { forall i, j :: 0 <= i < j < |read| ==> read[i] != read[j] }

  /** A frame read after one that was sent will never be sent. */
  predicate Missing(c: Client, read: seq<Frame>, i: int, j: int) {
    0 <= i < j < |read| && read[i] in c.sent && read[j] !in Kept(c)
  }

  ghost predicate Lost(c: Client, read: seq<Frame>) { exists i, j :: Missing(c, read, i, j) }

  lemma {:induction false} SubsequenceMember(a: seq<Frame>, b: seq<Frame>, f: Frame)
    requires Subsequence(a, b)
    ensures f in a ==> f in b
    decreases |b|
  {
    if a != [] {
      var a', b' := a[..|a| - 1], b[..|b| - 1];
      assert a == a' + [a[|a| - 1]] && b == b' + [b[|b| - 1]];
      if a[|a| - 1] == b[|b| - 1] && Subsequence(a', b') {
        SubsequenceMember(a', b', f);
      } else {
        SubsequenceMember(a, b', f);
      }
    }
  }

  lemma NotReadBefore(read: seq<Frame>, f: Frame)
    requires Distinct(read + [f])
    ensures f !in read
  {
    var read' := read + [f];
    assert forall j :: 0 <= j < |read| ==> read[j] == read'[j] && read'[j] != read'[|read|];
  }

  lemma LossIsLost(s: State, f: Frame, ws: Ws)
    requires Inv(s) && Loses(s, Delivered(f), ws) && Distinct(s.read + [f]) && s.clients[ws].sent != []
    ensures ws in Next(s, Delivered(f)).clients
    ensures Lost(Next(s, Delivered(f)).clients[ws], s.read + [f])
  {
    var c := s.clients[ws];
    NotReadBefore(s.read, f);
    SubsequenceMember(Kept(c), s.read, f);
    SubsequenceMember(Kept(c), s.read, c.sent[0]);
    var i :| 0 <= i < |s.read| && s.read[i] == c.sent[0];
    assert Kept(Offered(c, f)) == c.sent;
    assert Missing(Offered(c, f), s.read + [f], i, |s.read|);
  }

  lemma TakenLost(diff: bool, c: Client, read: seq<Frame>)
    requires Lost(c, read) && c.queue != []
    ensures Lost(Taken(diff, c), read)
  {
    var i, j :| Missing(c, read, i, j);
    assert c.queue == [c.queue[0]] + c.queue[1..];
    assert Missing(Taken(diff, c), read, i, j);
  }

  lemma OfferedLost(c: Client, read: seq<Frame>, f: Frame)
    requires Lost(c, read) && Distinct(read + [f])
    ensures Lost(Offered(c, f), read + [f])
  {
    var i, j :| Missing(c, read, i, j);
    var read' := read + [f];
    assert read'[j] != read'[|read|];
    assert Missing(Offered(c, f), read', i, j);
  }

  lemma NextLost(s: State, e: Event, ws: Ws)
    requires ws in s.clients && Lost(s.clients[ws], s.read) && Distinct(Next(s, e).read) && e != Closed(ws)
    ensures var n := Next(s, e); ws in n.clients && Lost(n.clients[ws], n.read)
  {
    hide Lost;
    hide Distinct;
    match e
    case SenderStarts(w) => if w == ws { StartedLost(s.clients[ws], s.read); }
    case SenderTakes(w) =>
      if w == ws && s.clients[ws].started && s.clients[ws].queue != [] { TakenLost(s.diff, s.clients[ws], s.read); }
    case Delivered(f) => OfferedLost(s.clients[ws], s.read, f);
    case _ =>
  }

  lemma StartedLost(c: Client, read: seq<Frame>)
    requires Lost(c, read)
    ensures Lost(c.(started := true), read)
  {
    var i, j :| Missing(c, read, i, j);
    assert Missing(c.(started := true), read, i, j);
  }

  lemma DistinctPrefix(a: seq<Frame>, b: seq<Frame>)
    requires Distinct(b) && a <= b
    ensures Distinct(a)
  {}

  lemma ReadGrows(s: State, e: Event)
    ensures s.read <= Next(s, e).read
  {}

  predicate KeyIffSent(s: State, ws: Ws) { ws in s.clients ==> (s.clients[ws].hasKey <==> s.clients[ws].sent != []) }

  lemma NextKeyIffSent(s: State, e: Event, ws: Ws)
    requires KeyIffSent(s, ws)
    ensures KeyIffSent(Next(s, e), ws)
  {
    hide Subsequence;
  }

  lemma {:induction false} SentHasKey(diff: bool, es: seq<Event>, ws: Ws)
    ensures KeyIffSent(Run(Init(diff), es), ws)
    decreases |es|
  {
    hide Next;
    if es != [] {
      SentHasKey(diff, es[..|es| - 1], ws);
      NextKeyIffSent(Run(Init(diff), es[..|es| - 1]), es[|es| - 1], ws);
    }
  }

  lemma {:induction false} RunLost(diff: bool, es: seq<Event>, ws: Ws)
    requires !NeverLost(diff, es, ws) && Distinct(Run(Init(diff), es).read)
    ensures ws in Run(Init(diff), es).clients
    ensures Lost(Run(Init(diff), es).clients[ws], Run(Init(diff), es).read)
    decreases |es|
  {
    hide Lost;
    hide Next;
    var before, e := es[..|es| - 1], es[|es| - 1];
    var s := Run(Init(diff), before);
    ReadGrows(s, e);
    DistinctPrefix(s.read, Run(Init(diff), es).read);
    if !NeverLost(diff, before, ws) {
      RunLost(diff, before, ws);
      NextLost(s, e, ws);
    } else {
      RunsKeepInv(diff, before);
      SentHasKey(diff, before, ws);
      DeliveredReads(s, e.frame);
      LossIsLost(s, e.frame, ws);
    }
  }

  lemma DeliveredReads(s: State, f: Frame)
    ensures Next(s, Delivered(f)).read == s.read + [f]
  {}

  lemma SuffixHasTheRest(c: Client, read: seq<Frame>, i: nat, j: nat)
    requires Suffix(Kept(c), read) && Distinct(read) && i < j < |read| && read[i] in c.sent
    ensures read[j] in Kept(c)
  {
    var n := |read| - |Kept(c)|;
    var k :| 0 <= k < |c.sent| && c.sent[k] == read[i];
    assert Kept(c)[k] == read[n..][k] == read[n + k];
    assert n + k == i;
    assert Kept(c)[j - n] == read[n..][j - n] == read[j];
  }

  lemma LostIsNoSuffix(c: Client, read: seq<Frame>)
    requires Lost(c, read) && Distinct(read)
    ensures !Suffix(Kept(c), read)
  {
    hide Suffix;
    hide Kept;
    hide Distinct;
    var i, j :| Missing(c, read, i, j);
    if Suffix(Kept(c), read) { SuffixHasTheRest(c, read, i, j); }
  }

  /** What was sent and is still queued is an unbroken end of what was read, exactly if the queue
      never overflowed after the first frame was sent; the "only if" for distinct frames. */
  lemma NothingLostExactly(diff: bool, es: seq<Event>, ws: Ws)
    requires ws in Run(Init(diff), es).clients
    ensures var s := Run(Init(diff), es);
      var c := s.clients[ws];
      && (NeverLost(diff, es, ws) ==> Suffix(c.sent + c.queue, s.read))
      && (Distinct(s.read) ==> (NeverLost(diff, es, ws) <==> Suffix(c.sent + c.queue, s.read)))
  {
    hide Suffix;
    if NeverLost(diff, es, ws) {
      RunComplete(diff, es, ws);
    } else if Distinct(Run(Init(diff), es).read) {
      RunLost(diff, es, ws);
      LostIsNoSuffix(Run(Init(diff), es).clients[ws], Run(Init(diff), es).read);
    }
  }

  // ----- what a client gets from the moment it joins -----

  /** How much had been read when the client came. */
  function Joined(diff: bool, es: seq<Event>, ws: Ws): nat
    decreases |es|
  {
    if es == [] then 0
    else
      var s := Run(Init(diff), es[..|es| - 1]);
      if es[|es| - 1] == Start(ws) && ws !in s.clients then |s.read| else Joined(diff, es[..|es| - 1], ws)
  }

  /** Its queue has never overflowed since then. */
  predicate NeverFull(diff: bool, es: seq<Event>, ws: Ws)
    decreases |es|
  {
    es == [] || es[|es| - 1] == Closed(ws)
    || (NeverFull(diff, es[..|es| - 1], ws)
        && !(es[|es| - 1].Delivered? && Overflows(Run(Init(diff), es[..|es| - 1]).clients, ws)))
  }

  /** The client keeps everything from frame n on, and what it skipped is no key frame. */
  predicate FromFrame(diff: bool, c: Client, read: seq<Frame>, joined: nat, n: nat) {
    && joined <= n <= |read| && Kept(c) == read[n..]
    && (!c.hasKey ==> c.sent == [])
    && (n > joined ==> diff) && forall i :: joined <= i < n ==> !read[i].key
  }

  lemma TakenFrom(diff: bool, c: Client, read: seq<Frame>, joined: nat, n: nat)
    requires FromFrame(diff, c, read, joined, n) && c.queue != []
    ensures FromFrame(diff, Taken(diff, c), read, joined, if Taken(diff, c).hasKey then n else n + 1)
  {
    var t := Taken(diff, c);
    if t.hasKey {
      assert Kept(t) == Kept(c);
    } else {
      assert Kept(c)[0] == c.queue[0] == read[n..][0];
      assert Kept(t) == Kept(c)[1..] == read[n + 1..];
    }
  }

  lemma OfferedFrom(diff: bool, c: Client, read: seq<Frame>, f: Frame, joined: nat, n: nat)
    requires FromFrame(diff, c, read, joined, n) && !Full(c)
    ensures FromFrame(diff, Offered(c, f), read + [f], joined, n)
  {
    assert Kept(Offered(c, f)) == Kept(c) + [f];
    assert (read + [f])[n..] == read[n..] + [f];
  }

  lemma NextFrom(s: State, e: Event, ws: Ws, joined: nat, n: nat) returns (m: nat)
    requires ws in s.clients && FromFrame(s.diff, s.clients[ws], s.read, joined, n)
    requires e != Closed(ws) && !(e.Delivered? && Overflows(s.clients, ws))
    ensures ws in Next(s, e).clients && FromFrame(s.diff, Next(s, e).clients[ws], Next(s, e).read, joined, m)
  {
    m := n;
    match e
    case SenderStarts(_) => assert Kept(s.clients[ws].(started := true)) == Kept(s.clients[ws]);
    case SenderTakes(w) =>
      if w == ws && s.clients[ws].started && s.clients[ws].queue != [] {
        TakenFrom(s.diff, s.clients[ws], s.read, joined, n);
        m := if Taken(s.diff, s.clients[ws]).hasKey then n else n + 1;
      }
    case Delivered(f) => OfferedFrom(s.diff, s.clients[ws], s.read, f, joined, n);
    case _ =>
  }

  /** A client whose queue never overflowed is sent and queued everything read since it came, in
      full; for H.264 everything from the first key frame among it on. */
  lemma {:induction false} FramesSinceJoining(diff: bool, es: seq<Event>, ws: Ws) returns (n: nat)
    requires NeverFull(diff, es, ws) && ws in Run(Init(diff), es).clients
    ensures var s := Run(Init(diff), es);
      var c := s.clients[ws];
      && Joined(diff, es, ws) <= n <= |s.read|
      && c.sent + c.queue == s.read[n..]
      && (n > Joined(diff, es, ws) ==> diff) && (forall i :: Joined(diff, es, ws) <= i < n ==> !s.read[i].key)
      && (diff && c.sent != [] ==> s.read[n].key)
    decreases |es|
  {
    hide Next;
    hide FromFrame;
    n := RunFrom(diff, es, ws);
    SentFrames(diff, es, ws);
    KeyedFrom(diff, Run(Init(diff), es).clients[ws], Run(Init(diff), es).read, Joined(diff, es, ws), n);
  }

  lemma KeyedFrom(diff: bool, c: Client, read: seq<Frame>, joined: nat, n: nat)
    requires FromFrame(diff, c, read, joined, n)
    ensures joined <= n <= |read| && c.sent + c.queue == read[n..]
    ensures (n > joined ==> diff) && forall i :: joined <= i < n ==> !read[i].key
    ensures c.sent != [] ==> n < |read| && read[n] == c.sent[0]
  {
    if c.sent != [] { assert Kept(c)[0] == read[n..][0]; }
  }

  lemma {:induction false} RunFrom(diff: bool, es: seq<Event>, ws: Ws) returns (n: nat)
    requires NeverFull(diff, es, ws) && ws in Run(Init(diff), es).clients
    ensures FromFrame(diff, Run(Init(diff), es).clients[ws], Run(Init(diff), es).read, Joined(diff, es, ws), n)
    decreases |es|
  {
    hide Next;
    hide FromFrame;
    var before, e := es[..|es| - 1], es[|es| - 1];
    var s := Run(Init(diff), before);
    RunsKeepInv(diff, before);
    if e == Closed(ws) {
      ClosedIsGone(s, ws);
    } else if ws in s.clients {
      n := RunFrom(diff, before, ws);
      n := NextFrom(s, e, ws, Joined(diff, before, ws), n);
    } else {
      OnlyStartAdds(s, e, ws);
      n := |s.read|;
    }
  }

  lemma OnlyStartAdds(s: State, e: Event, ws: Ws)
    requires ws !in s.clients && ws in Next(s, e).clients
    ensures e == Start(ws)
    ensures FromFrame(s.diff, Next(s, e).clients[ws], Next(s, e).read, |s.read|, |s.read|)
  {
    assert Kept(Client([], false, false, false, [])) == s.read[|s.read|..];
  }

  // ----- after an overflow -----

  /** From event k on this client neither loses frames nor goes away. */
  predicate Undisturbed(diff: bool, es: seq<Event>, k: nat, ws: Ws) {
    forall j :: k <= j < |es| ==> es[j] != Closed(ws) && !Loses(Run(Init(diff), es[..j]), es[j], ws)
  }

  lemma NextGrows(s: State, e: Event, ws: Ws)
    requires ws in s.clients && s.clients[ws].hasKey && e != Closed(ws) && !Loses(s, e, ws)
    ensures var n := Next(s, e);
      && ws in n.clients && n.clients[ws].hasKey && s.read <= n.read
      && Kept(n.clients[ws]) == Kept(s.clients[ws]) + n.read[|s.read|..]
      && |n.clients[ws].sent| >= |s.clients[ws].sent|
  {
    var c := s.clients[ws];
    assert Kept(c) + [] == Kept(c);
    match e
    case SenderStarts(_) => assert Kept(c.(started := true)) == Kept(c);
    case SenderTakes(w) =>
      if w == ws && c.started && c.queue != [] { assert Kept(Taken(s.diff, c)) == Kept(c); }
    case Delivered(f) => assert Kept(Offered(c, f)) == Kept(c) + [f];
    case _ =>
  }

  lemma {:induction false} KeepsEverything(diff: bool, es: seq<Event>, k: nat, ws: Ws)
    requires k <= |es| && Undisturbed(diff, es, k, ws)
    requires ws in Run(Init(diff), es[..k]).clients && Run(Init(diff), es[..k]).clients[ws].hasKey
    ensures var r, s := Run(Init(diff), es[..k]), Run(Init(diff), es);
      && ws in s.clients && s.clients[ws].hasKey && r.read <= s.read
      && Kept(s.clients[ws]) == Kept(r.clients[ws]) + s.read[|r.read|..]
      && |s.clients[ws].sent| >= |r.clients[ws].sent|
    decreases |es|
  {
    hide Next;
    hide Kept;
    hide Loses;
    if k == |es| {
      assert es[..k] == es;
      var r := Run(Init(diff), es);
      assert Kept(r.clients[ws]) + r.read[|r.read|..] == Kept(r.clients[ws]);
    } else {
      var before, e := es[..|es| - 1], es[|es| - 1];
      assert before[..k] == es[..k] && es[..|es| - 1] == before;
      forall j | k <= j < |before|
        ensures before[j] != Closed(ws) && !Loses(Run(Init(diff), before[..j]), before[j], ws)
      {
        assert before[..j] == es[..j];
      }
      KeepsEverything(diff, before, k, ws);
      var r, m, s := Run(Init(diff), es[..k]), Run(Init(diff), before), Run(Init(diff), es);
      NextGrows(m, e, ws);
      assert s.read[|r.read|..] == m.read[|r.read|..] + s.read[|m.read|..];
    }
  }

  lemma LossEmpties(s: State, e: Event, ws: Ws)
    requires Loses(s, e, ws)
    ensures var n := Next(s, e);
      ws in n.clients && n.clients[ws].hasKey && Kept(n.clients[ws]) == s.clients[ws].sent == n.clients[ws].sent
  {
    assert s.clients[ws].sent + [] == s.clients[ws].sent;
  }

  /** After an overflow, until the next one, a client gets exactly what is read from then on: the
      first frame it is sent is a key frame exactly if the first one read is. */
  lemma ResumesWithNextFrame(diff: bool, es: seq<Event>, k: nat, ws: Ws)
    requires k < |es| && Loses(Run(Init(diff), es[..k]), es[k], ws) && Undisturbed(diff, es, k + 1, ws)
    ensures var r, s := Run(Init(diff), es[..k + 1]), Run(Init(diff), es);
      && ws in r.clients && ws in s.clients && |r.read| <= |s.read|
      && s.clients[ws].sent + s.clients[ws].queue == r.clients[ws].sent + s.read[|r.read|..]
      && (|s.clients[ws].sent| > |r.clients[ws].sent| ==>
            |s.read| > |r.read| && s.clients[ws].sent[|r.clients[ws].sent|] == s.read[|r.read|])
  {
    hide Next;
    hide Loses;
    assert es[..k + 1][..k] == es[..k];
    LossEmpties(Run(Init(diff), es[..k]), es[k], ws);
    KeepsEverything(diff, es, k + 1, ws);
    var r, s := Run(Init(diff), es[..k + 1]), Run(Init(diff), es);
    var n := |r.clients[ws].sent|;
    if |s.clients[ws].sent| > n {
      assert Kept(s.clients[ws])[n] == s.clients[ws].sent[n];
    }
  }

  // ----- a run that loses frames -----

  const KEY := Frame(true, [])

  function Delta(n: nat): Frame { Frame(false, seq(n, _ => 0)) }

  function Deltas(n: nat): seq<Frame> { seq(n, i requires 0 <= i < n => Delta(i)) }

  lemma Extend(es: seq<Event>, s: State, e: Event) returns (es': seq<Event>, s': State)
    requires s == Run(Init(true), es)
    ensures es' == es + [e] && s' == Next(s, e) == Run(Init(true), es')
  {
    es', s' := es + [e], Next(s, e);
    assert es'[..|es'| - 1] == es;
  }

  /** The one client of these runs, and what was read. */
  function Alone(keyRequired: bool, c: Client, read: seq<Frame>): State { State(true, keyRequired, map[0 := c], read) }

  lemma DeliverAlone(keyRequired: bool, c: Client, read: seq<Frame>, f: Frame)
    ensures Next(Alone(keyRequired, c, read), Delivered(f))
            == Alone((keyRequired && !f.key) || Full(c), Offered(c, f), read + [f])
  {
    var s := Alone(keyRequired, c, read);
    var t := Next(s, Delivered(f));
    assert t.clients == map[0 := Offered(c, f)];
    assert Overflows(s.clients, 0) == Full(c);
  }

  function Filled(n: nat): Client { Client(Deltas(n), true, true, false, [KEY]) }

  lemma {:induction false} Fill(n: nat) returns (es: seq<Event>)
    requires n <= QUEUE_SIZE
    ensures Run(Init(true), es) == Alone(false, Filled(n), [KEY] + Deltas(n))
    decreases n
  {
    var s;
    if n == 0 {
      es, s := Extend([], Init(true), Start(0));
      var c := Client([], false, false, false, []);
      assert s == Alone(false, c, []);
      es, s := Extend(es, s, SenderStarts(0));
      c := c.(started := true);
      assert s == Alone(true, c, []);
      DeliverAlone(true, c, [], KEY);
      es, s := Extend(es, s, Delivered(KEY));
      c := Offered(c, KEY);
      assert s == Alone(false, c, [KEY]);
      es, s := Extend(es, s, SenderTakes(0));
      assert Taken(true, c) == Filled(0);
      assert [KEY] == [KEY] + Deltas(0);
    } else {
      es := Fill(n - 1);
      var c, read := Filled(n - 1), [KEY] + Deltas(n - 1);
      DeliverAlone(false, c, read, Delta(n - 1));
      es, s := Extend(es, Alone(false, c, read), Delivered(Delta(n - 1)));
      assert Deltas(n - 1) + [Delta(n - 1)] == Deltas(n);
      assert read + [Delta(n - 1)] == [KEY] + Deltas(n);
    }
  }

  lemma LossStays(diff: bool, es: seq<Event>, e: Event, ws: Ws)
    requires !NeverLost(diff, es, ws) || Loses(Run(Init(diff), es), e, ws)
    requires e != Closed(ws)
    ensures !NeverLost(diff, es + [e], ws)
  {
    assert (es + [e])[..|es|] == es;
  }

  /** A client that falls 33 frames behind is sent a key frame and then frame 34: 33 delta frames
      in between are lost, the flag still asks for a key frame, and none has come. */
  lemma OverflowReached() returns (es: seq<Event>)
    ensures var s := Run(Init(true), es);
      && 0 in s.clients && s.clients[0].sent == [KEY, Delta(33)] && s.clients[0].gap && s.keyRequired
      && s.read == [KEY] + Deltas(34)
      && !NeverLost(true, es, 0)
  {
    es := Fill(QUEUE_SIZE);
    var c, read := Filled(QUEUE_SIZE), [KEY] + Deltas(QUEUE_SIZE);
    var s := Alone(false, c, read);
    DeltaSentAfterOverflow(s, 0, Delta(32), Delta(33));
    DeliverAlone(false, c, read, Delta(32));
    LossStays(true, es, Delivered(Delta(32)), 0);
    es, s := Extend(es, s, Delivered(Delta(32)));
    c, read := Client([], true, true, true, [KEY]), read + [Delta(32)];
    DeliverAlone(true, c, read, Delta(33));
    LossStays(true, es, Delivered(Delta(33)), 0);
    es, s := Extend(es, s, Delivered(Delta(33)));
    read := read + [Delta(33)];
    LossStays(true, es, SenderTakes(0), 0);
    var es';
    es', s := Extend(es, s, SenderTakes(0));
    es := es';
    assert [KEY] + [Delta(33)] == [KEY, Delta(33)];
    assert Deltas(34) == Deltas(32) + [Delta(32)] + [Delta(33)];
  }
}

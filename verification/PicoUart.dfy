/** The UART side of the HID firmware: framing with timeout resync, and one response for every
    frame or timeout. */
module PicoUart {
  import opened Options
  import opened Bytes
  import opened PicoMain

  const TIMEOUT_US: nat := 100000

  /** One call of `ph_com_uart_task`: the byte that is readable, if any, and the time. */
  datatype Poll = Poll(input: Option<Byte>, now: nat)

  datatype Outcome = Nothing | Data(frame: Frame) | TimedOut

  /** `_buf[.._index]` and `_last_ts`. */
  datatype Port = Port(partial: seq<Byte>, lastTs: nat)

  function PollSpec(u: Port, p: Poll): (Port, Outcome)
    requires |u.partial| < FRAME_SIZE
  {
    match p.input
    case Some(b) =>
      if |u.partial| == FRAME_SIZE - 1 then (u.(partial := []), Data(u.partial + [b]))
      else (Port(u.partial + [b], p.now), Nothing)
    case None =>
      if |u.partial| > 0 && u.lastTs + TIMEOUT_US < p.now then (u.(partial := []), TimedOut)
      else (u, Nothing)
  }

  class Uart {
    const buf: array<Byte>
    var index: nat
    var lastTs: nat

    ghost predicate Valid()
      reads this
    {
      buf.Length == FRAME_SIZE && index < FRAME_SIZE
    }

    ghost function View(): Port
      requires Valid()
      reads this, buf
    {
      Port(buf[..index], lastTs)
    }

    constructor ()
      ensures Valid() && View() == Port([], 0) && fresh(buf)
    {
      buf := new Byte[FRAME_SIZE](_ => 0);
      index, lastTs := 0, 0;
    }

    method Task(p: Poll) returns (o: Outcome)
      requires Valid()
      modifies this, buf
      ensures Valid()
      ensures (View(), o) == PollSpec(old(View()), p)
    {
      o := Nothing;
      if p.input.Some? {
        ghost var before := buf[..index];
        buf[index] := p.input.value;
        assert buf[..index + 1] == before + [p.input.value];
        if index == 7 {
          assert buf[..] == buf[..index + 1];
          o := Data(buf[..]);
          index := 0;
        } else {
          lastTs := p.now;
          index := index + 1;
        }
      } else if index > 0 {
        if lastTs + TIMEOUT_US < p.now {
          o := TimedOut;
          index := 0;
        }
      }
    }
  }

  // ----- framing over a whole timed stream -----

  datatype Trace = Trace(port: Port, outcomes: seq<Outcome>)

  function Outcomes(polls: seq<Poll>): (t: Trace)
    ensures |t.port.partial| < FRAME_SIZE
    ensures forall o :: o in t.outcomes ==> !o.Nothing?
    decreases |polls|
  {
    if polls == [] then Trace(Port([], 0), [])
    else
      var t := Outcomes(polls[..|polls| - 1]);
      var (port, o) := PollSpec(t.port, polls[|polls| - 1]);
      Trace(port, if o.Nothing? then t.outcomes else t.outcomes + [o])
  }

  /** The stream cut at its resyncs: an idle poll cuts when bytes are left over from whole
      frames and the last byte is longer ago than the timeout. */
  datatype Cut = Cut(closed: seq<seq<Byte>>, open: seq<Byte>, lastByteAt: nat)

  function Resyncs(polls: seq<Poll>): Cut
    decreases |polls|
  {
    if polls == [] then Cut([], [], 0)
    else
      var c, p := Resyncs(polls[..|polls| - 1]), polls[|polls| - 1];
      match p.input
      case Some(b) => Cut(c.closed, c.open + [b], p.now)
      case None =>
        if |c.open| % FRAME_SIZE != 0 && c.lastByteAt + 100000 < p.now
        then Cut(c.closed + [c.open], [], c.lastByteAt)
        else c
  }

  /** The whole frames of an uninterrupted run of bytes. */
  function Chunks(bytes: seq<Byte>): (o: seq<Outcome>)
    ensures |o| == |bytes| / FRAME_SIZE
    ensures forall i :: 0 <= i < |o| ==> o[i] == Data(bytes[i * FRAME_SIZE..i * FRAME_SIZE + FRAME_SIZE])
  {
    seq(|bytes| / FRAME_SIZE, i requires 0 <= i < |bytes| / FRAME_SIZE =>
      Data(bytes[i * FRAME_SIZE..i * FRAME_SIZE + FRAME_SIZE]))
  }

  function ChunksOfClosed(closed: seq<seq<Byte>>): seq<Outcome>
    decreases |closed|
  {
    if closed == [] then []
    else ChunksOfClosed(closed[..|closed| - 1]) + Chunks(closed[|closed| - 1]) + [TimedOut]
  }

  lemma ChunksSnoc(bytes: seq<Byte>, b: Byte)
    ensures Chunks(bytes + [b]) ==
            if |bytes| % FRAME_SIZE == FRAME_SIZE - 1
            then Chunks(bytes) + [Data(bytes[|bytes| - FRAME_SIZE + 1..] + [b])]
            else Chunks(bytes)
  {
    var all := bytes + [b];
    forall i | 0 <= i < |Chunks(bytes)|
      ensures Chunks(all)[i] == Chunks(bytes)[i]
    {
      assert all[i * FRAME_SIZE..i * FRAME_SIZE + FRAME_SIZE] == bytes[i * FRAME_SIZE..i * FRAME_SIZE + FRAME_SIZE];
    }
    if |bytes| % FRAME_SIZE == FRAME_SIZE - 1 {
      var n := |bytes| / FRAME_SIZE;
      assert all[n * FRAME_SIZE..n * FRAME_SIZE + FRAME_SIZE] == bytes[|bytes| - FRAME_SIZE + 1..] + [b];
    }
  }

  lemma ChunksOfClosedSnoc(closed: seq<seq<Byte>>, s: seq<Byte>)
    ensures ChunksOfClosed(closed + [s]) + Chunks([]) == ChunksOfClosed(closed) + Chunks(s) + [TimedOut]
  {
    assert (closed + [s])[..|closed|] == closed;
    assert Chunks([]) == [];
  }

  /** What an uninterrupted run of bytes leaves over from whole frames. */
  function Rest(bytes: seq<Byte>): (r: seq<Byte>)
    ensures |r| < FRAME_SIZE
  {
    bytes[|bytes| - |bytes| % FRAME_SIZE..]
  }

  lemma RestSnoc(bytes: seq<Byte>, b: Byte)
    ensures Rest(bytes + [b]) == if |Rest(bytes)| == FRAME_SIZE - 1 then [] else Rest(bytes) + [b]
  {
    var n := |bytes|;
    assert (n + 1) % FRAME_SIZE == if n % FRAME_SIZE == FRAME_SIZE - 1 then 0 else n % FRAME_SIZE + 1;
  }

  ghost predicate Framed(t: Trace, c: Cut) {
    && t.outcomes == ChunksOfClosed(c.closed) + Chunks(c.open)
    && t.port.partial == Rest(c.open)
    && (t.port.partial != [] ==> t.port.lastTs == c.lastByteAt)
    && forall s :: s in c.closed ==> Rest(s) != []
  }

  lemma RestEmpty(bytes: seq<Byte>)
    ensures Rest(bytes) != [] <==> |bytes| % FRAME_SIZE != 0
  {}

  lemma ByteKeepsFramed(t: Trace, c: Cut, b: Byte, now: nat)
    requires Framed(t, c)
    ensures var (port, o) := PollSpec(t.port, Poll(Some(b), now));
      Framed(Trace(port, if o.Nothing? then t.outcomes else t.outcomes + [o]), Cut(c.closed, c.open + [b], now))
  {
    hide Rest;
    ChunksSnoc(c.open, b);
    RestSnoc(c.open, b);
    assert |Rest(c.open)| == |c.open| % FRAME_SIZE
        && Rest(c.open) == c.open[|c.open| - |c.open| % FRAME_SIZE..] by { RestIs(c.open); }
  }

  lemma RestIs(bytes: seq<Byte>)
    ensures |Rest(bytes)| == |bytes| % FRAME_SIZE && Rest(bytes) == bytes[|bytes| - |bytes| % FRAME_SIZE..]
  {}

  lemma CutKeepsFramed(t: Trace, c: Cut)
    requires Framed(t, c) && Rest(c.open) != []
    ensures Framed(Trace(t.port.(partial := []), t.outcomes + [TimedOut]), Cut(c.closed + [c.open], [], c.lastByteAt))
  {
    hide Rest;
    hide Chunks;
    ChunksOfClosedSnoc(c.closed, c.open);
    RestIs([]);
  }

  /** For every timed byte stream, what is delivered is exactly the successive eight-byte chunks
      since the last resync, and a timeout exactly where a partial frame was cut off. */
  lemma {:induction false} FramesAreChunksSinceResync(polls: seq<Poll>)
    ensures Framed(Outcomes(polls), Resyncs(polls))
    decreases |polls|
  {
    hide Framed;
    hide PollSpec;
    if polls == [] {
      FramedAtStart();
    } else {
      var before, p := polls[..|polls| - 1], polls[|polls| - 1];
      FramesAreChunksSinceResync(before);
      var t, c := Outcomes(before), Resyncs(before);
      RestEmpty(c.open);
      match p.input
      case Some(b) => ByteKeepsFramed(t, c, b, p.now);
      case None => QuietKeepsFramed(t, c, p.now);
    }
  }

  lemma QuietKeepsFramed(t: Trace, c: Cut, now: nat)
    requires Framed(t, c)
    ensures var (port, o) := PollSpec(t.port, Poll(None, now));
      Framed(Trace(port, if o.Nothing? then t.outcomes else t.outcomes + [o]),
             if Rest(c.open) != [] && c.lastByteAt + TIMEOUT_US < now
             then Cut(c.closed + [c.open], [], c.lastByteAt) else c)
  {
    assert t.port.partial == Rest(c.open) && (t.port.partial != [] ==> t.port.lastTs == c.lastByteAt);
    hide Framed;
    hide Rest;
    if Rest(c.open) != [] { CutKeepsFramed(t, c); }
  }

  lemma FramedAtStart()
    ensures Framed(Trace(Port([], 0), []), Cut([], [], 0))
  {
    assert Chunks([]) == [] && Rest([]) == [];
  }

  // ----- one response for every frame or timeout -----

  function CodeOfOutcome(o: Outcome): Byte
    requires !o.Nothing?
  {
    if o.Data? then CodeOf(o.frame) else RESP_TIMEOUT_ERROR
  }

  predicate Resets(o: Outcome) { o.Data? && Accepted(o.frame) && NeedsReset(o.frame[1]) }

  /** The device: `_reset_required`, `prev_code`, and everything it has answered. */
  datatype Device = Device(port: Port, resetRequired: bool, prevCode: Byte,
                           handled: seq<Outcome>, statuses: seq<Status>, responses: seq<Frame>)

  /** One turn of the main loop; once a reset is due the link is no longer served. */
  function LoopTurn(d: Device, p: Poll, s: Status): Device
    requires |d.port.partial| < FRAME_SIZE
  {
    if d.resetRequired then d else
    var (port, o) := PollSpec(d.port, p);
    if o.Nothing? then d.(port := port) else
    var code := CodeOfOutcome(o);
    var resetRequired := Resets(o);
    var prevCode := if code == 0 then d.prevCode else code;
    Device(port, resetRequired, prevCode, d.handled + [o], d.statuses + [s],
           d.responses + [Sealed(Body(prevCode, resetRequired, s))])
  }

  function Serve(polls: seq<(Poll, Status)>): (d: Device)
    ensures |d.port.partial| < FRAME_SIZE
    decreases |polls|
  {
    if polls == [] then Device(Port([], 0), false, RESP_NONE, [], [], [])
    else LoopTurn(Serve(polls[..|polls| - 1]), polls[|polls| - 1].0, polls[|polls| - 1].1)
  }

  method Answer(firmware: Firmware, o: Outcome, s: Status) returns (response: Frame)
    requires !o.Nothing? && !firmware.resetRequired
    modifies firmware
    ensures firmware.resetRequired == Resets(o)
    ensures firmware.prevCode == if CodeOfOutcome(o) == 0 then old(firmware.prevCode) else CodeOfOutcome(o)
    ensures response == Sealed(Body(firmware.prevCode, firmware.resetRequired, s))
  {
    hide Body;
    hide Sealed;
    hide PassesCheck;
    hide CodeOf;
    hide Accepted;
    hide NeedsReset;
    var code := RESP_TIMEOUT_ERROR;
    if o.Data? {
      code := firmware.HandleRequest(o.frame);
    }
    response := firmware.SendResponse(code, s);
  }

  method MainLoopTurn(uart: Uart, firmware: Firmware, p: Poll, s: Status, ghost d: Device) returns (response: Option<Frame>, ghost d': Device)
    requires uart.Valid() && |d.port.partial| < FRAME_SIZE
    requires d.port == uart.View() && d.resetRequired == firmware.resetRequired && d.prevCode == firmware.prevCode
    modifies uart, uart.buf, firmware
    ensures uart.Valid() && d' == LoopTurn(d, p, s)
    ensures d'.port == uart.View() && d'.resetRequired == firmware.resetRequired && d'.prevCode == firmware.prevCode
    ensures d'.responses == d.responses + (if response.Some? then [response.value] else [])
  {
    hide Body;
    hide Sealed;
    hide CodeOfOutcome;
    hide Resets;
    hide PollSpec;
    response := None;
    d' := LoopTurn(d, p, s);
    if !firmware.resetRequired {
      var o := uart.Task(p);
      if !o.Nothing? {
        var r := Answer(firmware, o, s);
        response := Some(r);
      }
    }
  }

  /** The code that a request is answered with: its own, or for a repeat request the latest
      one before it that was not a repeat. */
  function Effective(handled: seq<Outcome>, i: nat): Byte
    requires i < |handled| && forall o :: o in handled ==> !o.Nothing?
  {
    if CodeOfOutcome(handled[i]) != 0 then CodeOfOutcome(handled[i])
    else if i == 0 then RESP_NONE
    else Effective(handled, i - 1)
  }

  lemma {:induction false} EffectivePrefix(handled: seq<Outcome>, o: Outcome, i: nat)
    requires !o.Nothing? && i < |handled| && forall o :: o in handled ==> !o.Nothing?
    ensures Effective(handled + [o], i) == Effective(handled, i)
  {
    if CodeOfOutcome(handled[i]) == 0 && i > 0 { EffectivePrefix(handled, o, i - 1); }
  }

  ghost predicate Served(d: Device) {
    && |d.responses| == |d.handled| == |d.statuses|
    && (forall o :: o in d.handled ==> !o.Nothing?)
    && d.prevCode == (if d.handled == [] then RESP_NONE else Effective(d.handled, |d.handled| - 1))
    && (forall i :: 0 <= i < |d.handled| ==>
          && d.responses[i] == Sealed(Body(Effective(d.handled, i), Resets(d.handled[i]), d.statuses[i]))
          && PassesCheck(d.responses[i])
          && (Resets(d.handled[i]) <==> d.resetRequired && i == |d.handled| - 1))
  }

  lemma AnswerServes(d: Device, port: Port, o: Outcome, s: Status)
    requires Served(d) && !d.resetRequired && !o.Nothing?
    ensures var prevCode := if CodeOfOutcome(o) == 0 then d.prevCode else CodeOfOutcome(o);
      Served(Device(port, Resets(o), prevCode, d.handled + [o], d.statuses + [s],
                    d.responses + [Sealed(Body(prevCode, Resets(o), s))]))
  {
    hide Body;
    hide Sealed;
    hide CodeOfOutcome;
    hide PassesCheck;
    hide Resets;
    var handled := d.handled + [o];
    forall i | 0 <= i < |d.handled| ensures Effective(handled, i) == Effective(d.handled, i) {
      EffectivePrefix(d.handled, o, i);
    }
    SealedPasses(Body(if CodeOfOutcome(o) == 0 then d.prevCode else CodeOfOutcome(o), Resets(o), s));
  }

  lemma TurnServes(d: Device, p: Poll, s: Status)
    requires |d.port.partial| < FRAME_SIZE && Served(d)
    ensures Served(LoopTurn(d, p, s))
  {
    hide Body;
    hide Sealed;
    hide CodeOfOutcome;
    hide PassesCheck;
    hide Resets;
    var (port, o) := PollSpec(d.port, p);
    if !d.resetRequired && !o.Nothing? { AnswerServes(d, port, o, s); }
  }

  /** Over every run each frame or timeout gets exactly one response, in order; the response
      passes the receiver's check and carries the request's own code or, for REPEAT, the latest
      code that was not a repeat; a reset is announced in the last response and only there. */
  lemma {:induction false} EveryOutcomeAnswered(polls: seq<(Poll, Status)>)
    ensures Served(Serve(polls))
    decreases |polls|
  {
    if polls != [] {
      EveryOutcomeAnswered(polls[..|polls| - 1]);
      TurnServes(Serve(polls[..|polls| - 1]), polls[|polls| - 1].0, polls[|polls| - 1].1);
    }
  }
}

/** The SPI link of the HID firmware: an interrupt handler that moves bytes between the
    hardware FIFOs and two buffers, racing the main loop that reads a request byte by byte and
    stores a response byte by byte.  Any interleaving of the steps below is a run. */
module SpiProtocol {
  import opened Bytes

  /** `_send_response` always puts the magic byte first. */
  type Response = r: Frame | r[0] == MAGIC_RESP witness [MAGIC_RESP, 0, 0, 0, 0, 0, 0, 0]

  /** Where the main loop is inside `ph_com_spi_task`. */
  datatype Main =
    | Polling                              // about to read _out_buf[0]
    | OutputFree                           // it was zero; about to read _in_index
    | Handling(request: seq<Byte>)         // the handler has read these bytes so far
    | Storing(response: Response, left: nat)  // bytes still to be stored, downwards

  datatype Link = Link(
    inBuf: Frame,
    inIndex: nat,
    receiving: bool,
    outBuf: Frame,
    outIndex: nat,
    main: Main,
    // history
    heard: seq<Byte>,        // bytes received while no request was latched
    latched: seq<Frame>,     // requests, as they became complete
    handled: seq<(seq<Byte>, Response)>,  // what the handler read and what it answered
    sent: seq<Byte>          // bytes handed to the transmitter
  )

  const ZEROS: Frame := [0, 0, 0, 0, 0, 0, 0, 0]

  function Init(): Link { Link(ZEROS, 0, false, ZEROS, 0, Polling, [], [], [], []) }

  datatype Step =
    | Transmit               // one slot of the transmit FIFO
    | Receive(b: Byte)       // one byte of the receive FIFO
    | ReadOutput
    | ReadInput
    | ReadRequest
    | Respond(response: Response)
    | Store

  function TransmitSpec(l: Link): Link {
    if l.outBuf[0] != 0 && l.outIndex < FRAME_SIZE then
      var l' := l.(sent := l.sent + [l.outBuf[l.outIndex]]);
      if l.outIndex + 1 == FRAME_SIZE then l'.(outIndex := 0, inIndex := 0, outBuf := l.outBuf[0 := 0])
      else l'.(outIndex := l.outIndex + 1)
    else l.(sent := l.sent + [0])
  }

  function ReceiveSpec(l: Link, b: Byte): Link {
    var receiving := l.receiving || b != 0;
    if l.inIndex >= FRAME_SIZE then l.(receiving := if l.inIndex == FRAME_SIZE then false else receiving)
    else if !receiving then l.(heard := l.heard + [b])
    else
      var inBuf := l.inBuf[l.inIndex := b];
      var full := l.inIndex + 1 == FRAME_SIZE;
      l.(inBuf := inBuf, inIndex := l.inIndex + 1, receiving := !full, heard := l.heard + [b],
         latched := if full then l.latched + [inBuf] else l.latched)
  }

  function MainSpec(l: Link, s: Step): Link
    requires !s.Transmit? && !s.Receive?
  {
    match (s, l.main)
    case (ReadOutput, Polling) => if l.outBuf[0] == 0 then l.(main := OutputFree) else l
    case (ReadInput, OutputFree) => l.(main := if l.inIndex == FRAME_SIZE then Handling([]) else Polling)
    case (ReadRequest, Handling(request)) =>
      if |request| < FRAME_SIZE then l.(main := Handling(request + [l.inBuf[|request|]])) else l
    case (Respond(response), Handling(request)) =>
      if |request| == FRAME_SIZE
      then l.(main := Storing(response, FRAME_SIZE), handled := l.handled + [(request, response)])
      else l
    case (Store, Storing(response, left)) =>
      if 0 < left <= FRAME_SIZE then
        l.(outBuf := l.outBuf[left - 1 := response[left - 1]],
           main := if left == 1 then Polling else Storing(response, left - 1))
      else l
    case _ => l
  }

  function Next(l: Link, s: Step): Link {
    match s
    case Transmit => TransmitSpec(l)
    case Receive(b) => ReceiveSpec(l, b)
    case _ => MainSpec(l, s)
  }

  function Run(steps: seq<Step>): Link
    decreases |steps|
  {
    if steps == [] then Init() else Next(Run(steps[..|steps| - 1]), steps[|steps| - 1])
  }

  // ----- the invariant -----

  function Responses(handled: seq<(seq<Byte>, Response)>): (r: seq<Frame>)
    ensures |r| == |handled|
    ensures forall i :: 0 <= i < |r| ==> r[i] == handled[i].1
  {
    seq(|handled|, i requires 0 <= i < |handled| => handled[i].1)
  }

  predicate Pending(l: Link) { l.outBuf[0] != 0 }

  predicate Busy(l: Link) { Pending(l) || l.main.Handling? || l.main.Storing? }

  /** The latched request has been answered, or its answer is being stored. */
  predicate Answered(l: Link) { Pending(l) || l.main.Storing? }

  predicate Indices(l: Link) {
    && l.inIndex <= FRAME_SIZE && l.outIndex < FRAME_SIZE
    && (l.outIndex > 0 ==> Pending(l))
    && (Busy(l) ==> l.inIndex == FRAME_SIZE)
    && (Pending(l) ==> l.main.Polling?)
    && (l.receiving <==> 0 < l.inIndex < FRAME_SIZE)
  }

  predicate Requests(l: Link)
    requires Indices(l)
  {
    && Decode(l.heard) == Decoder(l.latched, if l.inIndex == FRAME_SIZE then [] else l.inBuf[..l.inIndex])
    && (l.inIndex == FRAME_SIZE ==> l.latched != [] && l.inBuf == l.latched[|l.latched| - 1])
    && (l.main.Handling? ==> |l.main.request| <= FRAME_SIZE && l.main.request == l.inBuf[..|l.main.request|])
    && |l.handled| == |l.latched| - (if l.inIndex == FRAME_SIZE && !Answered(l) then 1 else 0)
    && (forall i :: 0 <= i < |l.handled| ==> l.handled[i].0 == l.latched[i])
  }

  predicate Answers(l: Link)
    requires Indices(l)
  {
    && (Answered(l) ==> l.handled != [])
    && Decode(l.sent).frames == (if Answered(l) then Responses(l.handled)[..|l.handled| - 1] else Responses(l.handled))
    && Decode(l.sent).partial == (if Pending(l) then l.outBuf[..l.outIndex] else [])
    && (Pending(l) ==> l.outBuf == l.handled[|l.handled| - 1].1)
    && (l.main.Storing? ==>
          && 0 < l.main.left <= FRAME_SIZE
          && l.main.response == l.handled[|l.handled| - 1].1
          && l.outBuf[l.main.left..] == l.main.response[l.main.left..])
  }

  predicate Inv(l: Link) { Indices(l) && Requests(l) && Answers(l) }

  lemma TransmitIdle(l: Link)
    requires Inv(l) && !Pending(l)
    ensures Inv(TransmitSpec(l))
  {
    hide Decode;
    DecodeSnoc(l.sent, 0);
  }

  lemma TransmitMiddle(l: Link)
    requires Inv(l) && Pending(l) && l.outIndex < FRAME_SIZE - 1
    ensures Inv(TransmitSpec(l))
  {
    hide Decode;
    DecodeSnoc(l.sent, l.outBuf[l.outIndex]);
    assert l.outBuf[..l.outIndex] + [l.outBuf[l.outIndex]] == l.outBuf[..l.outIndex + 1];
  }

  lemma TransmitLast(l: Link)
    requires Inv(l) && Pending(l) && l.outIndex == FRAME_SIZE - 1
    ensures Inv(TransmitSpec(l))
  {
    hide Decode;
    var b := l.outBuf[l.outIndex];
    DecodeSnoc(l.sent, b);
    assert l.outBuf[..l.outIndex] + [b] == l.outBuf;
    var r := Responses(l.handled);
    assert r[..|r| - 1] + [r[|r| - 1]] == r;
    var l' := TransmitSpec(l);
    assert Decode(l'.sent) == Decoder(r, []);
  }

  lemma ReceiveKeepsInv(l: Link, b: Byte)
    requires Inv(l)
    ensures Inv(ReceiveSpec(l, b))
  {
    hide Decode;
    if l.inIndex < FRAME_SIZE {
      DecodeSnoc(l.heard, b);
      if l.receiving || b != 0 {
        var inBuf := l.inBuf[l.inIndex := b];
        assert inBuf[..l.inIndex + 1] == l.inBuf[..l.inIndex] + [b];
        if l.inIndex == FRAME_SIZE - 1 { assert inBuf[..FRAME_SIZE] == inBuf; }
      }
    }
  }

  lemma ReadsKeepInv(l: Link, s: Step)
    requires Inv(l) && (s.ReadOutput? || s.ReadInput? || s.ReadRequest?)
    ensures Inv(MainSpec(l, s))
  {
    hide Decode;
  }

  lemma RespondKeepsInv(l: Link, response: Response)
    requires Inv(l) && l.main.Handling? && |l.main.request| == FRAME_SIZE
    ensures Inv(MainSpec(l, Respond(response)))
  {
    hide Decode;
    assert l.main.request == l.inBuf;
    var l' := MainSpec(l, Respond(response));
    assert Responses(l'.handled)[..|l.handled|] == Responses(l.handled);
  }

  lemma StoreMiddle(l: Link)
    requires Inv(l) && l.main.Storing? && l.main.left > 1
    ensures Inv(MainSpec(l, Store))
  {
    hide Decode;
    hide Responses;
    var Storing(response, left) := l.main;
    var outBuf := l.outBuf[left - 1 := response[left - 1]];
    assert outBuf[left - 1..] == [response[left - 1]] + l.outBuf[left..];
    assert response[left - 1..] == [response[left - 1]] + response[left..];
  }

  lemma StoreLast(l: Link)
    requires Inv(l) && l.main.Storing? && l.main.left == 1
    ensures Inv(MainSpec(l, Store))
  {
    hide Decode;
    hide Responses;
    var response := l.main.response;
    var outBuf := l.outBuf[0 := response[0]];
    assert outBuf == [response[0]] + l.outBuf[1..];
    assert response == [response[0]] + response[1..];
    assert outBuf[..0] == [];
  }

  lemma MainKeepsInv(l: Link, s: Step)
    requires Inv(l) && !s.Transmit? && !s.Receive?
    ensures Inv(MainSpec(l, s))
  {
    if s.ReadOutput? || s.ReadInput? || s.ReadRequest? { ReadsKeepInv(l, s); }
    else if s.Respond? && l.main.Handling? && |l.main.request| == FRAME_SIZE { RespondKeepsInv(l, s.response); }
    else if s.Store? && l.main.Storing? {
      if l.main.left > 1 { StoreMiddle(l); } else { StoreLast(l); }
    }
  }

  lemma {:induction false} RunsKeepInv(steps: seq<Step>)
    ensures Inv(Run(steps))
    decreases |steps|
  {
    if steps != [] {
      var l := Run(steps[..|steps| - 1]);
      RunsKeepInv(steps[..|steps| - 1]);
      match steps[|steps| - 1]
      case Transmit =>
        if !Pending(l) { TransmitIdle(l); }
        else if l.outIndex < FRAME_SIZE - 1 { TransmitMiddle(l); }
        else { TransmitLast(l); }
      case Receive(b) => ReceiveKeepsInv(l, b);
      case _ => MainKeepsInv(l, steps[|steps| - 1]);
    }
  }

  // ----- main results -----

  /** A pending response, or a handler at work, implies that the request is still latched, and
      no step of the interrupt changes the request buffer then. */
  lemma RequestHeldWhileHandled(steps: seq<Step>, s: Step)
    ensures var l := Run(steps);
      Busy(l) ==> l.inIndex == FRAME_SIZE && Next(l, s).inBuf == l.inBuf
  {
    RunsKeepInv(steps);
  }

  /** Every request is handled exactly once, in order, and as it was received: the handler saw
      the frames of the incoming stream, all of them but the one it may still be working on. */
  lemma EveryRequestHandledOnce(steps: seq<Step>)
    ensures var l := Run(steps);
      var frames := Decode(l.heard).frames;
      && |frames| - 1 <= |l.handled| <= |frames|
      && (|l.handled| < |frames| ==> l.inIndex == FRAME_SIZE && !Answered(l))
      && forall i :: 0 <= i < |l.handled| ==> l.handled[i].0 == frames[i]
  {
    RunsKeepInv(steps);
  }

  /** The wire carries idle zeros and whole responses only: a receiver decodes exactly the
      handler's responses in order, the last one possibly still under way. */
  lemma WireCarriesWholeResponses(steps: seq<Step>)
    ensures var l := Run(steps);
      var d := Decode(l.sent);
      if Answered(l) then
        && |d.frames| == |l.handled| - 1
        && d.frames == Responses(l.handled)[..|d.frames|]
        && d.partial <= l.handled[|d.frames|].1
      else d.frames == Responses(l.handled) && d.partial == []
  {
    RunsKeepInv(steps);
  }
}

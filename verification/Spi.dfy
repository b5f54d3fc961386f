/** The SPI link itself: volatile buffers, the interrupt handler and the main loop's steps. */
module Spi {
  import opened Bytes
  import opened SpiProtocol

  function TransmitAll(l: Link, slots: nat): Link {
    if slots == 0 then l else TransmitSpec(TransmitAll(l, slots - 1))
  }

  function ReceiveAll(l: Link, bytes: seq<Byte>): Link
    decreases |bytes|
  {
    if bytes == [] then l else ReceiveSpec(ReceiveAll(l, bytes[..|bytes| - 1]), bytes[|bytes| - 1])
  }

  /** One interrupt: fill the free slots, then drain what has arrived. */
  function IsrSpec(l: Link, slots: nat, bytes: seq<Byte>): Link {
    ReceiveAll(TransmitAll(l, slots), bytes)
  }

  class SpiLink {
    const inBuf: array<Byte>
    const outBuf: array<Byte>
    var inIndex: nat
    var outIndex: nat
    var receiving: bool
    var main: Main
    ghost var heard: seq<Byte>
    ghost var latched: seq<Frame>
    ghost var handled: seq<(seq<Byte>, Response)>
    ghost var sent: seq<Byte>

    ghost predicate Valid() {
      inBuf != outBuf && inBuf.Length == FRAME_SIZE && outBuf.Length == FRAME_SIZE
    }

    ghost function View(): Link
      requires Valid()
      reads this, inBuf, outBuf
    {
      Link(inBuf[..], inIndex, receiving, outBuf[..], outIndex, main, heard, latched, handled, sent)
    }

    constructor ()
      ensures Valid() && fresh(inBuf) && fresh(outBuf) && View() == Init()
    {
      inBuf := new Byte[8] [0, 0, 0, 0, 0, 0, 0, 0];
      outBuf := new Byte[8] [0, 0, 0, 0, 0, 0, 0, 0];
      inIndex, outIndex, receiving, main := 0, 0, false, Polling;
      heard, latched, handled, sent := [], [], [], [];
    }

    method FillTransmitter(slots: nat)
      requires Valid() && inIndex <= FRAME_SIZE && outIndex < FRAME_SIZE
      modifies this, outBuf
      ensures View() == TransmitAll(old(View()), slots)
      ensures inIndex <= FRAME_SIZE && outIndex < FRAME_SIZE
    {
      var free := slots;
      while free > 0
        invariant inIndex <= FRAME_SIZE && outIndex < FRAME_SIZE
        invariant 0 <= free <= slots && View() == TransmitAll(old(View()), slots - free)
      {
        ghost var before := View();
        if outBuf[0] != 0 && outIndex < 8 {
          sent := sent + [outBuf[outIndex]];
          outIndex := outIndex + 1;
          if outIndex == 8 {
            outIndex := 0;
            inIndex := 0;
            outBuf[0] := 0;
          }
        } else {
          sent := sent + [0];
        }
        assert View() == TransmitSpec(before);
        free := free - 1;
      }
    }

    method DrainReceiver(bytes: seq<Byte>)
      requires Valid() && inIndex <= FRAME_SIZE
      modifies this, inBuf
      ensures View() == ReceiveAll(old(View()), bytes)
      ensures inIndex <= FRAME_SIZE && outIndex == old(outIndex)
    {
      for i := 0 to |bytes|
        invariant inIndex <= FRAME_SIZE && outIndex == old(outIndex)
        invariant View() == ReceiveAll(old(View()), bytes[..i])
      {
        ghost var before := View();
        var in_ := bytes[i];
        if inIndex < 8 {
          heard := heard + [in_];
        }
        if !receiving && in_ != 0 {
          receiving := true;
        }
        if receiving && inIndex < 8 {
          inBuf[inIndex] := in_;
          inIndex := inIndex + 1;
          if inIndex == 8 {
            latched := latched + [inBuf[..]];
          }
        }
        if inIndex == 8 {
          receiving := false;
        }
        assert View() == ReceiveSpec(before, in_);
        assert bytes[..i + 1][..i] == bytes[..i];
      }
      assert bytes[..|bytes|] == bytes;
    }

    method TransferIsr(slots: nat, bytes: seq<Byte>)
      requires Valid() && inIndex <= FRAME_SIZE && outIndex < FRAME_SIZE
      modifies this, inBuf, outBuf
      ensures View() == IsrSpec(old(View()), slots, bytes)
      ensures inIndex <= FRAME_SIZE && outIndex < FRAME_SIZE
    {
      FillTransmitter(slots);
      DrainReceiver(bytes);
    }

    /** One step of the main loop; `response` is what `_send_response` has built. */
    method MainStep(s: Step)
      requires Valid() && !s.Transmit? && !s.Receive?
      modifies this, outBuf
      ensures View() == MainSpec(old(View()), s)
    {
      match (s, main)
      case (ReadOutput, Polling) =>
        if outBuf[0] == 0 {
          main := OutputFree;
        }
      case (ReadInput, OutputFree) =>
        main := if inIndex == 8 then Handling([]) else Polling;
      case (ReadRequest, Handling(request)) =>
        if |request| < 8 {
          main := Handling(request + [inBuf[|request|]]);
        }
      case (Respond(response), Handling(request)) =>
        if |request| == 8 {
          handled := handled + [(request, response)];
          main := Storing(response, 8);
        }
      case (Store, Storing(response, left)) =>
        if 0 < left <= 8 {
          outBuf[left - 1] := response[left - 1];
          main := if left == 1 then Polling else Storing(response, left - 1);
        }
      case _ =>
    }
  }

  // ----- an interrupt is a run of protocol steps -----

  lemma {:induction false} TransmitAllIsRun(steps: seq<Step>, slots: nat)
    ensures Run(steps + seq(slots, _ => Transmit)) == TransmitAll(Run(steps), slots)
  {
    var all := steps + seq(slots, _ => Transmit);
    if slots == 0 {
      assert all == steps;
    } else {
      TransmitAllIsRun(steps, slots - 1);
      assert all[..|all| - 1] == steps + seq(slots - 1, _ => Transmit);
    }
  }

  function Receives(bytes: seq<Byte>): seq<Step> { seq(|bytes|, i requires 0 <= i < |bytes| => Receive(bytes[i])) }

  lemma {:induction false} ReceiveAllIsRun(steps: seq<Step>, bytes: seq<Byte>)
    ensures Run(steps + Receives(bytes)) == ReceiveAll(Run(steps), bytes)
    decreases |bytes|
  {
    var all := steps + Receives(bytes);
    if bytes == [] {
      assert all == steps;
    } else {
      ReceiveAllIsRun(steps, bytes[..|bytes| - 1]);
      assert all[..|all| - 1] == steps + Receives(bytes[..|bytes| - 1]);
    }
  }

  /** So the protocol's results hold for interrupts of any length at any point of the main loop. */
  lemma InterruptIsRun(steps: seq<Step>, slots: nat, bytes: seq<Byte>)
    ensures IsrSpec(Run(steps), slots, bytes) == Run(steps + seq(slots, _ => Transmit) + Receives(bytes))
  {
    TransmitAllIsRun(steps, slots);
    ReceiveAllIsRun(steps + seq(slots, _ => Transmit), bytes);
  }
}

/** One request of the daemon with all its retries, over a line that loses and garbles, to a firmware
    that may reboot. */
module McuRetry {
  import opened Bytes
  import opened PicoMain
  import opened McuHost

  // ----- the line and the firmware -----

  /** How the request arrives: damaged so that its check fails, or cut short so that the firmware
      times out. */
  datatype Delivery = Whole | Damaged | CutShort | Lost

  /** What comes back: the firmware's response, bytes that fail the check, or fewer than four. */
  datatype Arrival = Clean | Garbled | Missing

  /** What happens during one attempt. */
  datatype Attempt = Attempt(powered: bool, rebooted: bool, request: Delivery, response: Arrival, status: Status)

  /** The remembered code, whether a reset is due, and the requests done so far. */
  datatype Firmware = Firmware(prev: Byte, reset: bool, done: seq<Frame>)

  function Booted(f: Firmware, rebooted: bool): Firmware {
    if rebooted then Firmware(RESP_NONE, false, f.done) else f
  }

  /** With a reset due the firmware no longer listens. */
  predicate Hears(f: Firmware, d: Delivery) { !f.reset && !d.Lost? }

  function Handled(f: Firmware, frame: Frame, d: Delivery): Firmware {
    if !Hears(f, d) then f
    else
      var code := if d.Whole? then CodeOf(frame) else if d.Damaged? then RESP_CRC_ERROR else RESP_TIMEOUT_ERROR;
      Firmware(if code == 0 then f.prev else code,
               d.Whole? && Accepted(frame) && NeedsReset(frame[1]),
               if code == PONG_OK then f.done + [frame] else f.done)
  }

  function ReadingOf(f: Firmware, heard: bool, a: Attempt): Reading {
    match a.response
    case Clean => Read(if heard then Response(f.prev, f.reset, a.status) else [])
    case Garbled => BadCrc
    case Missing => Read([])
  }

  // ----- the daemon -----

  datatype Result = Running | Succeeded | Rejected | GaveUp | Unpowered

  /** A call of `__process_request`: what it sends next, and the retries left. */
  datatype Call = Call(request: Frame, common: nat, read: nat, firmware: Firmware, result: Result)

  function Begin(request: Frame, common: nat, read: nat, firmware: Firmware): Call {
    Call(request, common, read, firmware, if common == 0 || read == 0 then GaveUp else Running)
  }

  function Retried(c: Call, request: Frame, read: nat): Call
    requires c.common > 0
  {
    c.(request := request, common := c.common - 1, read := read,
       result := if c.common == 1 || read == 0 then GaveUp else Running)
  }

  function Step(c: Call, a: Attempt): Call {
    if !c.result.Running? || c.common == 0 || c.read == 0 then c
    else if !a.powered then c.(result := Unpowered)
    else
      var f := Booted(c.firmware, a.rebooted);
      var f' := Handled(f, c.request, a.request);
      var c' := c.(firmware := f');
      match ReadingOf(f', Hears(f, a.request), a)
      case NoResponse => Retried(c', c.request, c.read - 1)
      case BadCrc => Retried(c', REPEAT_REQUEST, c.read)
      case Temporary => Retried(c', c.request, c.read)
      case Permanent => c'.(result := Rejected)
      case Fine => c'.(result := Succeeded)
  }

  function Run(c: Call, attempts: seq<Attempt>): Call
    decreases |attempts|
  {
    if attempts == [] then c else Step(Run(c, attempts[..|attempts| - 1]), attempts[|attempts| - 1])
  }

  /** The loop itself; `attempts` is what the line and the firmware will do. */
  method ProcessRequest(request: Frame, commonRetries: nat, readRetries: nat, firmware: Firmware, attempts: seq<Attempt>)
    returns (call: Call)
    ensures call == Run(Begin(request, commonRetries, readRetries, firmware), attempts)
  {
    hide ReadingOf;
    hide Handled;
    var common, read, req, device := commonRetries, readRetries, request, firmware;
    var result := if common == 0 || read == 0 then GaveUp else Running;
    for i := 0 to |attempts|
      invariant Call(req, common, read, device, result) == Run(Begin(request, commonRetries, readRetries, firmware), attempts[..i])
      invariant result.Running? ==> common > 0 && read > 0
    {
      assert attempts[..i + 1][..i] == attempts[..i];
      if result.Running? {
        var a := attempts[i];
        if !a.powered {
          result := Unpowered;
        } else {
          var booted := Booted(device, a.rebooted);
          device := Handled(booted, req, a.request);
          var reading := ReadingOf(device, Hears(booted, a.request), a);
          if reading.Fine? {
            result := Succeeded;
          } else if reading.Permanent? {
            result := Rejected;
          } else {
            if reading.NoResponse? {
              read := read - 1;
            } else if reading.BadCrc? {
              req := REPEAT_REQUEST;
            }
            common := common - 1;
            if common == 0 || read == 0 {
              result := GaveUp;
            }
          }
        }
      }
    }
    assert attempts[..|attempts|] == attempts;
    call := Call(req, common, read, device, result);
  }

  // ----- what the reading is -----

  predicate IsCode(code: Byte) {
    code in {RESP_NONE, RESP_CRC_ERROR, RESP_INVALID_ERROR, RESP_TIMEOUT_ERROR, PONG_OK}
  }

  lemma CodesArePongOrNot()
    ensures IsPong(PONG_OK) && !IsPong(RESP_NONE) && !IsPong(RESP_CRC_ERROR)
    ensures !IsPong(RESP_INVALID_ERROR) && !IsPong(RESP_TIMEOUT_ERROR)
  {}

  lemma ReadingIs(f: Firmware, heard: bool, a: Attempt)
    requires IsCode(f.prev)
    ensures ReadingOf(f, heard, a) ==
      if a.response.Garbled? then BadCrc
      else if a.response.Missing? || !heard then NoResponse
      else if f.prev == PONG_OK then Fine
      else if f.prev == RESP_INVALID_ERROR || f.prev == RESP_NONE then Permanent
      else Temporary
  {
    CodesArePongOrNot();
    ResponseIsUnderstood(f.prev, f.reset, a.status);
    hide IsPong;
    hide Response;
  }

  predicate Proper(request: Frame) { CodeOf(request) == PONG_OK && request != REPEAT_REQUEST }

  lemma EventIsProper(command: Command)
    requires IsEvent(command)
    ensures Proper(MakeRequest(command))
  {
    RequestIsUnderstood(command);
    RequestIsUnderstood([0x02, 0, 0, 0, 0]);
  }

  lemma RepeatIsRepeated()
    ensures CodeOf(REPEAT_REQUEST) == 0
  {
    RequestIsUnderstood([0x02, 0, 0, 0, 0]);
  }

  // ----- what is done -----

  function Copies(request: Frame, n: nat): seq<Frame> { seq(n, _ => request) }

  /** How often the request has been done since the call began. */
  function Done(f: Firmware, c: Call): int { |c.firmware.done| - |f.done| }

  /** Whether the firmware hears this attempt. */
  predicate Heard(c: Call, a: Attempt) {
    c.result.Running? && a.powered && Hears(Booted(c.firmware, a.rebooted), a.request)
  }

  /** The request is done, and nothing comes back. */
  predicate Unanswered(c: Call, a: Attempt) {
    Heard(c, a) && a.request.Whole? && a.response.Missing?
  }

  function UnansweredIn(c: Call, attempts: seq<Attempt>): nat
    decreases |attempts|
  {
    if attempts == [] then 0
    else
      var before := attempts[..|attempts| - 1];
      UnansweredIn(c, before) + if Unanswered(Run(c, before), attempts[|attempts| - 1]) then 1 else 0
  }

  predicate NothingHeard(c: Call, attempts: seq<Attempt>)
    decreases |attempts|
  {
    attempts == [] ||
    (NothingHeard(c, attempts[..|attempts| - 1]) && !Heard(Run(c, attempts[..|attempts| - 1]), attempts[|attempts| - 1]))
  }

  /** The first garbled response is noise: the firmware has heard nothing of the call. */
  predicate Deceived(c: Call, attempts: seq<Attempt>)
    decreases |attempts|
  {
    attempts != [] &&
    (var before, a := attempts[..|attempts| - 1], attempts[|attempts| - 1];
     || Deceived(c, before)
     || (NothingHeard(c, attempts) && Run(c, before).result.Running? && Run(c, before).request == c.request
         && a.powered && a.response.Garbled?))
  }

  /** What holds while a call of this request is under way or over. */
  predicate Inv(request: Frame, f: Firmware, c: Call, unanswered: nat, quiet: bool, deceived: bool) {
    && IsCode(c.firmware.prev)
    && (c.request == request || c.request == REPEAT_REQUEST)
    && (c.result.Running? ==> c.common > 0 && c.read > 0)
    && Done(f, c) >= 0 && c.firmware.done == f.done + Copies(request, Done(f, c))
    && Done(f, c) <= unanswered + (if c.result.Running? && c.request == request then 0 else 1)
    && (quiet && !deceived ==> Done(f, c) == 0 && (c.result.Running? ==> c.request == request))
    && (deceived ==> Done(f, c) == 0 && c.request == REPEAT_REQUEST)
    && (!quiet && !deceived ==> Done(f, c) >= 1 || c.firmware.prev != PONG_OK)
    && (c.result.Succeeded? ==> !quiet && c.firmware.prev == PONG_OK)
  }

  lemma HandledIs(f: Firmware, request: Frame, sent: Frame, d: Delivery)
    requires Proper(request) && (sent == request || sent == REPEAT_REQUEST) && IsCode(f.prev)
    ensures var h := Handled(f, sent, d);
      && IsCode(h.prev)
      && (!Hears(f, d) ==> h == f)
      && (Hears(f, d) && d.Whole? && sent == request ==> h.done == f.done + [request] && h.prev == PONG_OK)
      && (!(d.Whole? && sent == request) ==> h.done == f.done)
      && (Hears(f, d) && !d.Whole? ==> h.prev != PONG_OK)
      && (Hears(f, d) && d.Whole? && sent == REPEAT_REQUEST ==> h.prev == f.prev)
  {
    RepeatIsRepeated();
  }

  lemma CopiesSnoc(request: Frame, n: nat)
    ensures Copies(request, n + 1) == Copies(request, n) + [request]
  {}

  /** This attempt deceives a daemon that has not been heard. */
  predicate Deceives(request: Frame, c: Call, a: Attempt) {
    c.result.Running? && c.request == request && a.powered && !Heard(c, a) && a.response.Garbled?
  }

  predicate Keeps(request: Frame, f: Firmware, c: Call, a: Attempt, unanswered: nat, quiet: bool, deceived: bool) {
    Inv(request, f, Step(c, a), unanswered + (if Unanswered(c, a) then 1 else 0), quiet && !Heard(c, a),
        deceived || (quiet && Deceives(request, c, a)))
  }

  lemma UnheardKeepsInv(request: Frame, f: Firmware, c: Call, a: Attempt, unanswered: nat, quiet: bool, deceived: bool)
    requires Proper(request) && Inv(request, f, c, unanswered, quiet, deceived) && !Heard(c, a)
    ensures Keeps(request, f, c, a, unanswered, quiet, deceived)
  {
    if c.result.Running? && a.powered {
      var booted := Booted(c.firmware, a.rebooted);
      ReadingIs(booted, false, a);
      hide ReadingOf;
    }
    hide Copies;
  }

  lemma DoneKeepsInv(request: Frame, f: Firmware, c: Call, a: Attempt, unanswered: nat, quiet: bool, deceived: bool)
    requires Proper(request) && Inv(request, f, c, unanswered, quiet, deceived)
    requires Heard(c, a) && a.request.Whole? && c.request == request
    ensures Keeps(request, f, c, a, unanswered, quiet, deceived)
  {
    var booted := Booted(c.firmware, a.rebooted);
    HandledIs(booted, request, c.request, a.request);
    ReadingIs(Handled(booted, c.request, a.request), true, a);
    CopiesSnoc(request, Done(f, c));
    hide ReadingOf;
    hide Handled;
    hide Copies;
  }

  lemma RepeatKeepsInv(request: Frame, f: Firmware, c: Call, a: Attempt, unanswered: nat, quiet: bool, deceived: bool)
    requires Proper(request) && Inv(request, f, c, unanswered, quiet, deceived)
    requires Heard(c, a) && a.request.Whole? && c.request == REPEAT_REQUEST
    ensures Keeps(request, f, c, a, unanswered, quiet, deceived)
  {
    var booted := Booted(c.firmware, a.rebooted);
    HandledIs(booted, request, c.request, a.request);
    var handled := Handled(booted, c.request, a.request);
    ReadingIs(handled, true, a);
    assert Done(f, Step(c, a)) == Done(f, c) && handled.done == c.firmware.done;
    hide ReadingOf;
    hide Handled;
    hide Copies;
    hide Proper;
    match a.response
    case Clean =>
    case Garbled =>
    case Missing =>
  }

  lemma DamagedKeepsInv(request: Frame, f: Firmware, c: Call, a: Attempt, unanswered: nat, quiet: bool, deceived: bool)
    requires Proper(request) && Inv(request, f, c, unanswered, quiet, deceived)
    requires Heard(c, a) && !a.request.Whole?
    ensures Keeps(request, f, c, a, unanswered, quiet, deceived)
  {
    var booted := Booted(c.firmware, a.rebooted);
    HandledIs(booted, request, c.request, a.request);
    ReadingIs(Handled(booted, c.request, a.request), true, a);
    hide ReadingOf;
    hide Handled;
    hide Copies;
  }

  lemma SentIs(request: Frame, f: Firmware, c: Call, unanswered: nat, quiet: bool, deceived: bool)
    requires Inv(request, f, c, unanswered, quiet, deceived)
    ensures c.request == request || c.request == REPEAT_REQUEST
  {}

  lemma StepKeepsInv(request: Frame, f: Firmware, c: Call, a: Attempt, unanswered: nat, quiet: bool, deceived: bool)
    requires Proper(request) && Inv(request, f, c, unanswered, quiet, deceived)
    ensures Keeps(request, f, c, a, unanswered, quiet, deceived)
  {
    hide Keeps;
    hide Inv;
    if !Heard(c, a) {
      UnheardKeepsInv(request, f, c, a, unanswered, quiet, deceived);
    } else if !a.request.Whole? {
      DamagedKeepsInv(request, f, c, a, unanswered, quiet, deceived);
    } else if c.request == request {
      DoneKeepsInv(request, f, c, a, unanswered, quiet, deceived);
    } else {
      SentIs(request, f, c, unanswered, quiet, deceived);
      RepeatKeepsInv(request, f, c, a, unanswered, quiet, deceived);
    }
  }

  lemma {:induction false} RunKeepsInv(request: Frame, common: nat, read: nat, f: Firmware, attempts: seq<Attempt>)
    requires Proper(request) && IsCode(f.prev)
    ensures var c := Begin(request, common, read, f);
      Inv(request, f, Run(c, attempts), UnansweredIn(c, attempts), NothingHeard(c, attempts), Deceived(c, attempts))
    decreases |attempts|
  {
    hide Step;
    hide Unanswered;
    hide Heard;
    var c := Begin(request, common, read, f);
    if attempts == [] {
      BeginsInv(request, common, read, f);
    } else {
      var before, a := attempts[..|attempts| - 1], attempts[|attempts| - 1];
      RunKeepsInv(request, common, read, f, before);
      StepKeepsInv(request, f, Run(c, before), a, UnansweredIn(c, before), NothingHeard(c, before), Deceived(c, before));
      hide Inv;
      assert Deceived(c, attempts) <==> Deceived(c, before) || (NothingHeard(c, before) && Deceives(request, Run(c, before), a));
    }
  }

  lemma BeginsInv(request: Frame, common: nat, read: nat, f: Firmware)
    requires IsCode(f.prev)
    ensures Inv(request, f, Begin(request, common, read, f), 0, true, false)
  {
    assert f.done + Copies(request, 0) == f.done;
  }

  // ----- main results -----

  /** When the daemon takes a request for done, it has been done, exactly if the first garbled
      response was not mere noise: a line that answers garbled what the firmware never heard makes
      the daemon ask for the last response again, which is that of an earlier request. */
  lemma SuccessIsTruthful(request: Frame, common: nat, read: nat, f: Firmware, attempts: seq<Attempt>)
    requires Proper(request) && IsCode(f.prev)
    ensures var c := Begin(request, common, read, f);
      Run(c, attempts).result.Succeeded? ==> (Done(f, Run(c, attempts)) >= 1 <==> !Deceived(c, attempts))
  {
    RunKeepsInv(request, common, read, f, attempts);
  }

  /** Nothing but this request is done, and no more often than responses to it went missing, and
      once more. */
  lemma DoneOnceMoreThanUnanswered(request: Frame, common: nat, read: nat, f: Firmware, attempts: seq<Attempt>)
    requires Proper(request) && IsCode(f.prev)
    ensures var c := Begin(request, common, read, f);
      var n := Done(f, Run(c, attempts));
      && 0 <= n <= UnansweredIn(c, attempts) + 1
      && Run(c, attempts).firmware.done == f.done + Copies(request, n)
  {
    RunKeepsInv(request, common, read, f, attempts);
  }

  /** A line that garbles only what the firmware has heard deceives nobody: what the daemon takes for
      done has been done. */
  lemma {:induction false} HonestLine(c: Call, attempts: seq<Attempt>)
    requires forall i :: 0 <= i < |attempts| && attempts[i].response.Garbled? ==>
               Heard(Run(c, attempts[..i]), attempts[i]) || !Run(c, attempts[..i]).result.Running? || !attempts[i].powered
    ensures !Deceived(c, attempts)
    decreases |attempts|
  {
    if attempts != [] {
      var before := attempts[..|attempts| - 1];
      assert forall i :: 0 <= i < |before| ==> before[i] == attempts[i] && before[..i] == attempts[..i];
      assert attempts[..|attempts| - 1] == before;
      HonestLine(c, before);
    }
  }

  /** Every daemon with two retries can be deceived after an earlier request has been done. */
  lemma NoiseDeceives(request: Frame, common: nat, read: nat, f: Firmware, status: Status) returns (attempts: seq<Attempt>)
    requires Proper(request) && common >= 2 && read >= 1 && f.prev == PONG_OK && !f.reset
    ensures var c := Begin(request, common, read, f);
      Run(c, attempts).result.Succeeded? && Run(c, attempts).firmware.done == f.done
  {
    var noise := Attempt(true, false, Lost, Garbled, status);
    var repetition := Attempt(true, false, Whole, Clean, status);
    var c := Begin(request, common, read, f);
    var c1 := Step(c, noise);
    assert c1 == c.(request := REPEAT_REQUEST, common := common - 1);
    HandledIs(f, request, REPEAT_REQUEST, Whole);
    ReadingIs(Handled(f, REPEAT_REQUEST, Whole), true, repetition);
    hide ReadingOf;
    hide Handled;
    attempts := [noise, repetition];
    assert attempts[..1] == [noise] && [noise][..0] == [];
    assert Run(c, attempts[..1]) == c1;
  }

  // ----- a lost request is not sent again -----

  /** The daemon only asks for a repetition, and there is no success to repeat. */
  predicate Hopeless(c: Call) { c.request == REPEAT_REQUEST && IsCode(c.firmware.prev) && c.firmware.prev != PONG_OK }

  lemma StepStaysHopeless(c: Call, a: Attempt)
    requires Hopeless(c) && !c.result.Succeeded?
    ensures Hopeless(Step(c, a)) && !Step(c, a).result.Succeeded? && Step(c, a).firmware.done == c.firmware.done
  {
    if c.result.Running? && a.powered {
      var booted := Booted(c.firmware, a.rebooted);
      RepeatIsRepeated();
      ReadingIs(Handled(booted, c.request, a.request), Hears(booted, a.request), a);
      hide ReadingOf;
    }
  }

  /** If a request arrives damaged and the response to that is garbled too, then however good the
      line becomes the request is not done, and the call does not succeed. */
  lemma {:induction false} DamagedTwiceIsLost(c: Call, a: Attempt, attempts: seq<Attempt>)
    requires c.result.Running? && c.common > 0 && c.read > 0 && IsCode(c.firmware.prev)
    requires Heard(c, a) && !a.request.Whole? && a.response.Garbled?
    ensures var r := Run(Step(c, a), attempts);
      Hopeless(r) && !r.result.Succeeded? && r.firmware.done == c.firmware.done
    decreases |attempts|
  {
    if attempts == [] {
      hide Read;
    } else {
      hide Step;
      DamagedTwiceIsLost(c, a, attempts[..|attempts| - 1]);
      StepStaysHopeless(Run(Step(c, a), attempts[..|attempts| - 1]), attempts[|attempts| - 1]);
    }
  }

  /** A call ends after as many attempts as it has retries. */
  lemma {:induction false} CallEnds(c: Call, attempts: seq<Attempt>)
    requires c.result.Running? ==> c.common > 0 && c.read > 0
    ensures var r := Run(c, attempts);
      r.result.Running? ==> r.read > 0 && r.common > 0 && |attempts| == c.common - r.common
    decreases |attempts|
  {
    hide ReadingOf;
    hide Handled;
    if attempts != [] { CallEnds(c, attempts[..|attempts| - 1]); }
  }

  /** A request that arrives whole, while the firmware listens, is done; and if the response arrives
      too, the call succeeds at once. */
  lemma GoodAttemptSucceeds(request: Frame, c: Call, a: Attempt)
    requires Proper(request) && c.request == request && IsCode(c.firmware.prev)
    requires c.result.Running? && c.common > 0 && c.read > 0
    requires Heard(c, a) && a.request.Whole?
    ensures Step(c, a).firmware.done == c.firmware.done + [request]
    ensures a.response.Clean? ==> Step(c, a).result.Succeeded?
  {
    var booted := Booted(c.firmware, a.rebooted);
    HandledIs(booted, request, request, a.request);
    ReadingIs(Handled(booted, c.request, a.request), true, a);
    hide ReadingOf;
    hide Handled;
  }
}

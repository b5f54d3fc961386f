/** The daemon's side of the HID link: requests, the reading of responses, and the retries of one
    request over a line that loses and garbles. */
module McuHost {
  import opened Bytes
  import opened Crc16
  import opened PicoMain

  // ----- requests -----

  type Command = c: seq<Byte> | |c| == 5 witness [1, 0, 0, 0, 0]

  function MakeRequest(command: Command): Frame {
    var body := [0x33] + command;
    body + [High(Crc(body)), Low(Crc(body))]
  }

  const REPEAT_REQUEST: Frame := MakeRequest([0x02, 0, 0, 0, 0])

  /** The first bytes of the requests for events, and that of a ping. */
  predicate IsEvent(command: Command) {
    command[0] in {0x01, 0x03, 0x04, 0x05, 0x10, 0x11, 0x12, 0x13, 0x14, 0x15}
  }

  /** The firmware accepts every request of the daemon, does every event, resets after those that
      choose the outputs, and answers a repetition with its last code. */
  lemma RequestIsUnderstood(command: Command)
    ensures Accepted(MakeRequest(command)) && MakeRequest(command)[1] == command[0]
    ensures IsEvent(command) ==> CodeOf(MakeRequest(command)) == 0x80
    ensures CodeOf(MakeRequest(command)) == 0 <==> command[0] == 0x02
    ensures !IsEvent(command) && command[0] != 0x02 ==> CodeOf(MakeRequest(command)) == 0x45
    ensures NeedsReset(MakeRequest(command)[1]) <==> command[0] == 0x03 || command[0] == 0x04
  {
    var body := [0x33] + command;
    assert MakeRequest(command)[..6] == body;
    hide Crc;
    MergeSplit(Crc(body), 0, 0);
  }

  lemma DamageIsReported(frame: Frame)
    requires !Accepted(frame)
    ensures CodeOf(frame) == 0x40
  {}

  // ----- responses -----

  predicate Checks(response: seq<Byte>)
    requires |response| >= 4
  {
    var n := |response| - 2;
    Crc(response[..n]) == Merge(response[n], response[n + 1])
  }

  datatype Reading = NoResponse | BadCrc | Temporary | Permanent | Fine

  function Read(response: seq<Byte>): Reading {
    if |response| < 4 then NoResponse
    else if !Checks(response) then BadCrc
    else if response[1] == 0x48 || response[1] == 0x40 then Temporary
    else if response[1] == 0x45 || response[1] == 0x24 then Permanent
    else if response[1] == 0x20 || response[1] & 0x80 != 0 then Fine
    else Temporary
  }

  function Response(code: Byte, reset: bool, status: Status): Frame { Sealed(Body(code, reset, status)) }

  lemma ResponseChecks(code: Byte, reset: bool, status: Status)
    ensures Checks(Response(code, reset, status))
    ensures Response(code, reset, status)[..6] == Body(code, reset, status)
  {
    hide Body;
    SealedPasses(Body(code, reset, status));
  }

  /** The daemon reads each response of the firmware as what it is for. */
  lemma ResponseIsUnderstood(code: Byte, reset: bool, status: Status)
    ensures Read(Response(code, reset, status)) ==
      if IsPong(code) || code == 0x20 then Fine
      else if code == RESP_INVALID_ERROR || code == RESP_NONE then Permanent
      else Temporary
  {
    ResponseChecks(code, reset, status);
    var body := Body(code, reset, status);
    assert Response(code, reset, status)[1] == body[1];
    PongIsNoError(code, reset, status);
    hide Checks;
  }

  lemma PongIsNoError(code: Byte, reset: bool, status: Status)
    ensures IsPong(code) ==>
      var b := Body(code, reset, status)[1];
      b & 0x80 != 0 && b != 0x48 && b != 0x40 && b != 0x45 && b != 0x24
    ensures !IsPong(code) ==> Body(code, reset, status)[1] == code && code & 0x80 == 0
  {}

  /** What the daemon takes from a pong: the LEDs, the offline outputs, the need of a reset, and the
      active and available outputs, each as the firmware has them. */
  lemma PongIsUnderstood(code: Byte, reset: bool, status: Status)
    requires IsPong(code)
    requires status.leds & 0x07 == status.leds && status.offlines & 0x18 == status.offlines && status.active & 0x80 == 0
    ensures var r := Response(code, reset, status);
      && r[1] & 0x07 == status.leds && r[1] & 0x18 == status.offlines && (r[1] & 0x40 != 0 <==> reset)
      && r[2] & 0x80 != 0 && r[2] & 0x7F == status.active && r[3] == status.avail
  {
    ResponseChecks(code, reset, status);
    var r := Response(code, reset, status);
    assert r[1] == r[..6][1] && r[2] == r[..6][2] && r[3] == r[..6][3];
    hide Response;
    PongBits(reset, status);
  }

  lemma PongBits(reset: bool, status: Status)
    requires status.leds & 0x07 == status.leds && status.offlines & 0x18 == status.offlines && status.active & 0x80 == 0
    ensures var first := Or(Or(if reset then Or(PONG_OK, PONG_RESET_REQUIRED) else PONG_OK, status.offlines), status.leds);
      first & 0x07 == status.leds && first & 0x18 == status.offlines && (first & 0x40 != 0 <==> reset)
    ensures Or(OUT1_DYNAMIC, status.active) & 0x80 != 0 && Or(OUT1_DYNAMIC, status.active) & 0x7F == status.active
  {}
}

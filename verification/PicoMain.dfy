/** Requests and responses of the HID firmware: `_handle_request`, `_send_response`. */
module PicoMain {
  import opened Bytes
  import opened Crc16
  import Crc16Errors

  const RESP_NONE: Byte := 0x24
  const RESP_CRC_ERROR: Byte := 0x40
  const RESP_INVALID_ERROR: Byte := 0x45
  const RESP_TIMEOUT_ERROR: Byte := 0x48
  const PONG_OK: Byte := 0x80
  const PONG_RESET_REQUIRED: Byte := 0x40
  const OUT1_DYNAMIC: Byte := 0x80

  const CMD_PING: Byte := 0x01
  const CMD_REPEAT: Byte := 0x02
  const CMD_SET_KBD: Byte := 0x03
  const CMD_SET_MOUSE: Byte := 0x04
  const CMD_SET_CONNECTED: Byte := 0x05
  const CMD_CLEAR_HID: Byte := 0x10
  const CMD_KBD_KEY: Byte := 0x11
  const CMD_MOUSE_ABS: Byte := 0x12
  const CMD_MOUSE_BUTTON: Byte := 0x13
  const CMD_MOUSE_WHEEL: Byte := 0x14
  const CMD_MOUSE_REL: Byte := 0x15

  predicate Accepted(data: Frame) {
    data[0] == MAGIC && Crc(data[..6]) == Merge(data[6], data[7])
  }

  predicate NeedsReset(command: Byte) { command == CMD_SET_KBD || command == CMD_SET_MOUSE }

  predicate Known(command: Byte) {
    CMD_PING <= command <= CMD_SET_CONNECTED || CMD_CLEAR_HID <= command <= CMD_MOUSE_REL
  }

  /** The response code of a request; 0 asks for the last one again. */
  function CodeOf(data: Frame): Byte {
    if !Accepted(data) then RESP_CRC_ERROR
    else if data[1] == CMD_REPEAT then 0
    else if Known(data[1]) then PONG_OK
    else RESP_INVALID_ERROR
  }

  /** What the output modules report. */
  datatype Status = Status(offlines: Byte, leds: Byte, active: Byte, avail: Byte)

  function Or(a: Byte, b: Byte): Byte { a | b }

  predicate IsPong(code: Byte) { code & PONG_OK != 0 }

  function Body(code: Byte, resetRequired: bool, s: Status): (body: seq<Byte>)
    ensures |body| == 6 && body[0] == MAGIC_RESP
  {
    if IsPong(code) then
      var flags := if resetRequired then Or(PONG_OK, PONG_RESET_REQUIRED) else PONG_OK;
      [MAGIC_RESP, Or(Or(flags, s.offlines), s.leds), Or(OUT1_DYNAMIC, s.active), s.avail, 0, 0]
    else [MAGIC_RESP, code, 0, 0, 0, 0]
  }

  lemma OrZero(b: Byte)
    ensures Or(0, b) == b
  {}

  function Sealed(body: seq<Byte>): Frame
    requires |body| == 6
  {
    body + [High(Crc(body)), Low(Crc(body))]
  }

  /** The check of the receiving side. */
  predicate PassesCheck(response: Frame) {
    response[0] == MAGIC_RESP && Crc(response[..6]) == Merge(response[6], response[7])
  }

  lemma SealedPasses(body: seq<Byte>)
    requires |body| == 6 && body[0] == MAGIC_RESP
    ensures PassesCheck(Sealed(body))
  {
    assert Sealed(body)[..6] == body;
    MergeSplit(Crc(body), 0, 0);
  }

  class Firmware {
    var resetRequired: bool
    var prevCode: Byte

    constructor ()
      ensures !resetRequired && prevCode == RESP_NONE
    {
      resetRequired, prevCode := false, RESP_NONE;
    }

    method HandleRequest(data: Frame) returns (code: Byte)
      modifies this
      ensures code == CodeOf(data)
      ensures resetRequired == (old(resetRequired) || (Accepted(data) && NeedsReset(data[1])))
      ensures prevCode == old(prevCode)
    {
      if data[0] == MAGIC && Crc(data[..6]) == Merge(data[6], data[7]) {
        if data[1] == CMD_PING || data[1] == CMD_SET_CONNECTED {
          return PONG_OK;
        } else if data[1] == CMD_SET_KBD || data[1] == CMD_SET_MOUSE {
          resetRequired := true;
          return PONG_OK;
        } else if data[1] == CMD_CLEAR_HID || data[1] == CMD_KBD_KEY || data[1] == CMD_MOUSE_BUTTON
               || data[1] == CMD_MOUSE_ABS || data[1] == CMD_MOUSE_REL || data[1] == CMD_MOUSE_WHEEL {
          return PONG_OK;
        } else if data[1] == CMD_REPEAT {
          return 0;
        }
        return RESP_INVALID_ERROR;
      }
      return RESP_CRC_ERROR;
    }

    method FillResponse(resp: array<Byte>, code: Byte, status: Status)
      requires resp.Length == 8 && resp[..] == [0, 0, 0, 0, 0, 0, 0, 0]
      modifies resp
      ensures resp[..6] == Body(code, resetRequired, status)
    {
      hide Or;
      hide IsPong;
      resp[0] := MAGIC_RESP;
      if IsPong(code) {
        resp[1] := PONG_OK;
        if resetRequired {
          resp[1] := Or(resp[1], PONG_RESET_REQUIRED);
        }
        resp[2] := OUT1_DYNAMIC;
        resp[1] := Or(resp[1], status.offlines);
        resp[1] := Or(resp[1], status.leds);
        resp[2] := Or(resp[2], status.active);
        OrZero(status.avail);
        resp[3] := Or(resp[3], status.avail);
      } else {
        resp[1] := code;
      }
    }

    method SendResponse(code: Byte, status: Status) returns (response: Frame)
      modifies this
      ensures resetRequired == old(resetRequired)
      ensures prevCode == if code == 0 then old(prevCode) else code
      ensures response == Sealed(Body(prevCode, resetRequired, status))
      ensures PassesCheck(response)
    {
      hide Body;
      hide High;
      hide Low;
      hide Merge;
      var sending := code;
      if code == 0 {
        sending := prevCode;
      } else {
        prevCode := code;
      }
      var resp := new Byte[8] [0, 0, 0, 0, 0, 0, 0, 0];
      FillResponse(resp, sending, status);
      ghost var body := Body(sending, resetRequired, status);
      var crc := PhCrc16(resp, 6);
      resp[6], resp[7] := High(crc), Low(crc);
      response := resp[..];
      assert response == resp[..6] + [resp[6], resp[7]];
      SealedPasses(body);
    }
  }

  // ----- what the check catches -----

  /** A request in which one byte was changed is never accepted. */
  lemma OneByteDamageRejected(data: Frame, damaged: Frame, i: nat)
    requires i < FRAME_SIZE && damaged == data[i := damaged[i]] && damaged != data
    requires Accepted(data)
    ensures !Accepted(damaged)
  {
    if i < 6 {
      var before, after := data[..i], data[i + 1..6];
      assert data[..6] == before + [data[i]] + after && damaged[..6] == before + [damaged[i]] + after;
      Crc16Errors.AdjacentBytesDetected(before, [data[i]], [damaged[i]], after);
    } else {
      assert damaged[..6] == data[..6];
      MergeSplit(0, data[6], data[7]);
      MergeSplit(0, damaged[6], damaged[7]);
    }
  }

  lemma TwoByteDamageRejected(data: Frame, damaged: Frame, i: nat)
    requires i < FRAME_SIZE - 1 && i != 5
    requires damaged == data[i := damaged[i]][i + 1 := damaged[i + 1]] && damaged != data
    requires Accepted(data)
    ensures !Accepted(damaged)
  {
    if i < 5 {
      var before, after := data[..i], data[i + 2..6];
      var u, v := [data[i], data[i + 1]], [damaged[i], damaged[i + 1]];
      assert data[..6] == before + u + after;
      assert damaged[..i] == before && damaged[i + 2..6] == after;
      assert damaged[..6] == damaged[..i] + v + damaged[i + 2..6];
      Crc16Errors.AdjacentBytesDetected(before, u, v, after);
    } else {
      assert damaged[..6] == data[..6];
      MergeSplit(0, data[6], data[7]);
      MergeSplit(0, damaged[6], damaged[7]);
    }
  }

  // ----- the seam between body and CRC -----

  predicate OddParity(x: Byte) {
    var a := x ^ (x >> 4);
    var b := a ^ (a >> 2);
    (b ^ (b >> 1)) & 1 == 1
  }

  /** What a change x of byte 5 does to the CRC. */
  function SeamTable(x: Byte): bv16 {
    ((x as bv16) << 6) ^ ((x as bv16) << 7) ^ (if OddParity(x) then 0xC001 else 0)
  }

  /** The CRC goes out high byte first, and a change x of byte 5 that changes only its high byte
      can be made good in byte 6. */
  predicate SeamChange(x: Byte, y: Byte) { x & 3 == 0 && !OddParity(x) && y == (x >> 1) ^ (x >> 2) }

  function Change(a: Byte, b: Byte): Byte { a ^ b }

  lemma FirstShifts(x: Byte)
    ensures Shifts(x as bv16, 8) == Shift(Shift(Shift(Shift(Shift(Shift(Shift(Shift(x as bv16))))))))
  {
    hide Shift;
    var c := x as bv16;
    assert Shifts(c, 0) == c && Shifts(c, 1) == Shift(c);
    assert Shifts(c, 3) == Shift(Shift(Shifts(c, 1)));
    assert Shifts(c, 5) == Shift(Shift(Shifts(c, 3)));
    assert Shifts(c, 7) == Shift(Shift(Shifts(c, 5)));
  }

  lemma TableOfShifts(x: Byte)
    ensures Shift(Shift(Shift(Shift(Shift(Shift(Shift(Shift(x as bv16)))))))) == SeamTable(x)
  {}

  lemma SeamTableHigh(x: Byte, y: Byte)
    ensures SeamTable(x) == (y as bv16) << 8 <==> SeamChange(x, y)
  {}

  lemma SeamPlus(c: bv16, e: Byte, f: Byte)
    ensures Plus(c, f as bv16) == Plus(Plus(c, e as bv16), Change(e, f) as bv16)
  {}

  lemma SeamFeed(c: bv16, e: Byte, f: Byte)
    ensures FeedByte(c, f) == Plus(FeedByte(c, e), SeamTable(Change(e, f)))
  {
    SeamPlus(c, e, f);
    FirstShifts(Change(e, f));
    TableOfShifts(Change(e, f));
    hide Plus;
    hide Change;
    hide SeamTable;
    hide Shifts;
    hide Shift;
    Crc16Errors.ShiftsLinear(Plus(c, e as bv16), Change(e, f) as bv16, 8);
  }

  lemma SeamMerge(a: Byte, a': Byte, b: Byte)
    ensures Merge(a', b) == Plus(Merge(a, b), (Change(a, a') as bv16) << 8)
  {}

  /** Of the changes of bytes 5 and 6 of an accepted request exactly these pass unnoticed, in every
      such request. */
  lemma SeamDamageAccepted(data: Frame, damaged: Frame)
    requires damaged == data[5 := damaged[5]][6 := damaged[6]] && Accepted(data)
    ensures Accepted(damaged) <==> SeamChange(Change(data[5], damaged[5]), Change(data[6], damaged[6]))
  {
    hide FeedByte;
    hide Merge;
    hide Plus;
    hide Change;
    hide SeamTable;
    hide SeamChange;
    var body, c := data[..5], CrcFrom(SEED, data[..5]);
    assert data[..6][..5] == body && damaged[..6][..5] == body;
    var x, y := Change(data[5], damaged[5]), Change(data[6], damaged[6]);
    SeamFeed(c, data[5], damaged[5]);
    SeamMerge(data[6], damaged[6], data[7]);
    Crc16Errors.PlusInjective(FeedByte(c, data[5]), SeamTable(x), (y as bv16) << 8);
    SeamTableHigh(x, y);
  }

  /** A change of two adjacent bytes of an accepted request is accepted exactly if it is one of
      those across the seam; in particular no change within the body or within the CRC is. */
  lemma TwoByteDamageExactly(data: Frame, damaged: Frame, i: nat)
    requires i < FRAME_SIZE - 1 && Accepted(data)
    requires damaged == data[i := damaged[i]][i + 1 := damaged[i + 1]] && damaged != data
    ensures Accepted(damaged) <==> i == 5 && SeamChange(Change(data[5], damaged[5]), Change(data[6], damaged[6]))
  {
    hide SeamChange;
    hide Change;
    if i == 5 { SeamDamageAccepted(data, damaged); } else { TwoByteDamageRejected(data, damaged, i); }
  }

  /** Such a change exists for every request: 0x0C in byte 5 and 0x05 in byte 6. */
  lemma SeamChangeExists(data: Frame)
    requires Accepted(data)
    ensures Accepted(data[5 := Change(data[5], 0x0C)][6 := Change(data[6], 0x05)])
  {
    SeamDamageAccepted(data, data[5 := Change(data[5], 0x0C)][6 := Change(data[6], 0x05)]);
    ChangeTwice(data[5], 0x0C);
    ChangeTwice(data[6], 0x05);
  }

  lemma ChangeTwice(a: Byte, x: Byte)
    ensures Change(a, Change(a, x)) == x
  {}
}

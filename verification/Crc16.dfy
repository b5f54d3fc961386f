/** CRC-16 of the HID protocol (section 6.2.2 of MODBUS over Serial Line V1.02):
    the Python and C forms of the same register. */
module Crc16 {
  import opened Bytes

  const SEED: bv16 := 0xFFFF

  function Plus(a: bv16, b: bv16): bv16 { a ^ b }

  /** One turn of the inner loop. */
  function Shift(crc: bv16): bv16 {
    if crc & 1 == 0 then crc >> 1 else Plus(crc >> 1, 0xA001)
  }

  function Shifts(crc: bv16, n: nat): bv16 {
    if n == 0 then crc else Shift(Shifts(crc, n - 1))
  }

  function FeedByte(crc: bv16, b: Byte): bv16 { Shifts(Plus(crc, b as bv16), 8) }

  function CrcFrom(crc: bv16, data: seq<Byte>): bv16
    decreases |data|
  {
    if data == [] then crc else FeedByte(CrcFrom(crc, data[..|data| - 1]), data[|data| - 1])
  }

  function Crc(data: seq<Byte>): bv16 { CrcFrom(SEED, data) }

  lemma EightShifts(a: bv16, b: bv16, c: bv16, d: bv16, e: bv16)
    requires Shift(Shift(a)) == b && Shift(Shift(b)) == c && Shift(Shift(c)) == d && Shift(Shift(d)) == e
    ensures Shifts(a, 8) == e
  {
    hide Shift;
    assert Shifts(a, 0) == a;
    assert Shifts(a, 2) == Shift(Shift(Shifts(a, 0)));
    assert Shifts(a, 4) == Shift(Shift(Shifts(a, 2)));
    assert Shifts(a, 6) == Shift(Shift(Shifts(a, 4)));
    assert Shifts(a, 8) == Shift(Shift(Shifts(a, 6)));
  }

  /** The worked example of the standard: the message 02 07 has the CRC 1241 hex. */
  lemma StandardExample()
    ensures Crc([0x02, 0x07]) == 0x1241
  {
    EightShifts(0xFFFD, 0xCFFE, 0x93FE, 0x84FE, 0x813E);
    EightShifts(0x8139, 0xD04F, 0x6413, 0x4904, 0x1241);
    var data: seq<Byte> := [0x02, 0x07];
    assert Plus(0xFFFF, 0x02) == 0xFFFD && Plus(0x813E, 0x07) == 0x8139;
    hide Shifts;
    hide Plus;
    assert CrcFrom(SEED, data[..1][..0]) == SEED && data[..1][0] == 0x02;
    assert CrcFrom(SEED, data[..1]) == FeedByte(SEED, 0x02) == 0x813E;
    assert CrcFrom(SEED, data) == FeedByte(0x813E, 0x07) == 0x1241;
  }

  function Wide(x: bv16): bv32 { x as bv32 }

  lemma WideEven(x: bv16)
    requires x & 1 == 0
    ensures Wide(x) & 0x0001 == 0 && Wide(x) >> 1 == Wide(x >> 1)
  {}

  lemma WideOdd(x: bv16)
    requires x & 1 != 0
    ensures Wide(x) & 0x0001 != 0 && (Wide(x) >> 1) ^ 0xA001 == Wide((x >> 1) ^ 0xA001)
  {}

  lemma WideStep(x: bv16)
    ensures (if Wide(x) & 0x0001 == 0 then Wide(x) >> 1 else (Wide(x) >> 1) ^ 0xA001) == Wide(Shift(x))
  {
    hide Wide;
    if x & 1 == 0 { WideEven(x); } else { WideOdd(x); }
  }

  lemma WidePlus(x: bv16, b: Byte)
    ensures Wide(x) ^ (b as bv32) == Wide(Plus(x, b as bv16))
  {}

  /** `make_crc16`: Python's integers do not wrap, so the register is wider here. */
  method MakeCrc16(data: seq<Byte>) returns (crc: bv32)
    ensures crc == Wide(Crc(data))
  {
    hide Wide;
    hide Plus;
    hide Shift;
    crc := 0xFFFF;
    assert crc == Wide(SEED) by { WideSeed(); }
    for i := 0 to |data|
      invariant crc == Wide(CrcFrom(SEED, data[..i]))
    {
      ghost var before := CrcFrom(SEED, data[..i]);
      crc := crc ^ (data[i] as bv32);
      ghost var start := Plus(before, data[i] as bv16);
      WidePlus(before, data[i]);
      for j := 0 to 8
        invariant crc == Wide(Shifts(start, j))
      {
        WideStep(Shifts(start, j));
        if crc & 0x0001 == 0 {
          crc := crc >> 1;
        } else {
          crc := crc >> 1;
          crc := crc ^ 0xA001;
        }
      }
      assert data[..i + 1][..i] == data[..i];
    }
    assert data[..|data|] == data;
  }

  lemma WideSeed()
    ensures Wide(SEED) == 0xFFFF
  {}

  lemma ShiftStep(x: bv16)
    ensures (if x & 0x0001 == 0 then x >> 1 else (x >> 1) ^ 0xA001) == Shift(x)
  {}

  lemma PlusStep(x: bv16, b: Byte)
    ensures x ^ (b as bv16) == Plus(x, b as bv16)
  {}

  /** `ph_crc16`: a 16-bit register, over the first `len` bytes of a buffer. */
  method PhCrc16(buf: array<Byte>, len: nat) returns (crc: bv16)
    requires len <= buf.Length
    ensures crc == Crc(buf[..len])
  {
    hide Plus;
    hide Shift;
    crc := 0xFFFF;
    var byteCount := 0;
    while byteCount < len
      invariant byteCount <= len
      invariant crc == CrcFrom(SEED, buf[..byteCount])
    {
      ghost var start := Plus(crc, buf[byteCount] as bv16);
      PlusStep(crc, buf[byteCount]);
      crc := crc ^ (buf[byteCount] as bv16);
      var bitCount := 0;
      while bitCount < 8
        invariant bitCount <= 8
        invariant crc == Shifts(start, bitCount)
      {
        ShiftStep(Shifts(start, bitCount));
        if crc & 0x0001 == 0 {
          crc := crc >> 1;
        } else {
          crc := crc >> 1;
          crc := crc ^ 0xA001;
        }
        bitCount := bitCount + 1;
      }
      assert buf[..byteCount + 1][..byteCount] == buf[..byteCount];
      byteCount := byteCount + 1;
    }
  }

  // ----- ph_split16, ph_merge8_u16 -----

  function High(w: bv16): Byte { (w >> 8) as Byte }
  function Low(w: bv16): Byte { (w & 0xFF) as Byte }
  function Merge(a: Byte, b: Byte): bv16 { ((a as bv16) << 8) | (b as bv16) }

  /** Splitting and merging undo each other, both ways. */
  lemma MergeSplit(w: bv16, a: Byte, b: Byte)
    ensures Merge(High(w), Low(w)) == w
    ensures High(Merge(a, b)) == a && Low(Merge(a, b)) == b
  {}
}

/** Bytes and fixed-size frames shared by the firmware models. */
module Bytes {
  type Byte = bv8

  const FRAME_SIZE := 8
  const MAGIC: Byte := 0x33
  const MAGIC_RESP: Byte := 0x34

  type Frame = f: seq<Byte> | |f| == FRAME_SIZE witness seq(FRAME_SIZE, i => 0)

  /** The receiving side of the link: zero bytes between frames are idle, and a non-zero
      byte starts a frame of eight. */
  datatype Decoder = Decoder(frames: seq<Frame>, partial: seq<Byte>)

  function Feed(d: Decoder, b: Byte): Decoder {
    if d.partial == [] && b == 0 then d
    else if |d.partial| == FRAME_SIZE - 1 then Decoder(d.frames + [d.partial + [b]], [])
    else d.(partial := d.partial + [b])
  }

  /** What a receiver makes of everything that came over the wire. */
  function Decode(wire: seq<Byte>): Decoder
    decreases |wire|
  {
    if wire == [] then Decoder([], []) else Feed(Decode(wire[..|wire| - 1]), wire[|wire| - 1])
  }

  lemma DecodeSnoc(wire: seq<Byte>, b: Byte)
    ensures Decode(wire + [b]) == Feed(Decode(wire), b)
  {
    assert (wire + [b])[..|wire|] == wire;
  }
}

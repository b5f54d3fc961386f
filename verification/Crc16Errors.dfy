/** The errors that the CRC is certain to detect, in messages of any length. */
module Crc16Errors {
  import opened Bytes
  import opened Crc16

  // ----- the bit step is a linear bijection -----

  lemma PlusAssociative(a: bv16, b: bv16, p: bv16)
    ensures Plus(Plus(a, b), p) == Plus(a, Plus(b, p))
  {}

  lemma PlusCommutes(a: bv16, b: bv16)
    ensures Plus(a, b) == Plus(b, a)
  {}

  lemma PlusSwap(a: bv16, b: bv16, p: bv16, q: bv16)
    ensures Plus(Plus(a, p), Plus(b, q)) == Plus(Plus(a, b), Plus(p, q))
  {
    hide Plus;
    PlusAssociative(a, p, Plus(b, q));
    PlusAssociative(p, b, q);
    PlusCommutes(p, b);
    PlusAssociative(b, p, q);
    PlusAssociative(a, b, Plus(p, q));
  }

  lemma PlusInjective(a: bv16, p: bv16, q: bv16)
    ensures Plus(a, p) == Plus(a, q) ==> p == q
  {}

  function Unshift(crc: bv16): bv16 {
    if crc & 0x8000 == 0 then crc << 1 else ((crc ^ 0xA001) << 1) | 1
  }

  lemma UnshiftParity(c: bv16)
    ensures (c << 1) & 1 == 0
    ensures (((c ^ 0xA001) << 1) | 1) & 1 != 0
    ensures c & 0x8000 == 0 ==> (c << 1) >> 1 == c
    ensures c & 0x8000 != 0 ==> ((((c ^ 0xA001) << 1) | 1) >> 1) ^ 0xA001 == c
  {}

  lemma ShiftTop(c: bv16)
    ensures (c >> 1) & 0x8000 == 0
    ensures ((c >> 1) ^ 0xA001) & 0x8000 != 0
    ensures c & 1 == 0 ==> (c >> 1) << 1 == c
    ensures c & 1 != 0 ==> ((((c >> 1) ^ 0xA001) ^ 0xA001) << 1) | 1 == c
  {}

  lemma UnshiftShift(crc: bv16)
    ensures Unshift(Shift(crc)) == crc
  {
    ShiftTop(crc);
  }

  lemma ShiftEven(u: bv16)
    requires u & 1 == 0
    ensures Shift(u) == u >> 1
  {}

  lemma ShiftOdd(u: bv16)
    requires u & 1 != 0
    ensures Shift(u) == (u >> 1) ^ 0xA001
  {}

  lemma ShiftUnshift(crc: bv16)
    ensures Shift(Unshift(crc)) == crc
  {
    hide Shift;
    UnshiftParity(crc);
    if crc & 0x8000 == 0 {
      ShiftEven(crc << 1);
    } else {
      ShiftOdd(((crc ^ 0xA001) << 1) | 1);
    }
  }

  /** The bit step is a bijection on 16-bit values. */
  lemma ShiftBijective(a: bv16, b: bv16)
    ensures Shift(a) == Shift(b) ==> a == b
    ensures exists c :: Shift(c) == a
  {
    UnshiftShift(a);
    UnshiftShift(b);
    ShiftUnshift(a);
  }

  lemma XorHalves(a: bv16, b: bv16)
    ensures (a ^ b) >> 1 == (a >> 1) ^ (b >> 1)
    ensures (a ^ b) & 1 == (a & 1) ^ (b & 1)
    ensures (a & 1 == 0 || a & 1 == 1) && (b & 1 == 0 || b & 1 == 1)
  {}

  lemma XorRegroup(a: bv16, b: bv16, p: bv16)
    ensures (a ^ p) ^ (b ^ p) == a ^ b
    ensures (a ^ p) ^ b == (a ^ b) ^ p && a ^ (b ^ p) == (a ^ b) ^ p
  {}

  /** The bit step is linear over XOR. */
  lemma ShiftLinear(a: bv16, b: bv16)
    ensures Shift(Plus(a, b)) == Plus(Shift(a), Shift(b))
  {
    XorHalves(a, b);
    XorRegroup(a >> 1, b >> 1, 0xA001);
  }

  lemma {:induction false} ShiftsLinear(a: bv16, b: bv16, n: nat)
    ensures Shifts(Plus(a, b), n) == Plus(Shifts(a, n), Shifts(b, n))
  {
    hide Plus;
    hide Shift;
    if n > 0 {
      ShiftsLinear(a, b, n - 1);
      ShiftLinear(Shifts(a, n - 1), Shifts(b, n - 1));
    }
  }

  lemma {:induction false} ShiftsInjective(a: bv16, b: bv16, n: nat)
    requires Shifts(a, n) == Shifts(b, n)
    ensures a == b
  {
    hide Shift;
    if n > 0 {
      ShiftBijective(Shifts(a, n - 1), Shifts(b, n - 1));
      ShiftsInjective(a, b, n - 1);
    }
  }

  // ----- XOR of messages -----

  function Xor(a: seq<Byte>, b: seq<Byte>): (c: seq<Byte>)
    requires |a| == |b|
    ensures |c| == |a|
  {
    seq(|a|, i requires 0 <= i < |a| => a[i] ^ b[i])
  }

  lemma XorWiden(a: Byte, b: Byte)
    ensures (a ^ b) as bv16 == Plus(a as bv16, b as bv16)
  {}

  lemma FeedByteLinear(p: bv16, q: bv16, s: Byte, t: Byte)
    ensures Plus(FeedByte(p, s), FeedByte(q, t)) == FeedByte(Plus(p, q), s ^ t)
  {
    hide Plus;
    hide Shifts;
    ShiftsLinear(Plus(p, s as bv16), Plus(q, t as bv16), 8);
    PlusSwap(p, q, s as bv16, t as bv16);
    XorWiden(s, t);
  }

  lemma {:induction false} CrcFromXor(x: bv16, y: bv16, a: seq<Byte>, b: seq<Byte>)
    requires |a| == |b|
    ensures Plus(CrcFrom(x, a), CrcFrom(y, b)) == CrcFrom(Plus(x, y), Xor(a, b))
    decreases |a|
  {
    hide Plus;
    hide FeedByte;
    if a != [] {
      var n := |a| - 1;
      CrcFromXor(x, y, a[..n], b[..n]);
      assert Xor(a, b)[..n] == Xor(a[..n], b[..n]);
      FeedByteLinear(CrcFrom(x, a[..n]), CrcFrom(y, b[..n]), a[n], b[n]);
    }
  }

  /** XOR-affine: the XOR of two CRCs depends on the XOR of the messages alone. */
  lemma CrcAffine(a: seq<Byte>, b: seq<Byte>, c: seq<Byte>, d: seq<Byte>)
    requires |a| == |b| == |c| == |d|
    requires Xor(a, b) == Xor(c, d)
    ensures Crc(a) ^ Crc(b) == Crc(c) ^ Crc(d)
  {
    assert Plus(Crc(a), Crc(b)) == Plus(Crc(c), Crc(d)) by {
      CrcFromXor(SEED, SEED, a, b);
      CrcFromXor(SEED, SEED, c, d);
    }
  }

  // ----- the message as bits, in the order in which they reach the register's low end -----

  function BitStep(crc: bv16, bit: bool): bv16 { Shift(Plus(crc, if bit then 1 else 0)) }

  function CrcBits(crc: bv16, bits: seq<bool>): bv16
    decreases |bits|
  {
    if bits == [] then crc else CrcBits(BitStep(crc, bits[0]), bits[1..])
  }

  function Bits8(b: Byte): seq<bool> {
    [b & 0x01 != 0, b & 0x02 != 0, b & 0x04 != 0, b & 0x08 != 0,
     b & 0x10 != 0, b & 0x20 != 0, b & 0x40 != 0, b & 0x80 != 0]
  }

  function Bits(data: seq<Byte>): seq<bool>
    decreases |data|
  {
    if data == [] then [] else Bits(data[..|data| - 1]) + Bits8(data[|data| - 1])
  }

  lemma {:induction false} CrcBitsConcat(crc: bv16, a: seq<bool>, b: seq<bool>)
    ensures CrcBits(crc, a + b) == CrcBits(CrcBits(crc, a), b)
    decreases |a|
  {
    hide BitStep;
    if a == [] {
      assert a + b == b;
    } else {
      assert (a + b)[1..] == a[1..] + b;
      CrcBitsConcat(BitStep(crc, a[0]), a[1..], b);
    }
  }

  /** Up to 16 bits as a word, the first one lowest. */
  function Word(bits: seq<bool>): bv16
    decreases |bits|
  {
    if bits == [] then 0 else Prepend(bits[0], Word(bits[1..]))
  }

  function Prepend(bit: bool, w: bv16): bv16 { if bit then Double(w) | 1 else Double(w) }

  function Double(w: bv16): bv16 { w << 1 }

  /** The bits from position `n` on. */
  function Above(n: nat): bv16 { if n == 0 then 0xFFFF else Double(Above(n - 1)) }

  predicate Disjoint(w: bv16, m: bv16) { w & m == 0 }

  lemma DoubleDisjoint(w: bv16, m: bv16)
    requires Disjoint(w, m)
    ensures Disjoint(Double(w), Double(m)) && Disjoint(Double(w) | 1, Double(m))
  {}

  lemma PrependDisjoint(w: bv16, m: bv16, bit: bool)
    requires Disjoint(w, m)
    ensures Disjoint(Prepend(bit, w), Double(m))
  {
    hide Disjoint;
    hide Double;
    DoubleDisjoint(w, m);
  }

  lemma DisjointZero(m: bv16)
    ensures Disjoint(0, m)
  {}

  lemma {:induction false} WordBelow(bits: seq<bool>)
    ensures Disjoint(Word(bits), Above(|bits|))
    decreases |bits|
  {
    hide Disjoint;
    hide Prepend;
    hide Double;
    if bits == [] {
      DisjointZero(Above(0));
    } else {
      WordBelow(bits[1..]);
      PrependDisjoint(Word(bits[1..]), Above(|bits| - 1), bits[0]);
    }
  }

  lemma {:induction false} AboveTop(n: nat)
    requires n <= 15
    ensures Above(n) & 0x8000 != 0
  {
    assert Above(1) == 0xFFFE && Above(2) == 0xFFFC && Above(3) == 0xFFF8 && Above(4) == 0xFFF0;
    assert Above(5) == 0xFFE0 && Above(6) == 0xFFC0 && Above(7) == 0xFF80 && Above(8) == 0xFF00;
    assert Above(9) == 0xFE00 && Above(10) == 0xFC00 && Above(11) == 0xF800 && Above(12) == 0xF000;
    assert Above(13) == 0xE000 && Above(14) == 0xC000 && Above(15) == 0x8000;
  }

  lemma NotInMask(w: bv16, m: bv16)
    requires w & m == 0 && m & 0x8000 == 0x8000
    ensures w & 0x8000 == 0
  {}

  lemma TopBit(m: bv16)
    ensures m & 0x8000 != 0 <==> m & 0x8000 == 0x8000
  {}

  lemma WordTop(bits: seq<bool>)
    requires |bits| <= 15
    ensures Word(bits) & 0x8000 == 0
  {
    WordBelow(bits);
    AboveTop(|bits|);
    TopBit(Above(|bits|));
    NotInMask(Word(bits), Above(|bits|));
  }

  lemma DoubleInjective(w: bv16, v: bv16)
    requires w & 0x8000 == 0 && v & 0x8000 == 0
    ensures Double(w) | 1 != Double(v)
    ensures Double(w) | 1 == Double(v) | 1 ==> w == v
    ensures Double(w) == Double(v) ==> w == v
  {}

  lemma PrependInjective(x: bool, w: bv16, y: bool, v: bv16)
    requires w & 0x8000 == 0 && v & 0x8000 == 0
    requires Prepend(x, w) == Prepend(y, v)
    ensures x == y && w == v
  {
    hide Double;
    DoubleInjective(w, v);
    DoubleInjective(v, w);
  }

  lemma {:induction false} WordInjective(a: seq<bool>, b: seq<bool>)
    requires |a| == |b| <= 16 && Word(a) == Word(b)
    ensures a == b
    decreases |a|
  {
    hide Prepend;
    if a != [] {
      WordTop(a[1..]);
      WordTop(b[1..]);
      PrependInjective(a[0], Word(a[1..]), b[0], Word(b[1..]));
      WordInjective(a[1..], b[1..]);
      assert a == [a[0]] + a[1..] && b == [b[0]] + b[1..];
    }
  }

  lemma ShiftOfDouble(w: bv16)
    requires w & 0x8000 == 0
    ensures Shift(Double(w)) == w
  {}

  lemma SplitLow(w: bv16)
    ensures Double(w) | 1 == Plus(1, Double(w)) && Double(w) == Plus(0, Double(w))
  {}

  /** A bit that is XORed in now arrives later as if it had been XORed in then. */
  lemma FeedAhead(crc: bv16, bit: bool, w: bv16)
    requires w & 0x8000 == 0
    ensures Shift(Plus(crc, Prepend(bit, w))) == Plus(BitStep(crc, bit), w)
  {
    hide Plus;
    hide Shift;
    hide Double;
    var low: bv16 := if bit then 1 else 0;
    SplitLow(w);
    PlusAssociative(crc, low, Double(w));
    ShiftLinear(Plus(crc, low), Double(w));
    ShiftOfDouble(w);
  }

  lemma {:induction false} ShiftsFront(crc: bv16, n: nat)
    ensures Shifts(crc, n + 1) == Shifts(Shift(crc), n)
  {
    hide Shift;
    if n > 0 { ShiftsFront(crc, n - 1); }
  }

  /** Feeding up to 16 bits is XORing their word in and stepping that often. */
  lemma {:induction false} FeedWord(crc: bv16, bits: seq<bool>)
    requires |bits| <= 16
    ensures CrcBits(crc, bits) == Shifts(Plus(crc, Word(bits)), |bits|)
    decreases |bits|
  {
    if bits == [] {
      assert Plus(crc, 0) == crc;
    } else {
      FeedWordStep(crc, bits);
    }
  }

  lemma {:induction false} FeedWordStep(crc: bv16, bits: seq<bool>)
    requires 0 < |bits| <= 16
    ensures CrcBits(crc, bits) == Shifts(Plus(crc, Word(bits)), |bits|)
    decreases |bits|, 0
  {
    hide Plus;
    hide Shift;
    hide BitStep;
    FeedWord(BitStep(crc, bits[0]), bits[1..]);
    WordTop(bits[1..]);
    FeedAhead(crc, bits[0], Word(bits[1..]));
    ShiftsFront(Plus(crc, Word(bits)), |bits| - 1);
  }

  // ----- bursts -----

  lemma {:induction false} CrcBitsInjective(x: bv16, y: bv16, bits: seq<bool>)
    requires CrcBits(x, bits) == CrcBits(y, bits)
    ensures x == y
    decreases |bits|
  {
    hide Plus;
    hide Shift;
    if bits != [] {
      var low: bv16 := if bits[0] then 1 else 0;
      CrcBitsInjective(BitStep(x, bits[0]), BitStep(y, bits[0]), bits[1..]);
      ShiftBijective(Plus(x, low), Plus(y, low));
      PlusCommutes(x, low);
      PlusCommutes(y, low);
      PlusInjective(low, x, y);
    }
  }

  lemma WindowChangesRegister(crc: bv16, u: seq<bool>, v: seq<bool>)
    requires |u| == |v| <= 16 && u != v
    ensures CrcBits(crc, u) != CrcBits(crc, v)
  {
    hide Plus;
    if CrcBits(crc, u) == CrcBits(crc, v) {
      FeedWord(crc, u);
      FeedWord(crc, v);
      ShiftsInjective(Plus(crc, Word(u)), Plus(crc, Word(v)), |u|);
      PlusInjective(crc, Word(u), Word(v));
      WordInjective(u, v);
    }
  }

  /** Bits that differ only inside a window of at most 16 leave the register different. */
  lemma BurstChangesRegister(crc: bv16, before: seq<bool>, u: seq<bool>, v: seq<bool>, after: seq<bool>)
    requires |u| == |v| <= 16 && u != v
    ensures CrcBits(crc, before + u + after) != CrcBits(crc, before + v + after)
  {
    hide BitStep;
    CrcBitsConcat(crc, before + u, after);
    CrcBitsConcat(crc, before + v, after);
    CrcBitsConcat(crc, before, u);
    CrcBitsConcat(crc, before, v);
    var c := CrcBits(crc, before);
    WindowChangesRegister(c, u, v);
    if CrcBits(CrcBits(c, u), after) == CrcBits(CrcBits(c, v), after) {
      CrcBitsInjective(CrcBits(c, u), CrcBits(c, v), after);
    }
  }

  lemma WordTail(bits: seq<bool>, k: nat)
    requires k < |bits|
    ensures Word(bits[k..]) == Prepend(bits[k], Word(bits[k + 1..]))
  {
    assert bits[k..][1..] == bits[k + 1..];
  }

  lemma WordOfHighBits(b: Byte)
    ensures Word(Bits8(b)[4..]) == (b as bv16) >> 4
  {
    hide Word;
    hide Prepend;
    var bits := Bits8(b);
    assert bits[8..] == [];
    WordEmpty();
    ByteShifts(b);
    WordTail(bits, 7);
    WordTail(bits, 6);
    WordTail(bits, 5);
    WordTail(bits, 4);
  }

  lemma WordOfByte(b: Byte)
    ensures Word(Bits8(b)) == b as bv16
  {
    hide Word;
    hide Prepend;
    var bits := Bits8(b);
    assert bits[0..] == bits;
    WordOfHighBits(b);
    ByteShifts(b);
    WordTail(bits, 3);
    WordTail(bits, 2);
    WordTail(bits, 1);
    WordTail(bits, 0);
  }

  lemma WordEmpty()
    ensures Word([]) == 0
  {}

  lemma ByteShifts(b: Byte)
    ensures var w: bv16 := b as bv16;
      && w >> 8 == 0
      && w >> 7 == Prepend(b & 0x80 != 0, w >> 8)
      && w >> 6 == Prepend(b & 0x40 != 0, w >> 7)
      && w >> 5 == Prepend(b & 0x20 != 0, w >> 6)
      && w >> 4 == Prepend(b & 0x10 != 0, w >> 5)
      && w >> 3 == Prepend(b & 0x08 != 0, w >> 4)
      && w >> 2 == Prepend(b & 0x04 != 0, w >> 3)
      && w >> 1 == Prepend(b & 0x02 != 0, w >> 2)
      && w == Prepend(b & 0x01 != 0, w >> 1)
  {}

  /** Feeding a byte is feeding its bits, lowest first. */
  lemma FeedByteBits(crc: bv16, b: Byte)
    ensures FeedByte(crc, b) == CrcBits(crc, Bits8(b))
  {
    hide Plus;
    hide Bits8;
    assert |Bits8(b)| == 8 by { BitsLength(b); }
    FeedWord(crc, Bits8(b));
    WordOfByte(b);
  }

  lemma BitsLength(b: Byte)
    ensures |Bits8(b)| == 8
  {}

  lemma {:induction false} CrcIsCrcOfBits(crc: bv16, data: seq<Byte>)
    ensures CrcFrom(crc, data) == CrcBits(crc, Bits(data))
    decreases |data|
  {
    hide FeedByte;
    hide BitStep;
    hide Bits8;
    if data != [] {
      var n := |data| - 1;
      CrcIsCrcOfBits(crc, data[..n]);
      CrcBitsConcat(crc, Bits(data[..n]), Bits8(data[n]));
      FeedByteBits(CrcFrom(crc, data[..n]), data[n]);
    }
  }

  /** Any change confined to 16 consecutive bits of a message of any length changes the CRC. */
  lemma BurstDetected(a: seq<Byte>, b: seq<Byte>, before: seq<bool>, u: seq<bool>, v: seq<bool>, after: seq<bool>)
    requires Bits(a) == before + u + after && Bits(b) == before + v + after
    requires |u| == |v| <= 16 && u != v
    ensures Crc(a) != Crc(b)
  {
    CrcIsCrcOfBits(SEED, a);
    CrcIsCrcOfBits(SEED, b);
    BurstChangesRegister(SEED, before, u, v, after);
  }

  lemma {:induction false} BitsConcat(a: seq<Byte>, b: seq<Byte>)
    ensures Bits(a + b) == Bits(a) + Bits(b)
    decreases |b|
  {
    hide Bits8;
    if b == [] {
      assert a + b == a;
    } else {
      assert (a + b)[..|a + b| - 1] == a + b[..|b| - 1];
      BitsConcat(a, b[..|b| - 1]);
    }
  }

  lemma ConcatSplit(p: seq<bool>, x: seq<bool>, q: seq<bool>, y: seq<bool>)
    requires p + x == q + y && |x| == |y|
    ensures p == q && x == y
  {
    assert |p| == |q|;
    assert p == (p + x)[..|p|] && q == (q + y)[..|q|];
    assert x == (p + x)[|p|..] && y == (q + y)[|q|..];
  }

  lemma {:induction false} BitsInjective(a: seq<Byte>, b: seq<Byte>)
    requires Bits(a) == Bits(b) && |a| == |b|
    ensures a == b
    decreases |a|
  {
    hide Bits8;
    if a != [] {
      var n := |a| - 1;
      BitsLength(a[n]);
      BitsLength(b[n]);
      ConcatSplit(Bits(a[..n]), Bits8(a[n]), Bits(b[..n]), Bits8(b[n]));
      BitsInjective(a[..n], b[..n]);
      Bits8Injective(a[n], b[n]);
      assert a == a[..n] + [a[n]] && b == b[..n] + [b[n]];
    }
  }

  lemma Bits8Injective(a: Byte, b: Byte)
    ensures Bits8(a) == Bits8(b) ==> a == b
  {
    if Bits8(a) == Bits8(b) {
      WordOfByte(a);
      WordOfByte(b);
    }
  }

  /** In particular a change of one byte, or of two adjacent bytes, is always detected. */
  lemma AdjacentBytesDetected(before: seq<Byte>, u: seq<Byte>, v: seq<Byte>, after: seq<Byte>)
    requires |u| == |v| <= 2 && u != v
    ensures Crc(before + u + after) != Crc(before + v + after)
  {
    hide Bits8;
    BitsConcat(before + u, after);
    BitsConcat(before + v, after);
    BitsConcat(before, u);
    BitsConcat(before, v);
    BitsSize(u);
    BitsSize(v);
    if Bits(u) == Bits(v) { BitsInjective(u, v); }
    BurstDetected(before + u + after, before + v + after, Bits(before), Bits(u), Bits(v), Bits(after));
  }

  lemma {:induction false} BitsSize(data: seq<Byte>)
    ensures |Bits(data)| == 8 * |data|
    decreases |data|
  {
    if data != [] { BitsSize(data[..|data| - 1]); }
  }
}

/** The CEA extension of an EDID: data blocks (section 7.5 of CTA-861), detailed timings, and
    the audio switch. */
module EdidCea {
  import opened Options

  /** The items of `self.__data`; all are bytes except that a checksum may hold 256. */
  type Data = seq<int>

  const SHORT := 128
  const LONG := 256
  const CEA := 128
  const CEA_AUDIO := 1
  const CEA_SPEAKERS := 4
  const DTD_SIZE := 18
  const MAX_RAW := 128 - 4 - 1

  predicate IsByte(x: int) { 0 <= x <= 0xFF }

  predicate AreBytes(s: seq<int>) { forall x :: x in s ==> IsByte(x) }

  predicate ValidData(d: Data) {
    && (|d| == SHORT || |d| == LONG)
    && (forall i :: 0 <= i < |d| && i != 127 && i != 255 ==> IsByte(d[i]))
    && 0 <= d[127] <= 256
    && (|d| == LONG ==> 0 <= d[255] <= 256)
  }

  datatype Block = Block(tag: int, data: seq<int>)

  predicate ValidBlock(b: Block) {
    0 < b.tag <= 7 && 0 < |b.data| <= 31 && AreBytes(b.data)
  }

  predicate ValidBlocks(bs: seq<Block>) { forall b :: b in bs ==> ValidBlock(b) }

  function Pack(b: Block): seq<int> { [b.tag * 32 + |b.data|] + b.data }

  function PackAll(bs: seq<Block>): seq<int>
    decreases |bs|
  {
    if bs == [] then [] else PackAll(bs[..|bs| - 1]) + Pack(bs[|bs| - 1])
  }

  function Min(a: int, b: int): int { if a < b then a else b }

  /** `None` is a failed assertion, or a checksum of 256 among the data. */
  function FirstFromRaw(raw: seq<int>): (b: Option<Block>)
    requires raw != []
    ensures b.Some? ==> ValidBlock(b.value) && |b.value.data| + 1 <= |raw|
  {
    var data := raw[1..Min(|raw|, raw[0] % 32 + 1)];
    if !(0 < raw[0] <= 0xFF) then None
    else if !AreBytes(data) || raw[0] / 32 == 0 || data == [] then None
    else Some(Block(raw[0] / 32, data))
  }

  function ParseBlocks(raw: seq<int>): (bs: Option<seq<Block>>)
    ensures bs.Some? ==> ValidBlocks(bs.value)
    decreases |raw|
  {
    if raw == [] then Some([])
    else
      var b := FirstFromRaw(raw);
      if b.None? then None
      else
        var rest := ParseBlocks(raw[|b.value.data| + 1..]);
        if rest.None? then None else Some([b.value] + rest.value)
  }

  function ParseDtds(raw: seq<int>): (dtds: seq<int>)
    ensures dtds <= raw && |dtds| % DTD_SIZE == 0
    decreases |raw|
  {
    if |raw| > DTD_SIZE + 1 && raw[0] != 0 then raw[..DTD_SIZE] + ParseDtds(raw[DTD_SIZE..]) else []
  }

  datatype Parsed = Parsed(blocks: seq<Block>, dtds: seq<int>) | NoBlockError | AssertionError

  function ParseCea(d: Data): (p: Parsed)
    requires ValidData(d)
    ensures p.Parsed? ==> |d| == LONG && ValidBlocks(p.blocks) && |p.dtds| % DTD_SIZE == 0
  {
    if |d| != LONG then NoBlockError
    else
      var cea := d[CEA..];
      if cea[2] == 0 then Parsed([], [])
      else if cea[2] < 4 then AssertionError
      else
        var begin := Min(cea[2], 128);
        var blocks := ParseBlocks(cea[4..begin]);
        if blocks.None? then AssertionError else Parsed(blocks.value, ParseDtds(cea[begin..]))
  }

  function Padded(raw: seq<int>): (p: seq<int>)
    requires |raw| <= MAX_RAW
    ensures |p| == MAX_RAW
  {
    raw + seq(MAX_RAW - |raw|, _ => 0)
  }

  function Raw(bs: seq<Block>, dtds: seq<int>): seq<int> { PackAll(bs) + dtds }

  predicate Fits(bs: seq<Block>, dtds: seq<int>) { |Raw(bs, dtds)| <= MAX_RAW }

  function ReplaceCea(d: Data, bs: seq<Block>, dtds: seq<int>): (d': Data)
    requires |d| == LONG && Fits(bs, dtds)
    ensures |d'| == LONG
  {
    d[..CEA + 2] + [if Raw(bs, dtds) == [] then 0 else |PackAll(bs)| + 4, d[CEA + 3]]
      + Padded(Raw(bs, dtds)) + [d[255]]
  }

  // ----- parsing undoes packing -----

  lemma {:induction false} PackAllConcat(a: seq<Block>, b: seq<Block>)
    ensures PackAll(a + b) == PackAll(a) + PackAll(b)
    decreases |b|
  {
    if b == [] {
      assert a + b == a;
    } else {
      assert (a + b)[..|a + b| - 1] == a + b[..|b| - 1];
      PackAllConcat(a, b[..|b| - 1]);
    }
  }

  lemma FirstOfPacked(b: Block, rest: seq<int>)
    requires ValidBlock(b)
    ensures FirstFromRaw(Pack(b) + rest) == Some(b)
  {
    var raw := Pack(b) + rest;
    assert raw[0] % 32 == |b.data| && raw[0] / 32 == b.tag;
    assert raw[1..|b.data| + 1] == b.data;
  }

  lemma {:induction false} ParseBlocksOfPacked(bs: seq<Block>)
    requires ValidBlocks(bs)
    ensures ParseBlocks(PackAll(bs)) == Some(bs)
    decreases |bs|
  {
    if bs != [] {
      var first, rest := bs[0], bs[1..];
      assert bs == [first] + rest;
      PackAllConcat([first], rest);
      assert PackAll([first]) == Pack(first);
      FirstOfPacked(first, PackAll(rest));
      ParseBlocksOfPacked(rest);
      assert (Pack(first) + PackAll(rest))[|first.data| + 1..] == PackAll(rest);
    }
  }

  /** The last block is not cut off. */
  predicate Whole(raw: seq<int>)
    decreases |raw|
  {
    raw == [] || (|raw| >= raw[0] % 32 + 1 && Whole(raw[raw[0] % 32 + 1..]))
  }

  lemma PackOfFirst(raw: seq<int>)
    requires raw != [] && FirstFromRaw(raw).Some?
    ensures var b, size := FirstFromRaw(raw).value, raw[0] % 32;
            if |raw| >= size + 1 then |b.data| == size && Pack(b) == raw[..size + 1]
            else |b.data| == |raw| - 1 && Pack(b)[0] != raw[0]
  {
    var b, size := FirstFromRaw(raw).value, raw[0] % 32;
    assert b.data == raw[1..Min(|raw|, size + 1)];
    if |raw| >= size + 1 { assert Pack(b) == raw[..size + 1]; }
  }

  lemma PackAllFirst(b: Block, bs: seq<Block>)
    ensures PackAll([b] + bs) == Pack(b) + PackAll(bs)
  {
    PackAllConcat([b], bs);
    assert PackAll([b]) == Pack(b);
  }

  /** Packing what was parsed gives the bytes back exactly if the last block was not cut off. */
  lemma {:induction false} PackUndoesParse(raw: seq<int>)
    requires ParseBlocks(raw).Some?
    ensures PackAll(ParseBlocks(raw).value) == raw <==> Whole(raw)
    decreases |raw|
  {
    if raw != [] {
      var b := FirstFromRaw(raw).value;
      var rest := raw[|b.data| + 1..];
      PackUndoesParse(rest);
      PackAllFirst(b, ParseBlocks(rest).value);
      PackOfFirst(raw);
      hide FirstFromRaw;
      hide PackAll;
      hide ValidBlocks;
      var packed := Pack(b) + PackAll(ParseBlocks(rest).value);
      assert |Pack(b)| == |b.data| + 1 && packed[|b.data| + 1..] == PackAll(ParseBlocks(rest).value);
      hide Pack;
      if |raw| >= raw[0] % 32 + 1 {
        assert raw == Pack(b) + rest;
      } else {
        assert packed[0] == Pack(b)[0];
      }
    }
  }

  /** A run of detailed timings as the parser yields them. */
  predicate ValidDtds(dtds: seq<int>)
    decreases |dtds|
  {
    dtds == [] || (|dtds| >= DTD_SIZE && dtds[0] != 0 && AreBytes(dtds[..DTD_SIZE]) && ValidDtds(dtds[DTD_SIZE..]))
  }

  /** What is read back of a run of timings in a tail of this length. */
  function ReadBack(dtds: seq<int>, tail: nat): (r: seq<int>)
    requires ValidDtds(dtds)
    ensures r <= dtds
  {
    if dtds != [] && tail <= 1 then dtds[..|dtds| - DTD_SIZE] else dtds
  }

  lemma {:induction false} ParseDtdsOfPacked(dtds: seq<int>, tail: seq<int>)
    requires ValidDtds(dtds) && tail != []
    requires |tail| >= 2 ==> tail[0] == 0
    ensures ParseDtds(dtds + tail) == ReadBack(dtds, |tail|)
    decreases |dtds|
  {
    var raw := dtds + tail;
    if dtds != [] {
      assert raw[DTD_SIZE..] == dtds[DTD_SIZE..] + tail;
      assert raw[..DTD_SIZE] == dtds[..DTD_SIZE];
      ParseDtdsOfPacked(dtds[DTD_SIZE..], tail);
      assert dtds == dtds[..DTD_SIZE] + dtds[DTD_SIZE..];
    }
  }

  lemma {:induction false} ParseDtdsValid(raw: seq<int>)
    requires raw != [] && AreBytes(raw[..|raw| - 1])
    ensures ValidDtds(ParseDtds(raw))
    decreases |raw|
  {
    if |raw| > DTD_SIZE + 1 && raw[0] != 0 {
      var rest := raw[DTD_SIZE..];
      var all := raw[..|raw| - 1];
      assert rest[..|rest| - 1] == all[DTD_SIZE..] && raw[..DTD_SIZE] == all[..DTD_SIZE];
      ParseDtdsValid(rest);
      var dtds := ParseDtds(raw);
      assert dtds[..DTD_SIZE] == raw[..DTD_SIZE] && dtds[DTD_SIZE..] == ParseDtds(rest);
    }
  }

  /** What follows the packed blocks: the timings, zeros, and the checksum byte. */
  function Tail(d: Data, rawSize: nat): (t: seq<int>)
    requires |d| == LONG && rawSize <= MAX_RAW
    ensures |t| == MAX_RAW - rawSize + 1
    ensures |t| >= 2 ==> t[0] == 0
  {
    seq(MAX_RAW - rawSize, _ => 0) + [d[255]]
  }

  lemma ReplacedLayout(d: Data, bs: seq<Block>, dtds: seq<int>)
    requires |d| == LONG && Fits(bs, dtds)
    ensures var d', n := ReplaceCea(d, bs, dtds), |PackAll(bs)|;
      && d'[..CEA + 2] == d[..CEA + 2] && d'[CEA + 3] == d[CEA + 3] && d'[255] == d[255]
      && d'[CEA + 2] == (if Raw(bs, dtds) == [] then 0 else n + 4)
      && d'[CEA..][4..n + 4] == PackAll(bs)
      && d'[CEA..][n + 4..] == dtds + Tail(d, |Raw(bs, dtds)|)
  {
    hide PackAll;
    var n, raw, tail := |PackAll(bs)|, Raw(bs, dtds), Tail(d, |Raw(bs, dtds)|);
    var head := d[..CEA + 2] + [if raw == [] then 0 else n + 4, d[CEA + 3]];
    var d' := ReplaceCea(d, bs, dtds);
    assert d' == head + (raw + tail);
    assert d'[CEA + 4..] == raw + tail;
    assert d'[CEA..][4..n + 4] == (raw + tail)[..n];
    assert d'[CEA..][n + 4..] == (raw + tail)[n..];
  }

  lemma ParseCeaOfReplaced(d: Data, bs: seq<Block>, dtds: seq<int>)
    requires ValidData(d) && |d| == LONG && ValidBlocks(bs) && ValidDtds(dtds) && Fits(bs, dtds)
    requires ValidData(ReplaceCea(d, bs, dtds))
    ensures ParseCea(ReplaceCea(d, bs, dtds)) == Parsed(bs, ReadBack(dtds, MAX_RAW - |Raw(bs, dtds)| + 1))
  {
    hide ReplaceCea;
    hide ValidData;
    hide ParseBlocks;
    hide ParseDtds;
    hide ValidBlocks;
    hide ValidDtds;
    hide Tail;
    ReplacedLayout(d, bs, dtds);
    if Raw(bs, dtds) == [] {
      if bs != [] { PackNonEmpty(bs); }
    } else {
      ParseBlocksOfPacked(bs);
      ParseDtdsOfPacked(dtds, Tail(d, |Raw(bs, dtds)|));
    }
  }

  lemma PackNonEmpty(bs: seq<Block>)
    requires bs != []
    ensures PackAll(bs) != []
  {}

  lemma {:induction false} PackAllBytes(bs: seq<Block>)
    requires ValidBlocks(bs)
    ensures AreBytes(PackAll(bs))
    decreases |bs|
  {
    if bs != [] {
      assert bs[|bs| - 1] in bs;
      PackAllBytes(bs[..|bs| - 1]);
    }
  }

  lemma {:induction false} DtdsAreBytes(dtds: seq<int>)
    requires ValidDtds(dtds)
    ensures AreBytes(dtds)
    decreases |dtds|
  {
    if dtds != [] {
      DtdsAreBytes(dtds[DTD_SIZE..]);
      assert dtds == dtds[..DTD_SIZE] + dtds[DTD_SIZE..];
    }
  }

  lemma ReplaceCeaValid(d: Data, bs: seq<Block>, dtds: seq<int>)
    requires ValidData(d) && |d| == LONG && ValidBlocks(bs) && ValidDtds(dtds) && Fits(bs, dtds)
    ensures ValidData(ReplaceCea(d, bs, dtds))
  {
    PackAllBytes(bs);
    DtdsAreBytes(dtds);
    var p := Padded(Raw(bs, dtds));
    assert forall x :: x in p ==> IsByte(x);
    var d' := ReplaceCea(d, bs, dtds);
    forall i | 0 <= i < LONG && i != 127 && i != 255
      ensures IsByte(d'[i])
    {
      if 132 <= i { assert d'[i] == p[i - 132]; }
    }
  }

  /** `__parse_cea` undoes `__replace_cea` for all blocks and timings that fit, exactly when
      there is no timing that would end at the checksum byte. */
  lemma ParseUndoesReplace(d: Data, bs: seq<Block>, dtds: seq<int>)
    requires ValidData(d) && |d| == LONG && ValidBlocks(bs) && ValidDtds(dtds) && Fits(bs, dtds)
    ensures ValidData(ReplaceCea(d, bs, dtds))
    ensures ParseCea(ReplaceCea(d, bs, dtds)) == Parsed(bs, dtds) <==> dtds == [] || |Raw(bs, dtds)| < MAX_RAW
  {
    ReplaceCeaValid(d, bs, dtds);
    ParseCeaOfReplaced(d, bs, dtds);
  }
}

/** `set_audio` and `get_audio`. */
module EdidAudio {
  import opened EdidCea

  const AUDIO_BLOCK := Block(CEA_AUDIO, [0x09, 0x7F, 0x07])
  const SPEAKERS_BLOCK := Block(CEA_SPEAKERS, [0x01, 0x00, 0x00])

  predicate IsAudio(b: Block) { b.tag == CEA_AUDIO || b.tag == CEA_SPEAKERS }

  /** All blocks but the audio ones, in order. */
  function Others(bs: seq<Block>): seq<Block>
    decreases |bs|
  {
    if bs == [] then []
    else Others(bs[..|bs| - 1]) + (if IsAudio(bs[|bs| - 1]) then [] else [bs[|bs| - 1]])
  }

  function Switched(bs: seq<Block>, enabled: bool): seq<Block> {
    Others(bs) + (if enabled then [AUDIO_BLOCK, SPEAKERS_BLOCK] else [])
  }

  predicate BasicAudio(x: int) { x / 0x40 % 2 == 1 }

  function WithBasicAudio(x: int, enabled: bool): (y: int)
    requires IsByte(x)
    ensures IsByte(y) && BasicAudio(y) == enabled && y / 0x80 == x / 0x80 && y % 0x40 == x % 0x40
  {
    if BasicAudio(x) == enabled then x else if enabled then x + 0x40 else x - 0x40
  }

  function SetBasicAudio(d: Data, enabled: bool): Data
    requires |d| == LONG && IsByte(d[CEA + 3])
  {
    d[CEA + 3 := WithBasicAudio(d[CEA + 3], enabled)]
  }

  predicate HasTag(bs: seq<Block>, tag: int) { exists b :: b in bs && b.tag == tag }

  datatype Answer = Answer(audio: bool) | NoBlock | Broken

  function GetAudio(d: Data): Answer
    requires ValidData(d)
  {
    match ParseCea(d)
    case NoBlockError => NoBlock
    case AssertionError => Broken
    case Parsed(bs, _) =>
      Answer(HasTag(bs, CEA_AUDIO) && HasTag(bs, CEA_SPEAKERS) && BasicAudio(d[CEA + 3]))
  }

  datatype Outcome = Done(d: Data) | NoBlockFailure | AssertionFailure

  function SetAudio(d: Data, enabled: bool): Outcome
    requires ValidData(d)
  {
    match ParseCea(d)
    case NoBlockError => NoBlockFailure
    case AssertionError => AssertionFailure
    case Parsed(bs, dtds) =>
      if Fits(Switched(bs, enabled), dtds)
      then Done(SetBasicAudio(ReplaceCea(d, Switched(bs, enabled), dtds), enabled))
      else AssertionFailure
  }

  // ----- proofs -----

  /** Exactly the non-audio blocks are kept. */
  lemma {:induction false} OthersMembers(bs: seq<Block>, b: Block)
    ensures b in Others(bs) <==> b in bs && !IsAudio(b)
    decreases |bs|
  {
    if bs != [] {
      OthersMembers(bs[..|bs| - 1], b);
      assert bs == bs[..|bs| - 1] + [bs[|bs| - 1]];
    }
  }

  lemma {:induction false} OthersOfOthers(bs: seq<Block>)
    ensures Others(Others(bs)) == Others(bs)
    decreases |bs|
  {
    if bs != [] {
      var init, last := bs[..|bs| - 1], bs[|bs| - 1];
      OthersOfOthers(init);
      if !IsAudio(last) {
        assert Others(bs)[..|Others(bs)| - 1] == Others(init);
      } else {
        assert Others(bs) == Others(init);
      }
    }
  }

  lemma OthersOfSwitched(bs: seq<Block>, enabled: bool)
    ensures Others(Switched(bs, enabled)) == Others(bs)
  {
    OthersOfOthers(bs);
    var others := Others(bs);
    var s := Switched(bs, enabled);
    if enabled {
      var s1 := s[..|s| - 1];
      assert s1 == others + [AUDIO_BLOCK];
      assert s1[..|s1| - 1] == others;
      assert Others(s) == Others(s1) == Others(others);
    } else {
      assert s == others;
    }
  }

  lemma SwitchedTwice(bs: seq<Block>, enabled: bool)
    ensures Switched(Switched(bs, enabled), enabled) == Switched(bs, enabled)
  {
    OthersOfSwitched(bs, enabled);
  }

  lemma SwitchedMembers(bs: seq<Block>, enabled: bool)
    ensures forall b :: b in Switched(bs, enabled) <==>
                  (b in bs && !IsAudio(b)) || (enabled && (b == AUDIO_BLOCK || b == SPEAKERS_BLOCK))
  {
    hide IsAudio;
    forall b { OthersMembers(bs, b); }
  }

  lemma SwitchedValid(bs: seq<Block>, enabled: bool)
    requires ValidBlocks(bs)
    ensures ValidBlocks(Switched(bs, enabled))
    ensures HasTag(Switched(bs, enabled), CEA_AUDIO) == enabled
    ensures HasTag(Switched(bs, enabled), CEA_SPEAKERS) == enabled
  {
    hide Switched;
    SwitchedMembers(bs, enabled);
    var s := Switched(bs, enabled);
    if enabled { assert AUDIO_BLOCK in s && SPEAKERS_BLOCK in s; }
  }

  lemma ParsedDtdsValid(d: Data)
    requires ValidData(d) && ParseCea(d).Parsed?
    ensures ValidDtds(ParseCea(d).dtds)
  {
    var cea := d[CEA..];
    if cea[2] != 0 {
      var raw := cea[Min(cea[2], 128)..];
      if raw != [] {
        assert forall i :: 0 <= i < |raw| - 1 ==> raw[i] == d[CEA + Min(cea[2], 128) + i];
        ParseDtdsValid(raw);
      }
    }
  }

  lemma ParseIgnoresBasicAudio(d: Data, enabled: bool)
    requires ValidData(d) && |d| == LONG
    ensures ValidData(SetBasicAudio(d, enabled)) && ParseCea(SetBasicAudio(d, enabled)) == ParseCea(d)
  {
    hide ParseBlocks;
    hide ParseDtds;
    var d' := SetBasicAudio(d, enabled);
    assert d'[CEA..][4..] == d[CEA..][4..];
    var begin := Min(d[CEA + 2], 128);
    if begin >= 4 {
      assert d'[CEA..][4..begin] == d'[CEA..][4..][..begin - 4];
      assert d[CEA..][4..begin] == d[CEA..][4..][..begin - 4];
      assert d'[CEA..][begin..] == d'[CEA..][4..][begin - 4..];
      assert d[CEA..][begin..] == d[CEA..][4..][begin - 4..];
    }
  }

  /** After a successful `set_audio(e)`: `get_audio()` is e; the blocks are the old ones without
      audio, then the two audio blocks if e; the timings read back are the old ones, or the old
      ones without the last if that one ended at the checksum byte. */
  lemma SetAudioTakesEffect(d: Data, enabled: bool)
    requires ValidData(d) && SetAudio(d, enabled).Done?
    ensures var d' := SetAudio(d, enabled).d;
      var p := ParseCea(d);
      var bs := Switched(p.blocks, enabled);
      && p.Parsed?
      && ValidData(d')
      && GetAudio(d') == Answer(enabled)
      && ValidDtds(p.dtds)
      && ParseCea(d') == Parsed(bs, ReadBack(p.dtds, MAX_RAW - |Raw(bs, p.dtds)| + 1))
      && (ParseCea(d') == Parsed(bs, p.dtds) <==> p.dtds == [] || |Raw(bs, p.dtds)| < MAX_RAW)
  {
    hide ParseCea;
    hide ReplaceCea;
    hide HasTag;
    var p := ParseCea(d);
    var bs := Switched(p.blocks, enabled);
    SwitchedValid(p.blocks, enabled);
    ParsedDtdsValid(d);
    ReplaceCeaValid(d, bs, p.dtds);
    ParseCeaOfReplaced(d, bs, p.dtds);
    ParseIgnoresBasicAudio(ReplaceCea(d, bs, p.dtds), enabled);
  }

  /** Helper, read off the definitions: `set_audio` succeeds exactly when the extension parses and
      the result fits. */
  lemma SetAudioSucceeds(d: Data, enabled: bool)
    requires ValidData(d)
    ensures SetAudio(d, enabled).Done? <==>
            ParseCea(d).Parsed? && |PackAll(Switched(ParseCea(d).blocks, enabled))| + |ParseCea(d).dtds| <= MAX_RAW
  {}

  /** Nothing outside the extension's content changes, and of its flags only basic audio. */
  lemma SetAudioFrame(d: Data, enabled: bool)
    requires ValidData(d) && SetAudio(d, enabled).Done?
    ensures var d' := SetAudio(d, enabled).d;
      && |d'| == |d| && d'[..CEA + 2] == d[..CEA + 2] && d'[255] == d[255]
      && d'[CEA + 3] / 0x80 == d[CEA + 3] / 0x80 && d'[CEA + 3] % 0x40 == d[CEA + 3] % 0x40
  {
    hide ReplaceCea;
    var p := ParseCea(d);
    ReplacedLayout(d, Switched(p.blocks, enabled), p.dtds);
    var r := ReplaceCea(d, Switched(p.blocks, enabled), p.dtds);
    assert SetAudio(d, enabled).d[..CEA + 2] == r[..CEA + 2];
  }

  lemma ReplaceTwice(d: Data, bs: seq<Block>, dtds: seq<int>, enabled: bool, bs2: seq<Block>, dtds2: seq<int>)
    requires |d| == LONG && Fits(bs, dtds) && Fits(bs2, dtds2) && IsByte(d[CEA + 3])
    ensures ReplaceCea(d, bs, dtds)[CEA + 3] == d[CEA + 3]
    ensures SetBasicAudio(ReplaceCea(SetBasicAudio(ReplaceCea(d, bs, dtds), enabled), bs2, dtds2), enabled)
            == SetBasicAudio(ReplaceCea(d, bs2, dtds2), enabled)
  {
    hide PackAll;
    var d1 := SetBasicAudio(ReplaceCea(d, bs, dtds), enabled);
    assert d1[..CEA + 2] == d[..CEA + 2] && d1[255] == d[255];
    assert SetBasicAudio(ReplaceCea(d1, bs2, dtds2), enabled) == SetBasicAudio(ReplaceCea(d, bs2, dtds2), enabled);
  }

  lemma {:induction false} LastTimingStarts(dtds: seq<int>)
    requires ValidDtds(dtds) && dtds != []
    ensures |dtds| >= DTD_SIZE && dtds[|dtds| - DTD_SIZE] != 0
    decreases |dtds|
  {
    if dtds[DTD_SIZE..] != [] { LastTimingStarts(dtds[DTD_SIZE..]); }
  }

  lemma ContentSlice(d: Data, bs: seq<Block>, dtds: seq<int>)
    requires |d| == LONG && Fits(bs, dtds)
    ensures ReplaceCea(d, bs, dtds)[132..255] == Padded(Raw(bs, dtds))
  {
    hide PackAll;
    hide Raw;
    var head := d[..CEA + 2] + [if Raw(bs, dtds) == [] then 0 else |PackAll(bs)| + 4, d[CEA + 3]];
    var p := Padded(Raw(bs, dtds));
    assert ReplaceCea(d, bs, dtds) == head + p + [d[255]];
  }

  lemma PaddedDiffers(packed: seq<int>, dtds: seq<int>, short: seq<int>)
    requires |packed + dtds| <= MAX_RAW && short < dtds && dtds[|short|] != 0
    ensures |packed + short| <= MAX_RAW && Padded(packed + dtds) != Padded(packed + short)
  {
    var i := |packed| + |short|;
    assert Padded(packed + dtds)[i] == dtds[|short|] && Padded(packed + short)[i] == 0;
  }

  lemma DroppedTimingDiffers(d: Data, bs: seq<Block>, dtds: seq<int>, short: seq<int>)
    requires |d| == LONG && Fits(bs, dtds) && short < dtds && dtds[|short|] != 0
    ensures Fits(bs, short)
    ensures ReplaceCea(d, bs, short)[132..255] != ReplaceCea(d, bs, dtds)[132..255]
  {
    hide PackAll;
    hide Padded;
    hide ReplaceCea;
    PaddedDiffers(PackAll(bs), dtds, short);
    ContentSlice(d, bs, dtds);
    ContentSlice(d, bs, short);
  }

  /** Repeating `set_audio(e)` succeeds, and changes nothing exactly when no timing was lost. */
  lemma SetAudioTwice(d: Data, enabled: bool)
    requires ValidData(d) && SetAudio(d, enabled).Done?
    ensures var d' := SetAudio(d, enabled).d;
      var p := ParseCea(d);
      && ValidData(d') && SetAudio(d', enabled).Done?
      && (SetAudio(d', enabled).d == d' <==>
            p.dtds == [] || |Raw(Switched(p.blocks, enabled), p.dtds)| < MAX_RAW)
  {
    hide ParseCea;
    hide ReplaceCea;
    hide PackAll;
    var p := ParseCea(d);
    var bs := Switched(p.blocks, enabled);
    var d' := SetAudio(d, enabled).d;
    SetAudioTakesEffect(d, enabled);
    SwitchedTwice(p.blocks, enabled);
    var back := ReadBack(p.dtds, MAX_RAW - |Raw(bs, p.dtds)| + 1);
    ReplaceTwice(d, bs, p.dtds, enabled, bs, back);
    assert SetAudio(d', enabled) == Done(SetBasicAudio(ReplaceCea(d, bs, back), enabled));
    if back != p.dtds {
      LastTimingStarts(p.dtds);
      DroppedTimingDiffers(d, bs, p.dtds, back);
      var x, y := ReplaceCea(d, bs, p.dtds), ReplaceCea(d, bs, back);
      assert SetBasicAudio(x, enabled)[132..255] == x[132..255];
      assert SetBasicAudio(y, enabled)[132..255] == y[132..255];
    }
  }
}

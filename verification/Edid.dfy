/** The EDID editor itself: its data changed in place. */
module EdidClass {
  import opened Options
  import opened EdidCea
  import opened EdidAudio
  import opened EdidFields
  import opened EdidHex

  class Edid {
    const data: array<int>

    ghost predicate Valid()
      reads data
    {
      ValidData(data[..]) && Accepted(data[..])
    }

    constructor (bytes: seq<int>)
      requires Accepted(bytes) && AreBytes(bytes)
      ensures Valid() && fresh(data) && data[..] == bytes
    {
      data := new int[|bytes|](i requires 0 <= i < |bytes| => bytes[i]);
      new;
      assert data[..] == bytes;
      assert forall i :: 0 <= i < |bytes| ==> bytes[i] in bytes;
    }

    // ----- fields -----

    method StoreByte(index: nat, x: int)
      requires index < data.Length
      modifies data
      ensures data[..] == old(data[..])[index := x]
    {
      data[index] := x;
    }

    method SetMfcIdField(letters: seq<int>) returns (error: Option<Error>)
      requires Valid()
      modifies data
      ensures Valid()
      ensures Result(data[..], error) == Apply(old(data[..]), SetMfcId(letters))
    {
      ghost var d := data[..];
      StaysAccepted(d, SetMfcId(letters));
      if |letters| != 3 { return Some(AssertionFailed); }
      var u := UpperAll(letters);
      if exists c :: c in u && !(0 <= c < 0x80) { return Some(NotEncodable); }
      if exists c :: c in u && !(0x41 <= c <= 0x5A) { return Some(AssertionFailed); }
      MfcCodeRange(u);
      var raw := MfcCode(u);
      StoreByte(8, raw / 0x100 % 0x100);
      StoreByte(9, raw % 0x100);
      assert data[..] == Patch(d, 8, [raw / 0x100 % 0x100, raw % 0x100]);
      return None;
    }

    method SetProductIdField(id: int) returns (error: Option<Error>)
      requires Valid()
      modifies data
      ensures Valid()
      ensures Result(data[..], error) == Apply(old(data[..]), SetProductId(id))
    {
      ghost var d := data[..];
      StaysAccepted(d, SetProductId(id));
      if !(0 <= id <= 0xFFFF) { return Some(AssertionFailed); }
      StoreByte(10, id % 0x100);
      StoreByte(11, id / 0x100 % 0x100);
      assert data[..] == Patch(d, 10, [id % 0x100, id / 0x100 % 0x100]);
      return None;
    }

    method SetSerialField(n: int) returns (error: Option<Error>)
      requires Valid()
      modifies data
      ensures Valid()
      ensures Result(data[..], error) == Apply(old(data[..]), SetSerial(n))
    {
      ghost var d := data[..];
      StaysAccepted(d, SetSerial(n));
      if !(0 <= n <= 0xFFFF_FFFF) { return Some(AssertionFailed); }
      var b0, b1, b2, b3 := n % 0x100, n / 0x100 % 0x100, n / 0x1_0000 % 0x100, n / 0x100_0000 % 0x100;
      StoreByte(12, b0);
      StoreByte(13, b1);
      StoreByte(14, b2);
      StoreByte(15, b3);
      assert data[..] == Patch(d, 12, [b0, b1, b2, b3]);
      return None;
    }

    method FindDtdText(dType: int) returns (index: Option<nat>)
      requires Valid()
      ensures index == FindText(data[..], dType)
    {
      for k := 0 to 4
        invariant k > 0 ==> data[57] != dType
        invariant k > 1 ==> data[75] != dType
        invariant k > 2 ==> data[93] != dType
        invariant k > 3 ==> data[111] != dType
      {
        var place := 54 + 18 * k;
        if data[place + 3] == dType { return Some(place + 5); }
      }
      return None;
    }

    method StoreBytes(at: nat, bytes: seq<int>)
      requires at + |bytes| <= data.Length
      modifies data
      ensures data[..] == Patch(old(data[..]), at, bytes)
    {
      ghost var d := data[..];
      for offset := 0 to |bytes|
        invariant forall i :: 0 <= i < data.Length ==>
                    data[i] == if at <= i < at + offset then bytes[i - at] else d[i]
      {
        data[at + offset] := bytes[offset];
      }
      assert data[..] == Patch(d, at, bytes);
    }

    method SetDtdText(s: Setting) returns (error: Option<Error>)
      requires Valid() && (s.SetMonitorName? || s.SetMonitorSerial?)
      modifies data
      ensures Valid()
      ensures Result(data[..], error) == Apply(old(data[..]), s)
    {
      hide FindText;
      hide PaddedText;
      StaysAccepted(data[..], s);
      var index := FindDtdText(if s.SetMonitorName? then NAME_TYPE else SERIAL_TYPE);
      if index.None? { return Some(NoBlockFound); }
      if exists c :: c in First13(s.text) && !IsByte(c) { return Some(NotEncodable); }
      StoreBytes(index.value, PaddedText(s.text));
      return None;
    }

    // ----- the extension -----

    method ParseBlocksLoop(all: seq<int>) returns (bs: Option<seq<Block>>)
      ensures bs == ParseBlocks(all)
    {
      var raw, cbs := all, [];
      if ParseBlocks(all).Some? { assert [] + ParseBlocks(all).value == ParseBlocks(all).value; }
      while raw != []
        invariant ParseBlocks(all) == if ParseBlocks(raw).None? then None else Some(cbs + ParseBlocks(raw).value)
        decreases |raw|
      {
        var cb := FirstFromRaw(raw);
        if cb.None? { return None; }
        ghost var rest := ParseBlocks(raw[|cb.value.data| + 1..]);
        if rest.Some? { assert cbs + ([cb.value] + rest.value) == (cbs + [cb.value]) + rest.value; }
        cbs := cbs + [cb.value];
        raw := raw[|cb.value.data| + 1..];
      }
      assert cbs + [] == cbs;
      return Some(cbs);
    }

    method ParseDtdsLoop(all: seq<int>) returns (dtds: seq<int>)
      ensures dtds == ParseDtds(all)
    {
      var raw := all;
      dtds := [];
      while |raw| > DTD_SIZE + 1 && raw[0] != 0
        invariant ParseDtds(all) == dtds + ParseDtds(raw)
        decreases |raw|
      {
        assert dtds + (raw[..DTD_SIZE] + ParseDtds(raw[DTD_SIZE..])) == (dtds + raw[..DTD_SIZE]) + ParseDtds(raw[DTD_SIZE..]);
        dtds := dtds + raw[..DTD_SIZE];
        raw := raw[DTD_SIZE..];
      }
    }

    method ParseExtension() returns (p: Parsed)
      requires Valid()
      ensures p == ParseCea(data[..])
    {
      hide ParseBlocks;
      hide ParseDtds;
      if data.Length != LONG { return NoBlockError; }
      var cea := data[CEA..];
      assert cea == data[..][CEA..];
      if cea[2] == 0 { return Parsed([], []); }
      var begin, cbs := Min(cea[2], 128), [];
      if cea[2] > 4 {
        var parsed := ParseBlocksLoop(cea[4..begin]);
        if parsed.None? { return AssertionError; }
        cbs := parsed.value;
      } else if cea[2] < 4 {
        return AssertionError;
      } else {
        assert cea[4..begin] == [];
        NothingToParse();
      }
      var dtds := ParseDtdsLoop(cea[begin..]);
      return Parsed(cbs, dtds);
    }

    static lemma NothingToParse()
      ensures ParseBlocks([]) == Some([])
    {}

    method ReplaceExtension(cbs: seq<Block>, dtds: seq<int>) returns (fits: bool)
      requires data.Length == LONG
      modifies data
      ensures fits == Fits(cbs, dtds)
      ensures data[..] == if fits then ReplaceCea(old(data[..]), cbs, dtds) else old(data[..])
    {
      ghost var d := data[..];
      var packed := [];
      for k := 0 to |cbs|
        invariant packed == PackAll(cbs[..k])
      {
        assert cbs[..k + 1][..k] == cbs[..k];
        packed := packed + Pack(cbs[k]);
      }
      assert cbs[..|cbs|] == cbs;
      hide PackAll;
      var raw := packed + dtds;
      if |raw| > MAX_RAW { return false; }
      data[CEA + 2] := if |raw| == 0 then 0 else |packed| + 4;
      for index := 4 to 127
        invariant forall i :: 0 <= i < LONG && i != CEA + 2 && !(CEA + 4 <= i < CEA + index) ==> data[i] == d[i]
        invariant data[CEA + 2] == if |raw| == 0 then 0 else |packed| + 4
        invariant forall i :: CEA + 4 <= i < CEA + index ==> data[i] == Padded(raw)[i - 132]
      {
        data[CEA + index] := if index - 4 < |raw| then raw[index - 4] else 0;
      }
      LayoutOfReplaced(d, data[..], cbs, dtds);
      return true;
    }

    static lemma LayoutOfReplaced(d: Data, e: Data, cbs: seq<Block>, dtds: seq<int>)
      requires |d| == |e| == LONG && Fits(cbs, dtds)
      requires forall i :: 0 <= i < LONG && i != CEA + 2 && !(CEA + 4 <= i < CEA + 127) ==> e[i] == d[i]
      requires e[CEA + 2] == if Raw(cbs, dtds) == [] then 0 else |PackAll(cbs)| + 4
      requires forall i :: CEA + 4 <= i < CEA + 127 ==> e[i] == Padded(Raw(cbs, dtds))[i - 132]
      ensures e == ReplaceCea(d, cbs, dtds)
    {
      hide PackAll;
      hide Padded;
      var p := Padded(Raw(cbs, dtds));
      var r := ReplaceCea(d, cbs, dtds);
      forall i | 0 <= i < LONG ensures e[i] == r[i] {
        if CEA + 4 <= i < CEA + 127 { assert r[i] == p[i - 132]; }
      }
    }

    method SetAudioSwitch(enabled: bool) returns (error: Option<Error>)
      requires Valid()
      modifies data
      ensures Valid()
      ensures Result(data[..], error) == Apply(old(data[..]), SwitchAudio(enabled))
    {
      hide ParseCea;
      hide ReplaceCea;
      StaysAccepted(data[..], SwitchAudio(enabled));
      var p := ParseExtension();
      if p.NoBlockError? { return Some(NoBlockFound); }
      if p.AssertionError? { return Some(AssertionFailed); }
      var cbs := Switched(p.blocks, enabled);
      ghost var d := data[..];
      var fits := ReplaceExtension(cbs, p.dtds);
      if !fits { return Some(AssertionFailed); }
      KeepsFlags(d, cbs, p.dtds);
      data[CEA + 3] := WithBasicAudio(data[CEA + 3], enabled);
      return None;
    }

    static lemma KeepsFlags(d: Data, cbs: seq<Block>, dtds: seq<int>)
      requires |d| == LONG && Fits(cbs, dtds)
      ensures ReplaceCea(d, cbs, dtds)[CEA + 3] == d[CEA + 3]
    {
      hide PackAll;
    }

    method ReadAudio() returns (answer: Answer)
      requires Valid()
      ensures answer == GetAudio(data[..])
    {
      hide ParseCea;
      var p := ParseExtension();
      if p.NoBlockError? { return NoBlock; }
      if p.AssertionError? { return Broken; }
      var audio, speakers := false, false;
      for k := 0 to |p.blocks|
        invariant audio == HasTag(p.blocks[..k], CEA_AUDIO) && speakers == HasTag(p.blocks[..k], CEA_SPEAKERS)
      {
        HasTagSnoc(p.blocks, k, CEA_AUDIO);
        HasTagSnoc(p.blocks, k, CEA_SPEAKERS);
        if p.blocks[k].tag == CEA_AUDIO {
          audio := true;
        } else if p.blocks[k].tag == CEA_SPEAKERS {
          speakers := true;
        }
      }
      assert p.blocks[..|p.blocks|] == p.blocks;
      return Answer(audio && speakers && BasicAudio(data[CEA + 3]));
    }

    static lemma HasTagSnoc(bs: seq<Block>, k: nat, tag: int)
      requires k < |bs|
      ensures HasTag(bs[..k + 1], tag) == (HasTag(bs[..k], tag) || bs[k].tag == tag)
    {
      var more := bs[..k + 1];
      assert more == bs[..k] + [bs[k]];
      if bs[k].tag == tag { assert bs[k] in more; }
      if HasTag(bs[..k], tag) {
        var b :| b in bs[..k] && b.tag == tag;
        assert b in more;
      }
    }

    // ----- checksums and files -----

    method UpdateSums()
      requires Valid()
      modifies data
      ensures Valid() && data[..] == UpdateChecksums(old(data[..]))
    {
      ghost var d := data[..];
      ChecksumsHold(d);
      hide Sum;
      data[127] := 256 - Sum(data[..127]) % 256;
      assert d[..127] == data[..127];
      if data.Length == LONG {
        assert d[128..255] == data[128..255];
        data[255] := 256 - Sum(data[128..255]) % 256;
      }
      assert data[..] == UpdateChecksums(d);
    }

    method FormatLines() returns (text: seq<int>)
      requires data.Length % LINE == 0 && Items(data[..])
      ensures data.Length > 0 ==> text == HexLines(data[..])
    {
      hide HexItems;
      hide HexLines;
      var u := data[..];
      text := [];
      var index := 0;
      assert u[0..] == u;
      while index < data.Length
        invariant index <= data.Length && index % LINE == 0 && Items(u[index..])
        invariant data.Length > 0 ==> HexLines(u) == text + if index < data.Length then HexLines(u[index..]) else []
      {
        var line, rest := data[index..index + LINE], u[index + LINE..];
        assert line == u[index..][..LINE] && rest == u[index..][LINE..];
        NextLine(u[index..], line, rest);
        text := text + HexItems(line) + [10];
        index := index + LINE;
      }
    }

    static lemma NextLine(s: seq<int>, line: seq<int>, rest: seq<int>)
      requires Items(s) && |s| >= LINE && line == s[..LINE] && rest == s[LINE..]
      ensures Items(line) && Items(rest)
      ensures HexLines(s) == HexItems(line) + [10] + if rest == [] then [] else HexLines(rest)
    {
      hide HexItems;
      if rest == [] { assert s == line; }
    }

    method WriteHex() returns (text: seq<int>)
      requires Valid()
      modifies data
      ensures Valid() && data[..] == UpdateChecksums(old(data[..])) && text == HexFile(old(data[..]))
    {
      hide HexLines;
      UpdateSums();
      text := FormatLines();
    }
  }
}

/** Checksums (section 3.11 of VESA E-EDID Release A Rev. 2) and the hexadecimal and binary files
    of an EDID. A file is a list of bytes. */
module EdidHex {
  import opened Options
  import opened EdidCea
  import EdidAudio
  import opened EdidFields
  import opened EdidOrder
  import opened EdidGetters

  /** What the constructor asserts, besides the items being bytes. */
  predicate Accepted(d: Data) {
    && (|d| == SHORT || |d| == LONG)
    && (|d| == LONG ==> d[126] == 1 && d[CEA] == 2 && d[CEA + 1] == 3)
  }

  // ----- checksums -----

  function Sum(s: seq<int>): int
    decreases |s|
  {
    if s == [] then 0 else Sum(s[..|s| - 1]) + s[|s| - 1]
  }

  function Checksum(s: seq<int>): (c: int)
    ensures 1 <= c <= 256 && (Sum(s) + c) % 256 == 0
    ensures c == 256 <==> Sum(s) % 256 == 0
  {
    256 - Sum(s) % 256
  }

  function UpdateChecksums(d: Data): (u: Data)
    requires |d| == SHORT || |d| == LONG
    ensures |u| == |d|
    ensures forall i :: 0 <= i < |d| && i != 127 && i != 255 ==> u[i] == d[i]
    ensures u[127] == Checksum(d[..127])
    ensures |d| == LONG ==> u[255] == Checksum(d[128..255])
  {
    var first := d[127 := Checksum(d[..127])];
    if |d| == LONG then first[255 := Checksum(d[128..255])] else first
  }

  lemma SumWithLast(block: seq<int>)
    requires block != []
    ensures Sum(block) == Sum(block[..|block| - 1]) + block[|block| - 1]
  {}

  /** Both block sums are 0 modulo 256; a checksum is no byte exactly when the other bytes of its
      block already sum to 0; a second update changes nothing. */
  lemma ChecksumsHold(d: Data)
    requires ValidData(d)
    ensures var u := UpdateChecksums(d);
      && ValidData(u)
      && Sum(u[..128]) % 256 == 0
      && (|d| == LONG ==> Sum(u[128..]) % 256 == 0)
      && UpdateChecksums(u) == u
      && (AreBytes(u) <==> Sum(d[..127]) % 256 != 0 && (|d| == LONG ==> Sum(d[128..255]) % 256 != 0))
  {
    hide Sum;
    var u := UpdateChecksums(d);
    assert u[..128][..127] == d[..127] == u[..127];
    SumWithLast(u[..128]);
    if |d| == LONG {
      assert u[128..][..127] == d[128..255] == u[128..255];
      SumWithLast(u[128..]);
      assert u[255] in u;
    }
    assert u[127] in u;
  }

  /** The fields other than audio read the same after an update. */
  lemma FieldsKeepTheirValues(d: Data, f: Field)
    requires ValidData(d) && f != Audio
    ensures ValidData(UpdateChecksums(d)) && Get(UpdateChecksums(d), f) == Get(d, f)
  {
    ChecksumsHold(d);
    hide Sum;
    GetDependsOn(d, UpdateChecksums(d), f);
  }

  /** No setter makes an EDID that the constructor would refuse. */
  lemma StaysAccepted(d: Data, s: Setting)
    requires ValidData(d) && Accepted(d)
    ensures ValidData(Apply(d, s).d) && Accepted(Apply(d, s).d)
  {
    hide ValidData;
    ApplyValid(d, s);
    var e := Apply(d, s).d;
    if s.SwitchAudio? { AudioKeepsMarks(d, s.enabled); } else { FieldKeepsMarks(d, s); }
  }

  lemma AudioKeepsMarks(d: Data, enabled: bool)
    requires ValidData(d) && Accepted(d)
    ensures Accepted(Apply(d, SwitchAudio(enabled)).d)
  {
    hide EdidAudio.SetAudio;
    var e := Apply(d, SwitchAudio(enabled)).d;
    if EdidAudio.SetAudio(d, enabled).Done? {
      AudioOfExtension(d, d, enabled);
      EdidAudio.SetAudioFrame(d, enabled);
      assert e[126] == e[..130][126] && e[128] == e[..130][128] && e[129] == e[..130][129];
    }
  }

  lemma FieldKeepsMarks(d: Data, s: Setting)
    requires ValidData(d) && Accepted(d) && !s.SwitchAudio?
    ensures Accepted(Apply(d, s).d)
  {
    hide ChangeOf;
    if ChangeOf(d, s).Write? { ChangeInRange(d, s); }
  }

  // ----- the hexadecimal file -----

  const LINE := 16

  function Digit(n: int): (c: int)
    requires 0 <= n < 16
  {
    if n < 10 then 0x30 + n else 0x37 + n
  }

  /** At least two digits: 256 takes three. */
  function HexItem(x: int): (h: seq<int>)
    requires 0 <= x <= 256
  {
    if x < 256 then [Digit(x / 16), Digit(x % 16)] else [Digit(1), Digit(0), Digit(0)]
  }

  predicate Items(s: seq<int>) { forall i :: 0 <= i < |s| ==> 0 <= s[i] <= 256 }

  function HexItems(s: seq<int>): (h: seq<int>)
    requires Items(s)
  {
    if s == [] then [] else HexItem(s[0]) + HexItems(s[1..])
  }

  function HexLines(s: seq<int>): (h: seq<int>)
    requires Items(s)
    decreases |s|
  {
    if |s| <= LINE then HexItems(s) + [10] else HexItems(s[..LINE]) + [10] + HexLines(s[LINE..])
  }

  function HexFile(d: Data): seq<int>
    requires ValidData(d)
  {
    ChecksumsHold(d);
    HexLines(UpdateChecksums(d))
  }

  /** White space of a regular expression, within ASCII. */
  predicate IsBlank(c: int) { 9 <= c <= 13 || 28 <= c <= 32 }

  function Squeeze(text: seq<int>): (r: seq<int>)
  {
    if text == [] then [] else (if IsBlank(text[0]) then [] else [text[0]]) + Squeeze(text[1..])
  }

  function DigitValue(c: int): (v: Option<int>)
    ensures v.Some? ==> 0 <= v.value < 16
  {
    if 0x30 <= c <= 0x39 then Some(c - 0x30)
    else if 0x41 <= c <= 0x46 then Some(c - 0x37)
    else if 0x61 <= c <= 0x66 then Some(c - 0x57)
    else None
  }

  /** `int(pair, 16)` as a byte: a sign may stand for the first digit. */
  function PairValue(a: int, b: int): Option<int> {
    var low := DigitValue(b);
    if low.None? then None
    else if a == 0x2B then low
    else if a == 0x2D then (if low.value == 0 then low else None)
    else
      var high := DigitValue(a);
      if high.None? then None else Some(high.value * 16 + low.value)
  }

  function Unhex(text: seq<int>): (r: Option<seq<int>>)
    ensures r.Some? ==> |r.value| == (|text| + 1) / 2
    decreases |text|
  {
    if text == [] then Some([])
    else if |text| == 1 then (if DigitValue(text[0]).None? then None else Some([DigitValue(text[0]).value]))
    else
      var first := PairValue(text[0], text[1]);
      if first.None? then None
      else
        var rest := Unhex(text[2..]);
        if rest.None? then None else Some([first.value] + rest.value)
  }

  const HEADER := [0, 0xFF, 0xFF, 0xFF, 0xFF, 0xFF, 0xFF, 0]

  /** The EDID of a file, or `None` for any exception. */
  function ReadFile(file: seq<int>): (r: Option<Data>)
    ensures r.Some? ==> Accepted(r.value)
  {
    var data := if HEADER <= file then Some(file) else Unhex(Squeeze(file));
    if data.Some? && Accepted(data.value) then data else None
  }

  // ----- reading what was written -----

  lemma {:induction false} SqueezeConcat(a: seq<int>, b: seq<int>)
    ensures Squeeze(a + b) == Squeeze(a) + Squeeze(b)
    decreases |a|
  {
    if a == [] {
      assert a + b == b;
    } else {
      assert (a + b)[1..] == a[1..] + b;
      SqueezeConcat(a[1..], b);
    }
  }

  lemma {:induction false} SqueezeDigits(text: seq<int>)
    requires forall c :: c in text ==> !IsBlank(c)
    ensures Squeeze(text) == text
    decreases |text|
  {
    if text != [] {
      assert text[0] in text;
      SqueezeDigits(text[1..]);
    }
  }

  lemma {:induction false} NoBlanks(s: seq<int>)
    requires Items(s)
    ensures forall c :: c in HexItems(s) ==> !IsBlank(c)
    decreases |s|
  {
    if s != [] { NoBlanks(s[1..]); }
  }

  lemma {:induction false} HexItemsConcat(a: seq<int>, b: seq<int>)
    requires Items(a) && Items(b)
    ensures Items(a + b) && HexItems(a + b) == HexItems(a) + HexItems(b)
    decreases |a|
  {
    hide HexItem;
    if a == [] {
      assert a + b == b;
    } else {
      assert (a + b)[1..] == a[1..] + b;
      HexItemsConcat(a[1..], b);
    }
  }

  lemma SqueezeLine(s: seq<int>)
    requires Items(s)
    ensures Squeeze(HexItems(s) + [10]) == HexItems(s)
  {
    hide HexItems;
    NoBlanks(s);
    SqueezeDigits(HexItems(s));
    SqueezeConcat(HexItems(s), [10]);
  }

  lemma {:induction false} SqueezeLines(s: seq<int>)
    requires Items(s)
    ensures Squeeze(HexLines(s)) == HexItems(s)
    decreases |s|
  {
    hide Squeeze;
    hide HexItems;
    if |s| <= LINE {
      SqueezeLine(s);
    } else {
      SqueezeLine(s[..LINE]);
      SqueezeLines(s[LINE..]);
      SqueezeConcat(HexItems(s[..LINE]) + [10], HexLines(s[LINE..]));
      HexItemsConcat(s[..LINE], s[LINE..]);
      assert s == s[..LINE] + s[LINE..];
    }
  }

  lemma PairOfByte(x: int)
    requires IsByte(x)
    ensures PairValue(HexItem(x)[0], HexItem(x)[1]) == Some(x)
  {}

  lemma {:induction false} UnhexOfBytes(s: seq<int>)
    requires Items(s) && AreBytes(s)
    ensures Unhex(HexItems(s)) == Some(s)
    decreases |s|
  {
    hide Digit;
    hide PairValue;
    hide DigitValue;
    if s != [] {
      assert s[0] in s;
      PairOfByte(s[0]);
      UnhexOfBytes(s[1..]);
      var text := HexItems(s);
      assert text[0] == HexItem(s[0])[0] && text[1] == HexItem(s[0])[1];
      assert text[2..] == HexItems(s[1..]);
      assert s == [s[0]] + s[1..];
    }
  }

  function Overlong(s: seq<int>): (n: nat)
    decreases |s|
  {
    if s == [] then 0 else (if s[0] == 256 then 1 else 0) + Overlong(s[1..])
  }

  lemma {:induction false} HexLength(s: seq<int>)
    requires Items(s)
    ensures |HexItems(s)| == 2 * |s| + Overlong(s)
    decreases |s|
  {
    if s != [] { HexLength(s[1..]); }
  }

  lemma {:induction false} OverlongBytes(s: seq<int>)
    requires AreBytes(s)
    ensures Overlong(s) == 0
    decreases |s|
  {
    if s != [] {
      assert s[0] in s;
      OverlongBytes(s[1..]);
    }
  }

  lemma {:induction false} OverlongConcat(a: seq<int>, b: seq<int>)
    ensures Overlong(a + b) == Overlong(a) + Overlong(b)
    decreases |a|
  {
    if a == [] {
      assert a + b == b;
    } else {
      assert (a + b)[1..] == a[1..] + b;
      OverlongConcat(a[1..], b);
    }
  }

  /** Only checksums can take three digits. */
  lemma OverlongOf(u: Data)
    requires ValidData(u)
    ensures Overlong(u) == (if u[127] == 256 then 1 else 0) + (if |u| == LONG && u[255] == 256 then 1 else 0)
  {
    OverlongBytes(u[..127]);
    assert u == u[..127] + u[127..];
    OverlongConcat(u[..127], u[127..]);
    assert u[127..][1..] == u[128..];
    if |u| == LONG {
      OverlongBytes(u[128..255]);
      assert u[128..] == u[128..255] + [u[255]];
      OverlongConcat(u[128..255], [u[255]]);
    }
  }

  lemma NotAHeader(d: Data)
    requires ValidData(d)
    ensures !(HEADER <= HexFile(d))
  {
    var u := UpdateChecksums(d);
    ChecksumsHold(d);
    hide Sum;
    assert u[..LINE][0] == u[0];
    assert HexItems(u[..LINE])[0] == HexItem(u[0])[0];
    assert HexFile(d)[0] == HexItem(u[0])[0];
  }

  lemma ReadLines(u: Data)
    requires ValidData(u) && Accepted(u) && !(HEADER <= HexLines(u))
    ensures ReadFile(HexLines(u)) == if AreBytes(u) then Some(u) else None
  {
    hide HexItems;
    hide HexLines;
    hide Squeeze;
    hide Unhex;
    hide Overlong;
    SqueezeLines(u);
    if AreBytes(u) {
      UnhexOfBytes(u);
    } else {
      HexLength(u);
      OverlongOf(u);
    }
  }

  /** Reading a written hexadecimal file gives the same bytes exactly when no block's other bytes
      already sum to 0; otherwise it fails. */
  lemma HexRoundTrip(d: Data)
    requires ValidData(d) && Accepted(d)
    ensures ReadFile(HexFile(d)) ==
            if Sum(d[..127]) % 256 != 0 && (|d| == LONG ==> Sum(d[128..255]) % 256 != 0)
            then Some(UpdateChecksums(d)) else None
  {
    ChecksumsHold(d);
    NotAHeader(d);
    hide Sum;
    hide HexLines;
    hide ReadFile;
    ReadLines(UpdateChecksums(d));
  }

  // ----- what the getters return afterwards -----

  predicate SameTags(a: seq<Block>, b: seq<Block>) {
    |a| == |b| && forall i :: 0 <= i < |a| ==> a[i].tag == b[i].tag
  }

  lemma FirstIgnoresLast(raw: seq<int>, raw': seq<int>)
    requires |raw| == |raw'| > 1 && raw[..|raw| - 1] == raw'[..|raw| - 1]
    requires IsByte(raw[|raw| - 1]) && IsByte(raw'[|raw| - 1])
    ensures FirstFromRaw(raw).Some? <==> FirstFromRaw(raw').Some?
    ensures FirstFromRaw(raw).Some? ==>
              var b, b' := FirstFromRaw(raw).value, FirstFromRaw(raw').value;
              b.tag == b'.tag && |b.data| == |b'.data|
  {
    var n := |raw| - 1;
    assert raw[0] == raw[..n][0] == raw'[..n][0] == raw'[0];
    var size := Min(|raw|, raw[0] % 32 + 1);
    var d, d' := raw[1..size], raw'[1..size];
    assert forall i :: 0 <= i < n ==> raw[i] == raw[..n][i] == raw'[..n][i] == raw'[i];
    assert forall i :: 0 <= i < |d| ==> d[i] == raw[i + 1] && d'[i] == raw'[i + 1];
    if size < |raw| { assert d == d'; } else { LastByteOf(d, d'); }
  }

  lemma LastByteOf(d: seq<int>, d': seq<int>)
    requires |d| == |d'| > 0 && IsByte(d[|d| - 1]) && IsByte(d'[|d| - 1])
    requires forall i :: 0 <= i < |d| - 1 ==> d[i] == d'[i]
    ensures AreBytes(d) <==> AreBytes(d')
  {
    assert forall i :: 0 <= i < |d| ==> d[i] in d && d'[i] in d';
  }

  lemma TailsAgree(raw: seq<int>, raw': seq<int>, size: nat)
    requires |raw| == |raw'| > size && raw[..|raw| - 1] == raw'[..|raw| - 1]
    ensures raw[size..][..|raw| - size - 1] == raw'[size..][..|raw| - size - 1]
  {
    assert raw[size..][..|raw| - size - 1] == raw[..|raw| - 1][size..];
    assert raw'[size..][..|raw| - size - 1] == raw'[..|raw| - 1][size..];
  }

  /** The tags of the blocks do not depend on the last byte. */
  lemma {:induction false} TagsIgnoreLast(raw: seq<int>, raw': seq<int>)
    requires |raw| == |raw'| > 0 && raw[..|raw| - 1] == raw'[..|raw| - 1]
    requires IsByte(raw[|raw| - 1]) && IsByte(raw'[|raw| - 1])
    ensures ParseBlocks(raw).Some? <==> ParseBlocks(raw').Some?
    ensures ParseBlocks(raw).Some? ==> SameTags(ParseBlocks(raw).value, ParseBlocks(raw').value)
    decreases |raw|
  {
    hide AreBytes;
    if |raw| > 1 {
      FirstIgnoresLast(raw, raw');
      hide FirstFromRaw;
      if FirstFromRaw(raw).Some? {
        var size := |FirstFromRaw(raw).value.data| + 1;
        var rest, rest' := raw[size..], raw'[size..];
        if rest != [] {
          TailsAgree(raw, raw', size);
          TagsIgnoreLast(rest, rest');
        }
      }
    }
  }

  lemma SameTagsSameAudio(a: seq<Block>, b: seq<Block>, tag: int)
    requires SameTags(a, b)
    ensures EdidAudio.HasTag(a, tag) == EdidAudio.HasTag(b, tag)
  {
    if EdidAudio.HasTag(a, tag) {
      var i :| 0 <= i < |a| && a[i].tag == tag;
      assert b[i] in b && b[i].tag == tag;
    }
    if EdidAudio.HasTag(b, tag) {
      var i :| 0 <= i < |b| && b[i].tag == tag;
      assert a[i] in a && a[i].tag == tag;
    }
  }

  /** The parser does not meet a checksum of 256. */
  predicate ReadableAudio(d: Data)
    requires |d| == SHORT || |d| == LONG
  {
    |d| == SHORT || d[255] != 256 || d[CEA + 2] < 128
  }

  lemma AudioIgnoresChecksum(d: Data, u: Data)
    requires ValidData(d) && ValidData(u) && |d| == |u| == LONG && IsByte(u[255])
    requires ReadableAudio(d)
    requires forall i :: 128 <= i < 255 ==> d[i] == u[i]
    ensures EdidAudio.GetAudio(d) == EdidAudio.GetAudio(u)
  {
    hide ParseDtds;
    hide ParseBlocks;
    hide EdidAudio.HasTag;
    var begin := Min(d[CEA + 2], 128);
    if begin >= 4 {
      var raw, raw' := d[CEA..][4..begin], u[CEA..][4..begin];
      assert forall i :: 0 <= i < |raw| ==> raw[i] == d[132 + i] && raw'[i] == u[132 + i];
      if begin < 128 {
        assert raw == raw';
      } else {
        assert raw[..|raw| - 1] == raw'[..|raw| - 1];
        TagsIgnoreLast(raw, raw');
      }
      if ParseBlocks(raw).Some? {
        SameTagsSameAudio(ParseBlocks(raw).value, ParseBlocks(raw').value, CEA_AUDIO);
        SameTagsSameAudio(ParseBlocks(raw).value, ParseBlocks(raw').value, CEA_SPEAKERS);
      }
    }
  }

  lemma BlockEndsInByte(raw: seq<int>)
    requires raw != [] && FirstFromRaw(raw).Some? && |FirstFromRaw(raw).value.data| + 1 == |raw|
    ensures IsByte(raw[|raw| - 1])
  {
    var data := FirstFromRaw(raw).value.data;
    assert data[|data| - 1] in data && data[|data| - 1] == raw[|raw| - 1];
  }

  lemma {:induction false} LongItemBreaksBlocks(raw: seq<int>)
    requires raw != [] && raw[|raw| - 1] == 256
    ensures ParseBlocks(raw) == None
    decreases |raw|
  {
    var b := FirstFromRaw(raw);
    hide FirstFromRaw;
    if b.Some? {
      var size := |b.value.data| + 1;
      if size < |raw| { LongItemBreaksBlocks(raw[size..]); } else { BlockEndsInByte(raw); }
    }
  }

  lemma UnreadableAudioIsBroken(d: Data)
    requires ValidData(d) && !ReadableAudio(d)
    ensures EdidAudio.GetAudio(d).Broken?
  {
    hide ParseDtds;
    var raw := d[CEA..][4..128];
    assert raw[|raw| - 1] == d[255];
    LongItemBreaksBlocks(raw);
  }

  /** Writing an EDID to a hexadecimal file and reading it back, where that succeeds, leaves what
      every getter returns; but `get_audio` may start to work where the parser met a checksum of
      256 before. */
  lemma FileKeepsFields(d: Data, f: Field)
    requires ValidData(d) && Accepted(d) && ReadFile(HexFile(d)).Some?
    ensures ValidData(ReadFile(HexFile(d)).value)
    ensures f != Audio || ReadableAudio(d) ==> Get(ReadFile(HexFile(d)).value, f) == Get(d, f)
    ensures f == Audio && !ReadableAudio(d) ==> Get(d, f) == Failed(AssertionFailed)
  {
    HexRoundTrip(d);
    ChecksumsHold(d);
    hide HexFile;
    hide ReadFile;
    hide EdidAudio.GetAudio;
    if f != Audio {
      hide Get;
      FieldsKeepTheirValues(d, f);
    } else if ReadableAudio(d) {
      AudioAfterFile(d);
    } else {
      UnreadableAudioIsBroken(d);
    }
  }

  lemma AudioAfterFile(d: Data)
    requires ValidData(d) && ReadableAudio(d) && ValidData(UpdateChecksums(d)) && AreBytes(UpdateChecksums(d))
    ensures Get(UpdateChecksums(d), Audio) == Get(d, Audio)
  {
    hide Sum;
    var u := UpdateChecksums(d);
    if |d| == LONG {
      assert u[255] in u;
      hide UpdateChecksums;
      AudioIgnoresChecksum(d, u);
    }
  }

  // ----- the binary file -----

  /** `None` when an item is not a byte. */
  function BinFile(d: Data): (f: Option<seq<int>>)
    requires ValidData(d)
  {
    if AreBytes(UpdateChecksums(d)) then Some(UpdateChecksums(d)) else None
  }

  /** Writing a binary file fails exactly where reading back a hexadecimal one does; an EDID with
      the standard header is read back from either. */
  lemma BinRoundTrip(d: Data)
    requires ValidData(d) && Accepted(d)
    ensures BinFile(d).Some? <==> ReadFile(HexFile(d)).Some?
    ensures BinFile(d).Some? && HEADER <= d ==> ReadFile(BinFile(d).value) == ReadFile(HexFile(d))
  {
    HexRoundTrip(d);
    ChecksumsHold(d);
    hide Sum;
    var u := UpdateChecksums(d);
    if HEADER <= d {
      assert d[..8] == u[..8];
    }
  }
}

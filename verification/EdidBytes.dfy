/** The bytes that the setters and the hexadecimal file write, as laid out in sections 3.4 and 3.10 of VESA
    E-EDID Release A Rev. 2, and section 7.5 of CTA-861. */
module EdidBytes {
  import opened Options
  import opened EdidCea
  import opened EdidAudio
  import opened EdidFields
  import opened EdidHex

  predicate Unchanged(d: Data, e: Data, from: nat, to: nat) {
    |d| == |e| && forall i :: 0 <= i < |d| && !(from <= i < to) ==> e[i] == d[i]
  }

  /** A letter's five bits: A is 1. */
  function Code(letter: int): int { if 0x61 <= letter <= 0x7A then letter - 0x60 else letter - 0x40 }

  lemma WritesBytes(d: Data, s: Setting)
    requires ValidData(d) && |d| >= SHORT && !s.SwitchAudio? && Apply(d, s).error == None
    ensures ChangeOf(d, s).Write?
    ensures var Write(at, bytes) := ChangeOf(d, s);
      && at + |bytes| <= |d| == |Apply(d, s).d| && Unchanged(d, Apply(d, s).d, at, at + |bytes|)
      && forall k :: 0 <= k < |bytes| ==> Apply(d, s).d[at + k] == bytes[k]
  {
    ChangeInRange(d, s);
    hide ChangeOf;
    hide ValidData;
  }

  lemma LettersAsBytes(d: Data, letters: seq<int>)
    requires |d| >= SHORT && ChangeOf(d, SetMfcId(letters)).Write?
    ensures |letters| == 3
    ensures ChangeOf(d, SetMfcId(letters)).at == 8 && |ChangeOf(d, SetMfcId(letters)).bytes| == 2
    ensures var b := ChangeOf(d, SetMfcId(letters)).bytes;
            b[0] * 0x100 + b[1] == (Code(letters[0]) * 32 + Code(letters[1])) * 32 + Code(letters[2])
  {
    var u := UpperAll(letters);
    assert u[0] in u && u[1] in u && u[2] in u;
    MfcCodeRange(u);
    assert MfcCode(u) == (Code(letters[0]) * 32 + Code(letters[1])) * 32 + Code(letters[2]);
  }

  lemma SerialAsBytes(n: int)
    requires 0 <= n <= 0xFFFF_FFFF
    ensures n % 0x100 + 0x100 * (n / 0x100 % 0x100 + 0x100 * (n / 0x1_0000 % 0x100 + 0x100 * (n / 0x100_0000 % 0x100))) == n
  {}

  /** The manufacturer's three letters, big-endian; the product and serial numbers, little-endian. */
  lemma NumbersAsBytes(d: Data, s: Setting)
    requires ValidData(d) && Apply(d, s).error == None && (s.SetMfcId? || s.SetProductId? || s.SetSerial?)
    ensures var e := Apply(d, s).d;
      match s
      case SetMfcId(letters) =>
        && |letters| == 3 && Unchanged(d, e, 8, 10)
        && e[8] * 0x100 + e[9] == (Code(letters[0]) * 32 + Code(letters[1])) * 32 + Code(letters[2])
      case SetProductId(id) => Unchanged(d, e, 10, 12) && e[10] + 0x100 * e[11] == id
      case SetSerial(n) =>
        Unchanged(d, e, 12, 16) && e[12] + 0x100 * (e[13] + 0x100 * (e[14] + 0x100 * e[15])) == n
      case _ => true
  {
    assert |d| >= SHORT;
    ApplyValid(d, s);
    hide ValidData;
    WritesBytes(d, s);
    hide Apply;
    match s
    case SetMfcId(letters) => LettersAsBytes(d, letters);
    case SetProductId(id) =>
    case SetSerial(n) => SerialAsBytes(n);
  }

  /** `i` is where the first of the four descriptors with this type byte begins. */
  predicate IsDescriptor(d: Data, i: nat, dType: int)
    requires |d| >= SHORT
  {
    || (i == 54 && d[57] == dType)
    || (i == 72 && d[75] == dType && d[57] != dType)
    || (i == 90 && d[93] == dType && d[57] != dType && d[75] != dType)
    || (i == 108 && d[111] == dType && d[57] != dType && d[75] != dType && d[93] != dType)
  }

  predicate HasDescriptor(d: Data, dType: int)
    requires |d| >= SHORT
  {
    d[57] == dType || d[75] == dType || d[93] == dType || d[111] == dType
  }

  predicate HoldsText(d: Data, at: nat, text: seq<int>)
    requires at + 13 <= |d|
  {
    forall k :: 0 <= k < 13 ==> d[at + k] == if k < |text| then text[k] else if k == |text| then 10 else 32
  }

  lemma PaddedTextHolds(d: Data, at: nat, text: seq<int>)
    requires at + 13 <= |d|
    ensures HoldsText(Patch(d, at, PaddedText(text)), at, text) && Unchanged(d, Patch(d, at, PaddedText(text)), at, at + 13)
  {
    var t := PaddedText(text);
    assert forall k :: 0 <= k < 13 ==> t[k] == if k < |text| then text[k] else if k == |text| then 10 else 32;
    hide PaddedText;
    var e := Patch(d, at, t);
    forall k | 0 <= k < 13 ensures e[at + k] == t[k] {}
  }

  /** The name is the descriptor of type 0xFC and the serial text that of type 0xFF: the last
      thirteen bytes hold the text, a line feed and spaces, cut at thirteen. */
  lemma TextAsBytes(d: Data, s: Setting, i: nat)
    requires ValidData(d) && (s.SetMonitorName? || s.SetMonitorSerial?)
    ensures var dType := if s.SetMonitorName? then 0xFC else 0xFF;
      var r := Apply(d, s);
      && (r.error == Some(NoBlockFound) <==> !HasDescriptor(d, dType))
      && (r.error == None && IsDescriptor(d, i, dType) ==>
            |r.d| == |d| && Unchanged(d, r.d, i + 5, i + 18) && HoldsText(r.d, i + 5, s.text))
  {
    var dType := if s.SetMonitorName? then 0xFC else 0xFF;
    var r := Apply(d, s);
    hide PaddedText;
    hide Patch;
    hide HoldsText;
    hide Unchanged;
    if r.error == None && IsDescriptor(d, i, dType) {
      assert FindText(d, dType) == Some(i + 5);
      PaddedTextHolds(d, i + 5, s.text);
    }
  }

  /** The extension after the audio switch: the other blocks, then in case of audio the short audio
      descriptor for two-channel PCM and the front speakers, then the timings and zeros; the basic
      audio flag is bit 6 of its fourth byte. */
  lemma AudioAsBytes(d: Data, enabled: bool)
    requires ValidData(d) && SetAudio(d, enabled).Done?
    ensures var e := SetAudio(d, enabled).d;
      var p := ParseCea(d);
      var audio := if enabled then [0x23, 0x09, 0x7F, 0x07, 0x83, 0x01, 0x00, 0x00] else [];
      var raw := PackAll(Others(p.blocks)) + audio + p.dtds;
      && p.Parsed? && |raw| <= 123
      && e[132..255] == raw + seq(123 - |raw|, _ => 0)
      && e[131] / 64 % 2 == (if enabled then 1 else 0)
      && e[130] == (if raw == [] then 0 else 4 + |PackAll(Others(p.blocks))| + |audio|)
  {
    var p := ParseCea(d);
    PackAudio(Others(p.blocks), enabled);
    ContentSlice(d, Switched(p.blocks, enabled), p.dtds);
    hide PackAll;
    hide Others;
    hide ParseCea;
    var r := ReplaceCea(d, Switched(p.blocks, enabled), p.dtds);
    var e := SetAudio(d, enabled).d;
    assert e[132..255] == r[132..255];
  }

  lemma PackAudio(bs: seq<Block>, enabled: bool)
    ensures PackAll(bs + if enabled then [AUDIO_BLOCK, SPEAKERS_BLOCK] else [])
            == PackAll(bs) + if enabled then [0x23, 0x09, 0x7F, 0x07, 0x83, 0x01, 0x00, 0x00] else []
  {
    if enabled {
      assert Pack(AUDIO_BLOCK) == [0x23, 0x09, 0x7F, 0x07] && Pack(SPEAKERS_BLOCK) == [0x83, 0x01, 0x00, 0x00];
      var both := [AUDIO_BLOCK, SPEAKERS_BLOCK];
      PackAllConcat(bs, both);
      PackAllFirst(AUDIO_BLOCK, [SPEAKERS_BLOCK]);
      PackAllFirst(SPEAKERS_BLOCK, []);
      assert both == [AUDIO_BLOCK] + [SPEAKERS_BLOCK] && [SPEAKERS_BLOCK] + [] == [SPEAKERS_BLOCK];
    } else {
      assert bs + [] == bs;
    }
  }

  /** Exactly the blocks of other tags than 1 and 4 are kept. */
  lemma OthersAreKept(bs: seq<Block>)
    ensures forall b :: b in Others(bs) <==> b in bs && b.tag != 1 && b.tag != 4
  {
    forall b { OthersMembers(bs, b); }
  }

  /** `get_audio` needs a block of tag 1, one of tag 4, and the basic audio flag. */
  lemma AudioIsRead(d: Data)
    requires ValidData(d) && ParseCea(d).Parsed?
    ensures var bs := ParseCea(d).blocks;
      GetAudio(d) == Answer((exists b :: b in bs && b.tag == 1) && (exists b :: b in bs && b.tag == 4) && d[131] / 64 % 2 == 1)
  {}

  // ----- the hexadecimal file -----

  const DIGITS := [0x30, 0x31, 0x32, 0x33, 0x34, 0x35, 0x36, 0x37, 0x38, 0x39, 0x41, 0x42, 0x43, 0x44, 0x45, 0x46]

  lemma ItemIs(x: int)
    requires IsByte(x)
    ensures HexItem(x) == [DIGITS[x / 16], DIGITS[x % 16]]
  {
    DigitIs(x / 16);
    DigitIs(x % 16);
  }

  lemma DigitIs(n: int)
    requires 0 <= n < 16
    ensures Digit(n) == DIGITS[n]
  {}

  predicate InRange(s: seq<int>) { forall i :: 0 <= i < |s| ==> 0 <= s[i] <= 0xFF }

  lemma {:induction false} ItemsAt(s: seq<int>, i: nat)
    requires InRange(s) && Items(s)
    ensures |HexItems(s)| == 2 * |s|
    ensures i < |s| ==> HexItems(s)[2 * i..2 * i + 2] == [DIGITS[s[i] / 16], DIGITS[s[i] % 16]]
    decreases |s|
  {
    if s != [] {
      ItemIs(s[0]);
      ItemsAt(s[1..], if i > 0 then i - 1 else 0);
      hide HexItem;
      if 0 < i < |s| { assert HexItems(s)[2 * i..2 * i + 2] == HexItems(s[1..])[2 * (i - 1)..2 * (i - 1) + 2]; }
    }
  }

  /** Where the digits of the i-th byte are. */
  function Column(i: nat): nat { 33 * (i / 16) + 2 * (i % 16) }

  predicate ShowsByte(text: seq<int>, s: seq<int>, i: nat)
    requires i < |s| && InRange(s)
  {
    && 33 * (i / 16) + 33 <= |text|
    && text[Column(i)..Column(i) + 2] == [DIGITS[s[i] / 16], DIGITS[s[i] % 16]]
    && text[33 * (i / 16) + 32] == 10
  }

  lemma {:induction false} FirstLine(s: seq<int>, rest: seq<int>, i: nat)
    requires InRange(s) && Items(s) && |s| == 16 && i < 16
    ensures ShowsByte(HexItems(s) + [10] + rest, s, i)
  {
    ItemsAt(s, i);
    hide HexItems;
    var text := HexItems(s) + [10] + rest;
    assert text[2 * i..2 * i + 2] == HexItems(s)[2 * i..2 * i + 2];
  }

  lemma LaterLine(line: seq<int>, rest: seq<int>, a: seq<int>, b: seq<int>, i: nat)
    requires |line| == 33 && |a| == 16 && InRange(b) && InRange(a + b) && i < |b| && ShowsByte(rest, b, i)
    ensures ShowsByte(line + rest, a + b, i + 16)
  {
    assert Column(i + 16) == Column(i) + 33;
    assert (line + rest)[Column(i) + 33..Column(i) + 35] == rest[Column(i)..Column(i) + 2];
    assert (a + b)[i + 16] == b[i];
  }

  lemma {:induction false} LinesAt(s: seq<int>, i: nat)
    requires InRange(s) && Items(s) && i < |s| && |s| % 16 == 0
    ensures |HexLines(s)| == 33 * (|s| / 16)
    ensures ShowsByte(HexLines(s), s, i)
    decreases |s|
  {
    if |s| == 16 {
      ItemsAt(s, 0);
      FirstLine(s, [], i);
      assert HexItems(s) + [10] + [] == HexLines(s);
    } else {
      var first, rest := s[..16], s[16..];
      assert s == first + rest;
      ItemsAt(first, 0);
      LinesAt(rest, if i < 16 then 0 else i - 16);
      var line := HexItems(first) + [10];
      assert HexLines(s) == line + HexLines(rest);
      hide HexLines;
      hide HexItems;
      hide ShowsByte;
      if i < 16 {
        FirstLine(first, HexLines(rest), i);
        WiderData(line + HexLines(rest), first, rest, i);
      } else {
        LaterLine(line, HexLines(rest), first, rest, i - 16);
      }
    }
  }

  lemma WiderData(text: seq<int>, a: seq<int>, b: seq<int>, i: nat)
    requires InRange(a) && InRange(a + b) && i < |a| && ShowsByte(text, a, i)
    ensures ShowsByte(text, a + b, i)
  {
    assert (a + b)[i] == a[i];
  }

  /** The file shows the bytes, checksums updated, sixteen to a line of two upper-case digits each;
      unless a checksum is 256. */
  lemma HexLayout(d: Data, i: nat)
    requires ValidData(d) && i < |d| && InRange(UpdateChecksums(d))
    ensures |HexFile(d)| == 33 * (|d| / 16)
    ensures ShowsByte(HexFile(d), UpdateChecksums(d), i)
  {
    hide HexLines;
    ChecksumsHold(d);
    LinesAt(UpdateChecksums(d), i);
  }
}

/** The setters and getters of an EDID: vendor, product and serial numbers (section 3.4 of VESA
    E-EDID Release A Rev. 2), the text descriptors (section 3.10), and the audio switch. */
module EdidFields {
  import opened Options
  import opened EdidCea
  import opened EdidAudio

  datatype Field = MfcId | ProductId | Serial | MonitorName | MonitorSerial | Audio

  /** A call of a setter. A text is a list of character codes: for the manufacturer those of
      ASCII, for the monitor texts those of code page 437; other codes stand for characters
      that cannot be encoded. */
  datatype Setting =
    | SetMfcId(letters: seq<int>)
    | SetProductId(id: int)
    | SetSerial(serial: int)
    | SetMonitorName(text: seq<int>)
    | SetMonitorSerial(text: seq<int>)
    | SwitchAudio(enabled: bool)

  function FieldOf(s: Setting): Field {
    match s
    case SetMfcId(_) => MfcId
    case SetProductId(_) => ProductId
    case SetSerial(_) => Serial
    case SetMonitorName(_) => MonitorName
    case SetMonitorSerial(_) => MonitorSerial
    case SwitchAudio(_) => Audio
  }

  datatype Error = AssertionFailed | NoBlockFound | NotEncodable

  datatype Value = Text(text: seq<int>) | Number(n: int) | Flag(on: bool) | Failed(error: Error)

  // ----- text -----

  function Upper(c: int): int { if 0x61 <= c <= 0x7A then c - 0x20 else c }

  function UpperAll(s: seq<int>): (u: seq<int>)
    ensures |u| == |s|
  {
    seq(|s|, i requires 0 <= i < |s| => Upper(s[i]))
  }

  /** The characters of code page 437 that `str.strip` removes. */
  predicate IsSpace(c: int) { 9 <= c <= 13 || 28 <= c <= 32 || c == 255 }

  function StripRight(s: seq<int>): seq<int>
    decreases |s|
  {
    if s != [] && IsSpace(s[|s| - 1]) then StripRight(s[..|s| - 1]) else s
  }

  function StripLeft(s: seq<int>): seq<int>
    decreases |s|
  {
    if s != [] && IsSpace(s[0]) then StripLeft(s[1..]) else s
  }

  function Strip(s: seq<int>): seq<int> { StripLeft(StripRight(s)) }

  const TEXT_SIZE := 13

  function First13(text: seq<int>): seq<int> { text[..Min(|text|, TEXT_SIZE)] }

  function PaddedText(text: seq<int>): (t: seq<int>)
    ensures |t| == TEXT_SIZE && First13(text) <= t
  {
    (First13(text) + [10] + seq(12, _ => 32))[..TEXT_SIZE]
  }

  // ----- setters and getters -----

  const NAME_TYPE := 0xFC
  const SERIAL_TYPE := 0xFF

  /** The number fields, or one whole descriptor text; never a descriptor's type byte. */
  predicate Placed(at: nat, size: nat) {
    (8 <= at && at + size <= 16) || ((at == 59 || at == 77 || at == 95 || at == 113) && size == TEXT_SIZE)
  }

  /** Where the text of the first descriptor of this type is. */
  function FindText(d: Data, dType: int): (r: Option<nat>)
    requires |d| >= SHORT
    ensures r.Some? ==> Placed(r.value, TEXT_SIZE) && d[r.value - 2] == dType
  {
    if d[57] == dType then Some(59)
    else if d[75] == dType then Some(77)
    else if d[93] == dType then Some(95)
    else if d[111] == dType then Some(113)
    else None
  }

  datatype Change = Write(at: nat, bytes: seq<int>) | Refuse(error: Error)

  function MfcCode(u: seq<int>): int
    requires |u| == 3
  {
    (u[2] - 0x40) + (u[1] - 0x40) * 32 + (u[0] - 0x40) * 1024
  }

  function ChangeText(d: Data, dType: int, text: seq<int>): Change
    requires |d| >= SHORT
  {
    var index := FindText(d, dType);
    if index.None? then Refuse(NoBlockFound)
    else if !AreBytes(First13(text)) then Refuse(NotEncodable)
    else Write(index.value, PaddedText(text))
  }

  function ChangeMfcId(letters: seq<int>): Change {
    var u := UpperAll(letters);
    if |letters| != 3 then Refuse(AssertionFailed)
    else if exists c :: c in u && !(0 <= c < 0x80) then Refuse(NotEncodable)
    else if exists c :: c in u && !(0x41 <= c <= 0x5A) then Refuse(AssertionFailed)
    else Write(8, [MfcCode(u) / 0x100 % 0x100, MfcCode(u) % 0x100])
  }

  function ChangeOf(d: Data, s: Setting): Change
    requires |d| >= SHORT && !s.SwitchAudio?
  {
    match s
    case SetMfcId(letters) => ChangeMfcId(letters)
    case SetProductId(id) =>
      if 0 <= id <= 0xFFFF then Write(10, [id % 0x100, id / 0x100 % 0x100]) else Refuse(AssertionFailed)
    case SetSerial(n) =>
      if 0 <= n <= 0xFFFF_FFFF
      then Write(12, [n % 0x100, n / 0x100 % 0x100, n / 0x1_0000 % 0x100, n / 0x100_0000 % 0x100])
      else Refuse(AssertionFailed)
    case SetMonitorName(text) => ChangeText(d, NAME_TYPE, text)
    case SetMonitorSerial(text) => ChangeText(d, SERIAL_TYPE, text)
  }

  function Patch(d: Data, at: nat, bytes: seq<int>): (r: Data)
    requires at + |bytes| <= |d|
    ensures |r| == |d|
    ensures forall i :: 0 <= i < |d| ==> r[i] == if at <= i < at + |bytes| then bytes[i - at] else d[i]
  {
    d[..at] + bytes + d[at + |bytes|..]
  }

  /** A setter that raises leaves the data alone. */
  datatype Result = Result(d: Data, error: Option<Error>)

  function Apply(d: Data, s: Setting): Result
    requires ValidData(d)
  {
    if s.SwitchAudio? then
      match SetAudio(d, s.enabled)
      case Done(d') => Result(d', None)
      case NoBlockFailure => Result(d, Some(NoBlockFound))
      case AssertionFailure => Result(d, Some(AssertionFailed))
    else
      match ChangeOf(d, s)
      case Write(at, bytes) => ChangeInRange(d, s); Result(Patch(d, at, bytes), None)
      case Refuse(e) => Result(d, Some(e))
  }

  /** The setters called one after another, each error caught. */
  function ApplyAll(d: Data, ss: seq<Setting>): (d': Data)
    requires ValidData(d)
    ensures ValidData(d') && |d'| == |d|
    decreases |ss|
  {
    if ss == [] then d
    else
      var before := ApplyAll(d, ss[..|ss| - 1]);
      ApplyValid(before, ss[|ss| - 1]);
      Apply(before, ss[|ss| - 1]).d
  }

  function Get(d: Data, f: Field): Value
    requires ValidData(d)
  {
    match f
    case MfcId =>
      var raw := d[8] * 0x100 + d[9];
      Text([raw / 1024 % 32 + 0x40, raw / 32 % 32 + 0x40, raw % 32 + 0x40])
    case ProductId => Number(d[10] + d[11] * 0x100)
    case Serial => Number(d[12] + d[13] * 0x100 + d[14] * 0x1_0000 + d[15] * 0x100_0000)
    case MonitorName => GetText(d, NAME_TYPE)
    case MonitorSerial => GetText(d, SERIAL_TYPE)
    case Audio =>
      match GetAudio(d)
      case Answer(on) => Flag(on)
      case NoBlock => Failed(NoBlockFound)
      case Broken => Failed(AssertionFailed)
  }

  function GetText(d: Data, dType: int): Value
    requires |d| >= SHORT
  {
    var index := FindText(d, dType);
    if index.None? then Failed(NoBlockFound) else Text(Strip(d[index.value..index.value + TEXT_SIZE]))
  }

  /** What a successful setter is meant to make its getter return. */
  function Meaning(s: Setting): Value {
    match s
    case SetMfcId(letters) => Text(UpperAll(letters))
    case SetProductId(id) => Number(id)
    case SetSerial(n) => Number(n)
    case SetMonitorName(text) => Text(Strip(First13(text)))
    case SetMonitorSerial(text) => Text(Strip(First13(text)))
    case SwitchAudio(enabled) => Flag(enabled)
  }

  // ----- a setter keeps the data well-formed -----

  lemma MfcCodeRange(u: seq<int>)
    requires |u| == 3 && forall c :: c in u ==> 0x41 <= c <= 0x5A
    ensures 0 <= MfcCode(u) < 0x8000
  {
    assert u[0] in u && u[1] in u && u[2] in u;
  }

  lemma PaddedTextBytes(text: seq<int>)
    requires AreBytes(First13(text))
    ensures AreBytes(PaddedText(text))
  {
    var all := First13(text) + [10] + seq(12, _ => 32);
    assert AreBytes(all);
    forall x | x in PaddedText(text) ensures x in all {}
  }

  lemma ChangeInRange(d: Data, s: Setting)
    requires |d| >= SHORT && !s.SwitchAudio? && ChangeOf(d, s).Write?
    ensures var w := ChangeOf(d, s); Placed(w.at, |w.bytes|) && AreBytes(w.bytes)
  {
    match s
    case SetMfcId(letters) =>
    case SetProductId(id) =>
    case SetSerial(n) =>
    case SetMonitorName(text) => PaddedTextBytes(text);
    case SetMonitorSerial(text) => PaddedTextBytes(text);
  }

  lemma PatchValid(d: Data, at: nat, bytes: seq<int>)
    requires ValidData(d) && Placed(at, |bytes|) && AreBytes(bytes)
    ensures ValidData(Patch(d, at, bytes))
  {
    var r := Patch(d, at, bytes);
    forall i | 0 <= i < |r| && i != 127 && i != 255
      ensures IsByte(r[i])
    {
      if at <= i < at + |bytes| { assert bytes[i - at] in bytes; }
    }
  }

  lemma AudioValid(d: Data, enabled: bool)
    requires ValidData(d) && SetAudio(d, enabled).Done?
    ensures ValidData(SetAudio(d, enabled).d) && |SetAudio(d, enabled).d| == |d|
  {
    hide ValidData;
    hide SetAudio;
    hide GetAudio;
    SetAudioTakesEffect(d, enabled);
    SetAudioFrame(d, enabled);
  }

  lemma ApplyValid(d: Data, s: Setting)
    requires ValidData(d)
    ensures ValidData(Apply(d, s).d) && |Apply(d, s).d| == |d|
  {
    hide SetAudio;
    if s.SwitchAudio? {
      if SetAudio(d, s.enabled).Done? {
        AudioValid(d, s.enabled);
      }
    } else if ChangeOf(d, s).Write? {
      ChangeInRange(d, s);
      PatchValid(d, ChangeOf(d, s).at, ChangeOf(d, s).bytes);
    }
  }
}

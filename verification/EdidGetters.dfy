/** Each EDID getter returns what was last set, and setting one field leaves the others alone. */
module EdidGetters {
  import opened Options
  import opened EdidCea
  import opened EdidAudio
  import opened EdidFields
  import opened EdidOrder

  // ----- text -----

  lemma {:induction false} StripRightPadding(s: seq<int>, pad: seq<int>)
    requires forall i :: 0 <= i < |pad| ==> IsSpace(pad[i])
    ensures StripRight(s + pad) == StripRight(s)
    decreases |pad|
  {
    if pad == [] {
      assert s + pad == s;
    } else {
      assert (s + pad)[..|s + pad| - 1] == s + pad[..|pad| - 1];
      StripRightPadding(s, pad[..|pad| - 1]);
    }
  }

  lemma StripPaddedText(text: seq<int>)
    ensures Strip(PaddedText(text)) == Strip(First13(text))
  {
    hide StripLeft;
    hide StripRight;
    var pad := PaddedText(text)[|First13(text)|..];
    assert PaddedText(text) == First13(text) + pad;
    StripRightPadding(First13(text), pad);
  }

  predicate AllSpaces(s: seq<int>) { forall i :: 0 <= i < |s| ==> IsSpace(s[i]) }

  lemma {:induction false} StripRightEnd(s: seq<int>)
    ensures StripRight(s) <= s && AllSpaces(s[|StripRight(s)|..])
    ensures StripRight(s) != [] ==> !IsSpace(StripRight(s)[|StripRight(s)| - 1])
    decreases |s|
  {
    if s != [] && IsSpace(s[|s| - 1]) { StripRightEnd(s[..|s| - 1]); }
  }

  lemma {:induction false} StripLeftEnd(s: seq<int>)
    ensures |StripLeft(s)| <= |s| && s[|s| - |StripLeft(s)|..] == StripLeft(s)
    ensures AllSpaces(s[..|s| - |StripLeft(s)|])
    ensures StripLeft(s) != [] ==> !IsSpace(StripLeft(s)[0])
    decreases |s|
  {
    if s != [] && IsSpace(s[0]) { StripLeftEnd(s[1..]); }
  }

  /** Stripping removes white space only, from both ends, and leaves none there. */
  lemma StripRemovesEnds(s: seq<int>) returns (i: nat, j: nat)
    ensures i <= j <= |s| && Strip(s) == s[i..j] && AllSpaces(s[..i]) && AllSpaces(s[j..])
    ensures Strip(s) != [] ==> !IsSpace(Strip(s)[0]) && !IsSpace(Strip(s)[|Strip(s)| - 1])
  {
    hide StripLeft;
    hide StripRight;
    var t := StripRight(s);
    StripRightEnd(s);
    StripLeftEnd(t);
    i, j := |t| - |Strip(s)|, |t|;
    assert s[..i] == t[..i] && s[i..j] == t[i..];
  }

  // ----- numbers -----

  lemma SplitAndJoin(raw: int)
    requires 0 <= raw < 0x1_0000
    ensures raw / 0x100 % 0x100 * 0x100 + raw % 0x100 == raw
  {}

  lemma FiveBitGroups(a: int, b: int, c: int)
    requires 0 <= a < 32 && 0 <= b < 32 && 0 <= c < 32
    ensures var raw := c + b * 32 + a * 1024; raw / 1024 % 32 == a && raw / 32 % 32 == b && raw % 32 == c
  {
    var raw := c + b * 32 + a * 1024;
    assert raw / 32 == b + a * 32;
    assert raw / 1024 == a;
  }

  lemma MfcReadBack(u: seq<int>)
    requires |u| == 3 && forall c :: c in u ==> 0x41 <= c <= 0x5A
    ensures var raw := MfcCode(u) / 0x100 % 0x100 * 0x100 + MfcCode(u) % 0x100;
            [raw / 1024 % 32 + 0x40, raw / 32 % 32 + 0x40, raw % 32 + 0x40] == u
  {
    assert u[0] in u && u[1] in u && u[2] in u;
    MfcCodeRange(u);
    SplitAndJoin(MfcCode(u));
    FiveBitGroups(u[0] - 0x40, u[1] - 0x40, u[2] - 0x40);
  }

  lemma SerialReadBack(n: int)
    requires 0 <= n <= 0xFFFF_FFFF
    ensures n % 0x100 + n / 0x100 % 0x100 * 0x100 + n / 0x1_0000 % 0x100 * 0x1_0000
            + n / 0x100_0000 % 0x100 * 0x100_0000 == n
  {}

  lemma AudioReadBack(d: Data, s: Setting)
    requires ValidData(d) && s.SwitchAudio?
    requires Apply(d, s).error == None && ValidData(Apply(d, s).d)
    ensures Get(Apply(d, s).d, FieldOf(s)) == Meaning(s)
  {
    hide SetAudio;
    hide GetAudio;
    hide ValidData;
    SetAudioTakesEffect(d, s.enabled);
  }

  lemma TextOfPatched(d: Data, at: nat, text: seq<int>, dType: int)
    requires |d| >= SHORT && FindText(d, dType) == Some(at)
    ensures GetText(Patch(d, at, PaddedText(text)), dType) == Text(Strip(First13(text)))
  {
    hide Strip;
    hide PaddedText;
    var e := Patch(d, at, PaddedText(text));
    PatchSameTypes(d, at, PaddedText(text));
    assert e[at..at + TEXT_SIZE] == PaddedText(text);
    StripPaddedText(text);
  }

  lemma TextReadBack(d: Data, s: Setting)
    requires ValidData(d) && (s.SetMonitorName? || s.SetMonitorSerial?)
    requires Apply(d, s).error == None && ValidData(Apply(d, s).d)
    ensures Get(Apply(d, s).d, FieldOf(s)) == Meaning(s)
  {
    hide Strip;
    hide AreBytes;
    hide FindText;
    hide GetText;
    hide PaddedText;
    hide Patch;
    TextOfPatched(d, ChangeOf(d, s).at, s.text, if s.SetMonitorName? then NAME_TYPE else SERIAL_TYPE);
  }

  lemma NumberReadBack(d: Data, s: Setting)
    requires ValidData(d) && (s.SetProductId? || s.SetSerial?)
    requires Apply(d, s).error == None && ValidData(Apply(d, s).d)
    ensures Get(Apply(d, s).d, FieldOf(s)) == Meaning(s)
  {
    if s.SetSerial? { SerialReadBack(s.serial); }
  }

  lemma LettersReadBack(d: Data, s: Setting)
    requires ValidData(d) && s.SetMfcId?
    requires Apply(d, s).error == None && ValidData(Apply(d, s).d)
    ensures Get(Apply(d, s).d, FieldOf(s)) == Meaning(s)
  {
    hide MfcCode;
    MfcReadBack(UpperAll(s.letters));
  }

  /** After a setter succeeds, its getter returns what was set: for the monitor texts their first
      13 characters, stripped. */
  lemma GetAfterSet(d: Data, s: Setting)
    requires ValidData(d) && Apply(d, s).error == None
    ensures ValidData(Apply(d, s).d) && Get(Apply(d, s).d, FieldOf(s)) == Meaning(s)
  {
    ApplyValid(d, s);
    hide Get;
    hide Meaning;
    hide ValidData;
    hide ChangeOf;
    match s
    case SwitchAudio(enabled) => AudioReadBack(d, s);
    case SetMfcId(_) => LettersReadBack(d, s);
    case SetProductId(_) => NumberReadBack(d, s);
    case SetSerial(_) => NumberReadBack(d, s);
    case SetMonitorName(_) => TextReadBack(d, s);
    case SetMonitorSerial(_) => TextReadBack(d, s);
  }

  // ----- the other fields -----

  /** Where the number fields and the texts lie. */
  function Place(d: Data, f: Field): (p: (nat, nat))
    requires |d| >= SHORT && f != Audio
    ensures p.0 + p.1 <= SHORT
  {
    match f
    case MfcId => (8, 2)
    case ProductId => (10, 2)
    case Serial => (12, 4)
    case MonitorName => var i := FindText(d, NAME_TYPE); if i.None? then (0, 0) else (i.value, TEXT_SIZE)
    case MonitorSerial => var i := FindText(d, SERIAL_TYPE); if i.None? then (0, 0) else (i.value, TEXT_SIZE)
  }

  predicate AgreeOn(d: Data, e: Data, p: (nat, nat)) {
    |d| == |e| && p.0 + p.1 <= |d| && forall i :: p.0 <= i < p.0 + p.1 ==> d[i] == e[i]
  }

  lemma GetDependsOn(d: Data, e: Data, f: Field)
    requires ValidData(d) && ValidData(e) && f != Audio && SameTypes(d, e) && AgreeOn(d, e, Place(d, f))
    ensures Get(d, f) == Get(e, f)
  {
    hide Strip;
    hide ValidData;
    assert |d| >= SHORT;
    if f == MonitorName || f == MonitorSerial {
      var p := Place(d, f);
      assert d[p.0..p.0 + p.1] == e[p.0..p.0 + p.1];
    }
  }

  lemma ChangePlace(d: Data, s: Setting)
    requires |d| >= SHORT && !s.SwitchAudio? && ChangeOf(d, s).Write?
    ensures ChangeOf(d, s).at == Place(d, FieldOf(s)).0 && |ChangeOf(d, s).bytes| == Place(d, FieldOf(s)).1
  {}

  lemma PlacesDisjoint(d: Data, f: Field, g: Field)
    requires |d| >= SHORT && f != Audio && g != Audio && f != g
    ensures var p, q := Place(d, f), Place(d, g);
            p.1 == 0 || q.1 == 0 || p.0 + p.1 <= q.0 || q.0 + q.1 <= p.0
  {}

  lemma AudioDependsOn(d: Data, e: Data)
    requires ValidData(d) && ValidData(e) && |d| == |e| && d[128..] == e[128..]
    ensures Get(d, Audio) == Get(e, Audio)
  {
    hide ParseBlocks;
    hide ParseDtds;
    hide HasTag;
    if |d| == LONG { assert d[128..][3] == e[128..][3]; }
  }

  lemma LowAgrees(d: Data, e: Data, p: (nat, nat))
    requires |d| == |e| >= SHORT && d[..128] == e[..128] && p.0 + p.1 <= SHORT
    ensures AgreeOn(d, e, p)
  {
    assert forall i :: 0 <= i < 128 ==> d[i] == d[..128][i] == e[..128][i] == e[i];
  }

  /** Setting one field leaves what the other getters return alone. */
  lemma GetOtherField(d: Data, s: Setting, f: Field)
    requires ValidData(d) && f != FieldOf(s)
    ensures ValidData(Apply(d, s).d) && Get(Apply(d, s).d, f) == Get(d, f)
  {
    hide SetAudio;
    hide Get;
    var e := Apply(d, s).d;
    ApplyValid(d, s);
    if s.SwitchAudio? {
      AudioApplied(d, s.enabled);
      LowAgrees(d, e, Place(d, f));
      GetDependsOn(d, e, f);
    } else {
      FieldApplied(d, s);
      if f == Audio { AudioDependsOn(d, e); } else { OtherPlace(d, s, f); GetDependsOn(d, e, f); }
    }
  }

  lemma OtherPlace(d: Data, s: Setting, f: Field)
    requires ValidData(d) && f != FieldOf(s) && f != Audio && !s.SwitchAudio?
    ensures AgreeOn(d, Apply(d, s).d, Place(d, f))
  {
    hide Place;
    hide ChangeOf;
    if ChangeOf(d, s).Write? {
      ChangeInRange(d, s);
      ChangePlace(d, s);
      PlacesDisjoint(d, f, FieldOf(s));
    }
  }

  // ----- after any sequence of setters -----

  /** A field that no setter of the sequence names reads as before. */
  lemma {:induction false} UntouchedField(d: Data, ss: seq<Setting>, f: Field)
    requires ValidData(d) && NotAmong(f, ss)
    ensures Get(ApplyAll(d, ss), f) == Get(d, f)
    decreases |ss|
  {
    hide Get;
    hide Apply;
    hide ValidData;
    if ss != [] {
      var init, last := ss[..|ss| - 1], ss[|ss| - 1];
      assert NotAmong(f, init);
      UntouchedField(d, init, f);
      GetOtherField(ApplyAll(d, init), last, f);
    }
  }

  lemma {:induction false} ErrorAfterOthers(d: Data, ss: seq<Setting>, s: Setting)
    requires ValidData(d) && NotAmong(FieldOf(s), ss)
    ensures Apply(ApplyAll(d, ss), s).error == Apply(d, s).error
    decreases |ss|
  {
    hide Apply;
    hide ValidData;
    if ss != [] {
      var init, last := ss[..|ss| - 1], ss[|ss| - 1];
      assert NotAmong(FieldOf(s), init);
      ErrorAfterOthers(d, init, s);
      ErrorIndependent(ApplyAll(d, init), last, s);
    }
  }

  /** After any sequence of setters, each getter returns what the last setter of its field set,
      if that one would have succeeded on the original data. */
  lemma GetAfterSequence(d: Data, before: seq<Setting>, s: Setting, after: seq<Setting>)
    requires ValidData(d) && NotAmong(FieldOf(s), before) && NotAmong(FieldOf(s), after)
    ensures var e := ApplyAll(d, before + [s] + after);
            Get(e, FieldOf(s)) == if Apply(d, s).error == None then Meaning(s) else Get(d, FieldOf(s))
  {
    hide Get;
    hide ValidData;
    var e := ApplyAll(d, before + after);
    MoveToEnd(d, before, s, after);
    ApplyAllSnoc(d, before + after, s);
    NotAmongBoth(FieldOf(s), before, after);
    ErrorAfterOthers(d, before + after, s);
    UntouchedField(d, before + after, FieldOf(s));
    if Apply(e, s).error == None { GetAfterSet(e, s); } else { FailureChangesNothing(e, s); }
  }

  lemma NotAmongBoth(f: Field, a: seq<Setting>, b: seq<Setting>)
    requires NotAmong(f, a) && NotAmong(f, b)
    ensures NotAmong(f, a + b)
  {}

  lemma FailureChangesNothing(d: Data, s: Setting)
    requires ValidData(d) && Apply(d, s).error != None
    ensures Apply(d, s).d == d
  {
    hide SetAudio;
  }
}

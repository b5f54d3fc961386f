/** What the EDID setters promise together: each getter returns what was set, and the order of
    setting different fields does not matter. */
module EdidOrder {
  import opened EdidCea
  import opened EdidAudio
  import opened EdidFields

  // ----- one field and another -----

  /** Equal lengths and descriptor types: all that a setter looks at besides the extension. */
  predicate SameTypes(d: Data, e: Data) {
    |d| >= SHORT && |e| == |d| && d[57] == e[57] && d[75] == e[75] && d[93] == e[93] && d[111] == e[111]
  }

  lemma ChangeStable(d: Data, e: Data, s: Setting)
    requires SameTypes(d, e) && !s.SwitchAudio?
    ensures ChangeOf(d, s) == ChangeOf(e, s)
  {}

  lemma ChangesDisjoint(d: Data, a: Setting, b: Setting)
    requires |d| >= SHORT && FieldOf(a) != FieldOf(b) && !a.SwitchAudio? && !b.SwitchAudio?
    requires ChangeOf(d, a).Write? && ChangeOf(d, b).Write?
    ensures var x, y := ChangeOf(d, a), ChangeOf(d, b);
            x.at + |x.bytes| <= y.at || y.at + |y.bytes| <= x.at
  {}

  lemma PatchSameTypes(d: Data, at: nat, bytes: seq<int>)
    requires |d| >= SHORT && Placed(at, |bytes|)
    ensures SameTypes(d, Patch(d, at, bytes)) && d[128..] == Patch(d, at, bytes)[128..]
  {}

  lemma PatchesCommute(d: Data, i: nat, x: seq<int>, j: nat, y: seq<int>)
    requires i + |x| <= |d| && j + |y| <= |d| && (i + |x| <= j || j + |y| <= i)
    ensures Patch(Patch(d, i, x), j, y) == Patch(Patch(d, j, y), i, x)
  {}

  lemma ReplaceLow(d: Data, bs: seq<Block>, dtds: seq<int>)
    requires |d| == LONG && Fits(bs, dtds)
    ensures ReplaceCea(d, bs, dtds)[..128] == d[..128]
  {
    hide PackAll;
    hide Padded;
    var r := ReplaceCea(d, bs, dtds);
    assert forall i :: 0 <= i < 128 ==> r[i] == d[..CEA + 2][i] == d[i];
  }

  lemma ReplaceHigh(d: Data, e: Data, bs: seq<Block>, dtds: seq<int>)
    requires |d| == |e| == LONG && Fits(bs, dtds) && d[128..] == e[128..]
    ensures ReplaceCea(d, bs, dtds)[128..] == ReplaceCea(e, bs, dtds)[128..]
  {
    hide PackAll;
    hide Padded;
    assert forall i :: 128 <= i < 256 ==> d[i] == d[128..][i - 128] == e[128..][i - 128] == e[i];
    var x, y := ReplaceCea(d, bs, dtds), ReplaceCea(e, bs, dtds);
    assert forall i :: 128 <= i < 256 ==> x[i] == y[i];
  }

  lemma SwitchLow(d: Data, enabled: bool)
    requires |d| == LONG && IsByte(d[CEA + 3])
    ensures SetBasicAudio(d, enabled)[..128] == d[..128]
  {}

  lemma SwitchHigh(d: Data, e: Data, enabled: bool)
    requires |d| == |e| == LONG && IsByte(d[CEA + 3]) && d[128..] == e[128..]
    ensures d[CEA + 3] == e[CEA + 3] && SetBasicAudio(d, enabled)[128..] == SetBasicAudio(e, enabled)[128..]
  {
    assert d[CEA + 3] == d[128..][3] == e[128..][3] == e[CEA + 3];
    assert SetBasicAudio(d, enabled)[128..] == d[128..][3 := WithBasicAudio(d[CEA + 3], enabled)];
    assert SetBasicAudio(e, enabled)[128..] == e[128..][3 := WithBasicAudio(e[CEA + 3], enabled)];
  }

  lemma FlagsKept(d: Data, bs: seq<Block>, dtds: seq<int>)
    requires ValidData(d) && |d| == LONG && Fits(bs, dtds)
    ensures IsByte(ReplaceCea(d, bs, dtds)[CEA + 3])
  {
    hide PackAll;
    hide Padded;
    assert ReplaceCea(d, bs, dtds)[CEA + 3] == d[CEA + 3];
  }

  /** What the audio switch does depends on, and shows in, the extension only. */
  lemma AudioOfExtension(d: Data, e: Data, enabled: bool)
    requires ValidData(d) && ValidData(e) && |d| == |e| && d[128..] == e[128..]
    ensures SetAudio(d, enabled).Done? <==> SetAudio(e, enabled).Done?
    ensures SetAudio(d, enabled).NoBlockFailure? <==> SetAudio(e, enabled).NoBlockFailure?
    ensures SetAudio(d, enabled).Done? ==>
              var d', e' := SetAudio(d, enabled).d, SetAudio(e, enabled).d;
              |d'| == |e'| == |d| == LONG && d'[..128] == d[..128] && e' == e[..128] + d'[128..]
  {
    SameExtension(d, e);
    if SetAudio(d, enabled).Done? {
      var p := ParseCea(d);
      var bs := Switched(p.blocks, enabled);
      ReplaceLow(d, bs, p.dtds);
      ReplaceLow(e, bs, p.dtds);
      ReplaceHigh(d, e, bs, p.dtds);
      FlagsKept(d, bs, p.dtds);
      hide ReplaceCea;
      hide ParseCea;
      hide Switched;
      hide ValidData;
      hide WithBasicAudio;
      var x, y := ReplaceCea(d, bs, p.dtds), ReplaceCea(e, bs, p.dtds);
      SwitchHigh(x, y, enabled);
      SwitchLow(x, enabled);
      SwitchLow(y, enabled);
      hide SetBasicAudio;
      var e' := SetAudio(e, enabled).d;
      assert e' == e'[..128] + e'[128..];
    }
  }

  lemma SameExtension(d: Data, e: Data)
    requires ValidData(d) && ValidData(e) && |d| == |e| && d[128..] == e[128..]
    ensures ParseCea(d) == ParseCea(e)
  {
    hide ParseBlocks;
    hide ParseDtds;
  }

  lemma FieldApplied(d: Data, s: Setting)
    requires ValidData(d) && !s.SwitchAudio?
    ensures ValidData(Apply(d, s).d) && SameTypes(d, Apply(d, s).d) && d[128..] == Apply(d, s).d[128..]
  {
    hide ChangeOf;
    ApplyValid(d, s);
    if ChangeOf(d, s).Write? {
      ChangeInRange(d, s);
      PatchSameTypes(d, ChangeOf(d, s).at, ChangeOf(d, s).bytes);
    }
  }

  lemma AudioApplied(d: Data, enabled: bool)
    requires ValidData(d)
    ensures ValidData(Apply(d, SwitchAudio(enabled)).d) && |Apply(d, SwitchAudio(enabled)).d| == |d|
    ensures Apply(d, SwitchAudio(enabled)).d[..128] == d[..128]
    ensures SameTypes(d, Apply(d, SwitchAudio(enabled)).d)
  {
    hide SetAudio;
    hide ParseCea;
    ApplyValid(d, SwitchAudio(enabled));
    AudioOfExtension(d, d, enabled);
    var e := Apply(d, SwitchAudio(enabled)).d;
    SameTypesOfLow(d, e);
  }

  lemma SameTypesOfLow(d: Data, e: Data)
    requires |d| >= SHORT && |e| == |d| && d[..128] == e[..128]
    ensures SameTypes(d, e)
  {
    assert forall i :: 0 <= i < 128 ==> d[i] == d[..128][i] == e[..128][i] == e[i];
  }

  /** Whether a setter succeeds, and with what error it fails, does not depend on other fields. */
  lemma ErrorIndependent(d: Data, a: Setting, b: Setting)
    requires ValidData(d) && FieldOf(a) != FieldOf(b)
    ensures ValidData(Apply(d, a).d)
    ensures Apply(Apply(d, a).d, b).error == Apply(d, b).error
  {
    hide ValidData;
    hide SetAudio;
    hide ChangeOf;
    ApplyValid(d, a);
    var e := Apply(d, a).d;
    if a.SwitchAudio? {
      AudioApplied(d, a.enabled);
      ChangeStable(d, e, b);
    } else {
      FieldApplied(d, a);
      if b.SwitchAudio? { AudioOfExtension(d, e, b.enabled); } else { ChangeStable(d, e, b); }
    }
  }

  lemma FieldsCommute(d: Data, a: Setting, b: Setting)
    requires ValidData(d) && FieldOf(a) != FieldOf(b) && !a.SwitchAudio? && !b.SwitchAudio?
    ensures ValidData(Apply(d, a).d) && ValidData(Apply(d, b).d)
    ensures Apply(Apply(d, a).d, b).d == Apply(Apply(d, b).d, a).d
  {
    hide ValidData;
    hide ChangeOf;
    hide Patch;
    FieldApplied(d, a);
    FieldApplied(d, b);
    var x, y := ChangeOf(d, a), ChangeOf(d, b);
    ChangeStable(d, Apply(d, a).d, b);
    ChangeStable(d, Apply(d, b).d, a);
    if x.Write? && y.Write? {
      ChangeInRange(d, a);
      ChangeInRange(d, b);
      ChangesDisjoint(d, a, b);
      PatchesCommute(d, x.at, x.bytes, y.at, y.bytes);
    }
  }

  lemma PatchLow(d: Data, e: Data, at: nat, bytes: seq<int>, high: seq<int>)
    requires |d| == LONG && Placed(at, |bytes|) && |high| == 128
    requires e == d[..128] + high
    ensures Patch(e, at, bytes) == Patch(d, at, bytes)[..128] + high
  {}

  lemma AudioCommutes(d: Data, a: Setting, enabled: bool)
    requires ValidData(d) && !a.SwitchAudio?
    ensures var b := SwitchAudio(enabled);
            && ValidData(Apply(d, a).d) && ValidData(Apply(d, b).d)
            && Apply(Apply(d, a).d, b).d == Apply(Apply(d, b).d, a).d
  {
    hide ValidData;
    hide ChangeOf;
    hide Patch;
    hide SetAudio;
    FieldApplied(d, a);
    AudioApplied(d, enabled);
    var e, f := Apply(d, a).d, Apply(d, SwitchAudio(enabled)).d;
    AudioOfExtension(d, e, enabled);
    AudioOfExtension(d, d, enabled);
    ChangeStable(d, f, a);
    var x := ChangeOf(d, a);
    if x.Write? {
      ChangeInRange(d, a);
      if SetAudio(d, enabled).Done? {
        PatchLow(d, f, x.at, x.bytes, f[128..]);
      }
    }
  }

  /** Setting two different fields gives the same bytes in either order. */
  lemma SettersCommute(d: Data, a: Setting, b: Setting)
    requires ValidData(d) && FieldOf(a) != FieldOf(b)
    ensures ValidData(Apply(d, a).d) && ValidData(Apply(d, b).d)
    ensures Apply(Apply(d, a).d, b).d == Apply(Apply(d, b).d, a).d
  {
    hide ValidData;
    hide Apply;
    if a.SwitchAudio? { AudioCommutes(d, b, a.enabled); }
    else if b.SwitchAudio? { AudioCommutes(d, a, b.enabled); }
    else { FieldsCommute(d, a, b); }
  }

  // ----- any order -----

  predicate DistinctFields(ss: seq<Setting>) {
    forall i, j :: 0 <= i < j < |ss| ==> FieldOf(ss[i]) != FieldOf(ss[j])
  }

  predicate NotAmong(f: Field, ss: seq<Setting>) { forall i :: 0 <= i < |ss| ==> FieldOf(ss[i]) != f }

  lemma ApplyAllSnoc(d: Data, ss: seq<Setting>, s: Setting)
    requires ValidData(d)
    ensures ApplyAll(d, ss + [s]) == Apply(ApplyAll(d, ss), s).d
  {
    hide Apply;
    hide ValidData;
    assert (ss + [s])[..|ss + [s]| - 1] == ss;
  }

  lemma {:induction false} MoveToEnd(d: Data, before: seq<Setting>, x: Setting, after: seq<Setting>)
    requires ValidData(d) && NotAmong(FieldOf(x), after)
    ensures ApplyAll(d, before + [x] + after) == ApplyAll(d, before + after + [x])
    decreases |after|
  {
    hide Apply;
    hide ValidData;
    if after == [] {
      assert before + [x] + after == before + after + [x];
    } else {
      var init, last := after[..|after| - 1], after[|after| - 1];
      var e := ApplyAll(d, before + init);
      MoveToEnd(d, before, x, init);
      assert before + [x] + after == (before + [x] + init) + [last];
      assert before + after == (before + init) + [last];
      ApplyAllSnoc(d, before + [x] + init, last);
      ApplyAllSnoc(d, before + init, x);
      ApplyAllSnoc(d, before + init, last);
      ApplyAllSnoc(d, before + after, x);
      SettersCommute(e, x, last);
    }
  }

  lemma HasMember(tt: seq<Setting>)
    ensures tt != [] ==> exists s :: s in tt
  {
    if tt != [] { assert tt[0] in tt; }
  }

  /** Any order of setting distinct fields gives the same bytes. */
  lemma {:induction false} OrderDoesNotMatter(d: Data, ss: seq<Setting>, tt: seq<Setting>)
    requires ValidData(d) && DistinctFields(ss) && DistinctFields(tt)
    requires forall s :: s in ss <==> s in tt
    ensures ApplyAll(d, ss) == ApplyAll(d, tt)
    decreases |ss|
  {
    hide Apply;
    hide ValidData;
    hide FieldOf;
    if ss == [] {
      HasMember(tt);
    } else {
      var init, x := ss[..|ss| - 1], ss[|ss| - 1];
      assert x in tt;
      var i :| 0 <= i < |tt| && tt[i] == x;
      var before, after := tt[..i], tt[i + 1..];
      assert tt == before + [x] + after;
      MoveToEnd(d, before, x, after);
      ApplyAllSnoc(d, before + after, x);
      RestTheSame(init, x, ss, before, after, tt);
      OrderDoesNotMatter(d, init, before + after);
    }
  }

  lemma RestTheSame(init: seq<Setting>, x: Setting, ss: seq<Setting>, before: seq<Setting>, after: seq<Setting>,
                    tt: seq<Setting>)
    requires ss == init + [x] && tt == before + [x] + after && DistinctFields(ss) && DistinctFields(tt)
    requires forall s :: s in ss <==> s in tt
    ensures DistinctFields(init) && DistinctFields(before + after)
    ensures forall s :: s in init <==> s in before + after
  {
    hide FieldOf;
    var rest := before + after;
    forall i, j | 0 <= i < j < |rest| ensures FieldOf(rest[i]) != FieldOf(rest[j]) {
      var i', j' := if i < |before| then i else i + 1, if j < |before| then j else j + 1;
      assert rest[i] == tt[i'] && rest[j] == tt[j'];
    }
    forall i, j | 0 <= i < j < |init| ensures FieldOf(init[i]) != FieldOf(init[j]) {
      assert init[i] == ss[i] && init[j] == ss[j];
    }
    forall s ensures s in init <==> s in rest {
      NotTwice(ss, init, [], x, s);
      NotTwice(tt, before, after, x, s);
      assert init + [x] + [] == ss;
    }
  }

  lemma NotTwice(tt: seq<Setting>, before: seq<Setting>, after: seq<Setting>, x: Setting, s: Setting)
    requires tt == before + [x] + after && DistinctFields(tt)
    ensures s in before + after <==> s in tt && s != x
  {
    hide FieldOf;
    var n := |before|;
    assert tt[n] == x;
    assert forall i :: 0 <= i < n ==> before[i] == tt[i];
    assert forall i :: 0 <= i < |after| ==> after[i] == tt[n + 1 + i];
    assert forall i :: 0 <= i < n ==> FieldOf(before[i]) != FieldOf(x);
    assert forall i :: 0 <= i < |after| ==> FieldOf(after[i]) != FieldOf(x);
  }
}

/** `text_to_evdev_keys`: text compiled to key events with lazily switched modifiers. */
module Printer {
  import opened Options
  import opened Keyboard

  type Codepoint = nat
  type Keysym = nat
  type Symmap = map<Keysym, Keys>

  /** `unicodedata.decomposition`: nothing canonical, or its parts where they are hexadecimal. */
  datatype Decomposition = NotCanonical | Parts(parts: seq<Option<Codepoint>>)

  /** The Unicode tables and libxkbcommon. */
  datatype Unicode = Unicode(
    keysym: Codepoint -> Keysym,
    printable: Codepoint -> bool,
    decomposition: Codepoint -> Decomposition
  )

  const COMBINING_TO_DEAD: map<Codepoint, Keysym> := map[
    0x0300 := 0xFE50, 0x0301 := 0xFE51, 0x0302 := 0xFE52, 0x0303 := 0xFE53, 0x0304 := 0xFE54,
    0x0306 := 0xFE55, 0x0307 := 0xFE56, 0x0308 := 0xFE57, 0x030A := 0xFE58, 0x030B := 0xFE59,
    0x030C := 0xFE5A, 0x0327 := 0xFE5B, 0x0328 := 0xFE5C
  ]

  function TryDeadKeyDecompose(ch: Codepoint, symmap: Symmap, u: Unicode): Option<seq<Keys>> {
    match u.decomposition(ch)
    case NotCanonical => None
    case Parts(parts) =>
      if |parts| != 2 || parts[0].None? || parts[1].None? then None
      else if parts[1].value !in COMBINING_TO_DEAD then None
      else
        var dead, base := COMBINING_TO_DEAD[parts[1].value], u.keysym(parts[0].value);
        if dead in symmap && base in symmap then Some([symmap[dead], symmap[base]]) else None
  }

  function Straighten(ch: Codepoint): Codepoint {
    if ch == 0x201A || ch == 0x2018 || ch == 0x2019 then 0x27
    else if ch == 0x201E || ch == 0x201C || ch == 0x201D then 0x22
    else if ch == 0x2013 || ch == 0x2014 then 0x2D
    else ch
  }

  const PLAIN := Mods(false, false, false)

  /** The key dictionaries to press one after the other for a character. */
  function KeySequence(ch: Codepoint, symmap: Symmap, u: Unicode): seq<Keys> {
    if ch == 0x0A then [[(PLAIN, KEY_ENTER)]]
    else if ch == 0x09 then [[(PLAIN, KEY_TAB)]]
    else if ch == 0x20 then [[(PLAIN, KEY_SPACE)]]
    else
      var c := Straighten(ch);
      if !u.printable(c) then []
      else if u.keysym(c) in symmap then [symmap[u.keysym(c)]]
      else
        var d := TryDeadKeyDecompose(c, symmap, u);
        if d.Some? then d.value else []
  }

  type Stroke = (Mods, Key)

  function StrokesOfKeys(sequence: seq<Keys>): seq<Stroke>
    decreases |sequence|
  {
    if sequence == [] then []
    else
      var c := Chosen(sequence[|sequence| - 1]);
      StrokesOfKeys(sequence[..|sequence| - 1]) + (if c.Some? then [c.value] else [])
  }

  /** What the text means: the chosen entries, character by character. */
  function Strokes(text: seq<Codepoint>, symmap: Symmap, u: Unicode): seq<Stroke>
    decreases |text|
  {
    if text == [] then []
    else Strokes(text[..|text| - 1], symmap, u) + StrokesOfKeys(KeySequence(text[|text| - 1], symmap, u))
  }

  // ----- the emitted events -----

  datatype Held = Held(shift: bool, altgr: bool)

  function After(strokes: seq<Stroke>): Held {
    if strokes == [] then Held(false, false)
    else var m := strokes[|strokes| - 1].0; Held(m.shift, m.altgr)
  }

  function Down(k: Key): Event { Event(k, true) }
  function Up(k: Key): Event { Event(k, false) }

  function SwitchShift(from: bool, to: bool): seq<Event> {
    if to && !from then [Down(KEY_LEFTSHIFT)] else if !to && from then [Up(KEY_LEFTSHIFT)] else []
  }

  function SwitchAltgr(from: bool, to: bool): seq<Event> {
    if to && !from then [Down(KEY_LEFTCTRL), Down(KEY_RIGHTALT)]
    else if !to && from then [Up(KEY_RIGHTALT), Up(KEY_LEFTCTRL)]
    else []
  }

  function Emit(h: Held, s: Stroke): seq<Event> {
    SwitchShift(h.shift, s.0.shift) + SwitchAltgr(h.altgr, s.0.altgr) + [Down(s.1), Up(s.1)]
  }

  function Emitted(strokes: seq<Stroke>): seq<Event>
    decreases |strokes|
  {
    if strokes == [] then []
    else var before := strokes[..|strokes| - 1]; Emitted(before) + Emit(After(before), strokes[|strokes| - 1])
  }

  function Typed(strokes: seq<Stroke>): seq<Event> {
    Emitted(strokes) + SwitchShift(After(strokes).shift, false) + SwitchAltgr(After(strokes).altgr, false)
  }

  lemma EmittedSnoc(strokes: seq<Stroke>, s: Stroke)
    ensures Emitted(strokes + [s]) == Emitted(strokes) + Emit(After(strokes), s)
    ensures After(strokes + [s]) == Held(s.0.shift, s.0.altgr)
  {
    assert (strokes + [s])[..|strokes|] == strokes;
  }

  /** The innermost loop: press the first entry without Ctrl, switching modifiers as needed. */
  method PressFirst(keys: Keys, held: Held) returns (events: seq<Event>, now: Held)
    ensures Chosen(keys).None? ==> events == [] && now == held
    ensures Chosen(keys).Some? ==>
      var s := Chosen(keys).value; events == Emit(held, s) && now == Held(s.0.shift, s.0.altgr)
  {
    events := [];
    var shift, altgr := held.shift, held.altgr;
    for k := 0 to |keys|
      invariant events == [] && Held(shift, altgr) == held
      invariant Chosen(keys) == Chosen(keys[k..])
    {
      var (modifiers, key) := keys[k];
      assert keys[k..][1..] == keys[k + 1..];
      if modifiers.ctrl {
        continue;
      }
      if modifiers.shift && !shift {
        events := events + [Down(KEY_LEFTSHIFT)];
        shift := true;
      } else if !modifiers.shift && shift {
        events := events + [Up(KEY_LEFTSHIFT)];
        shift := false;
      }
      assert events == SwitchShift(held.shift, modifiers.shift);
      if modifiers.altgr && !altgr {
        events := events + [Down(KEY_LEFTCTRL)];
        events := events + [Down(KEY_RIGHTALT)];
        altgr := true;
      } else if !modifiers.altgr && altgr {
        events := events + [Up(KEY_RIGHTALT)];
        events := events + [Up(KEY_LEFTCTRL)];
        altgr := false;
      }
      assert events == SwitchShift(held.shift, modifiers.shift) + SwitchAltgr(held.altgr, modifiers.altgr);
      events := events + [Down(key)];
      events := events + [Up(key)];
      now := Held(shift, altgr);
      return;
    }
    now := held;
  }

  lemma StrokesOfKeysStep(done: seq<Stroke>, sequence: seq<Keys>, j: nat)
    requires j < |sequence|
    ensures done + StrokesOfKeys(sequence[..j + 1]) ==
            done + StrokesOfKeys(sequence[..j]) + (if Chosen(sequence[j]).Some? then [Chosen(sequence[j]).value] else [])
  {
    assert sequence[..j + 1][..j] == sequence[..j];
  }

  method TextToEvdevKeys(text: seq<Codepoint>, symmap: Symmap, u: Unicode) returns (events: seq<Event>)
    ensures events == Typed(Strokes(text, symmap, u))
  {
    hide KeySequence;
    hide Emit;
    events := [];
    var held := Held(false, false);
    for i := 0 to |text|
      invariant events == Emitted(Strokes(text[..i], symmap, u))
      invariant held == After(Strokes(text[..i], symmap, u))
    {
      ghost var done := Strokes(text[..i], symmap, u);
      assert text[..i + 1][..i] == text[..i];
      var sequence := KeySequence(text[i], symmap, u);
      assert done + StrokesOfKeys(sequence[..0]) == done;
      for j := 0 to |sequence|
        invariant events == Emitted(done + StrokesOfKeys(sequence[..j]))
        invariant held == After(done + StrokesOfKeys(sequence[..j]))
      {
        ghost var typed := done + StrokesOfKeys(sequence[..j]);
        StrokesOfKeysStep(done, sequence, j);
        ghost var c := Chosen(sequence[j]);
        if c.Some? { EmittedSnoc(typed, c.value); } else { assert typed + [] == typed; }
        var more;
        more, held := PressFirst(sequence[j], held);
        events := events + more;
      }
      assert sequence[..|sequence|] == sequence;
    }
    assert text[..|text|] == text;
    if held.shift {
      events := events + [Up(KEY_LEFTSHIFT)];
    }
    if held.altgr {
      events := events + [Up(KEY_RIGHTALT)];
      events := events + [Up(KEY_LEFTCTRL)];
    }
  }

  // ----- meaning -----

  function HeldKeys(h: Held): set<Key> {
    (if h.shift then {KEY_LEFTSHIFT} else {}) + (if h.altgr then {KEY_LEFTCTRL, KEY_RIGHTALT} else {})
  }

  function Chords(strokes: seq<Stroke>): (r: seq<Chord>)
    ensures |r| == |strokes|
  {
    seq(|strokes|, i requires 0 <= i < |strokes| =>
      Chord(HeldKeys(Held(strokes[i].0.shift, strokes[i].0.altgr)), strokes[i].1))
  }

  predicate NoModifiers(strokes: seq<Stroke>) { forall s :: s in strokes ==> !IsModifier(s.1) }

  lemma ReplayTwo(h: Host, a: Event, b: Event)
    ensures Replay(h, [a]) == Accept(h, a) && Replay(h, [a, b]) == Accept(Accept(h, a), b)
  {
    assert [a, b][..1] == [a] && [a][..0] == [];
  }

  lemma ShiftReplays(from: bool, to: bool, altgr: bool, chords: seq<Chord>)
    ensures Replay(Host(HeldKeys(Held(from, altgr)), chords, true), SwitchShift(from, to))
            == Host(HeldKeys(Held(to, altgr)), chords, true)
  {
    var h := Host(HeldKeys(Held(from, altgr)), chords, true);
    ReplayTwo(h, Down(KEY_LEFTSHIFT), Down(KEY_LEFTSHIFT));
    ReplayTwo(h, Up(KEY_LEFTSHIFT), Up(KEY_LEFTSHIFT));
    if from != to { assert HeldKeys(Held(to, altgr)) == Replay(h, SwitchShift(from, to)).held; }
  }

  lemma AltgrReplays(from: bool, to: bool, shift: bool, chords: seq<Chord>)
    ensures Replay(Host(HeldKeys(Held(shift, from)), chords, true), SwitchAltgr(from, to))
            == Host(HeldKeys(Held(shift, to)), chords, true)
  {
    var h := Host(HeldKeys(Held(shift, from)), chords, true);
    ReplayTwo(h, Down(KEY_LEFTCTRL), Down(KEY_RIGHTALT));
    ReplayTwo(h, Up(KEY_RIGHTALT), Up(KEY_LEFTCTRL));
    if from != to { assert HeldKeys(Held(shift, to)) == Replay(h, SwitchAltgr(from, to)).held; }
  }

  lemma SwitchReplays(from: Held, to: Held, chords: seq<Chord>)
    ensures Replay(Host(HeldKeys(from), chords, true),
                   SwitchShift(from.shift, to.shift) + SwitchAltgr(from.altgr, to.altgr))
            == Host(HeldKeys(to), chords, true)
  {
    ReplayConcat(Host(HeldKeys(from), chords, true), SwitchShift(from.shift, to.shift), SwitchAltgr(from.altgr, to.altgr));
    ShiftReplays(from.shift, to.shift, from.altgr, chords);
    AltgrReplays(from.altgr, to.altgr, to.shift, chords);
  }

  lemma StrokeReplays(h: Held, s: Stroke, chords: seq<Chord>)
    requires !IsModifier(s.1)
    ensures Replay(Host(HeldKeys(h), chords, true), Emit(h, s))
            == Host(HeldKeys(Held(s.0.shift, s.0.altgr)), chords + Chords([s]), true)
  {
    var to := Held(s.0.shift, s.0.altgr);
    var switch := SwitchShift(h.shift, s.0.shift) + SwitchAltgr(h.altgr, s.0.altgr);
    ReplayConcat(Host(HeldKeys(h), chords, true), switch, [Down(s.1), Up(s.1)]);
    SwitchReplays(h, to, chords);
    ReplayTwo(Host(HeldKeys(to), chords, true), Down(s.1), Up(s.1));
    assert (HeldKeys(to) + {s.1}) - {s.1} == HeldKeys(to);
    assert Chords([s]) == [Chord(HeldKeys(to), s.1)];
  }

  lemma {:induction false} EmittedReplays(strokes: seq<Stroke>)
    requires NoModifiers(strokes)
    ensures Replay(FRESH_HOST, Emitted(strokes)) == Host(HeldKeys(After(strokes)), Chords(strokes), true)
    decreases |strokes|
  {
    if strokes == [] {
      assert HeldKeys(After([])) == {};
    } else {
      var before, s := strokes[..|strokes| - 1], strokes[|strokes| - 1];
      EmittedReplays(before);
      ReplayConcat(FRESH_HOST, Emitted(before), Emit(After(before), s));
      StrokeReplays(After(before), s, Chords(before));
      assert Chords(before) + Chords([s]) == Chords(strokes);
    }
  }

  lemma TypedReplays(strokes: seq<Stroke>)
    requires NoModifiers(strokes)
    ensures Replay(FRESH_HOST, Typed(strokes)) == Host({}, Chords(strokes), true)
  {
    var h := After(strokes);
    var closing := SwitchShift(h.shift, false) + SwitchAltgr(h.altgr, false);
    assert Typed(strokes) == Emitted(strokes) + closing;
    ReplayConcat(FRESH_HOST, Emitted(strokes), closing);
    EmittedReplays(strokes);
    SwitchReplays(h, Held(false, false), Chords(strokes));
  }

  // ----- a chosen key that is itself a modifier -----

  function Presses(events: seq<Event>): nat
    decreases |events|
  {
    if events == [] then 0
    else Presses(events[..|events| - 1]) +
         (if events[|events| - 1].down && !IsModifier(events[|events| - 1].key) then 1 else 0)
  }

  lemma {:induction false} PressesConcat(a: seq<Event>, b: seq<Event>)
    ensures Presses(a + b) == Presses(a) + Presses(b)
    decreases |b|
  {
    if b == [] {
      assert a + b == a;
    } else {
      assert (a + b)[..|a + b| - 1] == a + b[..|b| - 1];
      PressesConcat(a, b[..|b| - 1]);
    }
  }

  lemma {:induction false} ChordsArePresses(h: Host, events: seq<Event>)
    ensures |Replay(h, events).chords| == |h.chords| + Presses(events)
    decreases |events|
  {
    if events != [] { ChordsArePresses(h, events[..|events| - 1]); }
  }

  function Regular(strokes: seq<Stroke>): (n: nat)
    ensures n <= |strokes|
    decreases |strokes|
  {
    if strokes == [] then 0
    else Regular(strokes[..|strokes| - 1]) + (if IsModifier(strokes[|strokes| - 1].1) then 0 else 1)
  }

  lemma EmitPresses(h: Held, s: Stroke)
    ensures Presses(Emit(h, s)) == if IsModifier(s.1) then 0 else 1
  {
    var a, b, c := SwitchShift(h.shift, s.0.shift), SwitchAltgr(h.altgr, s.0.altgr), [Down(s.1), Up(s.1)];
    SwitchPresses(h.shift, s.0.shift);
    SwitchPresses(h.altgr, s.0.altgr);
    PressesConcat(a + b, c);
    PressesConcat(a, b);
    assert c[..1] == [Down(s.1)] && c[..1][..0] == [];
  }

  lemma SwitchPresses(from: bool, to: bool)
    ensures Presses(SwitchShift(from, to)) == 0 && Presses(SwitchAltgr(from, to)) == 0
  {
    var b := SwitchAltgr(from, to);
    if b != [] { assert b[..1] == [b[0]] && b[..1][..0] == []; }
  }

  lemma {:induction false} EmittedPresses(strokes: seq<Stroke>)
    ensures Presses(Emitted(strokes)) == Regular(strokes)
    decreases |strokes|
  {
    if strokes != [] {
      var before, s := strokes[..|strokes| - 1], strokes[|strokes| - 1];
      EmittedPresses(before);
      EmitPresses(After(before), s);
      PressesConcat(Emitted(before), Emit(After(before), s));
    }
  }

  lemma {:induction false} AllRegular(strokes: seq<Stroke>)
    requires Regular(strokes) == |strokes|
    ensures NoModifiers(strokes)
    decreases |strokes|
  {
    if strokes != [] {
      AllRegular(strokes[..|strokes| - 1]);
      assert strokes == strokes[..|strokes| - 1] + [strokes[|strokes| - 1]];
    }
  }

  /** Typing preserves meaning, for every text and symmap, exactly when none of the chosen keys
      is itself a modifier: the host sees the chosen chords in order, no key goes down twice or
      up while up, and everything is released at the end. */
  lemma TypingPreservesMeaning(text: seq<Codepoint>, symmap: Symmap, u: Unicode)
    ensures var strokes := Strokes(text, symmap, u);
      Replay(FRESH_HOST, Typed(strokes)) == Host({}, Chords(strokes), true) <==> NoModifiers(strokes)
  {
    var strokes := Strokes(text, symmap, u);
    if NoModifiers(strokes) {
      TypedReplays(strokes);
    } else {
      if Regular(strokes) == |strokes| { AllRegular(strokes); }
      var h := After(strokes);
      EmittedPresses(strokes);
      SwitchPresses(h.shift, false);
      SwitchPresses(h.altgr, false);
      PressesConcat(Emitted(strokes) + SwitchShift(h.shift, false), SwitchAltgr(h.altgr, false));
      PressesConcat(Emitted(strokes), SwitchShift(h.shift, false));
      ChordsArePresses(FRESH_HOST, Typed(strokes));
    }
  }
}

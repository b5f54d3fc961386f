/** What a character of the text makes the host see, told from the character, the symmap and the
    Unicode tables alone. */
module PrinterMeaning {
  import opened Options
  import opened Keyboard
  import opened Printer

  /** What the host has seen when the text has been typed. */
  function Seen(text: seq<Codepoint>, symmap: Symmap, u: Unicode): seq<Chord> {
    Replay(FRESH_HOST, Typed(Strokes(text, symmap, u))).chords
  }

  /** The first entry without Ctrl: Left Shift for shift, Left Ctrl with Right Alt for AltGr. */
  ghost predicate Types(keys: Keys, chords: seq<Chord>) {
    || (chords == [] && forall i :: 0 <= i < |keys| ==> keys[i].0.ctrl)
    || exists k :: 0 <= k < |keys| && IsFirst(keys, k) &&
         chords == [Chord((if keys[k].0.shift then {42} else {}) + (if keys[k].0.altgr then {29, 100} else {}), keys[k].1)]
  }

  /** One after the other. */
  ghost predicate TypesBoth(first: Keys, second: Keys, chords: seq<Chord>) {
    exists a, b :: chords == a + b && Types(first, a) && Types(second, b)
  }

  predicate IsFirst(keys: Keys, k: int)
    requires 0 <= k < |keys|
  {
    !keys[k].0.ctrl && forall i :: 0 <= i < k ==> keys[i].0.ctrl
  }

  /** The X11 dead key of a combining character. */
  function DeadKey(mark: Codepoint): Option<Keysym> {
    if 0x300 <= mark <= 0x304 then Some(0xFE50 + (mark - 0x300))
    else if 0x306 <= mark <= 0x308 then Some(0xFE55 + (mark - 0x306))
    else if 0x30A <= mark <= 0x30C then Some(0xFE58 + (mark - 0x30A))
    else if 0x327 <= mark <= 0x328 then Some(0xFE5B + (mark - 0x327))
    else None
  }

  /** The character is a base and a mark, and both have keys. */
  predicate Composed(ch: Codepoint, base: Codepoint, mark: Codepoint, symmap: Symmap, u: Unicode) {
    && u.decomposition(ch) == Parts([Some(base), Some(mark)])
    && DeadKey(mark).Some? && DeadKey(mark).value in symmap && u.keysym(base) in symmap
  }

  predicate Typographic(ch: Codepoint) {
    ch in {0x201A, 0x2018, 0x2019, 0x201E, 0x201C, 0x201D, 0x2013, 0x2014}
  }

  predicate Spacing(ch: Codepoint) { ch == 0x0A || ch == 0x09 || ch == 0x20 }

  lemma {:induction false} ChosenFirst(keys: Keys)
    ensures Chosen(keys).None? ==> forall i :: 0 <= i < |keys| ==> keys[i].0.ctrl
    ensures Chosen(keys).Some? ==> exists k :: 0 <= k < |keys| && IsFirst(keys, k) && Chosen(keys).value == keys[k]
  {
    if keys != [] {
      var rest := keys[1..];
      ChosenFirst(rest);
      if !keys[0].0.ctrl {
        assert IsFirst(keys, 0);
      } else if Chosen(rest).Some? {
        var k :| 0 <= k < |rest| && IsFirst(rest, k) && Chosen(rest).value == rest[k];
        assert forall i :: 0 <= i < k + 1 ==> keys[i].0.ctrl by {
          assert forall i :: 1 <= i < k + 1 ==> keys[i] == rest[i - 1];
        }
        assert IsFirst(keys, k + 1);
      } else {
        assert forall i :: 1 <= i < |keys| ==> keys[i] == rest[i - 1];
      }
    }
  }

  function Entry(keys: Keys): seq<Stroke> { if Chosen(keys).Some? then [Chosen(keys).value] else [] }

  lemma EntryTypes(keys: Keys)
    ensures Types(keys, Chords(Entry(keys)))
  {
    ChosenFirst(keys);
    if Chosen(keys).Some? {
      var k :| 0 <= k < |keys| && IsFirst(keys, k) && Chosen(keys).value == keys[k];
      assert Chords(Entry(keys)) == [Chord(HeldKeys(Held(keys[k].0.shift, keys[k].0.altgr)), keys[k].1)];
    }
  }

  lemma OneCharacter(ch: Codepoint, symmap: Symmap, u: Unicode)
    ensures Strokes([ch], symmap, u) == StrokesOfKeys(KeySequence(ch, symmap, u))
  {
    assert [ch][..0] == [];
  }

  lemma OneKey(keys: Keys)
    ensures StrokesOfKeys([keys]) == Entry(keys)
  {
    assert [keys][..0] == [];
  }

  lemma TwoKeys(first: Keys, second: Keys)
    ensures StrokesOfKeys([first, second]) == Entry(first) + Entry(second)
  {
    assert [first, second][..1] == [first];
    OneKey(first);
  }

  lemma DeadKeyTable(mark: Codepoint)
    ensures DeadKey(mark) == if mark in COMBINING_TO_DEAD then Some(COMBINING_TO_DEAD[mark]) else None
  {}

  /** Newline, tab and space are typed with their own keys and no modifier. */
  lemma SpacingIsTyped(symmap: Symmap, u: Unicode)
    ensures Seen([0x0A], symmap, u) == [Chord({}, 28)]
    ensures Seen([0x09], symmap, u) == [Chord({}, 15)]
    ensures Seen([0x20], symmap, u) == [Chord({}, 57)]
  {
    SpacingKey(0x0A, KEY_ENTER, symmap, u);
    SpacingKey(0x09, KEY_TAB, symmap, u);
    SpacingKey(0x20, KEY_SPACE, symmap, u);
  }

  lemma SpacingKey(ch: Codepoint, key: Key, symmap: Symmap, u: Unicode)
    requires KeySequence(ch, symmap, u) == [[(PLAIN, key)]] && !IsModifier(key)
    ensures Seen([ch], symmap, u) == [Chord({}, key)]
  {
    OneCharacter(ch, symmap, u);
    OneKey([(PLAIN, key)]);
    TypedReplays([(PLAIN, key)]);
    assert HeldKeys(Held(false, false)) == {};
  }

  function Ascii(ch: Codepoint): Codepoint
    requires Typographic(ch)
  {
    if ch in {0x201A, 0x2018, 0x2019} then 0x27 else if ch in {0x2013, 0x2014} then 0x2D else 0x22
  }

  lemma AsciiIsStraight(ch: Codepoint)
    requires Typographic(ch)
    ensures Straighten(ch) == Ascii(ch) && Straighten(Ascii(ch)) == Ascii(ch)
    ensures !Spacing(ch) && !Spacing(Ascii(ch))
  {}

  /** Typographic quotes and dashes give the same events as their ASCII characters. */
  lemma TypographicIsStraightened(ch: Codepoint, symmap: Symmap, u: Unicode)
    requires Typographic(ch)
    ensures Typed(Strokes([ch], symmap, u)) == Typed(Strokes([Ascii(ch)], symmap, u))
  {
    AsciiIsStraight(ch);
    hide Straighten;
    hide Typographic;
    hide Ascii;
    hide TryDeadKeyDecompose;
    OneCharacter(ch, symmap, u);
    OneCharacter(Ascii(ch), symmap, u);
  }

  lemma UnprintableIsSkipped(ch: Codepoint, symmap: Symmap, u: Unicode)
    requires !Spacing(ch) && !Typographic(ch) && !u.printable(ch)
    ensures Seen([ch], symmap, u) == []
  {
    OneCharacter(ch, symmap, u);
    TypedReplays([]);
  }

  lemma DirectIsTyped(ch: Codepoint, symmap: Symmap, u: Unicode)
    requires !Spacing(ch) && !Typographic(ch) && u.printable(ch) && u.keysym(ch) in symmap
    requires NoModifiers(Strokes([ch], symmap, u))
    ensures Types(symmap[u.keysym(ch)], Seen([ch], symmap, u))
  {
    var keys := symmap[u.keysym(ch)];
    assert KeySequence(ch, symmap, u) == [keys];
    hide KeySequence;
    OneCharacter(ch, symmap, u);
    OneKey(keys);
    EntryTypes(keys);
    TypedReplays(Entry(keys));
  }

  lemma DecompositionIs(ch: Codepoint, base: Codepoint, mark: Codepoint, symmap: Symmap, u: Unicode)
    requires Composed(ch, base, mark, symmap, u)
    ensures TryDeadKeyDecompose(ch, symmap, u) == Some([symmap[DeadKey(mark).value], symmap[u.keysym(base)]])
  {
    DeadKeyTable(mark);
    hide DeadKey;
  }

  lemma ChordsConcat(a: seq<Stroke>, b: seq<Stroke>)
    ensures Chords(a + b) == Chords(a) + Chords(b)
  {}

  lemma BothAreTyped(first: Keys, second: Keys)
    requires NoModifiers(Entry(first) + Entry(second))
    ensures TypesBoth(first, second, Replay(FRESH_HOST, Typed(Entry(first) + Entry(second))).chords)
  {
    EntryTypes(first);
    EntryTypes(second);
    ChordsConcat(Entry(first), Entry(second));
    TypedReplays(Entry(first) + Entry(second));
    hide Types;
    hide Entry;
    hide Chords;
    hide Replay;
    hide Typed;
    hide NoModifiers;
  }

  lemma ComposedIsTyped(ch: Codepoint, base: Codepoint, mark: Codepoint, symmap: Symmap, u: Unicode)
    requires !Spacing(ch) && !Typographic(ch) && u.printable(ch) && u.keysym(ch) !in symmap
    requires Composed(ch, base, mark, symmap, u) && NoModifiers(Strokes([ch], symmap, u))
    ensures TypesBoth(symmap[DeadKey(mark).value], symmap[u.keysym(base)], Seen([ch], symmap, u))
  {
    hide TypesBoth;
    hide NoModifiers;
    hide DeadKey;
    DecompositionIs(ch, base, mark, symmap, u);
    var first, second := symmap[DeadKey(mark).value], symmap[u.keysym(base)];
    SequenceIs(ch, [first, second], symmap, u);
    hide KeySequence;
    OneCharacter(ch, symmap, u);
    TwoKeys(first, second);
    BothAreTyped(first, second);
  }

  lemma SequenceIs(ch: Codepoint, keys: seq<Keys>, symmap: Symmap, u: Unicode)
    requires !Spacing(ch) && !Typographic(ch) && u.printable(ch) && u.keysym(ch) !in symmap
    requires TryDeadKeyDecompose(ch, symmap, u) == Some(keys)
    ensures KeySequence(ch, symmap, u) == keys
  {
    hide TryDeadKeyDecompose;
  }

  lemma NoDecomposition(ch: Codepoint, symmap: Symmap, u: Unicode)
    requires forall base, mark :: !Composed(ch, base, mark, symmap, u)
    ensures TryDeadKeyDecompose(ch, symmap, u).None?
  {
    var d := u.decomposition(ch);
    if d.Parts? && |d.parts| == 2 && d.parts[0].Some? && d.parts[1].Some? {
      assert d.parts == [Some(d.parts[0].value), Some(d.parts[1].value)];
      DeadKeyTable(d.parts[1].value);
      assert !Composed(ch, d.parts[0].value, d.parts[1].value, symmap, u);
      hide DeadKey;
    }
  }

  lemma UnknownIsSkipped(ch: Codepoint, symmap: Symmap, u: Unicode)
    requires !Spacing(ch) && !Typographic(ch) && u.printable(ch) && u.keysym(ch) !in symmap
    requires forall base, mark :: !Composed(ch, base, mark, symmap, u)
    ensures Seen([ch], symmap, u) == []
  {
    NoDecomposition(ch, symmap, u);
    assert KeySequence(ch, symmap, u) == [];
    OneCharacter(ch, symmap, u);
    TypedReplays([]);
  }

  /** Every other character: nothing if it is not printable; the first entry of its keysym without
      Ctrl if the map has its keysym; otherwise, for a base with a mark, the dead key and then the
      base; and nothing in all other cases. */
  lemma CharacterIsTyped(ch: Codepoint, symmap: Symmap, u: Unicode)
    requires !Spacing(ch) && !Typographic(ch) && NoModifiers(Strokes([ch], symmap, u))
    ensures var chords := Seen([ch], symmap, u);
      && (!u.printable(ch) ==> chords == [])
      && (u.printable(ch) && u.keysym(ch) in symmap ==> Types(symmap[u.keysym(ch)], chords))
      && (u.printable(ch) && u.keysym(ch) !in symmap ==>
            && (forall base, mark :: Composed(ch, base, mark, symmap, u) ==>
                  TypesBoth(symmap[DeadKey(mark).value], symmap[u.keysym(base)], chords))
            && ((forall base, mark :: !Composed(ch, base, mark, symmap, u)) ==> chords == []))
  {
    hide Seen;
    hide Strokes;
    hide NoModifiers;
    hide TypesBoth;
    hide DeadKey;
    if !u.printable(ch) {
      UnprintableIsSkipped(ch, symmap, u);
    } else if u.keysym(ch) in symmap {
      DirectIsTyped(ch, symmap, u);
    } else if base, mark :| Composed(ch, base, mark, symmap, u) {
      forall base, mark | Composed(ch, base, mark, symmap, u)
        ensures TypesBoth(symmap[DeadKey(mark).value], symmap[u.keysym(base)], Seen([ch], symmap, u))
      {
        ComposedIsTyped(ch, base, mark, symmap, u);
      }
    } else {
      UnknownIsSkipped(ch, symmap, u);
    }
  }

  /** The events of one stroke on its own: Left Ctrl goes down before Right Alt and up after it. */
  lemma StrokeAsEvents(mods: Mods, key: Key)
    ensures Typed([(mods, key)]) ==
      (if mods.shift then [Event(42, true)] else [])
      + (if mods.altgr then [Event(29, true), Event(100, true)] else [])
      + [Event(key, true), Event(key, false)]
      + (if mods.shift then [Event(42, false)] else [])
      + (if mods.altgr then [Event(100, false), Event(29, false)] else [])
  {
    EmittedSnoc([], (mods, key));
    assert [] + [(mods, key)] == [(mods, key)];
    assert Emitted([]) == [];
  }

  // ----- the whole text -----

  lemma {:induction false} StrokesConcat(a: seq<Codepoint>, b: seq<Codepoint>, symmap: Symmap, u: Unicode)
    ensures Strokes(a + b, symmap, u) == Strokes(a, symmap, u) + Strokes(b, symmap, u)
    decreases |b|
  {
    hide KeySequence;
    hide StrokesOfKeys;
    if b == [] {
      assert a + b == a;
    } else {
      assert (a + b)[..|a + b| - 1] == a + b[..|b| - 1];
      StrokesConcat(a, b[..|b| - 1], symmap, u);
    }
  }

  /** A text is typed piece by piece: the host sees what it sees of the pieces, in order. */
  lemma TextIsTypedInOrder(a: seq<Codepoint>, b: seq<Codepoint>, symmap: Symmap, u: Unicode)
    requires NoModifiers(Strokes(a + b, symmap, u))
    ensures NoModifiers(Strokes(a, symmap, u)) && NoModifiers(Strokes(b, symmap, u))
    ensures Seen(a + b, symmap, u) == Seen(a, symmap, u) + Seen(b, symmap, u)
  {
    hide Strokes;
    hide Typed;
    StrokesConcat(a, b, symmap, u);
    var x, y := Strokes(a, symmap, u), Strokes(b, symmap, u);
    assert forall s :: s in x || s in y ==> s in x + y;
    TypedReplays(x);
    TypedReplays(y);
    TypedReplays(x + y);
    ChordsConcat(x, y);
  }
}

/** `_read_keyboard_layout` and `build_symmap`: the symmap as a first-wins index over the layout
    file and the built-in table. */
module Keysym {
  import opened Options
  import opened Keyboard
  import opened Printer

  datatype At1Key = At1Key(code: nat, shift: bool, altgr: bool, ctrl: bool)

  /** A line of a layout file with at least two words: the resolved keysym (0 if unknown), the
      code (None if it is not hexadecimal), the flags, and the keysym of the upper-case name. */
  datatype Line = Line(keysym: Keysym, at1: Option<nat>, shift: bool, altgr: bool, ctrl: bool, addUpper: bool, upper: Keysym)

  /** A dictionary in insertion order: its keys, each once, and their values. */
  datatype Layout = Layout(order: seq<Keysym>, keys: map<Keysym, seq<At1Key>>)

  type Item = (Keysym, seq<At1Key>)

  // ----- specification -----

  function OfLine(l: Line, ks: Keysym): seq<At1Key> {
    if l.keysym == 0 || l.at1.None? then []
    else
      (if l.keysym == ks then [At1Key(l.at1.value, l.shift, l.altgr, l.ctrl)] else []) +
      (if l.addUpper && l.upper != 0 && l.upper == ks then [At1Key(l.at1.value, true, false, false)] else [])
  }

  /** What the file says about a keysym, in file order. */
  function OfLines(lines: seq<Line>, ks: Keysym): seq<At1Key>
    decreases |lines|
  {
    if lines == [] then [] else OfLines(lines[..|lines| - 1], ks) + OfLine(lines[|lines| - 1], ks)
  }

  function Modifiers(k: At1Key): Mods { Mods(k.shift, k.altgr, k.ctrl) }

  /** An entry survives when its code is known and it does not ask for itself as a modifier. */
  function Surviving(k: At1Key, evdev: map<nat, Key>): Keys {
    if k.code !in evdev then []
    else
      var e := evdev[k.code];
      if (IsShift(e) && k.shift) || (IsAlt(e) && k.altgr) || (IsCtrl(e) && k.ctrl) then []
      else [(Modifiers(k), e)]
  }

  function SurvivingAll(keys: seq<At1Key>, evdev: map<nat, Key>): Keys
    decreases |keys|
  {
    if keys == [] then [] else SurvivingAll(keys[..|keys| - 1], evdev) + Surviving(keys[|keys| - 1], evdev)
  }

  /** The entries scanned for a keysym, in scanning order. */
  function Entries(items: seq<Item>, ks: Keysym, evdev: map<nat, Key>): Keys
    decreases |items|
  {
    if items == [] then []
    else
      Entries(items[..|items| - 1], ks, evdev) +
      (if items[|items| - 1].0 == ks then SurvivingAll(items[|items| - 1].1, evdev) else [])
  }

  predicate Has(keys: Keys, m: Mods) { exists e :: e in keys && e.0 == m }

  /** `setdefault`, one entry after the other. */
  function SetDefault(keys: Keys, e: (Mods, Key)): Keys { if Has(keys, e.0) then keys else keys + [e] }

  function FirstWins(entries: Keys): Keys
    decreases |entries|
  {
    if entries == [] then [] else SetDefault(FirstWins(entries[..|entries| - 1]), entries[|entries| - 1])
  }

  /** The first entry with these modifiers. */
  function First(keys: Keys, m: Mods): Option<Key> {
    if keys == [] then None else if keys[0].0 == m then Some(keys[0].1) else First(keys[1..], m)
  }

  // ----- the code -----

  ghost predicate ValidLayout(l: Layout) {
    && (forall k :: k in l.order <==> k in l.keys)
    && (forall i, j :: 0 <= i < j < |l.order| ==> l.order[i] != l.order[j])
    && (forall k :: k in l.keys ==> l.keys[k] != [])
  }

  function Get(l: Layout, ks: Keysym): seq<At1Key> { if ks in l.keys then l.keys[ks] else [] }

  method Append(l: Layout, ks: Keysym, k: At1Key) returns (l': Layout)
    requires ValidLayout(l)
    ensures ValidLayout(l')
    ensures forall x :: Get(l', x) == if x == ks then Get(l, x) + [k] else Get(l, x)
  {
    l' := l;
    if ks !in l'.keys {
      l' := Layout(l'.order + [ks], l'.keys[ks := []]);
    }
    l' := l'.(keys := l'.keys[ks := l'.keys[ks] + [k]]);
  }

  method AddLine(layout: Layout, l: Line) returns (layout': Layout)
    requires ValidLayout(layout)
    ensures ValidLayout(layout')
    ensures forall ks :: Get(layout', ks) == Get(layout, ks) + OfLine(l, ks)
  {
    layout' := layout;
    if l.keysym == 0 {
      return;
    }
    if l.at1.None? {
      return;
    }
    layout' := Append(layout', l.keysym, At1Key(l.at1.value, l.shift, l.altgr, l.ctrl));
    if l.addUpper {
      if l.upper != 0 {
        layout' := Append(layout', l.upper, At1Key(l.at1.value, true, false, false));
      }
    }
  }

  method ReadKeyboardLayout(lines: seq<Line>) returns (layout: Layout)
    ensures ValidLayout(layout)
    ensures forall ks :: Get(layout, ks) == OfLines(lines, ks)
  {
    hide ValidLayout;
    hide Get;
    hide OfLine;
    layout := EmptyLayout();
    for i := 0 to |lines|
      invariant ValidLayout(layout)
      invariant forall ks :: Get(layout, ks) == OfLines(lines[..i], ks)
    {
      assert lines[..i + 1][..i] == lines[..i];
      layout := AddLine(layout, lines[i]);
    }
    assert lines[..|lines|] == lines;
  }

  method EmptyLayout() returns (layout: Layout)
    ensures ValidLayout(layout)
    ensures forall ks :: Get(layout, ks) == []
  {
    layout := Layout([], map[]);
  }

  function At(symmap: Symmap, ks: Keysym): Keys { if ks in symmap then symmap[ks] else [] }

  /** The body of the loop over an item's keys. */
  method AddKey(symmap: Symmap, ks: Keysym, key: At1Key, evdev: map<nat, Key>) returns (symmap': Symmap)
    ensures forall x :: x != ks ==> (x in symmap' <==> x in symmap) && At(symmap', x) == At(symmap, x)
    ensures ks in symmap' <==> ks in symmap || Surviving(key, evdev) != []
    ensures At(symmap', ks) ==
            if Surviving(key, evdev) == [] then At(symmap, ks) else SetDefault(At(symmap, ks), Surviving(key, evdev)[0])
  {
    symmap' := symmap;
    if key.code in evdev {
      var evdevCode := evdev[key.code];
      if (IsShift(evdevCode) && key.shift) || (IsAlt(evdevCode) && key.altgr) || (IsCtrl(evdevCode) && key.ctrl) {
        return;
      }
      var modifiers := Mods(key.shift, key.altgr, key.ctrl);
      if ks !in symmap' {
        symmap' := symmap'[ks := []];
      }
      if !Has(symmap'[ks], modifiers) {
        symmap' := symmap'[ks := symmap'[ks] + [(modifiers, evdevCode)]];
      }
    }
  }

  lemma FirstWinsSnoc(entries: Keys, e: (Mods, Key))
    ensures FirstWins(entries + [e]) == SetDefault(FirstWins(entries), e)
  {
    assert (entries + [e])[..|entries|] == entries;
  }

  lemma SurvivingAllStep(before: Keys, keys: seq<At1Key>, i: nat, evdev: map<nat, Key>)
    requires i < |keys|
    ensures before + SurvivingAll(keys[..i + 1], evdev) ==
            before + SurvivingAll(keys[..i], evdev) + Surviving(keys[i], evdev)
    ensures |Surviving(keys[i], evdev)| <= 1
  {
    assert keys[..i + 1][..i] == keys[..i];
  }

  /** One item: `before` is what has been scanned for its keysym so far. */
  method AddKeys(symmap: Symmap, ks: Keysym, keys: seq<At1Key>, evdev: map<nat, Key>, ghost before: Keys)
      returns (symmap': Symmap)
    requires At(symmap, ks) == FirstWins(before) && (ks in symmap <==> before != [])
    ensures forall x :: x != ks ==> (x in symmap' <==> x in symmap) && At(symmap', x) == At(symmap, x)
    ensures ks in symmap' <==> before + SurvivingAll(keys, evdev) != []
    ensures At(symmap', ks) == FirstWins(before + SurvivingAll(keys, evdev))
  {
    hide At;
    hide SetDefault;
    hide Surviving;
    hide FirstWins;
    symmap' := symmap;
    assert before + SurvivingAll(keys[..0], evdev) == before;
    for i := 0 to |keys|
      invariant forall x :: x != ks ==> (x in symmap' <==> x in symmap) && At(symmap', x) == At(symmap, x)
      invariant ks in symmap' <==> before + SurvivingAll(keys[..i], evdev) != []
      invariant At(symmap', ks) == FirstWins(before + SurvivingAll(keys[..i], evdev))
    {
      ghost var scanned, more := before + SurvivingAll(keys[..i], evdev), Surviving(keys[i], evdev);
      SurvivingAllStep(before, keys, i, evdev);
      if more == [] {
        assert scanned + more == scanned;
      } else {
        assert scanned + more == scanned + [more[0]];
        FirstWinsSnoc(scanned, more[0]);
      }
      symmap' := AddKey(symmap', ks, keys[i], evdev);
    }
    assert keys[..|keys|] == keys;
  }

  ghost predicate Indexes(symmap: Symmap, items: seq<Item>, evdev: map<nat, Key>) {
    forall ks :: IndexesAt(symmap, items, ks, evdev)
  }

  /** A keysym is in the map exactly when an entry for it survives, with the first-wins index. */
  predicate IndexesAt(symmap: Symmap, items: seq<Item>, ks: Keysym, evdev: map<nat, Key>) {
    && At(symmap, ks) == FirstWins(Entries(items, ks, evdev))
    && (ks in symmap <==> Entries(items, ks, evdev) != [])
  }

  /** `build_symmap` over the items of the layout file followed by those of the built-in table. */
  method BuildSymmap(items: seq<Item>, evdev: map<nat, Key>) returns (symmap: Symmap)
    ensures Indexes(symmap, items, evdev)
  {
    hide SurvivingAll;
    hide FirstWins;
    symmap := map[];
    assert FirstWins([]) == [] by { FirstWinsEmpty(); }
    for i := 0 to |items|
      invariant Indexes(symmap, items[..i], evdev)
    {
      var (ks, keys) := items[i];
      ghost var before := Entries(items[..i], ks, evdev);
      assert items[..i + 1][..i] == items[..i];
      assert IndexesAt(symmap, items[..i], ks, evdev);
      ghost var old_ := symmap;
      symmap := AddKeys(symmap, ks, keys, evdev, before);
      ghost var scanned := items[..i + 1];
      forall x ensures IndexesAt(symmap, scanned, x, evdev) {
        assert IndexesAt(old_, items[..i], x, evdev);
        assert x != ks ==> Entries(scanned, x, evdev) == Entries(items[..i], x, evdev);
      }
    }
    assert items[..|items|] == items;
  }

  lemma FirstWinsEmpty()
    ensures FirstWins([]) == []
  {}

  // ----- main results -----

  lemma {:induction false} FirstSnoc(keys: Keys, e: (Mods, Key), m: Mods)
    ensures First(keys + [e], m) == if First(keys, m).Some? then First(keys, m) else if e.0 == m then Some(e.1) else None
  {
    if keys == [] {
      assert keys + [e] == [e];
    } else {
      assert (keys + [e])[1..] == keys[1..] + [e];
      FirstSnoc(keys[1..], e, m);
    }
  }

  lemma {:induction false} HasIsFirst(keys: Keys, m: Mods)
    ensures Has(keys, m) <==> First(keys, m).Some?
  {
    if keys != [] {
      HasIsFirst(keys[1..], m);
      assert keys == [keys[0]] + keys[1..];
      assert keys[0] in keys && forall e :: e in keys[1..] ==> e in keys;
    }
  }

  lemma {:induction false} ChosenSnoc(keys: Keys, e: (Mods, Key))
    ensures Chosen(keys + [e]) == if Chosen(keys).Some? then Chosen(keys) else if !e.0.ctrl then Some(e) else None
  {
    if keys == [] {
      assert keys + [e] == [e];
    } else {
      assert (keys + [e])[1..] == keys[1..] + [e];
      ChosenSnoc(keys[1..], e);
    }
  }

  lemma {:induction false} ChosenIsIn(keys: Keys)
    ensures Chosen(keys).Some? ==> Chosen(keys).value in keys && !Chosen(keys).value.0.ctrl
    ensures Chosen(keys).None? ==> forall e :: e in keys ==> e.0.ctrl
  {
    if keys != [] {
      ChosenIsIn(keys[1..]);
      assert keys == [keys[0]] + keys[1..];
    }
  }

  /** The index keeps, for each set of modifiers, the first entry, and its first entry without
      Ctrl is the first such entry that was scanned. */
  lemma {:induction false} FirstWinsKeepsFirst(entries: Keys, m: Mods)
    ensures First(FirstWins(entries), m) == First(entries, m)
    ensures Chosen(FirstWins(entries)) == Chosen(entries)
    decreases |entries|
  {
    if entries != [] {
      var before, e := entries[..|entries| - 1], entries[|entries| - 1];
      assert entries == before + [e];
      FirstWinsKeepsFirst(before, m);
      FirstSnoc(before, e, m);
      FirstSnoc(FirstWins(before), e, m);
      HasIsFirst(FirstWins(before), e.0);
      ChosenSnoc(before, e);
      ChosenSnoc(FirstWins(before), e);
      ChosenIsIn(FirstWins(before));
    }
  }

  ghost function Items(l: Layout): seq<Item>
    requires ValidLayout(l)
  {
    seq(|l.order|, i requires 0 <= i < |l.order| => (assert l.order[i] in l.order; (l.order[i], l.keys[l.order[i]])))
  }

  /** The line gives this keysym this key: as it is written, or with Shift for the upper-case name. */
  predicate Gives(l: Line, ks: Keysym, k: At1Key) {
    && l.keysym != 0 && l.at1 == Some(k.code)
    && ((l.keysym == ks && k.shift == l.shift && k.altgr == l.altgr && k.ctrl == l.ctrl)
        || (l.addUpper && l.upper == ks && ks != 0 && k.shift && !k.altgr && !k.ctrl))
  }

  /** What the file says about a keysym is what some line gives it. */
  lemma {:induction false} FileGives(lines: seq<Line>, ks: Keysym, k: At1Key)
    ensures k in OfLines(lines, ks) <==> exists l :: l in lines && Gives(l, ks, k)
    decreases |lines|
  {
    if lines != [] {
      var init, last := lines[..|lines| - 1], lines[|lines| - 1];
      FileGives(init, ks, k);
      assert lines == init + [last];
      assert k in OfLine(last, ks) <==> Gives(last, ks, k);
    }
  }

  /** The key is typed with these modifiers, none of which it is itself: 42 and 54 are Shift, 56 and
      100 Alt, 29 and 97 Ctrl. */
  predicate Types(k: At1Key, evdev: map<nat, Key>, e: (Mods, Key)) {
    && k.code in evdev && e == (Mods(k.shift, k.altgr, k.ctrl), evdev[k.code])
    && !(k.shift && e.1 in {42, 54}) && !(k.altgr && e.1 in {56, 100}) && !(k.ctrl && e.1 in {29, 97})
  }

  /** An entry survives exactly if some key is typed so. */
  lemma {:induction false} SurvivingTypes(keys: seq<At1Key>, evdev: map<nat, Key>, e: (Mods, Key))
    ensures e in SurvivingAll(keys, evdev) <==> exists k :: k in keys && Types(k, evdev, e)
    decreases |keys|
  {
    if keys != [] {
      var init, last := keys[..|keys| - 1], keys[|keys| - 1];
      SurvivingTypes(init, evdev, e);
      assert keys == init + [last];
      assert e in Surviving(last, evdev) <==> Types(last, evdev, e);
    }
  }

  lemma {:induction false} EntriesConcat(a: seq<Item>, b: seq<Item>, ks: Keysym, evdev: map<nat, Key>)
    ensures Entries(a + b, ks, evdev) == Entries(a, ks, evdev) + Entries(b, ks, evdev)
    decreases |b|
  {
    if b == [] {
      assert a + b == a;
    } else {
      assert (a + b)[..|a + b| - 1] == a + b[..|b| - 1];
      EntriesConcat(a, b[..|b| - 1], ks, evdev);
    }
  }

  lemma {:induction false} EntriesOfPrefix(l: Layout, n: nat, ks: Keysym, evdev: map<nat, Key>)
    requires ValidLayout(l) && n <= |l.order|
    ensures Entries(Items(l)[..n], ks, evdev) ==
            if ks in l.order[..n] then SurvivingAll(Get(l, ks), evdev) else []
  {
    hide SurvivingAll;
    if n > 0 {
      EntriesOfPrefix(l, n - 1, ks, evdev);
      assert Items(l)[..n][..n - 1] == Items(l)[..n - 1];
      assert l.order[..n] == l.order[..n - 1] + [l.order[n - 1]];
    }
  }

  /** What is typed for a keysym: the first entry without Ctrl in the layout file, in file
      order, and only then in the built-in table; likewise for every set of modifiers. */
  lemma TypedEntry(lines: seq<Line>, layout: Layout, builtin: Layout, symmap: Symmap, ks: Keysym, evdev: map<nat, Key>)
    requires ValidLayout(layout) && ValidLayout(builtin)
    requires forall k :: Get(layout, k) == OfLines(lines, k)
    requires Indexes(symmap, Items(layout) + Items(builtin), evdev)
    ensures var scanned := SurvivingAll(OfLines(lines, ks), evdev) + SurvivingAll(Get(builtin, ks), evdev);
      && (ks in symmap <==> scanned != [])
      && (ks in symmap ==> Chosen(symmap[ks]) == Chosen(scanned))
      && (ks in symmap ==> forall m :: First(symmap[ks], m) == First(scanned, m))
  {
    EntriesConcat(Items(layout), Items(builtin), ks, evdev);
    EntriesOfLayout(layout, ks, evdev);
    EntriesOfLayout(builtin, ks, evdev);
    var scanned := SurvivingAll(OfLines(lines, ks), evdev) + SurvivingAll(Get(builtin, ks), evdev);
    assert IndexesAt(symmap, Items(layout) + Items(builtin), ks, evdev);
    forall m ensures First(FirstWins(scanned), m) == First(scanned, m) { FirstWinsKeepsFirst(scanned, m); }
    FirstWinsKeepsFirst(scanned, PLAIN);
  }

  lemma EntriesOfLayout(l: Layout, ks: Keysym, evdev: map<nat, Key>)
    requires ValidLayout(l)
    ensures Entries(Items(l), ks, evdev) == SurvivingAll(Get(l, ks), evdev)
  {
    EntriesOfPrefix(l, |l.order|, ks, evdev);
    assert Items(l)[..|l.order|] == Items(l) && l.order[..|l.order|] == l.order;
  }
}

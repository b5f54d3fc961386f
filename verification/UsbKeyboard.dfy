/** The USB keyboard report of the HID firmware: six key slots and a byte of modifiers. */
module UsbKeyboard {
  const SLOTS := 6
  const CONTROL_LEFT := 0xE0
  const GUI_RIGHT := 0xE7

  /** Key codes as the command layer passes them on: never 0. */
  type Key = k: int | 0 < k <= 0xFF witness 1

  predicate IsModifier(k: Key) { CONTROL_LEFT <= k <= GUI_RIGHT }

  datatype Report = Report(mods: bv8, slots: seq<int>)

  /** `host` is the last report that the host took; `sent` tells that none is waiting. */
  datatype State = State(mods: bv8, slots: seq<int>, sent: bool, host: Report)

  const BLANK := [0, 0, 0, 0, 0, 0]

  function Init(): State { State(0, BLANK, true, Report(0, BLANK)) }

  /** What the bus does with a report. */
  datatype Bus = Bus(suspended: bool, accepts: bool)

  datatype Event = KeyEvent(key: Key, state: bool, bus: Bus) | Clear(bus: Bus) | Task(force: bool, bus: Bus)

  // ----- modifiers -----

  function Mask(i: int): bv8
    requires 0 <= i < 8
  {
    match i
    case 0 => 1
    case 1 => 2
    case 2 => 4
    case 3 => 8
    case 4 => 0x10
    case 5 => 0x20
    case 6 => 0x40
    case _ => 0x80
  }

  /** Bit `i` of the report's modifier byte, the lowest being bit 0. */
  predicate Bit(m: bv8, i: int)
    requires 0 <= i < 8
  {
    (m >> i) & 1 == 1
  }

  function WithMod(m: bv8, k: Key, state: bool): bv8
    requires IsModifier(k)
  {
    if state then m | Mask(k - CONTROL_LEFT) else m & !Mask(k - CONTROL_LEFT)
  }

  // ----- slots -----

  /** The last free slot before `n`, or slot 0. */
  function LastFree(slots: seq<int>, n: nat): (i: nat)
    requires n <= |slots|
    ensures n > 0 ==> i < n
    ensures (exists j :: 0 <= j < n && slots[j] == 0) ==> i < n && slots[i] == 0
    ensures forall j :: i < j < n ==> slots[j] != 0
    ensures n > 0 && slots[i] != 0 ==> i == 0
  {
    if n == 0 then 0 else if slots[n - 1] == 0 then n - 1 else LastFree(slots, n - 1)
  }

  function Pressed(slots: seq<int>, k: Key): (r: seq<int>)
    requires |slots| == SLOTS
    ensures |r| == SLOTS
  {
    if k in slots then slots else slots[LastFree(slots, SLOTS) := k]
  }

  function IndexOf(slots: seq<int>, k: int): (i: nat)
    ensures i <= |slots| && (forall j :: 0 <= j < i ==> slots[j] != k)
    ensures i < |slots| ==> slots[i] == k
  {
    if slots == [] || slots[0] == k then 0 else IndexOf(slots[1..], k) + 1
  }

  function Released(slots: seq<int>, k: Key): (r: seq<int>)
    ensures |r| == |slots|
  {
    var i := IndexOf(slots, k);
    if i < |slots| then slots[i := 0] else slots
  }

  // ----- steps -----

  function Sync(s: State, changed: bool, bus: Bus): State {
    var sent := s.sent && !changed;
    if sent || bus.suspended then s.(sent := sent)
    else if bus.accepts then s.(sent := true, host := Report(s.mods, s.slots))
    else s.(sent := false)
  }

  function Touched(s: State, k: Key, state: bool): State
    requires |s.slots| == SLOTS
  {
    if IsModifier(k) then s.(mods := WithMod(s.mods, k, state))
    else s.(slots := if state then Pressed(s.slots, k) else Released(s.slots, k))
  }

  function Next(s: State, e: Event): (n: State)
    requires |s.slots| == SLOTS
    ensures |n.slots| == SLOTS
  {
    match e
    case KeyEvent(k, state, bus) => Sync(Touched(s, k, state), true, bus)
    case Clear(bus) => Sync(s.(mods := 0, slots := BLANK), true, bus)
    case Task(force, bus) => Sync(s, force, bus)
  }

  function Run(es: seq<Event>): (s: State)
    ensures |s.slots| == SLOTS
    decreases |es|
  {
    if es == [] then Init() else Next(Run(es[..|es| - 1]), es[|es| - 1])
  }

  // ----- what is held -----

  function HeldAfter(held: set<Key>, e: Event): set<Key> {
    match e
    case KeyEvent(k, state, _) => if state then held + {k} else held - {k}
    case Clear(_) => {}
    case Task(_, _) => held
  }

  function Held(es: seq<Event>): set<Key>
    decreases |es|
  {
    if es == [] then {} else HeldAfter(Held(es[..|es| - 1]), es[|es| - 1])
  }

  function Regular(held: set<Key>): set<int> { set k: Key | k in held && !(0xE0 <= k <= 0xE7) :: k as int }

  function SlotSet(slots: seq<int>): set<int> { set k | k in slots && k != 0 }

  predicate DistinctSlots(slots: seq<int>) {
    forall i, j :: 0 <= i < j < |slots| && slots[i] != 0 ==> slots[i] != slots[j]
  }

  /** Bit 0 is the usage 0xE0, Left Control, and so on up to bit 7 for 0xE7, Right GUI (section 8.3
      of HID 1.11). */
  predicate ModsExact(mods: bv8, held: set<Key>) {
    forall k: Key :: 0xE0 <= k <= 0xE7 ==> (Bit(mods, k - 0xE0) <==> k in held)
  }

  predicate Inv(s: State, held: set<Key>) {
    && |s.slots| == SLOTS && DistinctSlots(s.slots)
    && SlotSet(s.slots) <= Regular(held)
    && ModsExact(s.mods, held)
    && (s.sent ==> s.host == Report(s.mods, s.slots))
  }

  lemma SetBit(m: bv8, i: int, j: int)
    requires 0 <= i < 8 && 0 <= j < 8
    ensures Bit(m | Mask(i), j) <==> Bit(m, j) || i == j
    ensures Bit(m & !Mask(i), j) <==> Bit(m, j) && i != j
  {
    BitByMask(m | Mask(i), j);
    BitByMask(m & !Mask(i), j);
    BitByMask(m, j);
    hide Bit;
  }

  lemma BitByMask(m: bv8, j: int)
    requires 0 <= j < 8
    ensures Bit(m, j) <==> m & Mask(j) != 0
  {
    match j
    case 0 => assert (m >> 0) & 1 == m & 1;
    case 1 => assert (m >> 1) & 1 == 1 <==> m & 2 != 0;
    case 2 => assert (m >> 2) & 1 == 1 <==> m & 4 != 0;
    case 3 => assert (m >> 3) & 1 == 1 <==> m & 8 != 0;
    case 4 => assert (m >> 4) & 1 == 1 <==> m & 0x10 != 0;
    case 5 => assert (m >> 5) & 1 == 1 <==> m & 0x20 != 0;
    case 6 => assert (m >> 6) & 1 == 1 <==> m & 0x40 != 0;
    case 7 => assert (m >> 7) & 1 == 1 <==> m & 0x80 != 0;
  }

  lemma ModStep(m: bv8, held: set<Key>, k: Key, state: bool)
    requires IsModifier(k) && ModsExact(m, held)
    ensures ModsExact(WithMod(m, k, state), if state then held + {k} else held - {k})
  {
    hide Bit;
    hide Mask;
    var held' := if state then held + {k} else held - {k};
    forall j: Key | IsModifier(j) ensures Bit(WithMod(m, k, state), j - CONTROL_LEFT) <==> j in held' {
      SetBit(m, k - CONTROL_LEFT, j - CONTROL_LEFT);
    }
  }

  lemma PressStep(slots: seq<int>, k: Key)
    requires |slots| == SLOTS && DistinctSlots(slots)
    ensures DistinctSlots(Pressed(slots, k)) && SlotSet(Pressed(slots, k)) <= SlotSet(slots) + {k}
    ensures 0 in slots || k in slots ==> SlotSet(Pressed(slots, k)) == SlotSet(slots) + {k}
  {
    if k !in slots {
      var i := LastFree(slots, SLOTS);
      var r := slots[i := k];
      assert forall x :: x in r ==> x in slots || x == k;
      assert r[i] == k;
      if 0 in slots {
        assert slots[i] == 0;
        forall x | x in SlotSet(slots) ensures x in r {
          var j :| 0 <= j < |slots| && slots[j] == x;
          assert r[j] == x;
        }
      }
    }
  }

  lemma ReleaseStep(slots: seq<int>, k: Key)
    requires |slots| == SLOTS && DistinctSlots(slots)
    ensures DistinctSlots(Released(slots, k)) && SlotSet(Released(slots, k)) == SlotSet(slots) - {k}
  {
    var i := IndexOf(slots, k);
    var r := Released(slots, k);
    if i < |slots| {
      assert forall x :: x in r ==> x in slots || x == 0;
      assert forall j :: 0 <= j < |slots| && j != i ==> r[j] == slots[j] && r[j] != k;
      forall x | x in SlotSet(slots) && x != k ensures x in r {
        var j :| 0 <= j < |slots| && slots[j] == x;
        assert r[j] == x;
      }
    }
  }

  lemma RegularStep(held: set<Key>, k: Key)
    ensures Regular(held + {k}) == Regular(held) + (if IsModifier(k) then {} else {k as int})
    ensures Regular(held - {k}) == Regular(held) - (if IsModifier(k) then {} else {k as int})
  {
    forall x | x in Regular(held) && x != k ensures x in Regular(held - {k}) {
      assert (x as Key) in held - {k};
    }
  }

  lemma ModsUntouched(m: bv8, held: set<Key>, k: Key)
    requires ModsExact(m, held) && !IsModifier(k)
    ensures ModsExact(m, held + {k}) && ModsExact(m, held - {k})
  {
    hide Bit;
  }

  lemma StepKeepsInv(s: State, held: set<Key>, e: Event)
    requires Inv(s, held)
    ensures Inv(Next(s, e), HeldAfter(held, e))
  {
    hide ModsExact;
    hide DistinctSlots;
    hide SlotSet;
    hide Regular;
    hide WithMod;
    hide Pressed;
    hide Released;
    match e {
      case KeyEvent(k, state, bus) =>
        RegularStep(held, k);
        if IsModifier(k) {
          ModStep(s.mods, held, k, state);
        } else {
          ModsUntouched(s.mods, held, k);
          PressStep(s.slots, k);
          ReleaseStep(s.slots, k);
        }
      case Clear(bus) => ClearedInv();
      case Task(force, bus) =>
    }
  }

  lemma ClearedInv()
    ensures DistinctSlots(BLANK) && SlotSet(BLANK) == {} && Regular({}) == {} && ModsExact(0, {})
  {
    assert forall k: Key :: IsModifier(k) ==> !Bit(0, k - CONTROL_LEFT);
  }

  /** At every moment: no key takes two slots, only held keys take slots, the modifier byte is
      exactly the held modifiers, and when no report is waiting the host has the current one. */
  lemma {:induction false} ReportsOnlyHeldKeys(es: seq<Event>)
    ensures Inv(Run(es), Held(es))
    decreases |es|
  {
    hide Next;
    hide ModsExact;
    hide DistinctSlots;
    hide SlotSet;
    hide Regular;
    if es == [] {
      ClearedInv();
    } else {
      ReportsOnlyHeldKeys(es[..|es| - 1]);
      StepKeepsInv(Run(es[..|es| - 1]), Held(es[..|es| - 1]), es[|es| - 1]);
    }
  }

  /** After every event that finds the bus awake and accepting, nothing waits: the host has the
      current report, and it shows the held modifiers and held keys only. */
  lemma ReportIsDelivered(es: seq<Event>)
    requires es != [] && !es[|es| - 1].bus.suspended && es[|es| - 1].bus.accepts
    ensures var s := Run(es);
      && s.sent && s.host == Report(s.mods, s.slots)
      && ModsExact(s.host.mods, Held(es)) && SlotSet(s.host.slots) <= Regular(Held(es))
  {
    hide ModsExact;
    ReportsOnlyHeldKeys(es);
  }

  // ----- when every held key is reported -----

  /** Since the last clear, never more than six regular keys were held at once. */
  predicate FewKeys(es: seq<Event>)
    decreases |es|
  {
    es == [] || es[|es| - 1].Clear? || (FewKeys(es[..|es| - 1]) && |Regular(Held(es))| <= SLOTS)
  }

  /** Since the last clear, the slots were always exactly the held regular keys. */
  predicate AlwaysReported(es: seq<Event>)
    decreases |es|
  {
    es == [] || es[|es| - 1].Clear?
    || (AlwaysReported(es[..|es| - 1]) && SlotSet(Run(es).slots) == Regular(Held(es)))
  }

  lemma {:induction false} SlotCount(slots: seq<int>)
    ensures |SlotSet(slots)| <= |slots|
    ensures DistinctSlots(slots) && 0 !in slots ==> |SlotSet(slots)| == |slots|
    decreases |slots|
  {
    if slots != [] {
      var init, last := slots[..|slots| - 1], slots[|slots| - 1];
      SlotCount(init);
      assert forall x :: x in slots <==> x in init || x == last;
      assert SlotSet(slots) == SlotSet(init) + (if last == 0 then {} else {last});
      if DistinctSlots(slots) && 0 !in slots {
        assert forall i :: 0 <= i < |init| ==> init[i] == slots[i] && slots[i] in slots;
        assert last !in SlotSet(init);
      }
    }
  }

  lemma MatchStep(s: State, held: set<Key>, e: Event)
    requires Inv(s, held) && SlotSet(s.slots) == Regular(held) && |Regular(HeldAfter(held, e))| <= SLOTS
    ensures SlotSet(Next(s, e).slots) == Regular(HeldAfter(held, e))
  {
    hide ModsExact;
    hide DistinctSlots;
    hide SlotSet;
    hide Regular;
    hide WithMod;
    hide Pressed;
    hide Released;
    match e {
      case KeyEvent(k, state, bus) =>
        RegularStep(held, k);
        if !IsModifier(k) {
          PressStep(s.slots, k);
          ReleaseStep(s.slots, k);
          if state { RoomFor(s.slots, k); }
        }
      case Clear(bus) => ClearedInv();
      case Task(force, bus) =>
    }
  }

  lemma RoomFor(slots: seq<int>, k: Key)
    requires |slots| == SLOTS && DistinctSlots(slots)
    ensures 0 !in slots && k !in slots ==> |SlotSet(slots) + {k as int}| == SLOTS + 1
  {
    hide DistinctSlots;
    SlotCount(slots);
    assert k in SlotSet(slots) ==> k in slots;
  }

  /** Every held key is reported, at every moment since the last clear, exactly if never more than
      six regular keys were held at once since then. */
  lemma {:induction false} ReportedExactlyIfFew(es: seq<Event>)
    ensures AlwaysReported(es) <==> FewKeys(es)
    ensures FewKeys(es) ==> SlotSet(Run(es).slots) == Regular(Held(es))
    decreases |es|
  {
    hide Next;
    hide SlotSet;
    hide Regular;
    hide ModsExact;
    hide DistinctSlots;
    if es == [] {
      ClearedInv();
    } else {
      var before, e := es[..|es| - 1], es[|es| - 1];
      ReportedExactlyIfFew(before);
      ReportsOnlyHeldKeys(before);
      SlotCount(Run(es).slots);
      if e.Clear? {
        ClearedMatches(Run(before), e);
      } else if FewKeys(before) && |Regular(Held(es))| <= SLOTS {
        MatchStep(Run(before), Held(before), e);
      }
    }
  }

  lemma ClearedMatches(s: State, e: Event)
    requires |s.slots| == SLOTS && e.Clear?
    ensures SlotSet(Next(s, e).slots) == {} && Regular(HeldAfter({}, e)) == {}
  {
    ClearedInv();
  }

  // ----- the firmware's variables -----

  class Keyboard {
    const slots: array<int>
    var mods: bv8
    var sent: bool
    ghost var host: Report

    ghost predicate Valid()
      reads this
    {
      slots.Length == SLOTS
    }

    ghost function View(): State
      reads this, slots
    {
      State(mods, slots[..], sent, host)
    }

    constructor ()
      ensures Valid() && fresh(slots) && View() == Init()
    {
      slots := new int[SLOTS](_ => 0);
      mods, sent, host := 0, true, Report(0, BLANK);
      new;
      assert slots[..] == BLANK;
    }

    method SyncReport(changed: bool, bus: Bus)
      requires Valid()
      modifies this
      ensures View() == Sync(old(View()), changed, bus)
    {
      if changed {
        sent := false;
      }
      if !sent && !bus.suspended {
        sent := bus.accepts;
        if sent {
          host := Report(mods, slots[..]);
        }
      }
    }

    method Press(k: Key)
      requires Valid()
      modifies slots
      ensures slots[..] == Pressed(old(slots[..]), k)
    {
      var pos := -1;
      for i := 0 to SLOTS
        invariant slots[..] == old(slots[..]) && forall j :: 0 <= j < i ==> slots[j] != k
        invariant pos < i && (if pos >= 0 then pos else 0) == LastFree(slots[..], i)
      {
        if slots[i] == k {
          assert slots[..][i] == k;
          return;
        } else if slots[i] == 0 {
          pos := i;
        }
      }
      assert k !in slots[..];
      slots[if pos >= 0 then pos else 0] := k;
    }

    method Release(k: Key)
      requires Valid()
      modifies slots
      ensures slots[..] == Released(old(slots[..]), k)
    {
      ghost var was := slots[..];
      for i := 0 to SLOTS
        invariant slots[..] == was && forall j :: 0 <= j < i ==> was[j] != k
      {
        if slots[i] == k {
          slots[i] := 0;
          FirstAt(was, k, i);
          return;
        }
      }
    }

    static lemma FirstAt(slots: seq<int>, k: int, i: nat)
      requires i < |slots| && slots[i] == k && forall j :: 0 <= j < i ==> slots[j] != k
      ensures IndexOf(slots, k) == i
    {
      assert IndexOf(slots, k) <= i;
    }

    method SetModifier(k: Key, state: bool)
      requires IsModifier(k)
      modifies `mods
      ensures mods == WithMod(old(mods), k, state)
    {
      var mask := Mask(k - CONTROL_LEFT);
      if state {
        mods := mods | mask;
      } else {
        mods := mods & !mask;
      }
    }

    method SendKey(k: Key, state: bool, bus: Bus)
      requires Valid()
      modifies this, slots
      ensures View() == Next(old(View()), KeyEvent(k, state, bus))
    {
      hide WithMod;
      hide Pressed;
      hide Released;
      if IsModifier(k) {
        SetModifier(k, state);
      } else if state {
        Press(k);
      } else {
        Release(k);
      }
      SyncReport(true, bus);
    }

    method SendClear(bus: Bus)
      requires Valid()
      modifies this, slots
      ensures View() == Next(old(View()), Clear(bus))
    {
      mods := 0;
      for i := 0 to SLOTS
        invariant forall j :: 0 <= j < i ==> slots[j] == 0
        invariant mods == 0 && sent == old(sent) && host == old(host)
      {
        slots[i] := 0;
      }
      assert slots[..] == BLANK;
      SyncReport(true, bus);
    }
  }
}

/** Keys, modifiers and what a host makes of key events. */
module Keyboard {
  import opened Options

  type Key = nat

  const KEY_TAB: Key := 15
  const KEY_ENTER: Key := 28
  const KEY_LEFTCTRL: Key := 29
  const KEY_LEFTSHIFT: Key := 42
  const KEY_RIGHTSHIFT: Key := 54
  const KEY_LEFTALT: Key := 56
  const KEY_SPACE: Key := 57
  const KEY_RIGHTCTRL: Key := 97
  const KEY_RIGHTALT: Key := 100
  const KEY_LEFTMETA: Key := 125
  const KEY_RIGHTMETA: Key := 126

  predicate IsShift(k: Key) { k == KEY_LEFTSHIFT || k == KEY_RIGHTSHIFT }
  predicate IsAlt(k: Key) { k == KEY_LEFTALT || k == KEY_RIGHTALT }
  predicate IsCtrl(k: Key) { k == KEY_LEFTCTRL || k == KEY_RIGHTCTRL }

  predicate IsModifier(k: Key) {
    IsShift(k) || IsAlt(k) || IsCtrl(k) || k == KEY_LEFTMETA || k == KEY_RIGHTMETA
  }

  /** The bits of a symmap modifier number. */
  datatype Mods = Mods(shift: bool, altgr: bool, ctrl: bool)

  /** The inner dictionaries of a symmap, in insertion order. */
  type Keys = seq<(Mods, Key)>

  /** The first entry without Ctrl, the one that is typed. */
  function Chosen(keys: Keys): Option<(Mods, Key)> {
    if keys == [] then None
    else if !keys[0].0.ctrl then Some(keys[0])
    else Chosen(keys[1..])
  }

  datatype Event = Event(key: Key, down: bool)

  /** A key press as the host understands it: the modifiers held and the key. */
  datatype Chord = Chord(held: set<Key>, key: Key)

  /** `sane` is lost when a key goes down that is down, or up that is up. */
  datatype Host = Host(held: set<Key>, chords: seq<Chord>, sane: bool)

  const FRESH_HOST := Host({}, [], true)

  function Accept(h: Host, e: Event): Host {
    if e.down then
      Host(h.held + {e.key},
           if IsModifier(e.key) then h.chords else h.chords + [Chord(h.held, e.key)],
           h.sane && e.key !in h.held)
    else
      Host(h.held - {e.key}, h.chords, h.sane && e.key in h.held)
  }

  function Replay(h: Host, events: seq<Event>): Host
    decreases |events|
  {
    if events == [] then h else Accept(Replay(h, events[..|events| - 1]), events[|events| - 1])
  }

  lemma {:induction false} ReplayConcat(h: Host, a: seq<Event>, b: seq<Event>)
    ensures Replay(h, a + b) == Replay(Replay(h, a), b)
    decreases |b|
  {
    if b == [] {
      assert a + b == a;
    } else {
      assert (a + b)[..|a + b| - 1] == a + b[..|b| - 1];
      ReplayConcat(h, a, b[..|b| - 1]);
    }
  }
}

/** The index of watches: paths to descriptors and back, kept through renames and IGNORED. */
module InotifyIndex {
  import B = InotifyBuffer

  /** Paths and names as their encoded bytes. */
  type Path = seq<int>

  datatype Event = Event(wd: int, mask: int, cookie: int, name: B.Name, path: Path)

  datatype State = State(wdByPath: map<Path, int>, pathByWd: map<int, Path>, moved: map<int, Path>, queue: seq<Event>)

  const INIT := State(map[], map[], map[], [])

  const MOVED_FROM := 0x40
  const MOVED_TO := 0x80
  const IGNORED := 0x8000

  predicate Has(mask: int, flag: int)
    requires flag > 0
  {
    mask / flag % 2 == 1
  }

  const SLASH := 0x2F

  /** os.path.join, and no trailing slash for an event of the watched path itself. */
  function Join(dir: Path, name: B.Name): Path {
    if name == [] then dir
    else if name[0] == SLASH then name
    else if dir == [] || dir[|dir| - 1] == SLASH then dir + name
    else dir + [SLASH] + name
  }

  function Watched(s: State, path: Path, wd: int): State {
    s.(wdByPath := s.wdByPath[path := wd], pathByWd := s.pathByWd[wd := path])
  }

  function Moved(s: State, e: Event): State {
    if Has(e.mask, MOVED_FROM) then s.(moved := s.moved[e.cookie := e.path])
    else if Has(e.mask, MOVED_TO) && e.cookie in s.moved then
      var from := s.moved[e.cookie];
      var t := s.(moved := s.moved - {e.cookie});
      if from in t.wdByPath then
        var wd := t.wdByPath[from];
        t.(wdByPath := (t.wdByPath - {from})[e.path := wd], pathByWd := t.pathByWd[wd := e.path])
      else t
    else s
  }

  /** An IGNORED whose path is no longer indexed raises KeyError. */
  predicate Faulty(s: State, e: Event) {
    && Has(e.mask, IGNORED)
    && (e.wd !in Moved(s, e).pathByWd || Moved(s, e).pathByWd[e.wd] !in Moved(s, e).wdByPath)
  }

  function Handled(s: State, e: Event): State {
    var t := Moved(s, e);
    if !Has(e.mask, IGNORED) then t.(queue := t.queue + [e])
    else if Faulty(s, e) then t
    else
      var path := t.pathByWd[e.wd];
      if t.wdByPath[path] == e.wd then t.(wdByPath := t.wdByPath - {path}) else t
  }

  function EventOf(s: State, r: B.Raw): Event
    requires r.wd in s.pathByWd
  {
    Event(r.wd, r.mask, r.cookie, r.name, Join(s.pathByWd[r.wd], r.name))
  }

  datatype Outcome = Outcome(s: State, fault: bool)

  /** Reading one buffer: an exception drops the rest of it. */
  function Read(s: State, rs: seq<B.Raw>): Outcome
    decreases |rs|
  {
    if rs == [] then Outcome(s, false)
    else if rs[0].wd !in s.pathByWd then Read(s, rs[1..])
    else if Faulty(s, EventOf(s, rs[0])) then Outcome(Handled(s, EventOf(s, rs[0])), true)
    else Read(Handled(s, EventOf(s, rs[0])), rs[1..])
  }

  // ----- the two dictionaries agree -----

  predicate LeftInverse(s: State) {
    forall path :: path in s.wdByPath ==> s.wdByPath[path] in s.pathByWd && s.pathByWd[s.wdByPath[path]] == path
  }

  predicate InUse(s: State, wd: int) { exists path :: path in s.wdByPath && s.wdByPath[path] == wd }

  /** A new watch keeps the agreement exactly when the kernel gives it a descriptor that no other
      indexed path uses. */
  lemma WatchKeepsIndex(s: State, path: Path, wd: int)
    requires LeftInverse(s) && path !in s.wdByPath
    ensures LeftInverse(Watched(s, path, wd)) <==> !InUse(s, wd)
  {
    var t := Watched(s, path, wd);
    if InUse(s, wd) {
      var other :| other in s.wdByPath && s.wdByPath[other] == wd;
      assert t.wdByPath[other] == wd && t.pathByWd[wd] == path;
    } else {
      forall p | p in t.wdByPath ensures t.wdByPath[p] in t.pathByWd && t.pathByWd[t.wdByPath[p]] == p {}
    }
  }

  lemma MovedKeepsIndex(s: State, e: Event)
    requires LeftInverse(s)
    ensures LeftInverse(Moved(s, e))
  {
    hide Has;
    var t := Moved(s, e);
    forall p | p in t.wdByPath ensures t.wdByPath[p] in t.pathByWd && t.pathByWd[t.wdByPath[p]] == p {}
  }

  lemma HandledKeepsIndex(s: State, e: Event)
    requires LeftInverse(s)
    ensures LeftInverse(Handled(s, e))
  {
    hide Has;
    hide Moved;
    MovedKeepsIndex(s, e);
  }

  lemma {:induction false} ReadKeepsIndex(s: State, rs: seq<B.Raw>)
    requires LeftInverse(s)
    ensures LeftInverse(Read(s, rs).s)
    decreases |rs|
  {
    hide Handled;
    hide LeftInverse;
    hide Faulty;
    if rs != [] {
      if rs[0].wd !in s.pathByWd {
        ReadKeepsIndex(s, rs[1..]);
      } else {
        HandledKeepsIndex(s, EventOf(s, rs[0]));
        ReadKeepsIndex(Handled(s, EventOf(s, rs[0])), rs[1..]);
      }
    }
  }

  /** What happens to the object: a path is watched, or a buffer is read. */
  datatype Step = Watch(path: Path, wd: int) | Buffer(events: seq<B.Raw>)

  function Next(s: State, step: Step): State {
    match step
    case Watch(path, wd) => if path in s.wdByPath then s else Watched(s, path, wd)
    case Buffer(events) => Read(s, events).s
  }

  function Run(steps: seq<Step>): State
    decreases |steps|
  {
    if steps == [] then INIT else Next(Run(steps[..|steps| - 1]), steps[|steps| - 1])
  }

  /** The kernel gives a new watch a descriptor that no current watch uses. */
  predicate FreshDescriptors(steps: seq<Step>)
    decreases |steps|
  {
    steps == [] || (FreshDescriptors(steps[..|steps| - 1])
                    && (steps[|steps| - 1].Watch? ==> !InUse(Run(steps[..|steps| - 1]), steps[|steps| - 1].wd)))
  }

  /** Through watches, renames (also over a watched path), IGNORED and exceptions: every indexed
      path is the path of its descriptor. */
  lemma {:induction false} RunsKeepIndex(steps: seq<Step>)
    requires FreshDescriptors(steps)
    ensures LeftInverse(Run(steps))
    decreases |steps|
  {
    hide LeftInverse;
    hide InUse;
    hide Read;
    hide Watched;
    if steps == [] {
      NothingIndexed();
    } else {
      var s, step := Run(steps[..|steps| - 1]), steps[|steps| - 1];
      RunsKeepIndex(steps[..|steps| - 1]);
      match step {
        case Watch(path, wd) => if path !in s.wdByPath { WatchKeepsIndex(s, path, wd); }
        case Buffer(events) => ReadKeepsIndex(s, events);
      }
    }
  }

  lemma NothingIndexed()
    ensures LeftInverse(INIT)
  {}

  // ----- where a read stops does not matter -----

  lemma {:induction false} ReadConcat(s: State, a: seq<B.Raw>, b: seq<B.Raw>)
    ensures Read(s, a + b) == if Read(s, a).fault then Read(s, a) else Read(Read(s, a).s, b)
    decreases |a|
  {
    hide Handled;
    hide Faulty;
    if a == [] {
      assert a + b == b;
    } else {
      assert (a + b)[1..] == a[1..] + b;
      if a[0].wd !in s.pathByWd {
        ReadConcat(s, a[1..], b);
      } else {
        ReadConcat(Handled(s, EventOf(s, a[0])), a[1..], b);
      }
    }
  }

  /** Reading a byte stream in two buffers, split after a whole number of events, queues the same
      events as reading it in one, unless an IGNORED in the first finds its path not indexed: then
      one buffer loses the second part, and two buffers do not. */
  lemma SplitReadsAgree(s: State, rs: seq<B.Record>, rest: seq<int>)
    requires B.ValidRecords(rs) && B.AreBytes(rest)
    ensures B.AreBytes(B.EncodeAll(rs)) && B.AreBytes(B.EncodeAll(rs) + rest)
    ensures var whole := Read(s, B.Parse(B.EncodeAll(rs) + rest));
      var first := Read(s, B.Parse(B.EncodeAll(rs)));
      whole == if first.fault then first else Read(first.s, B.Parse(rest))
  {
    hide B.Parse;
    hide Read;
    B.ParseOfEncoded(rs, rest);
    B.ParseOfEncoded(rs, []);
    B.ParseShort([]);
    assert B.EncodeAll(rs) + [] == B.EncodeAll(rs);
    assert B.KeptAll(rs) + [] == B.KeptAll(rs);
    ReadConcat(s, B.KeptAll(rs), B.Parse(rest));
  }

  // ----- an IGNORED that is late -----

  /** The flags IN_MOVED_FROM, IN_MOVED_TO and IN_IGNORED of the kernel. */
  predicate IsFrom(e: Event) { Has(e.mask, 0x40) && !Has(e.mask, 0x8000) }

  predicate IsTo(e: Event) { Has(e.mask, 0x80) && !Has(e.mask, 0x40) && !Has(e.mask, 0x8000) }

  predicate IsIgnored(e: Event) { Has(e.mask, 0x8000) && !Has(e.mask, 0x40) && !Has(e.mask, 0x80) }

  /** The two halves of a rename move the watch to the new path, also over a watched one, and both
      are queued. */
  lemma RenameMovesWatch(s: State, from: Event, to: Event)
    requires LeftInverse(s) && from.cookie == to.cookie && from.path != to.path && from.path in s.wdByPath
    requires IsFrom(from) && IsTo(to)
    ensures var t := Handled(Handled(s, from), to);
      && from.path !in t.wdByPath
      && t.pathByWd == s.pathByWd[s.wdByPath[from.path] := to.path]
      && t.wdByPath == (s.wdByPath - {from.path})[to.path := s.wdByPath[from.path]]
      && t.queue == s.queue + [from, to]
  {
    hide Has;
  }

  /** An IGNORED that does not raise unindexes its descriptor and nothing else, and is not queued. */
  lemma IgnoredForgets(s: State, e: Event)
    requires LeftInverse(s) && IsIgnored(e) && !Faulty(s, e)
    ensures var t := Handled(s, e);
      && !InUse(t, e.wd) && t.queue == s.queue && t.pathByWd == s.pathByWd
      && forall path :: path in s.wdByPath && s.wdByPath[path] != e.wd ==>
           path in t.wdByPath && t.wdByPath[path] == s.wdByPath[path]
  {
    hide Has;
    var t := Handled(s, e);
    forall path | path in t.wdByPath ensures t.wdByPath[path] != e.wd {
      assert path in s.wdByPath && s.wdByPath[path] == t.wdByPath[path];
    }
  }

  lemma IgnoredFaults(s: State, e: Event, path: Path)
    requires IsIgnored(e) && e.wd in s.pathByWd && s.pathByWd[e.wd] == path && path !in s.wdByPath
    ensures Faulty(s, e)
  {}

  /** A watched file is renamed onto another watched path and then away from it, before the IGNORED
      of the overwritten file arrives: that one finds no path, and the rest of the buffer is lost. */
  lemma LateIgnoredFaults(s: State, a: Path, b: Path, c: Path, e: seq<Event>)
    requires LeftInverse(s) && a in s.wdByPath && b in s.wdByPath && a != b && b != c
    requires |e| == 5 && IsFrom(e[0]) && IsTo(e[1]) && IsFrom(e[2]) && IsTo(e[3]) && IsIgnored(e[4])
    requires e[0].path == a && e[1].path == b && e[2].path == b && e[3].path == c
    requires e[0].cookie == e[1].cookie && e[2].cookie == e[3].cookie && e[4].wd == s.wdByPath[b]
    ensures Faulty(Handled(Handled(Handled(Handled(s, e[0]), e[1]), e[2]), e[3]), e[4])
  {
    hide Handled;
    hide Faulty;
    hide Has;
    assert s.wdByPath[a] != s.wdByPath[b];
    RenameMovesWatch(s, e[0], e[1]);
    var t := Handled(Handled(s, e[0]), e[1]);
    HandledKeepsIndex(s, e[0]);
    HandledKeepsIndex(Handled(s, e[0]), e[1]);
    var wd := s.wdByPath[b];
    assert wd in s.pathByWd && s.pathByWd[wd] == b && t.wdByPath[b] == s.wdByPath[a];
    hide LeftInverse;
    RenameMovesWatch(t, e[2], e[3]);
    IgnoredFaults(Handled(Handled(t, e[2]), e[3]), e[4], b);
  }

  // ----- and it can be late -----

  const DIRECTORY: Path := [0x64]

  function Child(name: int): Path { DIRECTORY + [SLASH, name] }

  function Half(mask: int, cookie: int, name: int): B.Raw { B.Raw(0, mask, cookie, [name]) }

  /** A directory with descriptor 0 and two files in it with 1 and 2 are watched. */
  function Watches(): seq<Step> {
    [Watch(DIRECTORY, 0), Watch(Child(0x61), 1), Watch(Child(0x62), 2)]
  }

  /** The first file is renamed over the second and then to a third name; the IGNORED of the second
      comes only now, since something still had it open. */
  function Renames(): seq<B.Raw> {
    [Half(MOVED_FROM, 7, 0x61), Half(MOVED_TO, 7, 0x62), Half(MOVED_FROM, 8, 0x62), Half(MOVED_TO, 8, 0x63),
     B.Raw(2, IGNORED, 0, [])]
  }

  function WatchedState(): State {
    Watched(Watched(Watched(INIT, DIRECTORY, 0), Child(0x61), 1), Child(0x62), 2)
  }

  lemma RunSnoc(steps: seq<Step>, step: Step)
    ensures Run(steps + [step]) == Next(Run(steps), step)
    ensures FreshDescriptors(steps + [step]) <==>
            FreshDescriptors(steps) && (step.Watch? ==> !InUse(Run(steps), step.wd))
  {
    assert (steps + [step])[..|steps|] == steps;
  }

  lemma WatchesAreFresh()
    ensures FreshDescriptors(Watches()) && Run(Watches()) == WatchedState()
  {
    hide Read;
    var w1, w2, w3 := Watch(DIRECTORY, 0), Watch(Child(0x61), 1), Watch(Child(0x62), 2);
    assert |DIRECTORY| < |Child(0x61)| && Child(0x61)[2] != Child(0x62)[2];
    RunSnoc([], w1);
    assert [] + [w1] == [w1];
    RunSnoc([w1], w2);
    assert [w1] + [w2] == [w1, w2];
    RunSnoc([w1, w2], w3);
    assert [w1, w2] + [w3] == Watches();
  }

  lemma ReadFirst(s: State, r: B.Raw, rs: seq<B.Raw>)
    requires r.wd in s.pathByWd
    ensures Read(s, [r] + rs) == if Faulty(s, EventOf(s, r)) then Outcome(Handled(s, EventOf(s, r)), true)
                                 else Read(Handled(s, EventOf(s, r)), rs)
  {
    hide Handled;
    hide Faulty;
    assert ([r] + rs)[1..] == rs;
  }

  lemma FromKeepsIndex(s: State, e: Event)
    requires IsFrom(e)
    ensures Handled(s, e).wdByPath == s.wdByPath && Handled(s, e).pathByWd == s.pathByWd && !Faulty(s, e)
  {
    hide Has;
  }

  lemma HalfEvent(s: State, mask: int, cookie: int, name: int)
    requires 0 in s.pathByWd && s.pathByWd[0] == DIRECTORY && name != SLASH
    ensures EventOf(s, Half(mask, cookie, name)) == Event(0, mask, cookie, [name], Child(name))
  {
    assert DIRECTORY + [SLASH] + [name] == Child(name);
  }

  lemma Masks()
    ensures forall wd, cookie, name, path :: IsFrom(Event(wd, MOVED_FROM, cookie, name, path))
    ensures forall wd, cookie, name, path :: IsTo(Event(wd, MOVED_TO, cookie, name, path))
    ensures forall wd, cookie, name, path :: IsIgnored(Event(wd, IGNORED, cookie, name, path))
  {}

  /** Two reads of one rename. */
  lemma ReadRename(s: State, cookie: int, from: int, to: int, rs: seq<B.Raw>)
    requires LeftInverse(s) && 0 in s.pathByWd && s.pathByWd[0] == DIRECTORY
    requires from != to && from != SLASH && to != SLASH && Child(from) in s.wdByPath && s.wdByPath[Child(from)] != 0
    ensures var e, f := Event(0, MOVED_FROM, cookie, [from], Child(from)), Event(0, MOVED_TO, cookie, [to], Child(to));
      var t := Handled(Handled(s, e), f);
      && Child(from) != Child(to)
      && Read(s, [Half(MOVED_FROM, cookie, from)] + ([Half(MOVED_TO, cookie, to)] + rs)) == Read(t, rs)
      && t.pathByWd == s.pathByWd[s.wdByPath[Child(from)] := Child(to)]
      && t.wdByPath == (s.wdByPath - {Child(from)})[Child(to) := s.wdByPath[Child(from)]]
      && LeftInverse(t)
  {
    Masks();
    hide Handled;
    hide Read;
    hide Has;
    hide LeftInverse;
    var e, f := Event(0, MOVED_FROM, cookie, [from], Child(from)), Event(0, MOVED_TO, cookie, [to], Child(to));
    assert Child(from)[2] != Child(to)[2];
    HalfEvent(s, MOVED_FROM, cookie, from);
    FromKeepsIndex(s, e);
    var m := Handled(s, e);
    HalfEvent(m, MOVED_TO, cookie, to);
    ReadFirst(s, Half(MOVED_FROM, cookie, from), [Half(MOVED_TO, cookie, to)] + rs);
    ReadFirst(m, Half(MOVED_TO, cookie, to), rs);
    HandledKeepsIndex(s, e);
    HandledKeepsIndex(m, f);
    RenameMovesWatch(s, e, f);
  }

  /** A run from the start, with fresh descriptors only, in which a late IGNORED raises; whatever
      follows it in the same buffer is lost. */
  lemma LateIgnoredReached(rest: seq<B.Raw>)
    ensures FreshDescriptors(Watches() + [Buffer(Renames() + rest)])
    ensures Read(Run(Watches()), Renames()).fault
    ensures Run(Watches() + [Buffer(Renames() + rest)]) == Run(Watches() + [Buffer(Renames())])
  {
    WatchesAreFresh();
    RunSnoc(Watches(), Buffer(Renames() + rest));
    RunSnoc(Watches(), Buffer(Renames()));
    RunsKeepIndex(Watches());
    hide Run;
    hide FreshDescriptors;
    var s := WatchedState();
    RenamesFault(s);
    ReadConcat(s, Renames(), rest);
  }

  lemma RenamesFault(s: State)
    requires s == WatchedState() && LeftInverse(s)
    ensures Read(s, Renames()).fault
  {
    hide Read;
    hide Handled;
    hide Faulty;
    hide LeftInverse;
    assert |DIRECTORY| < |Child(0x61)| && Child(0x61)[2] != Child(0x62)[2] && Child(0x62)[2] != Child(0x63)[2];
    var last := B.Raw(2, IGNORED, 0, []);
    var rs := [Half(MOVED_FROM, 8, 0x62)] + ([Half(MOVED_TO, 8, 0x63)] + [last]);
    ReadRename(s, 7, 0x61, 0x62, rs);
    assert Renames() == [Half(MOVED_FROM, 7, 0x61)] + ([Half(MOVED_TO, 7, 0x62)] + rs);
    var e0, e1 := Event(0, MOVED_FROM, 7, [0x61], Child(0x61)), Event(0, MOVED_TO, 7, [0x62], Child(0x62));
    var t := Handled(Handled(s, e0), e1);
    ReadRename(t, 8, 0x62, 0x63, [last]);
    var e2, e3 := Event(0, MOVED_FROM, 8, [0x62], Child(0x62)), Event(0, MOVED_TO, 8, [0x63], Child(0x63));
    var u := Handled(Handled(t, e2), e3);
    var e4 := EventOf(u, last);
    Masks();
    LateIgnoredFaults(s, Child(0x61), Child(0x62), Child(0x63), [e0, e1, e2, e3, e4]);
    assert [last] == [last] + [];
    ReadFirst(u, last, []);
  }
}

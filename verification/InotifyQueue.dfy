/** What a read queues: every event of a watched descriptor but IGNORED, in order, with its path. */
module InotifyQueue {
  import B = InotifyBuffer
  import opened InotifyIndex

  /** The events that are passed on. */
  function Passed(known: set<int>, rs: seq<B.Raw>): seq<B.Raw>
    decreases |rs|
  {
    if rs == [] then []
    else
      var last := rs[|rs| - 1];
      Passed(known, rs[..|rs| - 1]) + if last.wd in known && last.mask / 0x8000 % 2 == 0 then [last] else []
  }

  /** This is the raw event, below the directory or file that its descriptor watches at the time. */
  predicate IsEvent(e: Event, r: B.Raw, s: State) {
    && e.wd == r.wd && e.mask == r.mask && e.cookie == r.cookie && e.name == r.name
    && r.wd in s.pathByWd
    && (var dir := s.pathByWd[r.wd];
        && (r.name == [] ==> e.path == dir)
        && (r.name != [] && r.name[0] != 0x2F && dir != [] && dir[|dir| - 1] != 0x2F ==>
              e.path == dir + [0x2F] + r.name))
  }

  /** Each queued event is the passed one, with the index as it is when the event is read. */
  ghost predicate AreEvents(s: State, rs: seq<B.Raw>, es: seq<Event>)
    decreases |rs|
  {
    if rs == [] then es == []
    else
      var before, last := rs[..|rs| - 1], rs[|rs| - 1];
      if last.wd in s.pathByWd && last.mask / 0x8000 % 2 == 0
      then es != [] && AreEvents(s, before, es[..|es| - 1]) && IsEvent(es[|es| - 1], last, Read(s, before).s)
      else AreEvents(s, before, es)
  }

  lemma {:induction false} AsMany(s: State, rs: seq<B.Raw>, es: seq<Event>)
    requires AreEvents(s, rs, es)
    ensures |es| == |Passed(s.pathByWd.Keys, rs)|
    ensures forall i :: 0 <= i < |es| ==>
      var r := Passed(s.pathByWd.Keys, rs)[i];
      es[i].wd == r.wd && es[i].mask == r.mask && es[i].cookie == r.cookie && es[i].name == r.name
    decreases |rs|
  {
    hide Read;
    if rs != [] {
      var before, last := rs[..|rs| - 1], rs[|rs| - 1];
      if last.wd in s.pathByWd && last.mask / 0x8000 % 2 == 0 {
        AsMany(s, before, es[..|es| - 1]);
      } else {
        AsMany(s, before, es);
      }
    }
  }

  lemma HandledQueues(s: State, e: Event)
    requires LeftInverse(s) && e.wd in s.pathByWd
    ensures Handled(s, e).queue == s.queue + (if e.mask / 0x8000 % 2 == 0 then [e] else [])
    ensures Handled(s, e).pathByWd.Keys == s.pathByWd.Keys
  {
    assert Has(e.mask, IGNORED) <==> e.mask / 0x8000 % 2 == 1;
    hide Has;
  }

  lemma EventIs(s: State, r: B.Raw)
    requires r.wd in s.pathByWd
    ensures IsEvent(EventOf(s, r), r, s)
  {}

  lemma ReadOne(s: State, r: B.Raw)
    ensures Read(s, [r]) ==
      if r.wd !in s.pathByWd then Outcome(s, false) else Outcome(Handled(s, EventOf(s, r)), Faulty(s, EventOf(s, r)))
  {
    assert [r][1..] == [];
    hide Handled;
    hide Faulty;
    assert Read(Handled(s, if r.wd in s.pathByWd then EventOf(s, r) else Event(0, 0, 0, [], [])), []).s
           == Handled(s, if r.wd in s.pathByWd then EventOf(s, r) else Event(0, 0, 0, [], []));
  }

  lemma {:induction false} ReadSnoc(s: State, rs: seq<B.Raw>)
    requires rs != []
    ensures var before, last := rs[..|rs| - 1], rs[|rs| - 1];
      Read(s, rs) == if Read(s, before).fault then Read(s, before) else Read(Read(s, before).s, [last])
  {
    assert rs == rs[..|rs| - 1] + [rs[|rs| - 1]];
    ReadConcat(s, rs[..|rs| - 1], [rs[|rs| - 1]]);
  }

  /** Reading events, as long as no IGNORED raises: exactly the events of watched descriptors other
      than IGNORED are queued, in order, each with its path at that moment; and the descriptors
      that are watched stay so. */
  lemma {:induction false} EventsAreQueued(s: State, rs: seq<B.Raw>) returns (es: seq<Event>)
    requires LeftInverse(s) && !Read(s, rs).fault
    ensures Read(s, rs).s.queue == s.queue + es && AreEvents(s, rs, es)
    ensures Read(s, rs).s.pathByWd.Keys == s.pathByWd.Keys
    decreases |rs|
  {
    hide Handled;
    hide Faulty;
    hide LeftInverse;
    hide IsEvent;
    if rs == [] {
      es := [];
    } else {
      var before, last := rs[..|rs| - 1], rs[|rs| - 1];
      ReadSnoc(s, rs);
      hide Read;
      es := EventsAreQueued(s, before);
      var t := Read(s, before).s;
      ReadKeepsIndex(s, before);
      ReadOne(t, last);
      if last.wd in t.pathByWd {
        HandledQueues(t, EventOf(t, last));
        EventIs(t, last);
        if last.mask / 0x8000 % 2 == 0 {
          var more := es + [EventOf(t, last)];
          assert more[..|more| - 1] == es;
          es := more;
        }
      }
    }
  }
}

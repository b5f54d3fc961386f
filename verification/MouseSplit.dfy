/** Forwarding of a grabbed local mouse: motion is summed up between reports and split into pieces
    that fit a byte. */
module MouseSplit {
  const LIMIT := 127

  type Delta = (int, int)

  datatype Axis = RelX | RelY | HWheel | Wheel | OtherAxis

  datatype KeyKind = KeyCode | Button | UnknownCode

  /** An input event; `Syn` is any event whose type is SYN_REPORT. */
  datatype Input = Rel(axis: Axis, value: int) | Syn | Key(code: int, kind: KeyKind, value: int) | Other

  datatype Output = KeyOut(code: int, state: bool) | ButtonOut(code: int, state: bool) | Move(d: Delta) | Scroll(d: Delta)

  datatype State = State(move: Delta, wheel: Delta, queue: seq<Output>)

  const INIT := State((0, 0), (0, 0), [])

  function Sign(x: int): int { if x < 0 then -1 else 1 }

  function Abs(x: int): nat { if x < 0 then -x else x }

  function Min(a: int, b: int): int { if a < b then a else b }

  function Max(a: int, b: int): int { if a < b then b else a }

  function Plus(a: Delta, b: Delta): Delta { (a.0 + b.0, a.1 + b.1) }

  /** `sign * n` for a sign of 1 or -1. */
  function Signed(sign: int, n: int): int { if sign < 0 then -n else n }

  function Piece(sign: int, rest: int): int { Signed(sign, Max(Min(rest, LIMIT), 0)) }

  /** The pieces of what is left of both magnitudes. */
  function Pieces(sign: Delta, restX: int, restY: int): seq<Delta>
    decreases Max(Max(restX, restY), 0)
  {
    if restX <= 0 && restY <= 0 then []
    else [(Piece(sign.0, restX), Piece(sign.1, restY))] + Pieces(sign, restX - LIMIT, restY - LIMIT)
  }

  function Split(d: Delta): seq<Delta> { Pieces((Sign(d.0), Sign(d.1)), Abs(d.0), Abs(d.1)) }

  method SplittedDeltas(d: Delta) returns (pieces: seq<Delta>)
    ensures pieces == Split(d)
  {
    var sign := (Sign(d.0), Sign(d.1));
    var x, y: int := Abs(d.0), Abs(d.1);
    pieces := [];
    while x > 0 || y > 0
      invariant Split(d) == pieces + Pieces(sign, x, y)
      decreases Max(Max(x, y), 0)
    {
      pieces := pieces + [(Piece(sign.0, x), Piece(sign.1, y))];
      x := x - LIMIT;
      y := y - LIMIT;
    }
  }

  // ----- one split -----

  function Sum(ds: seq<Delta>): Delta
    decreases |ds|
  {
    if ds == [] then (0, 0) else Plus(ds[0], Sum(ds[1..]))
  }

  function Ceil(n: nat): nat { (n + LIMIT - 1) / LIMIT }

  lemma CeilStep(x: int, y: int)
    requires x > 0 || y > 0
    ensures Ceil(Max(Max(x, y), 0)) == 1 + Ceil(Max(Max(x - LIMIT, y - LIMIT), 0))
  {
    var m := Max(x, y);
    if m > LIMIT { assert (m + LIMIT - 1) / LIMIT == (m - 1) / LIMIT + 1; }
  }

  predicate FitsByte(sign: int, d: int) { 0 <= Signed(sign, d) <= LIMIT }

  lemma PieceStep(sign: int, x: int)
    ensures FitsByte(sign, Piece(sign, x)) && (x > 0 ==> Piece(sign, x) != 0)
    ensures Signed(sign, Max(x, 0)) == Piece(sign, x) + Signed(sign, Max(x - LIMIT, 0))
  {}

  lemma {:induction false} PiecesAddUp(sign: Delta, x: int, y: int)
    requires (sign.0 == 1 || sign.0 == -1) && (sign.1 == 1 || sign.1 == -1)
    ensures var ps := Pieces(sign, x, y);
      && Sum(ps) == (Signed(sign.0, Max(x, 0)), Signed(sign.1, Max(y, 0)))
      && |ps| == Ceil(Max(Max(x, y), 0))
      && (forall i :: 0 <= i < |ps| ==> FitsByte(sign.0, ps[i].0) && FitsByte(sign.1, ps[i].1) && ps[i] != (0, 0))
    decreases Max(Max(x, y), 0)
  {
    if x > 0 || y > 0 {
      PiecesAddUp(sign, x - LIMIT, y - LIMIT);
      CeilStep(x, y);
      PieceStep(sign.0, x);
      PieceStep(sign.1, y);
      hide Ceil;
      hide Piece;
      hide Signed;
      hide FitsByte;
      var ps := Pieces(sign, x, y);
      assert ps[1..] == Pieces(sign, x - LIMIT, y - LIMIT);
    }
  }

  /** The pieces add up to the motion, none goes the other way or exceeds 127, none is empty, and
      there are ceil(max(|x|, |y|) / 127) of them. */
  lemma SplitAddsUp(d: Delta)
    ensures Sum(Split(d)) == d
    ensures |Split(d)| == Ceil(Max(Abs(d.0), Abs(d.1)))
    ensures forall i :: 0 <= i < |Split(d)| ==>
              && -127 <= Split(d)[i].0 <= 127 && -127 <= Split(d)[i].1 <= 127 && Split(d)[i] != (0, 0)
              && 0 <= Signed(Sign(d.0), Split(d)[i].0) && 0 <= Signed(Sign(d.1), Split(d)[i].1)
  {
    PiecesAddUp((Sign(d.0), Sign(d.1)), Abs(d.0), Abs(d.1));
  }

  predicate Bounded(ds: seq<Delta>) { forall i :: 0 <= i < |ds| ==> Abs(ds[i].0) <= LIMIT && Abs(ds[i].1) <= LIMIT }

  lemma {:induction false} SumIsBounded(ds: seq<Delta>)
    requires Bounded(ds)
    ensures Abs(Sum(ds).0) <= LIMIT * |ds| && Abs(Sum(ds).1) <= LIMIT * |ds|
    decreases |ds|
  {
    if ds != [] {
      assert Bounded(ds[1..]);
      SumIsBounded(ds[1..]);
    }
  }

  /** No fewer pieces that fit a byte add up to the same motion. */
  lemma SplitIsShortest(ds: seq<Delta>)
    requires Bounded(ds)
    ensures |Split(Sum(ds))| <= |ds|
  {
    SumIsBounded(ds);
    SplitAddsUp(Sum(ds));
    var m := Max(Abs(Sum(ds).0), Abs(Sum(ds).1));
    assert m + LIMIT - 1 < LIMIT * (|ds| + 1);
  }

  // ----- the event loop -----

  function Moves(ds: seq<Delta>): seq<Output> { if ds == [] then [] else [Move(ds[0])] + Moves(ds[1..]) }

  function Scrolls(ds: seq<Delta>): seq<Output> { if ds == [] then [] else [Scroll(ds[0])] + Scrolls(ds[1..]) }

  function Added(s: State, e: Input): State {
    if !e.Rel? then s
    else
      match e.axis
      case RelX => s.(move := Plus(s.move, (e.value, 0)))
      case RelY => s.(move := Plus(s.move, (0, e.value)))
      case HWheel => s.(wheel := Plus(s.wheel, (e.value, 0)))
      case Wheel => s.(wheel := Plus(s.wheel, (0, e.value)))
      case OtherAxis => s
  }

  /** `Split` of no motion is empty, so both tests of the loop are in it. */
  function Flushed(s: State): State {
    State((0, 0), (0, 0), s.queue + Moves(Split(s.move)) + Scrolls(Split(s.wheel)))
  }

  function KeyOutput(e: Input, buttons: bool): seq<Output> {
    if !e.Key? || e.value == 2 then []
    else if e.kind == KeyCode then [KeyOut(e.code, e.value != 0)]
    else if e.kind == Button && buttons then [ButtonOut(e.code, e.value != 0)]
    else []
  }

  /** `hasSyn`: the device reports SYN_REPORT. */
  function Next(hasSyn: bool, s: State, grabbed: bool, e: Input): State {
    if !grabbed then s.(queue := s.queue + KeyOutput(e, false))
    else
      var t := Added(s, e);
      if !hasSyn || e.Syn? then Flushed(t) else t.(queue := t.queue + KeyOutput(e, true))
  }

  /** Each event with whether the device is grabbed when it comes. */
  function Run(hasSyn: bool, es: seq<(bool, Input)>): State
    decreases |es|
  {
    if es == [] then INIT else Next(hasSyn, Run(hasSyn, es[..|es| - 1]), es[|es| - 1].0, es[|es| - 1].1)
  }

  function Moved(q: seq<Output>): Delta
    decreases |q|
  {
    if q == [] then (0, 0) else Plus(Moved(q[..|q| - 1]), if q[|q| - 1].Move? then q[|q| - 1].d else (0, 0))
  }

  function Scrolled(q: seq<Output>): Delta
    decreases |q|
  {
    if q == [] then (0, 0) else Plus(Scrolled(q[..|q| - 1]), if q[|q| - 1].Scroll? then q[|q| - 1].d else (0, 0))
  }

  function MoveOf(e: Input): Delta {
    if !e.Rel? then (0, 0) else if e.axis == RelX then (e.value, 0) else if e.axis == RelY then (0, e.value) else (0, 0)
  }

  function WheelOf(e: Input): Delta {
    if !e.Rel? then (0, 0) else if e.axis == HWheel then (e.value, 0) else if e.axis == Wheel then (0, e.value) else (0, 0)
  }

  /** All motion seen while the device was grabbed. */
  function Motion(es: seq<(bool, Input)>): Delta
    decreases |es|
  {
    if es == [] then (0, 0)
    else Plus(Motion(es[..|es| - 1]), if es[|es| - 1].0 then MoveOf(es[|es| - 1].1) else (0, 0))
  }

  function Scrolling(es: seq<(bool, Input)>): Delta
    decreases |es|
  {
    if es == [] then (0, 0)
    else Plus(Scrolling(es[..|es| - 1]), if es[|es| - 1].0 then WheelOf(es[|es| - 1].1) else (0, 0))
  }

  lemma {:induction false} QueueConcat(a: seq<Output>, b: seq<Output>)
    ensures Moved(a + b) == Plus(Moved(a), Moved(b)) && Scrolled(a + b) == Plus(Scrolled(a), Scrolled(b))
    decreases |b|
  {
    if b == [] {
      assert a + b == a;
    } else {
      assert (a + b)[..|a + b| - 1] == a + b[..|b| - 1];
      QueueConcat(a, b[..|b| - 1]);
    }
  }

  lemma QueueOne(o: Output)
    ensures Moved([o]) == (if o.Move? then o.d else (0, 0)) && Scrolled([o]) == if o.Scroll? then o.d else (0, 0)
  {
    assert [o][..0] == [] && [o][0] == o;
    assert Moved([]) == (0, 0) && Scrolled([]) == (0, 0);
  }

  lemma {:induction false} MovesSum(ds: seq<Delta>)
    ensures Moved(Moves(ds)) == Sum(ds) && Scrolled(Moves(ds)) == (0, 0)
    decreases |ds|
  {
    if ds != [] {
      MovesSum(ds[1..]);
      QueueOne(Move(ds[0]));
      QueueConcat([Move(ds[0])], Moves(ds[1..]));
    }
  }

  lemma {:induction false} ScrollsSum(ds: seq<Delta>)
    ensures Scrolled(Scrolls(ds)) == Sum(ds) && Moved(Scrolls(ds)) == (0, 0)
    decreases |ds|
  {
    if ds != [] {
      ScrollsSum(ds[1..]);
      QueueOne(Scroll(ds[0]));
      QueueConcat([Scroll(ds[0])], Scrolls(ds[1..]));
    }
  }

  function TotalMove(s: State): Delta { Plus(Moved(s.queue), s.move) }

  function TotalWheel(s: State): Delta { Plus(Scrolled(s.queue), s.wheel) }

  lemma FlushKeepsTotals(s: State)
    ensures TotalMove(Flushed(s)) == TotalMove(s) && TotalWheel(Flushed(s)) == TotalWheel(s)
  {
    hide Moved;
    hide Scrolled;
    hide Split;
    hide Moves;
    hide Scrolls;
    SplitAddsUp(s.move);
    SplitAddsUp(s.wheel);
    MovesSum(Split(s.move));
    ScrollsSum(Split(s.wheel));
    QueueConcat(s.queue, Moves(Split(s.move)));
    QueueConcat(s.queue + Moves(Split(s.move)), Scrolls(Split(s.wheel)));
  }

  lemma KeysDoNotMove(e: Input, buttons: bool)
    ensures Moved(KeyOutput(e, buttons)) == (0, 0) && Scrolled(KeyOutput(e, buttons)) == (0, 0)
  {
    var o := KeyOutput(e, buttons);
    if o != [] {
      assert o == [o[0]];
      QueueOne(o[0]);
    }
  }

  lemma KeyKeepsTotals(s: State, e: Input, buttons: bool)
    ensures var t := s.(queue := s.queue + KeyOutput(e, buttons));
            TotalMove(t) == TotalMove(s) && TotalWheel(t) == TotalWheel(s)
  {
    hide Moved;
    hide Scrolled;
    hide KeyOutput;
    KeysDoNotMove(e, buttons);
    QueueConcat(s.queue, KeyOutput(e, buttons));
  }

  /** For every event stream: the queued deltas and the pending motion add up to all the motion seen
      while the device was grabbed; after a SYN_REPORT nothing is pending, nor ever on a device
      without it. */
  lemma {:induction false} MotionIsConserved(hasSyn: bool, es: seq<(bool, Input)>)
    ensures TotalMove(Run(hasSyn, es)) == Motion(es) && TotalWheel(Run(hasSyn, es)) == Scrolling(es)
    ensures !hasSyn || (es != [] && es[|es| - 1].0 && es[|es| - 1].1.Syn?) ==>
              Run(hasSyn, es).move == (0, 0) && Run(hasSyn, es).wheel == (0, 0)
    decreases |es|
  {
    hide TotalMove;
    hide TotalWheel;
    hide Flushed;
    hide KeyOutput;
    if es == [] {
      StartsEmpty();
    } else {
      var before := Run(hasSyn, es[..|es| - 1]);
      var grabbed, e := es[|es| - 1].0, es[|es| - 1].1;
      MotionIsConserved(hasSyn, es[..|es| - 1]);
      KeyKeepsTotals(before, e, false);
      if grabbed {
        AddedTotals(before, e);
        FlushKeepsTotals(Added(before, e));
        KeyKeepsTotals(Added(before, e), e, true);
        FlushedIsEmpty(Added(before, e));
      }
    }
  }

  lemma StartsEmpty()
    ensures TotalMove(INIT) == (0, 0) && TotalWheel(INIT) == (0, 0)
  {}

  lemma FlushedIsEmpty(s: State)
    ensures Flushed(s).move == (0, 0) && Flushed(s).wheel == (0, 0)
  {}

  lemma AddedTotals(s: State, e: Input)
    ensures TotalMove(Added(s, e)) == Plus(TotalMove(s), MoveOf(e))
    ensures TotalWheel(Added(s, e)) == Plus(TotalWheel(s), WheelOf(e))
  {
    hide Moved;
    hide Scrolled;
  }

  // ----- keys -----

  /** The press or release of a key, or of a button if buttons count; repeats are neither. */
  predicate IsPress(e: Input, buttons: bool, o: Output) {
    && e.Key? && e.value != 2
    && ((e.kind == KeyCode && o == KeyOut(e.code, e.value != 0))
        || (e.kind == Button && buttons && o == ButtonOut(e.code, e.value != 0)))
  }

  /** What is put for an input is its press or release, once. */
  lemma KeyOutputIsPress(e: Input, buttons: bool)
    ensures |KeyOutput(e, buttons)| <= 1
    ensures forall o :: o in KeyOutput(e, buttons) <==> IsPress(e, buttons, o)
  {
    var q := KeyOutput(e, buttons);
    if q != [] { assert q[0] in q && q == [q[0]]; }
  }

  function Keys(q: seq<Output>): seq<Output>
    decreases |q|
  {
    if q == [] then []
    else Keys(q[..|q| - 1]) + if q[|q| - 1].KeyOut? || q[|q| - 1].ButtonOut? then [q[|q| - 1]] else []
  }

  /** What was pressed and released: keys always, buttons while the device is grabbed. */
  function KeysSeen(es: seq<(bool, Input)>): seq<Output>
    decreases |es|
  {
    if es == [] then [] else KeysSeen(es[..|es| - 1]) + KeyOutput(es[|es| - 1].1, es[|es| - 1].0)
  }

  lemma {:induction false} KeysConcat(a: seq<Output>, b: seq<Output>)
    ensures Keys(a + b) == Keys(a) + Keys(b)
    decreases |b|
  {
    if b == [] {
      assert a + b == a;
    } else {
      assert (a + b)[..|a + b| - 1] == a + b[..|b| - 1];
      KeysConcat(a, b[..|b| - 1]);
    }
  }

  lemma {:induction false} NoKeys(ds: seq<Delta>)
    ensures Keys(Moves(ds)) == [] && Keys(Scrolls(ds)) == []
    decreases |ds|
  {
    if ds != [] {
      NoKeys(ds[1..]);
      KeysConcat([Move(ds[0])], Moves(ds[1..]));
      KeysConcat([Scroll(ds[0])], Scrolls(ds[1..]));
      assert [Move(ds[0])][..0] == [] && [Scroll(ds[0])][..0] == [];
    }
  }

  lemma FlushKeys(s: State)
    ensures Keys(Flushed(s).queue) == Keys(s.queue)
  {
    hide Keys;
    hide Split;
    NoKeys(Split(s.move));
    NoKeys(Split(s.wheel));
    KeysConcat(s.queue, Moves(Split(s.move)));
    KeysConcat(s.queue + Moves(Split(s.move)), Scrolls(Split(s.wheel)));
  }

  lemma KeyOutputKeys(e: Input, buttons: bool)
    ensures Keys(KeyOutput(e, buttons)) == KeyOutput(e, buttons)
  {
    var o := KeyOutput(e, buttons);
    if o != [] { assert o[..0] == []; }
  }

  /** On a device with SYN_REPORT every key and button event is queued, in order. */
  lemma {:induction false} KeysAreForwarded(es: seq<(bool, Input)>)
    ensures Keys(Run(true, es).queue) == KeysSeen(es)
    decreases |es|
  {
    hide Keys;
    hide Flushed;
    if es == [] {
      KeysOfNothing();
    } else {
      var before := Run(true, es[..|es| - 1]);
      var grabbed, e := es[|es| - 1].0, es[|es| - 1].1;
      KeysAreForwarded(es[..|es| - 1]);
      KeysConcat(before.queue, KeyOutput(e, grabbed));
      KeyOutputKeys(e, grabbed);
      FlushKeys(Added(before, e));
    }
  }

  lemma KeysOfNothing()
    ensures Keys([]) == []
  {}

  lemma NoSynNoKeys(s: State, e: Input)
    ensures Keys(Next(false, s, true, e).queue) == Keys(s.queue)
  {
    hide Flushed;
    hide Keys;
    FlushKeys(Added(s, e));
  }

  /** The keys of the events that come while the device is not grabbed. */
  function KeysUngrabbed(es: seq<(bool, Input)>): seq<Output>
    decreases |es|
  {
    if es == [] then []
    else KeysUngrabbed(es[..|es| - 1]) + if es[|es| - 1].0 then [] else KeyOutput(es[|es| - 1].1, false)
  }

  /** No key or button comes while the device is grabbed. */
  predicate NoKeyGrabbed(es: seq<(bool, Input)>) {
    forall i :: 0 <= i < |es| && es[i].0 ==> KeyOutput(es[i].1, true) == []
  }

  lemma {:induction false} UngrabbedIsAll(es: seq<(bool, Input)>)
    ensures |KeysUngrabbed(es)| <= |KeysSeen(es)|
    ensures KeysUngrabbed(es) == KeysSeen(es) <==> NoKeyGrabbed(es)
    decreases |es|
  {
    hide KeyOutput;
    if es != [] {
      var init, last := es[..|es| - 1], es[|es| - 1];
      UngrabbedIsAll(init);
      assert forall i :: 0 <= i < |init| ==> init[i] == es[i];
      if NoKeyGrabbed(es) {
        assert NoKeyGrabbed(init);
      } else if NoKeyGrabbed(init) {
        assert last.0 && KeyOutput(last.1, true) != [];
      } else if last.0 && |KeyOutput(last.1, true)| == 0 {
        assert KeysSeen(es) == KeysSeen(init) && KeysUngrabbed(es) == KeysUngrabbed(init);
      } else if !last.0 {
        SameTail(KeysUngrabbed(init), KeysSeen(init), KeyOutput(last.1, false));
      }
    }
  }

  lemma SameTail(a: seq<Output>, b: seq<Output>, tail: seq<Output>)
    ensures a + tail == b + tail <==> a == b
  {
    if a + tail == b + tail {
      assert |a| == |b| && a == (a + tail)[..|a|] && b == (b + tail)[..|b|];
    }
  }

  /** On a device without SYN_REPORT exactly the keys pressed while it is not grabbed are queued;
      these are all, exactly if none comes while it is grabbed. */
  lemma {:induction false} KeysWithoutSyn(es: seq<(bool, Input)>)
    ensures Keys(Run(false, es).queue) == KeysUngrabbed(es)
    ensures Keys(Run(false, es).queue) == KeysSeen(es) <==> NoKeyGrabbed(es)
    decreases |es|
  {
    hide Keys;
    hide Next;
    UngrabbedIsAll(es);
    if es == [] {
      KeysOfNothing();
    } else {
      var before := Run(false, es[..|es| - 1]);
      var grabbed, e := es[|es| - 1].0, es[|es| - 1].1;
      KeysWithoutSyn(es[..|es| - 1]);
      if grabbed { NoSynNoKeys(before, e); } else { UngrabbedKeys(before, e); }
    }
  }

  lemma UngrabbedKeys(s: State, e: Input)
    ensures Keys(Next(false, s, false, e).queue) == Keys(s.queue) + KeyOutput(e, false)
  {
    hide Keys;
    KeysConcat(s.queue, KeyOutput(e, false));
    KeyOutputKeys(e, false);
  }

  // ----- the loop's variables -----

  class Poller {
    const hasSyn: bool
    var move: Delta
    var wheel: Delta
    var queue: seq<Output>

    function View(): State
      reads this
    {
      State(move, wheel, queue)
    }

    constructor (hasSyn: bool)
      ensures this.hasSyn == hasSyn && View() == INIT
    {
      this.hasSyn := hasSyn;
      move, wheel, queue := (0, 0), (0, 0), [];
    }

    method PutMoves(d: Delta)
      modifies `queue
      ensures queue == old(queue) + Moves(Split(d))
    {
      var pieces := SplittedDeltas(d);
      for i := 0 to |pieces|
        invariant old(queue) + Moves(pieces) == queue + Moves(pieces[i..])
      {
        assert pieces[i..][1..] == pieces[i + 1..];
        queue := queue + [Move(pieces[i])];
      }
    }

    method PutScrolls(d: Delta)
      modifies `queue
      ensures queue == old(queue) + Scrolls(Split(d))
    {
      var pieces := SplittedDeltas(d);
      for i := 0 to |pieces|
        invariant old(queue) + Scrolls(pieces) == queue + Scrolls(pieces[i..])
      {
        assert pieces[i..][1..] == pieces[i + 1..];
        queue := queue + [Scroll(pieces[i])];
      }
    }

    method Flush()
      modifies this
      ensures View() == Flushed(old(View()))
    {
      NothingToSplit();
      hide Split;
      hide Moves;
      hide Scrolls;
      if move.0 != 0 || move.1 != 0 {
        PutMoves(move);
        move := (0, 0);
      }
      if wheel.0 != 0 || wheel.1 != 0 {
        PutScrolls(wheel);
        wheel := (0, 0);
      }
    }

    method Handle(grabbed: bool, e: Input)
      modifies this
      ensures View() == Next(hasSyn, old(View()), grabbed, e)
    {
      hide Flushed;
      if !grabbed {
        if e.Key? && e.value != 2 && e.kind == KeyCode {
          queue := queue + [KeyOut(e.code, e.value != 0)];
        }
        return;
      }
      if e.Rel? {
        match e.axis {
          case RelX => move := (move.0 + e.value, move.1);
          case RelY => move := (move.0, move.1 + e.value);
          case HWheel => wheel := (wheel.0 + e.value, wheel.1);
          case Wheel => wheel := (wheel.0, wheel.1 + e.value);
          case OtherAxis =>
        }
      }
      if !hasSyn || e.Syn? {
        Flush();
      } else if e.Key? && e.value != 2 {
        if e.kind == KeyCode {
          queue := queue + [KeyOut(e.code, e.value != 0)];
        } else if e.kind == Button {
          queue := queue + [ButtonOut(e.code, e.value != 0)];
        }
      }
    }

    static lemma NothingToSplit()
      ensures Split((0, 0)) == [] && Moves([]) == [] && Scrolls([]) == []
    {}
  }
}

/** Progress of the SPI link: whatever the interleaving, a request is latched, a latched request is
    answered, and an answer goes out. */
module SpiProgress {
  import opened Bytes
  import opened SpiProtocol

  // ----- what has been done so far -----

  /** Free slots of the transmit FIFO that were filled. */
  function Slots(steps: seq<Step>): nat
    decreases |steps|
  {
    if steps == [] then 0 else Slots(steps[..|steps| - 1]) + if steps[|steps| - 1].Transmit? then 1 else 0
  }

  function Received(steps: seq<Step>): seq<Byte>
    decreases |steps|
  {
    if steps == [] then []
    else Received(steps[..|steps| - 1]) + if steps[|steps| - 1].Receive? then [steps[|steps| - 1].b] else []
  }

  predicate IsMain(s: Step) { !s.Transmit? && !s.Receive? }

  function MainSteps(steps: seq<Step>): seq<Step>
    decreases |steps|
  {
    if steps == [] then []
    else MainSteps(steps[..|steps| - 1]) + if IsMain(steps[|steps| - 1]) then [steps[|steps| - 1]] else []
  }

  lemma RunSnoc(steps: seq<Step>, more: seq<Step>)
    requires more != []
    ensures Run(steps + more) == Next(Run(steps + more[..|more| - 1]), more[|more| - 1])
  {
    assert (steps + more)[..|steps + more| - 1] == steps + more[..|more| - 1];
  }

  // ----- a pending response goes out -----

  /** The first `k` bytes that were left of a response are out. */
  predicate Sending(l: Link, n: Link, k: nat) {
    && n.handled == l.handled
    && l.outIndex + k < FRAME_SIZE
    && n.outBuf == l.outBuf && Pending(n) && n.outIndex == l.outIndex + k
    && n.sent == l.sent + l.outBuf[l.outIndex..l.outIndex + k]
  }

  predicate Sent(l: Link, n: Link) {
    && n.handled == l.handled
    && !Pending(n) && n.inIndex == 0 && n.outIndex == 0 && !n.main.Storing?
    && l.outIndex <= FRAME_SIZE && n.sent == l.sent + l.outBuf[l.outIndex..]
  }

  lemma SendStep(l: Link, n: Link, k: nat, s: Step)
    requires Inv(n) && Sending(l, n, k)
    ensures if !s.Transmit? then Sending(l, Next(n, s), k)
            else if l.outIndex + k == FRAME_SIZE - 1 then Sent(l, Next(n, s))
            else Sending(l, Next(n, s), k + 1)
  {
    hide Decode;
    if s.Transmit? {
      assert l.outBuf[l.outIndex..l.outIndex + k] + [l.outBuf[l.outIndex + k]] == l.outBuf[l.outIndex..l.outIndex + k + 1];
      if l.outIndex + k == FRAME_SIZE - 1 { assert l.outBuf[l.outIndex..FRAME_SIZE] == l.outBuf[l.outIndex..]; }
    }
  }

  lemma {:induction false} Sends(steps: seq<Step>, more: seq<Step>)
    requires Pending(Run(steps)) && Run(steps).outIndex + Slots(more) < FRAME_SIZE
    ensures Sending(Run(steps), Run(steps + more), Slots(more))
    decreases |more|
  {
    hide Decode;
    hide Next;
    if more == [] {
      assert steps + more == steps;
    } else {
      var before := more[..|more| - 1];
      Sends(steps, before);
      RunSnoc(steps, more);
      RunsKeepInv(steps + before);
      hide Inv;
      hide Sending;
      SendStep(Run(steps), Run(steps + before), Slots(before), more[|more| - 1]);
    }
  }

  /** From every reachable state with a response pending: the next free slots carry exactly its
      remaining bytes, and with the last of them all answers are out and the link is free for
      the next request. */
  lemma ResponseGoesOut(steps: seq<Step>, more: seq<Step>)
    requires Pending(Run(steps)) && Slots(more) == FRAME_SIZE - Run(steps).outIndex
    requires more != [] && more[|more| - 1].Transmit?
    ensures var l, n := Run(steps), Run(steps + more);
      && n.sent == l.sent + l.outBuf[l.outIndex..]
      && Decode(n.sent) == Decoder(Responses(l.handled), [])
      && n.handled == l.handled
      && n.inIndex == 0 && !Pending(n)
  {
    hide Decode;
    hide Next;
    var before := more[..|more| - 1];
    RunsKeepInv(steps);
    Sends(steps, before);
    RunSnoc(steps, more);
    RunsKeepInv(steps + before);
    SendStep(Run(steps), Run(steps + before), Slots(before), more[|more| - 1]);
    RunsKeepInv(steps + more);
  }

  // ----- a latched request is answered -----

  /** What the main loop does about a request. */
  function Turn(response: Response): (turn: seq<Step>)
    ensures |turn| == 19
  {
    [ReadOutput, ReadInput] + seq(FRAME_SIZE, _ => ReadRequest) + [Respond(response)] + seq(FRAME_SIZE, _ => Store)
  }

  lemma TurnAt(response: Response, k: nat)
    requires k < 19
    ensures Turn(response)[k] ==
            if k == 0 then ReadOutput else if k == 1 then ReadInput else if k < 10 then ReadRequest
            else if k == 10 then Respond(response) else Store
  {}

  /** How far the main loop has come in its turn. */
  function At(main: Main): int {
    match main
    case Polling => 0
    case OutputFree => 1
    case Handling(request) => 2 + |request|
    case Storing(_, left) => 19 - left
  }

  /** What the main loop has still to do about a request. */
  function RestOfTurn(main: Main, response: Response): seq<Step> {
    if 0 <= At(main) <= 19 then Turn(response)[At(main)..] else []
  }

  predicate InTurn(l: Link, n: Link, response: Response) {
    && n.inIndex == FRAME_SIZE && n.inBuf == l.inBuf && !Pending(n)
    && 0 <= At(n.main) < 19
    && (n.main.Handling? ==> |n.main.request| <= FRAME_SIZE)
    && (if n.main.Storing? then n.main.response == response && n.handled == l.handled + [(l.inBuf, response)]
        else n.handled == l.handled)
  }

  lemma TurnUndisturbed(l: Link, n: Link, response: Response, s: Step)
    requires InTurn(l, n, response) && !IsMain(s)
    ensures InTurn(l, Next(n, s), response) && Next(n, s).main == n.main
  {}

  lemma RequestAdvances(l: Link, n: Link, response: Response, s: Step)
    requires Inv(n) && InTurn(l, n, response) && At(n.main) <= 10 && !n.main.Storing? && s == Turn(response)[At(n.main)]
    ensures InTurn(l, Next(n, s), response) && At(Next(n, s).main) == At(n.main) + 1
  {
    hide Decode;
    hide Responses;
    TurnAt(response, At(n.main));
    hide Turn;
    if n.main.Handling? { assert n.inBuf[..FRAME_SIZE] == n.inBuf; }
  }

  lemma ResponseAdvances(l: Link, n: Link, response: Response, s: Step)
    requires Inv(n) && InTurn(l, n, response) && n.main.Storing? && s == Turn(response)[At(n.main)]
    ensures var n' := Next(n, s);
      if At(n.main) == 18
      then n'.outBuf == response && n'.outIndex == 0 && n'.handled == l.handled + [(l.inBuf, response)]
      else InTurn(l, n', response) && At(n'.main) == At(n.main) + 1
  {
    TurnAt(response, At(n.main));
    hide Turn;
    hide Decode;
    hide Responses;
    hide Requests;
    if n.main.left == 1 {
      assert n.outBuf[0 := response[0]] == [response[0]] + n.outBuf[1..];
      assert response == [response[0]] + response[1..];
    }
  }

  lemma TurnAdvances(l: Link, n: Link, response: Response, s: Step)
    requires Inv(n) && InTurn(l, n, response) && s == Turn(response)[At(n.main)]
    ensures var n' := Next(n, s);
      if At(n.main) == 18
      then n'.outBuf == response && n'.outIndex == 0 && n'.handled == l.handled + [(l.inBuf, response)]
      else InTurn(l, n', response) && At(n'.main) == At(n.main) + 1
  {
    hide Inv;
    hide Next;
    hide Turn;
    if n.main.Storing? { ResponseAdvances(l, n, response, s); } else { RequestAdvances(l, n, response, s); }
  }

  /** These steps follow the turn from its k-th on. */
  predicate Follows(main: seq<Step>, turn: seq<Step>, k: nat) {
    k + |main| <= |turn| && forall i :: 0 <= i < |main| ==> main[i] == turn[k + i]
  }

  lemma {:induction false} FollowsPrefix(more: seq<Step>, turn: seq<Step>, k: nat)
    requires more != [] && Follows(MainSteps(more), turn, k)
    ensures var before, s := MainSteps(more[..|more| - 1]), more[|more| - 1];
      && Follows(before, turn, k)
      && |MainSteps(more)| == |before| + (if IsMain(s) then 1 else 0)
      && (IsMain(s) ==> s == turn[k + |before|])
  {
    var before := MainSteps(more[..|more| - 1]);
    assert forall i :: 0 <= i < |before| ==> MainSteps(more)[i] == before[i];
    if IsMain(more[|more| - 1]) { assert MainSteps(more)[|before|] == more[|more| - 1]; }
  }

  lemma {:induction false} TurnRuns(steps: seq<Step>, more: seq<Step>, response: Response)
    requires Run(steps).inIndex == FRAME_SIZE && !Answered(Run(steps))
    requires 0 <= At(Run(steps).main) <= 10
    requires At(Run(steps).main) + |MainSteps(more)| < 19
    requires Follows(MainSteps(more), Turn(response), At(Run(steps).main))
    ensures InTurn(Run(steps), Run(steps + more), response)
    ensures At(Run(steps + more).main) == At(Run(steps).main) + |MainSteps(more)|
    decreases |more|
  {
    hide Next;
    hide Turn;
    if more == [] {
      TurnBegins(steps, response);
      assert steps + more == steps;
    } else {
      hide InTurn;
      hide Answered;
      var before, s := more[..|more| - 1], more[|more| - 1];
      FollowsPrefix(more, Turn(response), At(Run(steps).main));
      hide MainSteps;
      hide Follows;
      TurnRuns(steps, before, response);
      RunSnoc(steps, more);
      RunsKeepInv(steps + before);
      hide Run;
      hide Inv;
      if IsMain(s) {
        TurnAdvances(Run(steps), Run(steps + before), response, s);
      } else {
        TurnUndisturbed(Run(steps), Run(steps + before), response, s);
      }
    }
  }

  lemma TurnBegins(steps: seq<Step>, response: Response)
    requires Run(steps).inIndex == FRAME_SIZE && !Answered(Run(steps))
    ensures InTurn(Run(steps), Run(steps), response)
  {
    hide Decode;
    RunsKeepInv(steps);
  }

  lemma WhereUnanswered(steps: seq<Step>)
    requires Run(steps).inIndex == FRAME_SIZE && !Answered(Run(steps))
    ensures 0 <= At(Run(steps).main) <= 10
  {
    hide Decode;
    RunsKeepInv(steps);
  }

  /** From every reachable state with a request latched and not yet answered: once the main loop
      has done the rest of its turn, whatever the interrupt does meanwhile, the handler's
      response to exactly this request is pending. */
  lemma RequestIsAnswered(steps: seq<Step>, more: seq<Step>, response: Response)
    requires Run(steps).inIndex == FRAME_SIZE && !Answered(Run(steps))
    requires MainSteps(more) == RestOfTurn(Run(steps).main, response) && more != [] && IsMain(more[|more| - 1])
    ensures var l, n := Run(steps), Run(steps + more);
      && n.outBuf == response && n.outIndex == 0 && Pending(n)
      && n.handled == l.handled + [(l.inBuf, response)]
  {
    hide Decode;
    hide Next;
    var before, s := more[..|more| - 1], more[|more| - 1];
    WhereUnanswered(steps);
    FollowsPrefix(more, Turn(response), At(Run(steps).main));
    TurnRuns(steps, before, response);
    RunSnoc(steps, more);
    RunsKeepInv(steps + before);
    TurnAdvances(Run(steps), Run(steps + before), response, s);
  }

  // ----- a request is latched -----

  predicate Filling(l: Link, n: Link, bytes: seq<Byte>) {
    && n.inIndex == l.inIndex + |bytes| < FRAME_SIZE
    && n.inBuf[..n.inIndex] == l.inBuf[..l.inIndex] + bytes
    && n.latched == l.latched && n.handled == l.handled
  }

  lemma FillStep(l: Link, n: Link, bytes: seq<Byte>, s: Step)
    requires Inv(n) && Filling(l, n, bytes) && l.inIndex < FRAME_SIZE
    requires s.Receive? ==> n.inIndex > 0 || s.b != 0
    ensures var n' := Next(n, s);
      if s.Receive? && n.inIndex == FRAME_SIZE - 1
      then
        && n'.inIndex == FRAME_SIZE && n'.inBuf == l.inBuf[..l.inIndex] + bytes + [s.b]
        && n'.latched == l.latched + [n'.inBuf] && n'.handled == l.handled && !Answered(n')
      else Filling(l, n', bytes + if s.Receive? then [s.b] else [])
  {
    hide Decode;
    if s.Receive? {
      var inBuf := n.inBuf[n.inIndex := s.b];
      assert inBuf[..n.inIndex + 1] == n.inBuf[..n.inIndex] + [s.b];
      if n.inIndex == FRAME_SIZE - 1 { assert inBuf[..FRAME_SIZE] == inBuf; }
    } else {
      assert bytes + [] == bytes;
    }
  }

  lemma {:induction false} Fills(steps: seq<Step>, more: seq<Step>)
    requires Run(steps).inIndex + |Received(more)| < FRAME_SIZE
    requires Received(more) != [] ==> Run(steps).inIndex > 0 || Received(more)[0] != 0
    ensures Filling(Run(steps), Run(steps + more), Received(more))
    decreases |more|
  {
    hide Decode;
    hide Next;
    RunsKeepInv(steps);
    if more == [] {
      assert steps + more == steps;
    } else {
      var before, s := more[..|more| - 1], more[|more| - 1];
      Fills(steps, before);
      RunSnoc(steps, more);
      RunsKeepInv(steps + before);
      FillStep(Run(steps), Run(steps + before), Received(before), s);
    }
  }

  /** From every reachable state without a latched request: the bytes received, from a non-zero one
      on, make up the request that is latched with the eighth. */
  lemma RequestIsLatched(steps: seq<Step>, more: seq<Step>)
    requires Run(steps).inIndex + |Received(more)| == FRAME_SIZE && more != [] && more[|more| - 1].Receive?
    requires Received(more) != []
    requires Run(steps).inIndex > 0 || Received(more)[0] != 0
    ensures var l, n := Run(steps), Run(steps + more);
      && n.inIndex == FRAME_SIZE && n.inBuf == l.inBuf[..l.inIndex] + Received(more)
      && n.latched == l.latched + [n.inBuf] && n.handled == l.handled && !Answered(n)
  {
    hide Decode;
    hide Next;
    var before, s := more[..|more| - 1], more[|more| - 1];
    Fills(steps, before);
    RunSnoc(steps, more);
    RunsKeepInv(steps + before);
    FillStep(Run(steps), Run(steps + before), Received(before), s);
    assert Run(steps).inBuf[..Run(steps).inIndex] + Received(before) + [s.b]
           == Run(steps).inBuf[..Run(steps).inIndex] + Received(more);
  }

  /** A whole exchange, from every reachable state of the idle link: eight bytes arrive, the main
      loop does its turn, eight slots come free, each in any interleaving with everything else;
      then exactly this request has been answered and the answer is out. */
  lemma ExchangeCompletes(steps: seq<Step>, a: seq<Step>, b: seq<Step>, c: seq<Step>, response: Response)
    requires Run(steps).inIndex == 0
    requires |Received(a)| == FRAME_SIZE && Received(a)[0] != 0 && a != [] && a[|a| - 1].Receive?
    requires MainSteps(b) == RestOfTurn(Run(steps + a).main, response) && b != [] && IsMain(b[|b| - 1])
    requires Slots(c) == FRAME_SIZE && c != [] && c[|c| - 1].Transmit?
    ensures var l, n := Run(steps), Run(steps + a + b + c);
      && n.handled == l.handled + [(Received(a), response)]
      && Decode(n.sent) == Decoder(Responses(n.handled), [])
      && n.inIndex == 0 && !Pending(n)
  {
    hide Decode;
    hide Run;
    RequestIsLatched(steps, a);
    assert Run(steps).inBuf[..0] + Received(a) == Received(a);
    RequestIsAnswered(steps + a, b, response);
    ResponseGoesOut(steps + a + b, c);
  }
}

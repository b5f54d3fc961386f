/** The functions linked into the USB gadget's profile, and what a change request does to them. */
module OtgProfile {
  type Name = string

  const MTP: Name := "ffs.mtp"

  /** One meta file; a list of metas is in the order of creation, as they are read. */
  datatype Meta = Meta(name: Name, eps: nat, order: int)

  function Names(metas: seq<Meta>): set<Name>
    decreases |metas|
  {
    if metas == [] then {} else Names(metas[..|metas| - 1]) + {metas[|metas| - 1].name}
  }

  /** Each function has one meta file, named after it. */
  predicate DistinctNames(metas: seq<Meta>)
    decreases |metas|
  {
    metas == [] || (DistinctNames(metas[..|metas| - 1]) && metas[|metas| - 1].name !in Names(metas[..|metas| - 1]))
  }

  function EpsOf(metas: seq<Meta>, keep: set<Name>): nat
    decreases |metas|
  {
    if metas == [] then 0
    else EpsOf(metas[..|metas| - 1], keep) + if metas[|metas| - 1].name in keep then metas[|metas| - 1].eps else 0
  }

  /** The functions of `keep` in the order of the metas. */
  function Ordered(metas: seq<Meta>, keep: set<Name>): seq<Name>
    decreases |metas|
  {
    if metas == [] then []
    else
      Ordered(metas[..|metas| - 1], keep)
      + if metas[|metas| - 1].name in keep then [metas[|metas| - 1].name] else []
  }

  function LinkSet(links: seq<Name>): set<Name> { set name | name in links }

  /** The links are known functions, each once, in the order of the metas. */
  predicate InMetaOrder(metas: seq<Meta>, links: seq<Name>) { links == Ordered(metas, LinkSet(links)) }

  lemma {:induction false} OrderedMember(metas: seq<Meta>, keep: set<Name>, x: Name)
    ensures x in Ordered(metas, keep) <==> x in keep && x in Names(metas)
    decreases |metas|
  {
    if metas != [] { OrderedMember(metas[..|metas| - 1], keep, x); }
  }

  lemma OrderedSet(metas: seq<Meta>, keep: set<Name>)
    ensures LinkSet(Ordered(metas, keep)) == keep * Names(metas)
  {
    hide Ordered;
    hide Names;
    forall x { OrderedMember(metas, keep, x); }
  }

  lemma {:induction false} OrderedDepends(metas: seq<Meta>, a: set<Name>, b: set<Name>)
    requires forall x :: x in Names(metas) ==> (x in a <==> x in b)
    ensures Ordered(metas, a) == Ordered(metas, b) && EpsOf(metas, a) == EpsOf(metas, b)
    decreases |metas|
  {
    if metas != [] {
      assert metas[|metas| - 1].name in Names(metas);
      OrderedDepends(metas[..|metas| - 1], a, b);
    }
  }

  lemma OrderedInOrder(metas: seq<Meta>, keep: set<Name>)
    ensures InMetaOrder(metas, Ordered(metas, keep))
    ensures Ordered(metas, LinkSet(Ordered(metas, keep))) == Ordered(metas, keep)
    ensures EpsOf(metas, LinkSet(Ordered(metas, keep))) == EpsOf(metas, keep)
  {
    OrderedSet(metas, keep);
    OrderedDepends(metas, LinkSet(Ordered(metas, keep)), keep);
  }

  lemma {:induction false} EpsMonotone(metas: seq<Meta>, a: set<Name>, b: set<Name>)
    requires a <= b
    ensures EpsOf(metas, a) <= EpsOf(metas, b)
    decreases |metas|
  {
    if metas != [] { EpsMonotone(metas[..|metas| - 1], a, b); }
  }

  // ----- requests -----

  /** The profile's links in order of creation; whether the gadget is bound to the controller; and
      whether the controller is to be found at all: its driver is unbound while it is stopped. */
  datatype Gadget = Gadget(links: seq<Name>, bound: bool, present: bool)

  /** What the kernel and the MTP daemon do during a request. */
  datatype Env = Env(refused: set<Name>, mtpFails: bool, retryFails: bool)

  datatype Request = Change(enable: set<Name>, disable: set<Name>, env: Env) | Reset(env: Env)

  datatype Result = Unchanged | OverBudget | NoController | Done | MtpFailed

  datatype Outcome = Outcome(gadget: Gadget, result: Result)

  function Current(metas: seq<Meta>, g: Gadget): set<Name> { LinkSet(g.links) * Names(metas) }

  function Wanted(metas: seq<Meta>, g: Gadget, r: Request): set<Name>
    requires r.Change?
  {
    Current(metas, g) - r.disable + r.enable
  }

  /** The controller restarts only if something is linked. */
  function Restarted(g: Gadget, links: seq<Name>): Gadget {
    Gadget(links, links != [], if g.bound then links != [] else g.present)
  }

  function Rollback(metas: seq<Meta>, previous: set<Name>, env: Env): seq<Name> {
    Ordered(metas, if env.retryFails then previous - {MTP} else previous)
  }

  /** A body that leaves these links, run with the controller stopped. */
  function Stopped(metas: seq<Meta>, g: Gadget, body: seq<Name>, env: Env): Outcome {
    if !g.present then Outcome(g, NoController)
    else if env.mtpFails then Outcome(Restarted(g, Rollback(metas, LinkSet(g.links), env)), MtpFailed)
    else Outcome(Restarted(g, Ordered(metas, LinkSet(body))), Done)
  }

  function Apply(metas: seq<Meta>, eps: nat, g: Gadget, r: Request): Outcome {
    match r
    case Reset(env) => Stopped(metas, g, g.links, env)
    case Change(enable, disable, env) =>
      var wanted := Wanted(metas, g, r);
      if wanted == Current(metas, g) then Outcome(g, Unchanged)
      else if EpsOf(metas, wanted) > eps then Outcome(g, OverBudget)
      else Stopped(metas, g, Ordered(metas, wanted - env.refused), env)
  }

  function Run(metas: seq<Meta>, eps: nat, g: Gadget, rs: seq<Request>): Gadget
    decreases |rs|
  {
    if rs == [] then g else Apply(metas, eps, Run(metas, eps, g, rs[..|rs| - 1]), rs[|rs| - 1]).gadget
  }

  // ----- what one request does -----

  /** A change that succeeds leaves exactly what was linked, less `disable`, plus `enable`, as far
      as it is known and the kernel links it. */
  lemma ChangeLeaves(metas: seq<Meta>, eps: nat, g: Gadget, r: Request)
    requires r.Change? && Apply(metas, eps, g, r).result == Done
    ensures LinkSet(Apply(metas, eps, g, r).gadget.links) == Wanted(metas, g, r) * Names(metas) - r.env.refused
  {
    var keep := Wanted(metas, g, r) - r.env.refused;
    OrderedSet(metas, keep);
    OrderedInOrder(metas, keep);
    assert keep * Names(metas) == Wanted(metas, g, r) * Names(metas) - r.env.refused;
  }

  predicate Known(metas: seq<Meta>, name: Name) { exists i :: 0 <= i < |metas| && metas[i].name == name }

  lemma {:induction false} KnownNames(metas: seq<Meta>, name: Name)
    ensures name in Names(metas) <==> Known(metas, name)
    decreases |metas|
  {
    if metas != [] {
      var init := metas[..|metas| - 1];
      KnownNames(init, name);
      if Known(init, name) { var i :| 0 <= i < |init| && init[i].name == name; assert metas[i].name == name; }
      if Known(metas, name) { var i :| 0 <= i < |metas| && metas[i].name == name; assert i < |init| ==> init[i].name == name; }
    }
  }

  predicate Enabled(metas: seq<Meta>, g: Gadget, name: Name) { name in g.links && Known(metas, name) }

  /** Asked for, or enabled and not asked to go. */
  predicate Asked(metas: seq<Meta>, g: Gadget, enable: set<Name>, disable: set<Name>, name: Name) {
    name in enable || (Enabled(metas, g, name) && name !in disable)
  }

  /** What a change request does, name by name. If it succeeds, exactly the names asked for that
      are known and not refused are linked; it is needless exactly if every name asked for is
      enabled and the reverse; and otherwise over budget exactly if the names asked for need more
      endpoints than there are. */
  lemma ChangeByName(metas: seq<Meta>, eps: nat, g: Gadget, enable: set<Name>, disable: set<Name>, env: Env, asked: set<Name>)
    requires forall x :: x in asked <==> Asked(metas, g, enable, disable, x)
    ensures var o := Apply(metas, eps, g, Change(enable, disable, env));
      && (o.result == Unchanged <==> forall x :: Asked(metas, g, enable, disable, x) <==> Enabled(metas, g, x))
      && (o.result == OverBudget <==> o.result != Unchanged && EpsOf(metas, asked) > eps)
      && (o.result == NoController <==> o.result != Unchanged && EpsOf(metas, asked) <= eps && !g.present)
      && (o.result == Done || o.result == MtpFailed ==> (o.result == MtpFailed <==> env.mtpFails))
      && (o.result == Done ==>
            forall x :: x in o.gadget.links <==>
              Known(metas, x) && x !in env.refused && Asked(metas, g, enable, disable, x))
  {
    hide Ordered;
    hide EpsOf;
    hide Known;
    var r := Change(enable, disable, env);
    var current, wanted := Current(metas, g), Wanted(metas, g, r);
    forall x
      ensures x in current <==> Enabled(metas, g, x)
      ensures x in wanted <==> Asked(metas, g, enable, disable, x)
      ensures x in Names(metas) <==> Known(metas, x)
    {
      KnownNames(metas, x);
    }
    assert wanted == asked;
    if forall x :: Asked(metas, g, enable, disable, x) <==> Enabled(metas, g, x) { assert wanted == current; }
    var o := Apply(metas, eps, g, r);
    if o.result == Done {
      ChangeLeaves(metas, eps, g, r);
      assert forall x :: x in o.gadget.links <==> x in LinkSet(o.gadget.links);
    }
  }

  /** Helper, read off the definitions: a request that is over budget, or changes nothing, or finds
      no controller, leaves everything alone; it is over budget exactly when the wanted functions
      need more endpoints. */
  lemma RefusedChangesNothing(metas: seq<Meta>, eps: nat, g: Gadget, r: Request)
    ensures var o := Apply(metas, eps, g, r);
      && (o.result == OverBudget || o.result == Unchanged || o.result == NoController ==> o.gadget == g)
      && (o.result == OverBudget <==>
            r.Change? && Wanted(metas, g, r) != Current(metas, g) && EpsOf(metas, Wanted(metas, g, r)) > eps)
      && (r.Reset? && o.result == Done && InMetaOrder(metas, g.links) ==> o.gadget.links == g.links)
  {
    hide Ordered;
    hide EpsOf;
    hide LinkSet;
    hide Names;
  }

  /** A failed MTP start or stop restores the links, at most without MTP itself. */
  lemma MtpFailureRestores(metas: seq<Meta>, eps: nat, g: Gadget, r: Request)
    requires InMetaOrder(metas, g.links) && Apply(metas, eps, g, r).result == MtpFailed
    ensures var links := Apply(metas, eps, g, r).gadget.links;
      && (!r.env.retryFails || MTP !in g.links ==> links == g.links)
      && (r.env.retryFails ==> LinkSet(links) == LinkSet(g.links) - {MTP})
      && InMetaOrder(metas, links)
  {
    var previous := LinkSet(g.links);
    OrderedSet(metas, previous);
    OrderedInOrder(metas, previous);
    OrderedSet(metas, previous - {MTP});
    OrderedInOrder(metas, previous - {MTP});
    assert previous * Names(metas) == previous;
    if r.env.retryFails {
      assert (previous - {MTP}) * Names(metas) == previous - {MTP};
      if MTP !in g.links { assert previous - {MTP} == previous; }
    }
  }

  function Max(a: nat, b: nat): nat { if a < b then b else a }

  lemma StepKeepsOrder(metas: seq<Meta>, eps: nat, g: Gadget, r: Request)
    requires InMetaOrder(metas, g.links)
    ensures InMetaOrder(metas, Apply(metas, eps, g, r).gadget.links)
  {
    hide Ordered;
    hide EpsOf;
    hide LinkSet;
    hide Names;
    var o := Apply(metas, eps, g, r);
    if o.result == MtpFailed {
      MtpFailureRestores(metas, eps, g, r);
    } else if o.result == Done {
      OrderedInOrder(metas, LinkSet(if r.Reset? then g.links else Ordered(metas, Wanted(metas, g, r) - r.env.refused)));
    }
  }

  lemma StepKeepsBudget(metas: seq<Meta>, eps: nat, g: Gadget, r: Request)
    requires InMetaOrder(metas, g.links)
    ensures EpsOf(metas, LinkSet(Apply(metas, eps, g, r).gadget.links)) <= Max(eps, EpsOf(metas, LinkSet(g.links)))
  {
    hide Ordered;
    hide EpsOf;
    hide LinkSet;
    hide Names;
    var o := Apply(metas, eps, g, r);
    if o.result == MtpFailed {
      MtpFailureRestores(metas, eps, g, r);
      EpsMonotone(metas, LinkSet(g.links) - {MTP}, LinkSet(g.links));
    } else if o.result == Done && r.Change? {
      var keep := Wanted(metas, g, r) - r.env.refused;
      OrderedInOrder(metas, keep);
      EpsMonotone(metas, keep, Wanted(metas, g, r));
    }
  }

  /** Over any run of requests the links stay in meta order, and the linked functions never need
      more endpoints than the budget, or than they needed at the start if that was more. */
  lemma {:induction false} RunsKeepOrderAndBudget(metas: seq<Meta>, eps: nat, g: Gadget, rs: seq<Request>)
    requires InMetaOrder(metas, g.links)
    ensures InMetaOrder(metas, Run(metas, eps, g, rs).links)
    ensures EpsOf(metas, LinkSet(Run(metas, eps, g, rs).links)) <= Max(eps, EpsOf(metas, LinkSet(g.links)))
    decreases |rs|
  {
    hide Apply;
    hide EpsOf;
    hide LinkSet;
    hide InMetaOrder;
    if rs != [] {
      var before := rs[..|rs| - 1];
      RunsKeepOrderAndBudget(metas, eps, g, before);
      StepKeepsOrder(metas, eps, Run(metas, eps, g, before), rs[|rs| - 1]);
      StepKeepsBudget(metas, eps, Run(metas, eps, g, before), rs[|rs| - 1]);
    }
  }

  // ----- an emptied profile -----

  /** A request that takes the last function from a bound gadget leaves the driver unbound, so
      that no later request finds the controller: nothing can be linked again. */
  lemma {:induction false} EmptiedForGood(metas: seq<Meta>, eps: nat, g: Gadget, r: Request, rs: seq<Request>)
    requires g.bound && g.links != [] && Apply(metas, eps, g, r).gadget.links == []
    ensures Run(metas, eps, Apply(metas, eps, g, r).gadget, rs) == Gadget([], false, false)
    decreases |rs|
  {
    hide Ordered;
    hide EpsOf;
    hide LinkSet;
    hide Names;
    if rs != [] { EmptiedForGood(metas, eps, g, r, rs[..|rs| - 1]); }
  }

  predicate Sane(g: Gadget) { g.bound == (g.links != []) && g.present == g.bound }

  /** From a bound gadget on, the controller is found exactly while something is linked. */
  lemma {:induction false} BoundUntilEmptied(metas: seq<Meta>, eps: nat, g: Gadget, rs: seq<Request>)
    requires Sane(g)
    ensures Sane(Run(metas, eps, g, rs))
    decreases |rs|
  {
    hide Ordered;
    hide EpsOf;
    hide LinkSet;
    hide Names;
    if rs != [] { BoundUntilEmptied(metas, eps, g, rs[..|rs| - 1]); }
  }
}

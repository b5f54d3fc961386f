/** The gadget control and the gadget builder, as the objects that change the profile link by link. */
module OtgClass {
  import opened OtgProfile
  import B = OtgGadget

  /** The links are relinked in loops over the metas; each creation is a symlink. */
  class GadgetControl {
    const metas: seq<Meta>
    const eps: nat
    var links: seq<Name>
    var bound: bool
    var present: bool

    constructor (metas: seq<Meta>, eps: nat, links: seq<Name>, bound: bool, present: bool)
      requires DistinctNames(metas)
      ensures this.metas == metas && this.eps == eps && View() == Gadget(links, bound, present)
    {
      this.metas, this.eps, this.links, this.bound, this.present := metas, eps, links, bound, present;
    }

    function View(): Gadget
      reads this
    {
      Gadget(links, bound, present)
    }

    static lemma {:induction false} PrefixDistinct(metas: seq<Meta>, k: nat)
      requires DistinctNames(metas) && k < |metas|
      ensures metas[k].name !in Names(metas[..k])
      decreases |metas|
    {
      if k < |metas| - 1 {
        var init := metas[..|metas| - 1];
        assert init[..k] == metas[..k];
        PrefixDistinct(init, k);
      }
    }

    /** Removes the existing links, and recreates them in meta order if asked to. */
    method ClearProfile(recreate: bool)
      requires DistinctNames(metas)
      modifies `links
      ensures links == if recreate then Ordered(metas, LinkSet(old(links))) else []
    {
      var existing := LinkSet(links);
      links := [];
      if recreate {
        LinkAll(existing);
      }
    }

    method LinkAll(keep: set<Name>)
      requires DistinctNames(metas) && links == []
      modifies `links
      ensures links == Ordered(metas, keep)
    {
      for k := 0 to |metas|
        invariant links == Ordered(metas[..k], keep)
      {
        ghost var done := metas[..k + 1];
        assert done[..k] == metas[..k];
        PrefixDistinct(metas, k);
        OrderedMember(metas[..k], keep, metas[k].name);
        if metas[k].name in keep && metas[k].name !in links {
          links := links + [metas[k].name];
        }
      }
      assert metas[..|metas|] == metas;
    }

    /** What happens after the body, with the controller stopped: relinking, MTP, rollback, and the
        restart of the controller. */
    method Restart(previous: set<Name>, wasBound: bool, env: Env) returns (ok: bool)
      requires DistinctNames(metas) && !bound
      modifies this
      ensures ok == !env.mtpFails
      ensures links == if ok then Ordered(metas, LinkSet(old(links))) else Rollback(metas, previous, env)
      ensures bound == (links != []) && present == if wasBound then links != [] else old(present)
    {
      ClearProfile(true);
      ok := !env.mtpFails;
      if !ok {
        ClearProfile(false);
        LinkAll(previous);
        if MTP in previous && env.retryFails {
          links := Without(links, MTP);
          WithoutOrdered(metas, previous, MTP);
        } else if env.retryFails {
          assert previous - {MTP} == previous;
        }
      }
      if links != [] {
        if wasBound {
          present := true;
        }
        bound := true;
      } else if wasBound {
        present := false;
      }
    }

    static function Without(links: seq<Name>, name: Name): seq<Name>
      decreases |links|
    {
      if links == [] then []
      else Without(links[..|links| - 1], name) + if links[|links| - 1] == name then [] else [links[|links| - 1]]
    }

    static lemma {:induction false} WithoutOrdered(metas: seq<Meta>, keep: set<Name>, name: Name)
      ensures Without(Ordered(metas, keep), name) == Ordered(metas, keep - {name})
      decreases |metas|
    {
      if metas != [] {
        var init, last := metas[..|metas| - 1], metas[|metas| - 1];
        WithoutOrdered(init, keep, name);
        if last.name in keep {
          assert Ordered(metas, keep)[..|Ordered(metas, keep)| - 1] == Ordered(init, keep);
        } else {
          assert Ordered(metas, keep) == Ordered(init, keep);
        }
        assert Ordered(init, keep - {name}) + [] == Ordered(init, keep - {name});
      }
    }

    method ChangeFunctions(enable: set<Name>, disable: set<Name>, env: Env) returns (result: Result)
      requires DistinctNames(metas)
      modifies this
      ensures Outcome(View(), result) == OtgProfile.Apply(metas, eps, old(View()), Change(enable, disable, env))
    {
      hide Ordered;
      hide EpsOf;
      hide LinkSet;
      hide Names;
      hide DistinctNames;
      hide Rollback;
      var current := LinkSet(links) * Names(metas);
      var new_ := current - disable + enable;
      if new_ == current { return Unchanged; }
      if EpsOf(metas, new_) > eps { return OverBudget; }
      if !present { return NoController; }
      var previous, wasBound := LinkSet(links), bound;
      bound := false;
      ClearProfile(false);
      LinkAll(new_ - env.refused);
      var ok := Restart(previous, wasBound, env);
      return if ok then Done else MtpFailed;
    }

    method ResetGadget(env: Env) returns (result: Result)
      requires DistinctNames(metas)
      modifies this
      ensures Outcome(View(), result) == OtgProfile.Apply(metas, eps, old(View()), Reset(env))
    {
      hide Ordered;
      hide LinkSet;
      hide DistinctNames;
      hide Rollback;
      if !present { return NoController; }
      var previous, wasBound := LinkSet(links), bound;
      bound := false;
      var ok := Restart(previous, wasBound, env);
      return if ok then Done else MtpFailed;
    }
  }

  class GadgetConfig {
    const epsMax: int
    var epsUsed: int
    var hidInstance: nat
    var msdInstance: nat
    var funcOrder: nat
    var metas: seq<Meta>
    var links: seq<Name>
    ghost var free: bool

    ghost predicate Valid()
      reads this
    {
      funcOrder == |metas|
    }

    ghost function View(): B.State
      reads this
    {
      B.State(epsMax, epsUsed, hidInstance, msdInstance, metas, links, free)
    }

    constructor (eps: int)
      ensures Valid() && View() == B.Init(eps)
    {
      epsMax, epsUsed, hidInstance, msdInstance, funcOrder, metas, links, free := eps, 0, 0, 0, 0, [], [], false;
    }

    method StartFunction(name: Name, eps: nat) returns (started: bool)
      modifies `links, `epsUsed
      ensures started == (epsMax - old(epsUsed) >= eps)
      ensures links == old(links) + (if started then [name] else [])
      ensures epsUsed == old(epsUsed) + if started then eps else 0
    {
      started := epsMax - epsUsed >= eps;
      if started {
        links := links + [name];
        epsUsed := epsUsed + eps;
      }
    }

    method CreateMeta(name: Name, eps: nat)
      modifies `metas, `funcOrder
      ensures metas == old(metas) + [Meta(name, eps, old(funcOrder))] && funcOrder == old(funcOrder) + 1
    {
      metas := metas + [Meta(name, eps, funcOrder)];
      funcOrder := funcOrder + 1;
    }

    method AddDevice(d: B.Device, start: bool) returns (ok: bool)
      requires Valid()
      modifies this
      ensures Valid()
      ensures ok == B.Add(old(View()), d, start).Some?
      ensures View() == if ok then B.Add(old(View()), d, start).value else old(View())
    {
      hide Names;
      hide B.NameOf;
      var name := B.NameOf(B.State(epsMax, epsUsed, hidInstance, msdInstance, metas, links, false), d);
      SameName(d, B.State(epsMax, epsUsed, hidInstance, msdInstance, metas, links, false), View());
      if name in Names(metas) { return false; }
      if start {
        if d.Rndis? {
          links := links + [name];
          free := true;
        } else {
          var _ := StartFunction(name, B.EpsFor(d));
        }
      }
      CreateMeta(name, B.EpsFor(d));
      match d {
        case Hid => hidInstance := hidInstance + 1;
        case Msd => msdInstance := msdInstance + 1;
        case _ =>
      }
      return true;
    }

    static lemma SameName(d: B.Device, s: B.State, t: B.State)
      requires s.hid == t.hid && s.msd == t.msd
      ensures B.NameOf(s, d) == B.NameOf(t, d)
    {}
  }
}

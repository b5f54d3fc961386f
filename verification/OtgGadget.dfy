/** Building the gadget: functions are created and linked one by one within the endpoint budget. */
module OtgGadget {
  import opened Options
  import opened OtgProfile

  datatype Device = Mic | Camera | Serial | Ethernet(driver: string) | Rndis | Mtp | Hid | Msd

  /** `free` tells whether RNDIS is linked, which is not charged. */
  datatype State = State(max: int, used: int, hid: nat, msd: nat, metas: seq<Meta>, links: seq<Name>, free: bool)

  function Init(max: int): State { State(max, 0, 0, 0, [], [], false) }

  function Decimal(n: nat): string
    decreases n
  {
    if n < 10 then [(n + 48) as char] else Decimal(n / 10) + [(n % 10 + 48) as char]
  }

  function NameOf(s: State, d: Device): Name {
    match d
    case Mic => "uac2.usb0"
    case Camera => "uvc.gs6"
    case Serial => "acm.usb0"
    case Ethernet(driver) => (if driver == "rndis5" then "rndis" else driver) + ".usb0"
    case Rndis => "rndis.usb0"
    case Mtp => MTP
    case Hid => "hid.usb" + Decimal(s.hid)
    case Msd => "mass_storage." + Decimal(s.msd)
  }

  function EpsFor(d: Device): nat {
    match d
    case Hid => 1
    case Mic | Camera | Rndis | Msd => 2
    case Serial | Ethernet(_) | Mtp => 3
  }

  predicate Links(s: State, d: Device, start: bool) { start && (d.Rndis? || s.max - s.used >= EpsFor(d)) }

  /** `None` when the function's directory already exists. */
  function Add(s: State, d: Device, start: bool): Option<State> {
    var name := NameOf(s, d);
    if name in Names(s.metas) then None
    else
      var linked := Links(s, d, start);
      Some(s.(used := if linked && !d.Rndis? then s.used + EpsFor(d) else s.used,
              hid := if d.Hid? then s.hid + 1 else s.hid,
              msd := if d.Msd? then s.msd + 1 else s.msd,
              metas := s.metas + [Meta(name, EpsFor(d), |s.metas|)],
              links := if linked then s.links + [name] else s.links,
              free := s.free || (linked && d.Rndis?)))
  }

  function Build(max: int, ds: seq<(Device, bool)>): Option<State>
    decreases |ds|
  {
    if ds == [] then Some(Init(max))
    else
      var before := Build(max, ds[..|ds| - 1]);
      if before.None? then None else Add(before.value, ds[|ds| - 1].0, ds[|ds| - 1].1)
  }

  predicate Numbered(metas: seq<Meta>) { forall i :: 0 <= i < |metas| ==> metas[i].order == i }

  predicate Built(s: State) {
    && DistinctNames(s.metas) && Numbered(s.metas)
    && InMetaOrder(s.metas, s.links)
    && EpsOf(s.metas, LinkSet(s.links)) == s.used + (if s.free then 2 else 0)
    && 0 <= s.used <= (if s.max > 0 then s.max else 0)
    && (s.free ==> NameOf(s, Rndis) in Names(s.metas))
  }

  lemma {:induction false} OrderedSnoc(metas: seq<Meta>, m: Meta, links: seq<Name>, linked: bool)
    requires InMetaOrder(metas, links) && m.name !in Names(metas)
    ensures var links' := if linked then links + [m.name] else links;
      && InMetaOrder(metas + [m], links')
      && EpsOf(metas + [m], LinkSet(links')) == EpsOf(metas, LinkSet(links)) + if linked then m.eps else 0
  {
    var links' := if linked then links + [m.name] else links;
    assert (metas + [m])[..|metas|] == metas;
    OrderedSet(metas, LinkSet(links));
    assert m.name !in LinkSet(links) by {
      if m.name in LinkSet(links) { OrderedMember(metas, LinkSet(links), m.name); }
    }
    assert forall x :: x in LinkSet(links') <==> x in LinkSet(links) || (linked && x == m.name);
    OrderedDepends(metas, LinkSet(links), LinkSet(links'));
  }

  lemma AddKeepsBuilt(s: State, d: Device, start: bool)
    requires Built(s) && Add(s, d, start).Some?
    ensures Built(Add(s, d, start).value)
  {
    hide Decimal;
    hide LinkSet;
    hide InMetaOrder;
    hide EpsOf;
    var m := Meta(NameOf(s, d), EpsFor(d), |s.metas|);
    OrderedSnoc(s.metas, m, s.links, Links(s, d, start));
    assert (s.metas + [m])[..|s.metas|] == s.metas;
  }

  /** However the gadget is built: functions are numbered and linked in the order of creation, and
      the charged ones never need more endpoints than there are. */
  lemma {:induction false} BuildIsWithinBudget(max: int, ds: seq<(Device, bool)>)
    requires Build(max, ds).Some?
    ensures var s := Build(max, ds).value;
      && s.max == max && Built(s)
      && (max >= 0 ==> (EpsOf(s.metas, LinkSet(s.links)) <= max <==> !s.free || s.used + 2 <= max))
    decreases |ds|
  {
    hide EpsOf;
    hide LinkSet;
    hide InMetaOrder;
    if ds != [] {
      hide DistinctNames;
      var before := Build(max, ds[..|ds| - 1]).value;
      BuildIsWithinBudget(max, ds[..|ds| - 1]);
      AddKeepsBuilt(before, ds[|ds| - 1].0, ds[|ds| - 1].1);
    } else {
      NothingBuilt(max);
    }
  }

  lemma NothingBuilt(max: int)
    ensures Built(Init(max))
  {
    assert Ordered([], LinkSet([])) == [];
    assert LinkSet([]) == {};
  }

  /** What a function is charged when it is linked. */
  function Charge(d: Device): nat {
    match d
    case Rndis => 0
    case Hid => 1
    case Mic | Camera | Msd => 2
    case Serial | Ethernet(_) | Mtp => 3
  }

  function TotalCharge(ds: seq<(Device, bool)>): nat
    decreases |ds|
  {
    if ds == [] then 0 else TotalCharge(ds[..|ds| - 1]) + if ds[|ds| - 1].1 then Charge(ds[|ds| - 1].0) else 0
  }

  /** The names of the functions that are to be started, in order. */
  function StartedNames(ds: seq<(Device, bool)>, metas: seq<Meta>): seq<Name>
    requires |ds| == |metas|
    decreases |ds|
  {
    if ds == [] then []
    else
      StartedNames(ds[..|ds| - 1], metas[..|ds| - 1]) + if ds[|ds| - 1].1 then [metas[|ds| - 1].name] else []
  }

  lemma AddLinks(s: State, d: Device, start: bool)
    requires Add(s, d, start).Some?
    ensures var t := Add(s, d, start).value;
      && t.max == s.max && t.metas == s.metas + [Meta(NameOf(s, d), EpsFor(d), |s.metas|)]
      && (t.links == s.links || (start && t.links == s.links + [NameOf(s, d)]))
      && t.used <= s.used + (if start then Charge(d) else 0)
      && (s.used + (if start then Charge(d) else 0) <= s.max ==> t.links == s.links + if start then [NameOf(s, d)] else [])
  {
    hide NameOf;
    hide Names;
  }

  /** Every function is recorded; only those to be started are linked; and all of those are, if their
      charges fit the budget together. */
  lemma {:induction false} StartedAreLinked(max: int, ds: seq<(Device, bool)>)
    requires Build(max, ds).Some?
    ensures var s := Build(max, ds).value;
      && s.max == max && |s.metas| == |ds| && s.used <= TotalCharge(ds)
      && (TotalCharge(ds) <= max ==> s.links == StartedNames(ds, s.metas))
      && (forall x :: x in s.links ==> x in StartedNames(ds, s.metas))
    decreases |ds|
  {
    hide Add;
    hide Charge;
    if ds != [] {
      var before, last := ds[..|ds| - 1], ds[|ds| - 1];
      StartedAreLinked(max, before);
      var s := Build(max, before).value;
      AddLinks(s, last.0, last.1);
      var t := Build(max, ds).value;
      assert t.metas[..|before|] == s.metas;
      hide NameOf;
      hide EpsFor;
    }
  }

  lemma NamesDiffer(s: State)
    ensures NameOf(s, Rndis) != NameOf(s, Mtp)
  {
    assert NameOf(s, Rndis)[0] == 'r' && NameOf(s, Mtp)[0] == 'f';
  }

  /** With RNDIS linked for nothing, MTP can still take the last three endpoints of four. */
  lemma RndisExceedsBudget()
    ensures var b := Build(4, [(Rndis, true), (Mtp, true)]);
            b.Some? && |b.value.links| == 2 && EpsOf(b.value.metas, LinkSet(b.value.links)) == 5
  {
    var ds := [(Rndis, true), (Mtp, true)];
    assert ds[..1] == [(Rndis, true)] && ds[..1][..0] == [];
    var s0, s1 := Init(4), Add(Init(4), Rndis, true).value;
    NamesDiffer(s1);
    assert NameOf(s0, Rndis) == NameOf(s1, Rndis);
    hide NameOf;
    assert s1.metas[..0] == [];
    assert Names(s1.metas) == {NameOf(s1, Rndis)};
    assert Build(4, ds[..1]) == Some(s1);
    BuildIsWithinBudget(4, ds);
  }

  // ----- the meta files -----

  function Insert(f: Meta, fs: seq<Meta>): seq<Meta>
    decreases |fs|
  {
    if fs == [] || fs[|fs| - 1].order <= f.order then fs + [f] else Insert(f, fs[..|fs| - 1]) + [fs[|fs| - 1]]
  }

  /** The files sorted by order, equal orders as they come. */
  function ReadMetas(files: seq<Meta>): seq<Meta>
    decreases |files|
  {
    if files == [] then [] else Insert(files[|files| - 1], ReadMetas(files[..|files| - 1]))
  }

  predicate Ascending(fs: seq<Meta>) { forall i, j :: 0 <= i < j < |fs| ==> fs[i].order < fs[j].order }

  ghost predicate SameMembers(a: seq<Meta>, b: seq<Meta>) { forall f :: (f in a ==> f in b) && (f in b ==> f in a) }

  lemma AppendAscending(fs: seq<Meta>, last: Meta)
    requires Ascending(fs) && forall g :: g in fs ==> g.order < last.order
    ensures Ascending(fs + [last]) && forall g :: g in fs + [last] <==> g in fs || g == last
  {
    assert forall i :: 0 <= i < |fs| ==> fs[i] in fs;
  }

  lemma {:induction false} InsertAscending(f: Meta, fs: seq<Meta>)
    requires Ascending(fs) && forall g :: g in fs ==> g.order != f.order
    ensures Ascending(Insert(f, fs)) && forall g :: g in Insert(f, fs) <==> g == f || g in fs
    decreases |fs|
  {
    if fs == [] {
    } else {
      var init, last := fs[..|fs| - 1], fs[|fs| - 1];
      assert last in fs;
      InitAscending(fs);
      if last.order > f.order {
        InsertAscending(f, init);
        hide Ascending;
        AppendAscending(Insert(f, init), last);
      } else {
        assert Insert(f, fs) == fs + [f];
        hide Ascending;
        hide Insert;
        AppendAscending(fs, f);
      }
    }
  }

  lemma InitAscending(fs: seq<Meta>)
    requires fs != [] && Ascending(fs)
    ensures Ascending(fs[..|fs| - 1])
    ensures forall g :: g in fs[..|fs| - 1] ==> g in fs && g.order < fs[|fs| - 1].order
    ensures forall g :: g in fs <==> g in fs[..|fs| - 1] || g == fs[|fs| - 1]
  {}

  predicate DistinctOrders(fs: seq<Meta>) { forall i, j :: 0 <= i < j < |fs| ==> fs[i].order != fs[j].order }

  lemma {:induction false} ReadMetasSorts(files: seq<Meta>)
    requires DistinctOrders(files)
    ensures Ascending(ReadMetas(files)) && SameMembers(ReadMetas(files), files)
    decreases |files|
  {
    if files != [] {
      var init, last := files[..|files| - 1], files[|files| - 1];
      assert DistinctOrders(init);
      ReadMetasSorts(init);
      assert forall g :: g in init ==> g.order != last.order;
      assert forall g :: g in ReadMetas(init) ==> g in init;
      InsertAscending(last, ReadMetas(init));
      assert forall g :: g in files <==> g in init || g == last;
    }
  }

  lemma {:induction false} AscendingUnique(a: seq<Meta>, b: seq<Meta>)
    requires Ascending(a) && Ascending(b) && SameMembers(a, b)
    ensures a == b
    decreases |a|
  {
    if a == [] {
      HasMember(b);
    } else {
      var x := a[|a| - 1];
      assert x in b;
      var y := b[|b| - 1];
      assert y in b && y in a;
      assert x == y;
      var a', b' := a[..|a| - 1], b[..|b| - 1];
      forall f ensures f in a' <==> f in b' {
        InitMembers(a, f);
        InitMembers(b, f);
      }
      AscendingUnique(a', b');
    }
  }

  lemma HasMember(b: seq<Meta>)
    ensures b != [] ==> exists f :: f in b
  {
    if b != [] { assert b[0] in b; }
  }

  lemma InitMembers(a: seq<Meta>, f: Meta)
    requires a != [] && Ascending(a)
    ensures f in a[..|a| - 1] <==> f in a && f != a[|a| - 1]
  {
    assert a == a[..|a| - 1] + [a[|a| - 1]];
  }

  /** In whatever order the directory lists the meta files of a built gadget, they are read in the
      order of creation. */
  lemma MetasReadInCreationOrder(max: int, ds: seq<(Device, bool)>, files: seq<Meta>)
    requires Build(max, ds).Some? && DistinctOrders(files) && SameMembers(files, Build(max, ds).value.metas)
    ensures ReadMetas(files) == Build(max, ds).value.metas
  {
    hide Build;
    hide ReadMetas;
    BuildIsWithinBudget(max, ds);
    ReadMetasSorts(files);
    AscendingUnique(ReadMetas(files), Build(max, ds).value.metas);
  }

  /** From a start that leaves RNDIS unlinked, no run of requests exceeds the budget. */
  lemma BudgetHoldsForever(max: nat, ds: seq<(Device, bool)>, g: Gadget, rs: seq<Request>)
    requires Build(max, ds).Some? && !Build(max, ds).value.free && g.links == Build(max, ds).value.links
    ensures var metas := Build(max, ds).value.metas;
      && InMetaOrder(metas, Run(metas, max, g, rs).links)
      && EpsOf(metas, LinkSet(Run(metas, max, g, rs).links)) <= max
  {
    hide Build;
    hide Run;
    hide EpsOf;
    hide LinkSet;
    hide InMetaOrder;
    BuildIsWithinBudget(max, ds);
    RunsKeepOrderAndBudget(Build(max, ds).value.metas, max, g, rs);
  }
}

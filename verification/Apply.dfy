/** The exit-routing reconciler (internal/awg/apply.go): a command sequence that drives the
    kernel to a plan, from whatever an earlier run left behind. */
module Apply {
  import opened Basics
  import opened Net
  import opened ExitPlan
  import opened Kernel

  const EXIT_MESH_PREF := "5090"
  const EXIT_PREF := "5100"

  /** Devices the applier owns. */
  predicate Owned(name: string) {
    EXIT_DEV_PREFIX <= name
  }

  /** The mesh rules are consulted before the source rules, and both before the main table's. */
  lemma PrefsAreInOrder()
    ensures 0 < Value(EXIT_MESH_PREF) < Value(EXIT_PREF) < 32766
  {
    assert EXIT_MESH_PREF[..3] == "509" && "509"[..2] == "50" && "50"[..1] == "5" && "5"[..0] == "";
    assert EXIT_PREF[..3] == "510" && "510"[..2] == "51" && "51"[..1] == "5";
  }

  function MeshRules(mesh: seq<Prefix>): seq<IpRule> {
    seq(|mesh|, i requires 0 <= i < |mesh| => IpRule(To(mesh[i]), "main"))
  }

  function SourceRules(rules: seq<ExitRule>): seq<IpRule> {
    seq(|rules|, i requires 0 <= i < |rules| => IpRule(From(rules[i].client), rules[i].table))
  }

  function NamesOf(devs: seq<ExitDevice>): set<string> {
    set d | d in devs :: d.name
  }

  function TablesOf(devs: seq<ExitDevice>): set<string> {
    set d | d in devs :: d.table
  }

  /** Devices of a plan share a table exactly when they share a name: both come from the same
      two bytes of the address. */
  predicate Coherent(devs: seq<ExitDevice>) {
    forall d, e :: d in devs && e in devs ==> (d.name == e.name <==> d.table == e.table)
  }

  /** No two devices share a name. Plans over a /16 or smaller are like that, see
      ExitPlan.NamesInjectiveIff. */
  predicate Separate(devs: seq<ExitDevice>) {
    forall d, e :: d in devs && e in devs && d != e ==> d.name != e.name
  }

  /** The device that gives a name its endpoints: the first of that name. A later one finds the
      link there and only adds its address and its table's route. */
  function Creator(devs: seq<ExitDevice>, name: string): (d: ExitDevice)
    requires name in NamesOf(devs)
    ensures d in devs && d.name == name
  {
    var init := devs[..|devs| - 1];
    if name in NamesOf(init) then Creator(init, name) else devs[|devs| - 1]
  }

  lemma NamesSnoc(devs: seq<ExitDevice>, d: ExitDevice)
    ensures NamesOf(devs + [d]) == NamesOf(devs) + {d.name}
    ensures TablesOf(devs + [d]) == TablesOf(devs) + {d.table}
  {
    var all := devs + [d];
    assert all[|devs|] == d;
    assert forall e :: e in all <==> e in devs || e == d;
  }

  lemma CreatorSnoc(devs: seq<ExitDevice>, d: ExitDevice)
    ensures d.name in NamesOf(devs + [d])
    ensures forall n :: n in NamesOf(devs) ==> n in NamesOf(devs + [d]) && Creator(devs + [d], n) == Creator(devs, n)
    ensures d.name !in NamesOf(devs) ==> Creator(devs + [d], d.name) == d
  {
    NamesSnoc(devs, d);
    assert (devs + [d])[..|devs|] == devs;
  }

  lemma {:induction false} CreatorOfPrefix(devs: seq<ExitDevice>, n: nat, name: string)
    requires n <= |devs| && name in NamesOf(devs[..n])
    ensures name in NamesOf(devs) && Creator(devs, name) == Creator(devs[..n], name)
  {
    if n == |devs| {
      assert devs[..n] == devs;
    } else {
      var init := devs[..|devs| - 1];
      assert init[..n] == devs[..n] && devs == init + [devs[|devs| - 1]];
      CreatorOfPrefix(init, n, name);
      CreatorSnoc(init, devs[|devs| - 1]);
    }
  }

  lemma SeparateCreator(devs: seq<ExitDevice>, d: ExitDevice)
    requires Separate(devs) && d in devs
    ensures d.name in NamesOf(devs) && Creator(devs, d.name) == d
  {
  }

  /** The link a planned device ends up as. */
  function Settled(s: KState, hub: Addr, d: ExitDevice): Link {
    if d.name in s.links then s.links[d.name].(addrs := s.links[d.name].addrs + {hub})
    else Link(Ipip(hub, d.remote), true, {hub})
  }

  // ---------------------------------------------------------------- what any run keeps

  /** Routes through links that survive survive; nothing new appears in `t`. */
  predicate RouteKept(s: KState, next: KState, t: string, iface: string) {
    && (t in next.defaults ==> t in s.defaults && next.defaults[t] == s.defaults[t])
    && (t in s.defaults && !Owned(s.defaults[t]) && !(t == "51" && s.defaults[t] == iface) ==> t in next.defaults)
  }

  /** What holds after any run, complete or cut off anywhere: only the two preferences,
      the owned devices and the planned tables (and the legacy default) are touched, and
      an owned device that is there was there before or was made to plan. */
  ghost predicate Bounded(s: KState, next: KState, iface: string, hub: Addr, devs: seq<ExitDevice>) {
    && (forall p :: p != EXIT_MESH_PREF && p != EXIT_PREF ==> RulesAt(next, p) == RulesAt(s, p))
    && (forall n :: !Owned(n) ==> (n in next.links <==> n in s.links) && (n in s.links ==> next.links[n] == s.links[n]))
    && (forall n :: n in next.links ==>
          || (n in s.links && next.links[n].kind == s.links[n].kind && next.links[n].up == s.links[n].up)
          || (n !in s.links && n in NamesOf(devs)))
    && (forall n :: n in NamesOf(devs) && n in next.links && n !in s.links ==> next.links[n].kind == Ipip(hub, Creator(devs, n).remote))
    && (forall n :: n in s.links && n in NamesOf(devs) ==> n in next.links)
    && (forall t :: t !in TablesOf(devs) ==> RouteKept(s, next, t, iface))
    && (forall p :: p in next.main ==> p in s.main && next.main[p] == s.main[p])
    && (forall p :: p in s.main && !Owned(s.main[p]) ==> p in next.main)
  }

  /** Where planned devices lead after a run, complete or cut off: where they led before if they
      were there, and otherwise to the first planned node of the name. */
  ghost predicate Inherits(s: KState, next: KState, hub: Addr, devs: seq<ExitDevice>) {
    forall n :: n in NamesOf(devs) && n in next.links ==>
      next.links[n].kind == if n in s.links then s.links[n].kind else Ipip(hub, Creator(devs, n).remote)
  }

  lemma BoundedInherits(s: KState, next: KState, iface: string, hub: Addr, devs: seq<ExitDevice>)
    requires Bounded(s, next, iface, hub, devs)
    ensures Inherits(s, next, hub, devs)
  {
  }

  // ---------------------------------------------------------------- what a complete run reaches

  /** Every device of the list is in its final shape. */
  ghost predicate AllSettled(s: KState, next: KState, hub: Addr, devs: seq<ExitDevice>) {
    && (forall n :: n in NamesOf(devs) ==>
          n in next.links && next.links[n] == Settled(s, hub, Creator(devs, n)) && next.links[n].up)
    && (forall d :: d in devs ==> DefaultVia(next, d.table, d.name))
  }

  /** The owned devices are exactly the planned ones and the legacy default is gone. */
  ghost predicate TidyLinks(next: KState, iface: string, devs: seq<ExitDevice>) {
    && (forall n :: Owned(n) ==> (n in next.links <==> n in NamesOf(devs)))
    && !DefaultVia(next, "51", iface)
  }

  /** Routes through owned devices lead only through planned ones, and none of those is lost but
      the legacy default. */
  ghost predicate TidyRoutes(s: KState, next: KState, iface: string, devs: seq<ExitDevice>) {
    && (forall t :: t in next.defaults && Owned(next.defaults[t]) ==> next.defaults[t] in NamesOf(devs))
    && (forall t :: t in s.defaults && s.defaults[t] in NamesOf(devs) && !(t == "51" && s.defaults[t] == iface) ==> t in next.defaults)
    && (forall p :: p in next.main && Owned(next.main[p]) ==> next.main[p] in NamesOf(devs))
    && (forall p :: p in s.main && s.main[p] in NamesOf(devs) ==> p in next.main)
  }

  /** The owned devices are exactly the planned ones, addressed and up; each planned table
      has its default route; the rules are exactly the planned rules in order. */
  ghost predicate Converged(s: KState, next: KState, iface: string, hub: Addr, mesh: seq<Prefix>, devs: seq<ExitDevice>, rules: seq<ExitRule>) {
    && RulesAt(next, EXIT_MESH_PREF) == MeshRules(mesh)
    && RulesAt(next, EXIT_PREF) == SourceRules(rules)
    && AllSettled(s, next, hub, devs)
    && TidyLinks(next, iface, devs)
    && TidyRoutes(s, next, iface, devs)
  }

  /** No planned device was left behind down. */
  predicate NoneDown(s: KState, devs: seq<ExitDevice>) {
    forall d :: d in devs && d.name in s.links ==> s.links[d.name].up
  }

  /** When a complete run succeeds: no rule is asked for twice, and no planned device was
      left behind down. */
  predicate Feasible(s: KState, mesh: seq<Prefix>, devs: seq<ExitDevice>, rules: seq<ExitRule>) {
    NoDup(mesh) && NoDup(rules) && NoneDown(s, devs)
  }

  // ---------------------------------------------------------------- the steps

  /** Deletes rules one at a time until the kernel has no more. */
  method FlushRules(k: Host, pref: string)
    requires Grounded(k.state)
    modifies k
    ensures Grounded(k.state)
    ensures k.state == old(k.state).(rules := k.state.rules)
    ensures forall p :: p != pref ==> RulesAt(k.state, p) == RulesAt(old(k.state), p)
    ensures !k.faulty ==> RulesAt(k.state, pref) == []
  {
    var ok := true;
    while ok
      invariant Grounded(k.state)
      invariant k.state == old(k.state).(rules := k.state.rules)
      invariant forall p :: p != pref ==> RulesAt(k.state, p) == RulesAt(old(k.state), p)
      invariant !ok && !k.faulty ==> RulesAt(k.state, pref) == []
      decreases ok, |RulesAt(k.state, pref)|
    {
      ok := k.Run(RuleDel(pref));
    }
  }

  /** What tearing down unwanted devices may do to the rest of the state. */
  ghost predicate Reaped(s: KState, next: KState, want: set<string>) {
    && next.rules == s.rules
    && (forall n :: n in next.links ==> n in s.links && next.links[n] == s.links[n])
    && (forall n :: n in s.links && (!Owned(n) || n in want) ==> n in next.links)
    && (forall t :: t in next.defaults ==> t in s.defaults && next.defaults[t] == s.defaults[t])
    && (forall t :: t in s.defaults && (!Owned(s.defaults[t]) || s.defaults[t] in want) ==> t in next.defaults)
    && (forall p :: p in next.main ==> p in s.main && next.main[p] == s.main[p])
    && (forall p :: p in s.main && (!Owned(s.main[p]) || s.main[p] in want) ==> p in next.main)
  }

  /** Tears down the owned devices that are not wanted. */
  method ReapDevices(k: Host, want: set<string>)
    requires Grounded(k.state)
    modifies k
    ensures Grounded(k.state) && Reaped(old(k.state), k.state, want)
    ensures !k.faulty ==> forall n :: n in k.state.links && Owned(n) ==> n in want
  {
    var names := k.ListLinks(EXIT_DEV_PREFIX);
    for i := 0 to |names|
      invariant Grounded(k.state) && Reaped(old(k.state), k.state, want)
      invariant !k.faulty ==> forall j :: 0 <= j < i ==> names[j] in want || names[j] !in k.state.links
    {
      if names[i] !in want {
        var _ := k.Run(LinkDel(names[i]));
      }
    }
  }

  /** What working on one device may change, finished or not. */
  ghost predicate Worked(s: KState, next: KState, hub: Addr, d: ExitDevice) {
    && next.rules == s.rules && next.main == s.main
    && (forall n :: n != d.name ==> (n in next.links <==> n in s.links) && (n in s.links ==> next.links[n] == s.links[n]))
    && (d.name in s.links ==>
        (d.name in next.links && next.links[d.name].kind == s.links[d.name].kind && next.links[d.name].up == s.links[d.name].up))
    && (d.name in next.links && d.name !in s.links ==> next.links[d.name].kind == Ipip(hub, d.remote))
    && (forall t :: t != d.table ==> (t in next.defaults <==> t in s.defaults) && (t in s.defaults ==> next.defaults[t] == s.defaults[t]))
  }

  /** Creates the device if it is missing, addresses it and points its table at it. */
  method EnsureDevice(k: Host, hub: Addr, d: ExitDevice) returns (ok: bool)
    requires Grounded(k.state)
    modifies k
    ensures Grounded(k.state) && Worked(old(k.state), k.state, hub, d)
    ensures ok ==> d.name in k.state.links && k.state.links[d.name] == Settled(old(k.state), hub, d)
    ensures ok ==> k.state.links[d.name].up && DefaultVia(k.state, d.table, d.name)
    ensures !k.faulty ==> (ok <==> (d.name in old(k.state).links ==> old(k.state).links[d.name].up))
  {
    var exists_ := k.Run(LinkShow(d.name));
    if !exists_ {
      var added := k.Run(LinkAdd(d.name, hub, d.remote));
      if !added {
        return false;
      }
      var up := k.Run(LinkUp(d.name));
      if !up {
        return false;
      }
    }
    var addressed := k.Run(AddrReplace(hub, d.name));
    if !addressed {
      return false;
    }
    ok := k.Run(RouteReplaceDefault(d.name, d.table));
  }

  /** What working on the devices may have changed, finished or not. */
  ghost predicate WorkedAll(s: KState, next: KState, hub: Addr, devs: seq<ExitDevice>) {
    && next.rules == s.rules && next.main == s.main
    && (forall n :: n !in NamesOf(devs) ==> (n in next.links <==> n in s.links) && (n in s.links ==> next.links[n] == s.links[n]))
    && (forall n :: n in s.links ==>
        (n in next.links && next.links[n].kind == s.links[n].kind && next.links[n].up == s.links[n].up))
    && (forall n :: n in NamesOf(devs) && n in next.links && n !in s.links ==> next.links[n].kind == Ipip(hub, Creator(devs, n).remote))
    && (forall t :: t !in TablesOf(devs) ==> (t in next.defaults <==> t in s.defaults) && (t in s.defaults ==> next.defaults[t] == s.defaults[t]))
  }

  lemma WorkedStep(s: KState, mid: KState, next: KState, hub: Addr, devs: seq<ExitDevice>, d: ExitDevice)
    requires WorkedAll(s, mid, hub, devs) && AllSettled(s, mid, hub, devs) && Worked(mid, next, hub, d)
    ensures WorkedAll(s, next, hub, devs + [d])
  {
    NamesSnoc(devs, d);
    CreatorSnoc(devs, d);
    var all := devs + [d];
    forall n | n in NamesOf(all) && n in next.links && n !in s.links
      ensures next.links[n].kind == Ipip(hub, Creator(all, n).remote)
    {
      if n !in NamesOf(devs) {
        assert n == d.name && n !in mid.links;
      } else {
        assert n in mid.links;
      }
    }
  }

  /** A name that is settled already stays as it is. */
  lemma SettledAgain(s: KState, mid: KState, hub: Addr, devs: seq<ExitDevice>, d: ExitDevice)
    requires AllSettled(s, mid, hub, devs) && d.name in NamesOf(devs)
    ensures Settled(mid, hub, d) == mid.links[d.name]
  {
    var l := mid.links[d.name];
    assert l == Settled(s, hub, Creator(devs, d.name));
    assert l.addrs + {hub} == l.addrs;
  }

  lemma LinksSettleStep(s: KState, mid: KState, next: KState, hub: Addr, devs: seq<ExitDevice>, d: ExitDevice)
    requires WorkedAll(s, mid, hub, devs) && AllSettled(s, mid, hub, devs) && Worked(mid, next, hub, d)
    requires d.name in next.links && next.links[d.name].up && next.links[d.name] == Settled(mid, hub, d)
    ensures forall n :: n in NamesOf(devs + [d]) ==>
      n in next.links && next.links[n] == Settled(s, hub, Creator(devs + [d], n)) && next.links[n].up
  {
    NamesSnoc(devs, d);
    CreatorSnoc(devs, d);
    if d.name in NamesOf(devs) {
      SettledAgain(s, mid, hub, devs, d);
    }
  }

  lemma SettledStep(s: KState, mid: KState, next: KState, hub: Addr, devs: seq<ExitDevice>, d: ExitDevice)
    requires WorkedAll(s, mid, hub, devs) && AllSettled(s, mid, hub, devs) && Worked(mid, next, hub, d) && Coherent(devs + [d])
    requires d.name in next.links && next.links[d.name].up && next.links[d.name] == Settled(mid, hub, d) && DefaultVia(next, d.table, d.name)
    ensures AllSettled(s, next, hub, devs + [d])
  {
    LinksSettleStep(s, mid, next, hub, devs, d);
    var all := devs + [d];
    assert all[|devs|] == d;
    forall e | e in all ensures DefaultVia(next, e.table, e.name) {
      if e in devs && e.table != d.table {
        assert DefaultVia(mid, e.table, e.name);
      }
    }
  }

  lemma WorkedWeaken(s: KState, next: KState, hub: Addr, devs: seq<ExitDevice>, n: nat)
    requires n <= |devs| && WorkedAll(s, next, hub, devs[..n])
    ensures WorkedAll(s, next, hub, devs)
  {
    var some := devs[..n];
    assert NamesOf(some) <= NamesOf(devs) && TablesOf(some) <= TablesOf(devs);
    forall m | m in NamesOf(devs) && m in next.links && m !in s.links
      ensures next.links[m].kind == Ipip(hub, Creator(devs, m).remote)
    {
      assert m in NamesOf(some);
      CreatorOfPrefix(devs, n, m);
    }
  }

  /** A device the loop finds up, or creates itself, is no obstacle; one that was left down is. */
  lemma DoneIff(s: KState, mid: KState, hub: Addr, devs: seq<ExitDevice>, i: nat)
    requires i < |devs| && NoneDown(s, devs[..i])
    requires WorkedAll(s, mid, hub, devs[..i]) && AllSettled(s, mid, hub, devs[..i])
    ensures NoneDown(s, devs[..i + 1]) <==> (devs[i].name in mid.links ==> mid.links[devs[i].name].up)
    ensures NoneDown(s, devs) ==> NoneDown(s, devs[..i + 1])
  {
    var d, upto := devs[i], devs[..i + 1];
    assert upto[i] == d && upto == devs[..i] + [d];
    assert d.name in mid.links && !mid.links[d.name].up ==> d.name in s.links && !s.links[d.name].up;
  }

  /** One turn of the device loop, finished or not. */
  lemma DeviceTurn(s: KState, mid: KState, next: KState, hub: Addr, devs: seq<ExitDevice>, i: nat, done: bool)
    requires Coherent(devs) && i < |devs|
    requires WorkedAll(s, mid, hub, devs[..i]) && AllSettled(s, mid, hub, devs[..i]) && Worked(mid, next, hub, devs[i])
    requires var d := devs[i]; done ==>
      && d.name in next.links && next.links[d.name] == Settled(mid, hub, d) && next.links[d.name].up
      && DefaultVia(next, d.table, d.name)
    ensures WorkedAll(s, next, hub, devs[..i + 1]) && WorkedAll(s, next, hub, devs)
    ensures done ==> AllSettled(s, next, hub, devs[..i + 1])
  {
    assert devs[..i + 1] == devs[..i] + [devs[i]];
    WorkedStep(s, mid, next, hub, devs[..i], devs[i]);
    WorkedWeaken(s, next, hub, devs, i + 1);
    if done {
      SettledStep(s, mid, next, hub, devs[..i], devs[i]);
    }
  }

  method EnsureDevices(k: Host, hub: Addr, devs: seq<ExitDevice>) returns (ok: bool)
    requires Grounded(k.state)
    requires Coherent(devs)
    modifies k
    ensures Grounded(k.state) && WorkedAll(old(k.state), k.state, hub, devs)
    ensures ok ==> AllSettled(old(k.state), k.state, hub, devs)
    ensures !k.faulty ==> (ok <==> NoneDown(old(k.state), devs))
  {
    ghost var s := k.state;
    for i := 0 to |devs|
      invariant Grounded(k.state) && WorkedAll(s, k.state, hub, devs[..i]) && AllSettled(s, k.state, hub, devs[..i])
      invariant !k.faulty ==> NoneDown(s, devs[..i])
    {
      ghost var mid := k.state;
      var done := EnsureDevice(k, hub, devs[i]);
      DeviceTurn(s, mid, k.state, hub, devs, i, done);
      if !k.faulty {
        DoneIff(s, mid, hub, devs, i);
      }
      if !done {
        return false;
      }
    }
    assert devs[..|devs|] == devs;
    return true;
  }

  lemma NoDupSnoc<T>(s: seq<T>, x: T)
    ensures NoDup(s + [x]) <==> NoDup(s) && x !in s
  {
    var t := s + [x];
    if NoDup(t) {
      assert forall i :: 0 <= i < |s| ==> t[i] == s[i] && t[i] != t[|s|];
    }
  }

  lemma DupInPrefix<T>(rs: seq<T>, i: nat)
    requires i < |rs| && rs[i] in rs[..i]
    ensures !NoDup(rs)
  {
  }

  /** Adds rules in order, stopping at the first refusal. */
  method AddRules(k: Host, pref: string, rs: seq<IpRule>) returns (ok: bool)
    requires Grounded(k.state)
    modifies k
    ensures Grounded(k.state)
    ensures k.state == old(k.state).(rules := k.state.rules)
    ensures forall p :: p != pref ==> RulesAt(k.state, p) == RulesAt(old(k.state), p)
    ensures ok ==> RulesAt(k.state, pref) == RulesAt(old(k.state), pref) + rs
    ensures !k.faulty && RulesAt(old(k.state), pref) == [] ==> (ok <==> NoDup(rs))
  {
    ghost var start := k.state;
    ghost var base := RulesAt(start, pref);
    for i := 0 to |rs|
      invariant Grounded(k.state)
      invariant k.state == if i == 0 then start else start.(rules := start.rules[pref := base + rs[..i]])
      invariant !k.faulty && base == [] ==> NoDup(rs[..i])
    {
      assert RulesAt(k.state, pref) == base + rs[..i];
      assert rs[..i + 1] == rs[..i] + [rs[i]];
      assert base + rs[..i + 1] == base + rs[..i] + [rs[i]];
      NoDupSnoc(rs[..i], rs[i]);
      var added := k.Run(RuleAdd(pref, rs[i]));
      if !added {
        if !k.faulty && base == [] {
          assert base + rs[..i] == rs[..i];
          DupInPrefix(rs, i);
        }
        return false;
      }
    }
    assert rs[..|rs|] == rs;
    return true;
  }

  // ---------------------------------------------------------------- the reconciler

  lemma RulesDistinct(mesh: seq<Prefix>, rules: seq<ExitRule>)
    ensures NoDup(MeshRules(mesh)) <==> NoDup(mesh)
    ensures NoDup(SourceRules(rules)) <==> NoDup(rules)
  {
    var ms, rs := MeshRules(mesh), SourceRules(rules);
    assert forall i, j :: 0 <= i < j < |mesh| ==> (ms[i] == ms[j] <==> mesh[i] == mesh[j]);
    assert forall i, j :: 0 <= i < j < |rules| ==> (rs[i] == rs[j] <==> rules[i] == rules[j]);
  }

  /** The plan's devices are owned, share a table exactly when they share a name, and none uses
      the legacy table. */
  lemma PlanIsSane(routes: seq<ExitRoute>)
    ensures var devs := ExitDevs(routes);
      && Coherent(devs) && "51" !in TablesOf(devs)
      && forall d :: d in devs ==> Owned(d.name) && d == DeviceFor(d.remote)
  {
    var devs := ExitDevs(routes);
    ExitDevsExact(routes);
    forall d | d in devs ensures d.table != "51" && Owned(d.name) && d == DeviceFor(d.remote) {
      NamesAreSane(d.remote);
    }
    forall d, e | d in devs && e in devs ensures d.name == e.name <==> d.table == e.table {
      SameNameSameIndex(d.remote, e.remote);
    }
  }

  /** The states between the steps: rules flushed, the legacy route tried, devices reaped,
      devices worked on. */
  ghost predicate Steps(s0: KState, s1: KState, s2: KState, s3: KState, s4: KState, iface: string, hub: Addr, devs: seq<ExitDevice>) {
    && Grounded(s0) && Grounded(s4)
    && "51" !in TablesOf(devs) && (forall d :: d in devs ==> Owned(d.name))
    && s1 == s0.(rules := s1.rules)
    && (forall p :: p != EXIT_MESH_PREF && p != EXIT_PREF ==> RulesAt(s1, p) == RulesAt(s0, p))
    && (s2 == s1 || Exec(s1, RouteDelDefault(iface, "51")) == Some(s2))
    && Reaped(s2, s3, NamesOf(devs))
    && WorkedAll(s3, s4, hub, devs)
  }

  lemma CleanupBoundsLinks(s0: KState, s1: KState, s2: KState, s3: KState, s4: KState, iface: string, hub: Addr, devs: seq<ExitDevice>)
    requires Steps(s0, s1, s2, s3, s4, iface, hub, devs)
    ensures forall n :: !Owned(n) ==> (n in s4.links <==> n in s0.links) && (n in s0.links ==> s4.links[n] == s0.links[n])
    ensures forall n :: n in NamesOf(devs) && n in s4.links && n !in s0.links ==> s4.links[n].kind == Ipip(hub, Creator(devs, n).remote)
  {
    assert s2.links == s0.links;
    forall n | !Owned(n)
      ensures (n in s4.links <==> n in s0.links) && (n in s0.links ==> s4.links[n] == s0.links[n])
    {
      assert n !in NamesOf(devs);
    }
  }

  lemma CleanupBoundsRoutes(
    s0: KState, s1: KState, s2: KState, s3: KState, s4: KState, iface: string, hub: Addr, devs: seq<ExitDevice>, t: string)
    requires Steps(s0, s1, s2, s3, s4, iface, hub, devs) && t !in TablesOf(devs)
    ensures RouteKept(s0, s4, t, iface)
  {
    assert t in s2.defaults ==> t in s0.defaults && s2.defaults[t] == s0.defaults[t];
  }

  lemma CleanupBounded(s0: KState, s1: KState, s2: KState, s3: KState, s4: KState, iface: string, hub: Addr, devs: seq<ExitDevice>)
    requires Steps(s0, s1, s2, s3, s4, iface, hub, devs)
    ensures Bounded(s0, s4, iface, hub, devs)
  {
    assert s2.links == s0.links && s2.main == s0.main;
    CleanupBoundsLinks(s0, s1, s2, s3, s4, iface, hub, devs);
    forall t | t !in TablesOf(devs) ensures RouteKept(s0, s4, t, iface) {
      CleanupBoundsRoutes(s0, s1, s2, s3, s4, iface, hub, devs, t);
    }
  }

  /** Cleaning up neither repairs nor breaks a planned device. */
  lemma CleanupKeepsPlanned(s0: KState, s1: KState, s2: KState, s3: KState, s4: KState, iface: string, hub: Addr, devs: seq<ExitDevice>)
    requires Steps(s0, s1, s2, s3, s4, iface, hub, devs)
    ensures forall n :: n in NamesOf(devs) ==> (n in s3.links <==> n in s0.links) && (n in s0.links ==> s3.links[n] == s0.links[n])
    ensures AllSettled(s3, s4, hub, devs) ==> AllSettled(s0, s4, hub, devs)
  {
    assert s2.links == s0.links;
    forall n | n in NamesOf(devs)
      ensures (n in s3.links <==> n in s0.links) && (n in s0.links ==> s3.links[n] == s0.links[n])
      ensures Settled(s3, hub, Creator(devs, n)) == Settled(s0, hub, Creator(devs, n))
    {
    }
  }

  lemma CleanupTidiesLinks(s0: KState, s1: KState, s2: KState, s3: KState, s4: KState, iface: string, hub: Addr, devs: seq<ExitDevice>)
    requires Steps(s0, s1, s2, s3, s4, iface, hub, devs)
    requires AllSettled(s0, s4, hub, devs)
    requires !DefaultVia(s2, "51", iface)
    requires forall n :: n in s3.links && Owned(n) ==> n in NamesOf(devs)
    ensures TidyLinks(s4, iface, devs)
  {
  }

  /** The routes left when the devices are reaped: those into planned devices are all there. */
  lemma ReapingKeepsRoutes(s0: KState, s1: KState, s2: KState, s3: KState, s4: KState, iface: string, hub: Addr, devs: seq<ExitDevice>)
    requires Steps(s0, s1, s2, s3, s4, iface, hub, devs)
    ensures forall t :: t in s0.defaults && s0.defaults[t] in NamesOf(devs) && !(t == "51" && s0.defaults[t] == iface) ==> t in s3.defaults
    ensures forall p :: p in s0.main && s0.main[p] in NamesOf(devs) ==> p in s3.main
  {
  }

  /** Working on the devices loses no default route. */
  lemma WorkingKeepsRoutes(s0: KState, s3: KState, s4: KState, hub: Addr, devs: seq<ExitDevice>, t: string)
    requires WorkedAll(s3, s4, hub, devs) && AllSettled(s0, s4, hub, devs) && t in s3.defaults
    ensures t in s4.defaults
  {
  }

  /** Routes go through links that exist, and of the owned ones only planned ones do. */
  lemma RoutesAreTidy(s4: KState, iface: string, devs: seq<ExitDevice>)
    requires Grounded(s4) && TidyLinks(s4, iface, devs)
    ensures forall t :: t in s4.defaults && Owned(s4.defaults[t]) ==> s4.defaults[t] in NamesOf(devs)
    ensures forall p :: p in s4.main && Owned(s4.main[p]) ==> s4.main[p] in NamesOf(devs)
  {
  }

  lemma CleanupTidiesRoutes(s0: KState, s1: KState, s2: KState, s3: KState, s4: KState, iface: string, hub: Addr, devs: seq<ExitDevice>)
    requires Steps(s0, s1, s2, s3, s4, iface, hub, devs)
    requires AllSettled(s0, s4, hub, devs)
    requires TidyLinks(s4, iface, devs)
    ensures TidyRoutes(s0, s4, iface, devs)
  {
    ReapingKeepsRoutes(s0, s1, s2, s3, s4, iface, hub, devs);
    forall t | t in s0.defaults && s0.defaults[t] in NamesOf(devs) && !(t == "51" && s0.defaults[t] == iface)
      ensures t in s4.defaults
    {
      WorkingKeepsRoutes(s0, s3, s4, hub, devs, t);
    }
    RoutesAreTidy(s4, iface, devs);
  }

  /** Two states that differ in the rules at our preferences only. */
  ghost predicate SameButRules(mid: KState, next: KState) {
    && next == mid.(rules := next.rules)
    && forall p :: p != EXIT_MESH_PREF && p != EXIT_PREF ==> RulesAt(next, p) == RulesAt(mid, p)
  }

  /** Adding rules at our preferences disturbs nothing else. */
  lemma RulesStayBounded(s: KState, mid: KState, next: KState, iface: string, hub: Addr, devs: seq<ExitDevice>)
    requires SameButRules(mid, next) && Bounded(s, mid, iface, hub, devs)
    ensures Bounded(s, next, iface, hub, devs)
  {
    forall t | t !in TablesOf(devs) ensures RouteKept(s, next, t, iface) {
      assert RouteKept(s, mid, t, iface);
    }
  }

  lemma RulesStaySettled(s: KState, mid: KState, next: KState, iface: string, hub: Addr, devs: seq<ExitDevice>)
    requires SameButRules(mid, next) && AllSettled(s, mid, hub, devs)
    ensures AllSettled(s, next, hub, devs)
  {
  }

  lemma RulesStayTidy(s: KState, mid: KState, next: KState, iface: string, devs: seq<ExitDevice>)
    requires SameButRules(mid, next)
    ensures TidyLinks(mid, iface, devs) ==> TidyLinks(next, iface, devs)
    ensures TidyRoutes(s, mid, iface, devs) ==> TidyRoutes(s, next, iface, devs)
  {
  }

  method AddPlannedRules(k: Host, mesh: seq<Prefix>, rules: seq<ExitRule>) returns (ok: bool)
    requires Grounded(k.state)
    modifies k
    ensures Grounded(k.state) && k.state == old(k.state).(rules := k.state.rules)
    ensures forall p :: p != EXIT_MESH_PREF && p != EXIT_PREF ==> RulesAt(k.state, p) == RulesAt(old(k.state), p)
    ensures !k.faulty && RulesAt(old(k.state), EXIT_MESH_PREF) == [] && RulesAt(old(k.state), EXIT_PREF) == [] ==>
      && (ok <==> NoDup(mesh) && NoDup(rules))
      && (ok ==> RulesAt(k.state, EXIT_MESH_PREF) == MeshRules(mesh) && RulesAt(k.state, EXIT_PREF) == SourceRules(rules))
  {
    RulesDistinct(mesh, rules);
    ok := AddRules(k, EXIT_MESH_PREF, MeshRules(mesh));
    if ok {
      ok := AddRules(k, EXIT_PREF, SourceRules(rules));
    }
  }

  /** The steps taken together. */
  lemma Cleaned(
    s0: KState, s1: KState, s2: KState, s3: KState, s4: KState, iface: string, hub: Addr, devs: seq<ExitDevice>, sound: bool)
    requires Steps(s0, s1, s2, s3, s4, iface, hub, devs)
    requires sound ==> !DefaultVia(s2, "51", iface) && forall n :: n in s3.links && Owned(n) ==> n in NamesOf(devs)
    ensures Bounded(s0, s4, iface, hub, devs)
    ensures forall n :: n in NamesOf(devs) ==> (n in s3.links <==> n in s0.links) && (n in s0.links ==> s3.links[n] == s0.links[n])
    ensures AllSettled(s3, s4, hub, devs) ==> AllSettled(s0, s4, hub, devs)
    ensures sound && AllSettled(s3, s4, hub, devs) ==> TidyLinks(s4, iface, devs) && TidyRoutes(s0, s4, iface, devs)
  {
    CleanupBounded(s0, s1, s2, s3, s4, iface, hub, devs);
    CleanupKeepsPlanned(s0, s1, s2, s3, s4, iface, hub, devs);
    if sound && AllSettled(s3, s4, hub, devs) {
      CleanupTidiesLinks(s0, s1, s2, s3, s4, iface, hub, devs);
      CleanupTidiesRoutes(s0, s1, s2, s3, s4, iface, hub, devs);
    }
  }

  /** The states up to the reaping of devices. */
  ghost predicate ClearedTo(s0: KState, s1: KState, s2: KState, s3: KState, iface: string, devs: seq<ExitDevice>) {
    && s1 == s0.(rules := s1.rules)
    && (forall p :: p != EXIT_MESH_PREF && p != EXIT_PREF ==> RulesAt(s1, p) == RulesAt(s0, p))
    && (s2 == s1 || Exec(s1, RouteDelDefault(iface, "51")) == Some(s2))
    && Reaped(s2, s3, NamesOf(devs))
  }

  /** Flushes the rules, drops the legacy route, and tears down what is not planned. */
  method ClearOut(k: Host, iface: string, devs: seq<ExitDevice>) returns (ghost s1: KState, ghost s2: KState)
    requires Grounded(k.state)
    modifies k
    ensures Grounded(k.state) && ClearedTo(old(k.state), s1, s2, k.state, iface, devs)
    ensures !k.faulty ==>
      && RulesAt(k.state, EXIT_MESH_PREF) == [] && RulesAt(k.state, EXIT_PREF) == []
      && !DefaultVia(s2, "51", iface)
      && forall n :: n in k.state.links && Owned(n) ==> n in NamesOf(devs)
  {
    FlushRules(k, EXIT_MESH_PREF);
    FlushRules(k, EXIT_PREF);
    s1 := k.state;
    var _ := k.Run(RouteDelDefault(iface, "51"));
    s2 := k.state;
    var want := set d | d in devs :: d.name;
    assert want == NamesOf(devs);
    ReapDevices(k, want);
  }

  /** Everything before the rules are rebuilt. */
  method PrepareDevices(k: Host, iface: string, hub: Addr, devs: seq<ExitDevice>) returns (ok: bool)
    requires Grounded(k.state)
    requires "51" !in TablesOf(devs) && forall d :: d in devs ==> Owned(d.name)
    requires Coherent(devs)
    modifies k
    ensures Grounded(k.state)
    ensures Bounded(old(k.state), k.state, iface, hub, devs)
    ensures ok ==> AllSettled(old(k.state), k.state, hub, devs)
    ensures !k.faulty ==> (ok <==> NoneDown(old(k.state), devs))
    ensures !k.faulty ==> RulesAt(k.state, EXIT_MESH_PREF) == [] && RulesAt(k.state, EXIT_PREF) == []
    ensures !k.faulty && ok ==> TidyLinks(k.state, iface, devs) && TidyRoutes(old(k.state), k.state, iface, devs)
  {
    ghost var s0 := k.state;
    ghost var s1, s2 := ClearOut(k, iface, devs);
    ghost var s3 := k.state;
    ok := EnsureDevices(k, hub, devs);
    ghost var s4 := k.state;
    Cleaned(s0, s1, s2, s3, s4, iface, hub, devs, !k.faulty);
  }

  /** Reconciles the exit routing to a plan. From any state, cut off or not, the change is
      bounded to what the applier owns; with a kernel that does not fail of its own accord
      the run succeeds exactly when the plan is feasible, and then the state is the plan. */
  method EnsureExitRoutes(k: Host, iface: string, hub: Addr, mesh: seq<Prefix>, routes: seq<ExitRoute>) returns (ok: bool)
    requires Grounded(k.state)
    modifies k
    ensures Grounded(k.state)
    ensures Bounded(old(k.state), k.state, iface, hub, ExitDevs(routes))
    ensures ok ==> AllSettled(old(k.state), k.state, hub, ExitDevs(routes))
    ensures !k.faulty ==> (ok <==> Feasible(old(k.state), mesh, ExitDevs(routes), ExitRules(routes)))
    ensures !k.faulty && ok ==> Converged(old(k.state), k.state, iface, hub, mesh, ExitDevs(routes), ExitRules(routes))
  {
    var devs, rules := MakeExitPlan(routes);
    PlanIsSane(routes);
    ghost var start := k.state;
    ok := PrepareDevices(k, iface, hub, devs);
    if !ok {
      return;
    }
    ghost var mid := k.state;
    ok := AddPlannedRules(k, mesh, rules);
    RulesStayBounded(start, mid, k.state, iface, hub, devs);
    RulesStaySettled(start, mid, k.state, iface, hub, devs);
    RulesStayTidy(start, mid, k.state, iface, devs);
  }
}

/** Self-stabilisation of the exit routing over whole histories of runs: what every run,
    finished or cut off, leaves true; what one complete run then reaches; and the one kind
    of leftover it cannot repair. */
module Stabilise {
  import opened Basics
  import opened Net
  import opened ExitPlan
  import opened Kernel
  import opened Apply

  /** Every device named after an address of the pool is a tunnel to that address. */
  ghost predicate Agrees(s: KState, pool: Prefix, hub: Addr) {
    forall a: Addr :: Contains(pool, a) && ExitDevName(a) in s.links ==> s.links[ExitDevName(a)].kind == Ipip(hub, a)
  }

  predicate NodesIn(routes: seq<ExitRoute>, pool: Prefix) {
    forall r :: r in routes ==> Contains(pool, r.node)
  }

  /** For the pools the naming scheme is meant for, plans never collide. */
  lemma PlansAreSeparate(routes: seq<ExitRoute>, pool: Prefix)
    requires pool.bits >= 16 && NodesIn(routes, pool)
    ensures Separate(ExitDevs(routes))
  {
    NamesInjectiveIff(pool);
    ExitDevsExact(routes);
    forall d, e | d in ExitDevs(routes) && e in ExitDevs(routes) && d != e
      ensures d.name != e.name
    {
      var r :| r in routes && d == DeviceFor(r.node);
      var q :| q in routes && e == DeviceFor(q.node);
      assert Contains(pool, d.remote) && Contains(pool, e.remote) && d.remote != e.remote;
    }
  }

  lemma RunKeepsAgreement(s: KState, next: KState, iface: string, pool: Prefix, hub: Addr, routes: seq<ExitRoute>)
    requires pool.bits >= 16 && NodesIn(routes, pool)
    requires Bounded(s, next, iface, hub, ExitDevs(routes)) && Agrees(s, pool, hub)
    ensures Agrees(next, pool, hub)
  {
    ExitDevsExact(routes);
    forall a: Addr | Contains(pool, a) && ExitDevName(a) in next.links
      ensures next.links[ExitDevName(a)].kind == Ipip(hub, a)
    {
      if ExitDevName(a) !in s.links {
        var d :| d in ExitDevs(routes) && d.name == ExitDevName(a);
        var r :| r in routes && d == DeviceFor(r.node);
        NameIdentifies(pool, r.node, a);
        PlansAreSeparate(routes, pool);
        SeparateCreator(ExitDevs(routes), d);
      }
    }
  }

  /** A history: each state follows from the one before by a run, complete or cut off at
      any command, towards some plan of its own. */
  ghost predicate IsHistory(states: seq<KState>, plans: seq<seq<ExitRoute>>, iface: string, pool: Prefix, hub: Addr) {
    && |states| == |plans| + 1
    && forall i :: 0 <= i < |plans| ==> NodesIn(plans[i], pool) && Bounded(states[i], states[i + 1], iface, hub, ExitDevs(plans[i]))
  }

  lemma {:induction false} HistoryKeepsAgreement(
    states: seq<KState>, plans: seq<seq<ExitRoute>>, iface: string, pool: Prefix, hub: Addr, i: nat)
    requires pool.bits >= 16 && IsHistory(states, plans, iface, pool, hub) && Agrees(states[0], pool, hub)
    requires i < |states|
    ensures Agrees(states[i], pool, hub)
  {
    if i > 0 {
      HistoryKeepsAgreement(states, plans, iface, pool, hub, i - 1);
      RunKeepsAgreement(states[i - 1], states[i], iface, pool, hub, plans[i - 1]);
    }
  }

  /** The state the plan asks for, read off the final state alone. */
  ghost predicate IsPlan(s: KState, hub: Addr, mesh: seq<Prefix>, routes: seq<ExitRoute>) {
    && RulesAt(s, EXIT_MESH_PREF) == MeshRules(mesh)
    && RulesAt(s, EXIT_PREF) == SourceRules(ExitRules(routes))
    && (forall n :: Owned(n) ==> (n in s.links <==> exists r :: r in routes && n == ExitDevName(r.node)))
    && (forall r :: r in routes ==>
          var n := ExitDevName(r.node);
          && n in s.links && s.links[n].kind == Ipip(hub, r.node) && s.links[n].up && hub in s.links[n].addrs
          && DefaultVia(s, ExitTableFor(r.node), n))
  }

  /** After any history of interrupted runs, a complete run reaches exactly its plan. What
      the run needs, Feasible, is what EnsureExitRoutes succeeds on. */
  lemma CompleteRunReachesPlan(
    states: seq<KState>, plans: seq<seq<ExitRoute>>, next: KState,
    iface: string, pool: Prefix, hub: Addr, mesh: seq<Prefix>, routes: seq<ExitRoute>)
    requires pool.bits >= 16 && IsHistory(states, plans, iface, pool, hub) && Agrees(states[0], pool, hub)
    requires NodesIn(routes, pool)
    requires var last := states[|states| - 1];
      && Bounded(last, next, iface, hub, ExitDevs(routes))
      && Converged(last, next, iface, hub, mesh, ExitDevs(routes), ExitRules(routes))
    ensures IsPlan(next, hub, mesh, routes)
  {
    var last := states[|states| - 1];
    HistoryKeepsAgreement(states, plans, iface, pool, hub, |states| - 1);
    RunKeepsAgreement(last, next, iface, pool, hub, routes);
    ExitDevsExact(routes);
    forall r | r in routes
      ensures var n := ExitDevName(r.node);
        && n in next.links && next.links[n].kind == Ipip(hub, r.node) && next.links[n].up && hub in next.links[n].addrs
        && DefaultVia(next, ExitTableFor(r.node), n)
    {
      assert DeviceFor(r.node) in ExitDevs(routes);
    }
    forall n | Owned(n)
      ensures n in next.links <==> exists r :: r in routes && n == ExitDevName(r.node)
    {
      if n in next.links {
        var d :| d in ExitDevs(routes) && d.name == n;
        var r :| r in routes && d == DeviceFor(r.node);
      }
      if r :| r in routes && n == ExitDevName(r.node) {
        assert DeviceFor(r.node) in ExitDevs(routes);
      }
    }
  }

  // ---------------------------------------------------------------- idempotence

  /** Two states the kernel cannot be told apart by. */
  ghost predicate SameState(s: KState, t: KState) {
    && (forall p :: RulesAt(s, p) == RulesAt(t, p))
    && s.links == t.links && s.defaults == t.defaults && s.main == t.main
  }

  lemma LinksSettle(
    s: KState, first: KState, second: KState, iface: string, hub: Addr, mesh: seq<Prefix>, devs: seq<ExitDevice>, rules: seq<ExitRule>)
    requires Converged(s, first, iface, hub, mesh, devs, rules)
    requires Bounded(first, second, iface, hub, devs) && Converged(first, second, iface, hub, mesh, devs, rules)
    ensures first.links == second.links
  {
    forall n | n in first.links || n in second.links
      ensures n in first.links && n in second.links && first.links[n] == second.links[n]
    {
      if Owned(n) {
        assert n in NamesOf(devs);
        SettledAgain(s, first, hub, devs, Creator(devs, n));
      }
    }
  }

  lemma DefaultsSettle(
    s: KState, first: KState, second: KState, iface: string, hub: Addr, mesh: seq<Prefix>, devs: seq<ExitDevice>, rules: seq<ExitRule>)
    requires Converged(s, first, iface, hub, mesh, devs, rules)
    requires Bounded(first, second, iface, hub, devs) && Converged(first, second, iface, hub, mesh, devs, rules)
    ensures first.defaults == second.defaults
  {
    forall t | t in first.defaults || t in second.defaults
      ensures t in first.defaults && t in second.defaults && first.defaults[t] == second.defaults[t]
    {
      if t in TablesOf(devs) {
        var d :| d in devs && d.table == t;
        assert DefaultVia(first, d.table, d.name) && DefaultVia(second, d.table, d.name);
      } else {
        assert RouteKept(first, second, t, iface);
        if t in first.defaults {
          assert Owned(first.defaults[t]) ==> first.defaults[t] in NamesOf(devs);
          assert !DefaultVia(first, "51", iface);
        }
      }
    }
  }

  /** Once converged, the same run is feasible again and changes nothing. */
  lemma SecondRunChangesNothing(
    s: KState, first: KState, second: KState, iface: string, hub: Addr, mesh: seq<Prefix>, devs: seq<ExitDevice>, rules: seq<ExitRule>)
    requires Grounded(first)
    requires Converged(s, first, iface, hub, mesh, devs, rules)
    requires Bounded(first, second, iface, hub, devs) && Converged(first, second, iface, hub, mesh, devs, rules)
    ensures Feasible(s, mesh, devs, rules) ==> Feasible(first, mesh, devs, rules)
    ensures SameState(first, second)
  {
    LinksSettle(s, first, second, iface, hub, mesh, devs, rules);
    DefaultsSettle(s, first, second, iface, hub, mesh, devs, rules);
    assert first.main == second.main by {
      forall p | p in first.main ensures p in second.main {
        if Owned(first.main[p]) {
          assert first.main[p] in NamesOf(devs);
        }
      }
    }
  }

  // ---------------------------------------------------------------- where a device leads

  /** In any pool, after any run: a planned device leads to a node exactly when it was there and
      led there before, or was not there and the node is the first planned of that name. */
  lemma DeviceLeadsIff(s: KState, next: KState, iface: string, hub: Addr, devs: seq<ExitDevice>, d: ExitDevice)
    requires Bounded(s, next, iface, hub, devs) && d in devs && d.name in next.links
    ensures d.name in NamesOf(devs)
    ensures next.links[d.name].kind == Ipip(hub, d.remote) <==>
      if d.name in s.links then s.links[d.name].kind == Ipip(hub, d.remote) else Creator(devs, d.name).remote == d.remote
  {
    BoundedInherits(s, next, iface, hub, devs);
  }

  lemma RunKeepsDevice(s: KState, next: KState, iface: string, hub: Addr, devs: seq<ExitDevice>, name: string)
    requires Bounded(s, next, iface, hub, devs) && name in s.links && name in NamesOf(devs)
    ensures name in next.links && next.links[name].kind == s.links[name].kind && next.links[name].up == s.links[name].up
  {
  }

  /** So as long as every plan asks for its name, a device stays with the node it was created for. */
  lemma {:induction false} DeviceKeepsItsNode(
    states: seq<KState>, plans: seq<seq<ExitRoute>>, iface: string, pool: Prefix, hub: Addr, name: string, i: nat)
    requires IsHistory(states, plans, iface, pool, hub) && i < |states|
    requires name in states[0].links && forall j :: 0 <= j < |plans| ==> name in NamesOf(ExitDevs(plans[j]))
    ensures name in states[i].links && states[i].links[name].kind == states[0].links[name].kind
  {
    if i > 0 {
      DeviceKeepsItsNode(states, plans, iface, pool, hub, name, i - 1);
      RunKeepsDevice(states[i - 1], states[i], iface, hub, ExitDevs(plans[i - 1]), name);
    }
  }

  // ---------------------------------------------------------------- the leftover it cannot repair

  lemma PlannedIsNamed(devs: seq<ExitDevice>, d: ExitDevice)
    requires d in devs
    ensures d.name in NamesOf(devs)
  {
  }

  lemma DownIsInfeasible(s: KState, devs: seq<ExitDevice>, rules: seq<ExitRule>, d: ExitDevice)
    requires d in devs && d.name in s.links && !s.links[d.name].up
    ensures forall mesh :: !Feasible(s, mesh, devs, rules)
  {
  }

  /** A planned device that is down stays down through every further run that plans it, so
      none of them is ever feasible: the run that creates a device and is cut off before it
      brings the device up leaves such a state. */
  lemma {:induction false} DownDeviceStaysDown(
    states: seq<KState>, plans: seq<seq<ExitRoute>>, iface: string, pool: Prefix, hub: Addr, node: Addr, i: nat)
    requires IsHistory(states, plans, iface, pool, hub) && i < |states|
    requires ExitDevName(node) in states[0].links && !states[0].links[ExitDevName(node)].up
    requires forall j :: 0 <= j < |plans| ==> DeviceFor(node) in ExitDevs(plans[j])
    ensures ExitDevName(node) in states[i].links && !states[i].links[ExitDevName(node)].up
    ensures i < |plans| ==> forall mesh :: !Feasible(states[i], mesh, ExitDevs(plans[i]), ExitRules(plans[i]))
  {
    if i > 0 {
      DownDeviceStaysDown(states, plans, iface, pool, hub, node, i - 1);
      PlannedIsNamed(ExitDevs(plans[i - 1]), DeviceFor(node));
      RunKeepsDevice(states[i - 1], states[i], iface, hub, ExitDevs(plans[i - 1]), ExitDevName(node));
    }
    if i < |plans| {
      DownIsInfeasible(states[i], ExitDevs(plans[i]), ExitRules(plans[i]), DeviceFor(node));
    }
  }

  /** One route wanted: one device, one rule. */
  lemma OneRoutePlan(client: Addr, node: Addr)
    ensures ExitDevs([ExitRoute(client, node)]) == [DeviceFor(node)] && NoDup(ExitRules([ExitRoute(client, node)]))
  {
    var routes := [ExitRoute(client, node)];
    var devs := ExitDevs(routes);
    ExitDevsExact(routes);
    assert routes[0] in routes && DeviceFor(node) in devs;
    forall i | 0 <= i < |devs| ensures devs[i] == DeviceFor(node) {
      assert devs[i] in devs;
    }
    assert |devs| > 1 ==> devs[0].remote < devs[1].remote;
    SortRulesSorts(PlanRules(routes));
    assert |ExitRules(routes)| == |multiset(ExitRules(routes))| == |multiset(PlanRules(routes))| == 1;
  }

  /** Such a state is one command into a run: with an empty kernel and one route wanted,
      the plan is feasible, and after `ip link add` has run it no longer is. */
  lemma CutOffAfterLinkAdd(hub: Addr, client: Addr, node: Addr)
    ensures var empty := KState(map[], map[], map[], map[]);
      var routes := [ExitRoute(client, node)];
      var cut := Exec(empty, LinkAdd(ExitDevName(node), hub, node));
      && Feasible(empty, [], ExitDevs(routes), ExitRules(routes))
      && cut.Some?
      && Bounded(empty, cut.value, "awg0", hub, ExitDevs(routes))
      && !Feasible(cut.value, [], ExitDevs(routes), ExitRules(routes))
  {
    var cut := Exec(KState(map[], map[], map[], map[]), LinkAdd(ExitDevName(node), hub, node)).value;
    OneRoutePlan(client, node);
    NamesAreSane(node);
    var d := DeviceFor(node);
    assert NamesOf([d]) == {d.name} && Creator([d], d.name) == d;
    assert d in [d] && !cut.links[d.name].up;
  }

  /** No run that plans the device, finished or cut off, ends in its plan. */
  lemma DownDeviceIsNeverPlan(
    s: KState, next: KState, iface: string, hub: Addr, mesh: seq<Prefix>, routes: seq<ExitRoute>, node: Addr)
    requires Bounded(s, next, iface, hub, ExitDevs(routes)) && DeviceFor(node) in ExitDevs(routes)
    requires ExitDevName(node) in s.links && !s.links[ExitDevName(node)].up
    ensures !IsPlan(next, hub, mesh, routes)
  {
    var name := ExitDevName(node);
    assert DeviceFor(node).name in NamesOf(ExitDevs(routes));
    assert name in next.links && !next.links[name].up;
    ExitDevsExact(routes);
    var r :| r in routes && DeviceFor(node) == DeviceFor(r.node);
    assert ExitDevName(r.node) == name;
  }

  /** A complete run without the device removes it, and then every plan is feasible that asks for
      no rule twice, plans with the device included. */
  lemma ReplanningRepairs(
    s: KState, next: KState, iface: string, hub: Addr, mesh: seq<Prefix>, without: seq<ExitDevice>, rules: seq<ExitRule>,
    mesh2: seq<Prefix>, routes2: seq<ExitRoute>)
    requires Converged(s, next, iface, hub, mesh, without, rules)
    ensures Feasible(next, mesh2, ExitDevs(routes2), ExitRules(routes2)) <==> NoDup(mesh2) && NoDup(ExitRules(routes2))
    ensures forall d: ExitDevice :: Owned(d.name) && d.name !in NamesOf(without) ==> d.name !in next.links
  {
    PlanIsSane(routes2);
    forall d | d in ExitDevs(routes2) && d.name in next.links ensures next.links[d.name].up {
      assert Owned(d.name) && d.name in NamesOf(without);
    }
  }
}

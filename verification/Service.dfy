/** Reconcile (internal/service/service.go): one pass from the database to the running
    system, and what is in force after a pass that succeeded. */
module Service {
  import opened Basics
  import opened Net
  import opened Model
  import opened Nft
  import opened Render
  import opened Database
  import opened Snapshot
  import opened ExitPlan
  import opened Kernel
  import opened Apply
  import opened Queries
  import St = Store
  import R = Resolver

  // ---------------------------------------------------------------- what is derived from a snapshot

  function ExitRoutesOf(grants: seq<Grant>): seq<ExitRoute> {
    if grants == [] then []
    else
      var g := grants[|grants| - 1];
      ExitRoutesOf(grants[..|grants| - 1]) + if g.nodeExit then [ExitRoute(g.clientAddr, g.nodeAddr)] else []
  }

  lemma {:induction false} ExitRoutesExact(grants: seq<Grant>, r: ExitRoute)
    ensures r in ExitRoutesOf(grants) <==> exists g :: g in grants && g.nodeExit && r == ExitRoute(g.clientAddr, g.nodeAddr)
  {
    if grants != [] {
      var init, last := grants[..|grants| - 1], grants[|grants| - 1];
      ExitRoutesExact(init, r);
      assert grants == init + [last];
    }
  }

  /** Every LAN prefix is pinned to the tunnel interface; a default route never is. */
  ghost predicate Pinned(s: KState, iface: string, subnets: seq<Prefix>) {
    forall p :: p in subnets && p.bits != 0 ==> p in s.main && s.main[p] == iface
  }

  /** The main table reaches the pool through the interface, as its address makes it. */
  predicate OnLink(s: KState, hub: Hub, iface: string) {
    hub.pool.Some? ==> hub.pool.value in s.main && s.main[hub.pool.value] == iface
  }

  /** What the kernel looks like once the snapshot is in force. Where an exit device leads is not
      part of it: a device that was there keeps its endpoints, see Apply.Inherits. */
  ghost predicate KernelInForce(snap: Snap, s: KState, iface: string) {
    var routes := ExitRoutesOf(snap.grants);
    var devs := ExitDevs(routes);
    && OnLink(s, snap.hub, iface)
    && Pinned(s, iface, NodeSubnets(snap.nodes))
    && RulesAt(s, EXIT_MESH_PREF) == MeshRules(MeshOf(snap.hub, snap.nodes))
    && RulesAt(s, EXIT_PREF) == SourceRules(ExitRules(routes))
    && TidyLinks(s, iface, devs)
    && (forall n :: n in NamesOf(devs) ==> n in s.links && s.links[n].up)
    && (forall d :: d in devs ==> DefaultVia(s, d.table, d.name))
  }

  /** What the running system looks like once the snapshot is in force. */
  ghost predicate InForce(snap: Snap, peers: seq<Peer>, chain: seq<Line>, s: KState, iface: string) {
    && peers == HubPeers(snap.nodes, snap.clients)
    && chain == ForwardChain(snap.hub, snap.nodes, snap.grants, snap.links)
    && KernelInForce(snap, s, iface)
  }

  /** What a pass builds on: the interface is not named like an exit device, and if it is up it has
      its pool route. Every pass keeps this, whatever becomes of it. */
  predicate Prepared(hub: Hub, s: KState, iface: string) {
    && !Owned(iface)
    && (iface in s.links ==> OnLink(s, hub, iface))
  }

  /** The interface, if it is there, is up. Every pass keeps this too. */
  predicate NotDown(s: KState, iface: string) {
    iface in s.links ==> s.links[iface].up
  }

  // ---------------------------------------------------------------- applying

  /** Pins each LAN to the interface; `ip route replace` is idempotent. */
  method EnsureRoutes(k: Host, iface: string, subnets: seq<Prefix>) returns (ok: bool)
    requires Grounded(k.state)
    modifies k
    ensures Grounded(k.state) && k.state == old(k.state).(main := k.state.main)
    ensures forall p :: p !in subnets || p.bits == 0 ==>
      (p in k.state.main <==> p in old(k.state).main) && (p in k.state.main ==> k.state.main[p] == old(k.state).main[p])
    ensures forall p :: p in old(k.state).main ==>
      p in k.state.main && (k.state.main[p] == old(k.state).main[p] || k.state.main[p] == iface)
    ensures ok ==> Pinned(k.state, iface, subnets)
    ensures !k.faulty && iface in old(k.state).links && old(k.state).links[iface].up ==> ok
  {
    for i := 0 to |subnets|
      invariant Grounded(k.state) && k.state == old(k.state).(main := k.state.main)
      invariant forall p :: p !in subnets || p.bits == 0 ==>
        (p in k.state.main <==> p in old(k.state).main) && (p in k.state.main ==> k.state.main[p] == old(k.state).main[p])
      invariant forall p :: p in old(k.state).main ==>
        p in k.state.main && (k.state.main[p] == old(k.state).main[p] || k.state.main[p] == iface)
      invariant Pinned(k.state, iface, subnets[..i])
    {
      if subnets[i].bits == 0 {
        continue;
      }
      var done := k.Run(RouteReplaceMain(subnets[i], iface));
      if !done {
        return false;
      }
    }
    assert subnets[..|subnets|] == subnets;
    return true;
  }

  /** Pinned LANs and the pool route stay while the exit routing converges on top of them. */
  lemma ConvergedIsInForce(snap: Snap, before: KState, s: KState, iface: string)
    requires var devs := ExitDevs(ExitRoutesOf(snap.grants));
      && Bounded(before, s, iface, snap.hub.address, devs)
      && Converged(before, s, iface, snap.hub.address, MeshOf(snap.hub, snap.nodes), devs, ExitRules(ExitRoutesOf(snap.grants)))
    requires Pinned(before, iface, NodeSubnets(snap.nodes)) && OnLink(before, snap.hub, iface) && !Owned(iface)
    ensures KernelInForce(snap, s, iface)
  {
  }

  /** Pinning LANs moves no pool route away from the interface, and no run of the exit routing
      removes it. */
  lemma RunsStayPrepared(hub: Hub, start: KState, before: KState, s: KState, iface: string, devs: seq<ExitDevice>)
    requires Prepared(hub, start, iface) && before == start.(main := before.main)
    requires forall p :: p in start.main ==> p in before.main && (before.main[p] == start.main[p] || before.main[p] == iface)
    requires Bounded(before, s, iface, hub.address, devs)
    ensures Prepared(hub, before, iface) && Prepared(hub, s, iface)
  {
  }

  /** Bringing the interface up gives it its pool route and touches no exit device. */
  lemma InterfaceIsReady(hub: Hub, start: KState, s: KState, iface: string, routes: seq<ExitRoute>)
    requires s == start || Exec(start, QuickUp(iface, hub.pool)) == Some(s)
    ensures Prepared(hub, start, iface) ==> Prepared(hub, s, iface)
    ensures NotDown(start, iface) ==> NotDown(s, iface)
    ensures forall mesh, rules :: NotDown(start, iface) ==>
      (Feasible(s, mesh, ExitDevs(routes), rules) <==> Feasible(start, mesh, ExitDevs(routes), rules))
    ensures !Owned(iface) ==> forall n :: n in NamesOf(ExitDevs(routes)) ==>
      (n in s.links <==> n in start.links) && (n in s.links ==> s.links[n] == start.links[n])
  {
    PlanIsSane(routes);
    if s != start && !Owned(iface) {
      assert iface !in NamesOf(ExitDevs(routes));
    }
  }

  /** The LANs to pin; the virtual hub node's 0.0.0.0/0 is not one of them. */
  method LanRoutes(nodes: seq<Node>) returns (routes: seq<Prefix>)
    ensures routes == NodeSubnets(nodes)
  {
    routes := [];
    for i := 0 to |nodes|
      invariant routes == NodeSubnets(nodes[..i])
    {
      assert nodes[..i + 1][..i] == nodes[..i];
      if nodes[i].isHub {
        continue;
      }
      routes := routes + nodes[i].subnets;
    }
    assert nodes[..|nodes|] == nodes;
  }

  method CollectExitRoutes(grants: seq<Grant>) returns (exitRoutes: seq<ExitRoute>)
    ensures exitRoutes == ExitRoutesOf(grants)
  {
    exitRoutes := [];
    for i := 0 to |grants|
      invariant exitRoutes == ExitRoutesOf(grants[..i])
    {
      assert grants[..i + 1][..i] == grants[..i];
      if grants[i].nodeExit {
        exitRoutes := exitRoutes + [ExitRoute(grants[i].clientAddr, grants[i].nodeAddr)];
      }
    }
    assert grants[..|grants|] == grants;
  }

  class Service {
    const store: St.Store
    const host: Host
    const iface: string
    const resolver: R.DnsRouter?
    const upstream: string
    var peers: seq<Peer>
    var chain: seq<Line>

    constructor (store: St.Store, host: Host, iface: string, resolver: R.DnsRouter?, upstream: string)
      ensures this.store == store && this.host == host && this.iface == iface
      ensures this.resolver == resolver && this.upstream == upstream
    {
      this.store, this.host, this.iface := store, host, iface;
      this.resolver, this.upstream := resolver, upstream;
      peers, chain := [], [];
    }

    /** Loads the hub configuration and the filter, bringing the interface up the first time. */
    method Apply(hubConf: seq<Peer>, rules: seq<Line>, onLink: Option<Prefix>) returns (ok: bool)
      requires Grounded(host.state)
      modifies this, host
      ensures Grounded(host.state)
      ensures host.state == old(host.state) || Exec(old(host.state), QuickUp(iface, onLink)) == Some(host.state)
      ensures ok ==> iface in host.state.links
      ensures ok ==> peers == hubConf && chain == rules
      ensures !host.faulty ==> ok
    {
      var exists_ := host.Run(LinkShow(iface));
      if !exists_ {
        var up := host.Run(QuickUp(iface, onLink));
        if !up {
          return false;
        }
      }
      peers := hubConf;
      if host.faulty {
        var fails: bool := *;
        if fails {
          return false;
        }
      }
      chain := rules;
      return true;
    }

    /** The kernel half of a pass: pins the LANs, then the exit routing. */
    method ApplyRoutes(snap: Snap) returns (ok: bool)
      requires Grounded(host.state)
      modifies host
      ensures Grounded(host.state)
      ensures Prepared(snap.hub, old(host.state), iface) ==> Prepared(snap.hub, host.state, iface)
      ensures NotDown(old(host.state), iface) && !Owned(iface) ==> NotDown(host.state, iface)
      ensures Inherits(old(host.state), host.state, snap.hub.address, ExitDevs(ExitRoutesOf(snap.grants)))
      ensures !host.faulty && ok && Prepared(snap.hub, old(host.state), iface) && iface in old(host.state).links ==>
        KernelInForce(snap, host.state, iface)
      ensures !host.faulty && iface in old(host.state).links && NotDown(old(host.state), iface) ==>
        (ok <==> Feasible(old(host.state), MeshOf(snap.hub, snap.nodes),
                          ExitDevs(ExitRoutesOf(snap.grants)), ExitRules(ExitRoutesOf(snap.grants))))
    {
      ghost var start := host.state;
      var routes := LanRoutes(snap.nodes);
      var pinned := EnsureRoutes(host, iface, routes);
      if !pinned {
        return false;
      }
      var mesh := routes;
      if snap.hub.pool.Some? {
        mesh := mesh + [snap.hub.pool.value];
      }
      assert mesh == MeshOf(snap.hub, snap.nodes);
      var exitRoutes := CollectExitRoutes(snap.grants);
      ghost var before := host.state;
      ok := EnsureExitRoutes(host, iface, snap.hub.address, mesh, exitRoutes);
      BoundedInherits(before, host.state, iface, snap.hub.address, ExitDevs(exitRoutes));
      if Prepared(snap.hub, start, iface) {
        RunsStayPrepared(snap.hub, start, before, host.state, iface, ExitDevs(exitRoutes));
        if !host.faulty && ok && iface in start.links {
          ConvergedIsInForce(snap, before, host.state, iface);
        }
      }
    }

    /** Puts a snapshot in force, wherever it was read. */
    method Install(snap: Snap) returns (ok: bool)
      requires Grounded(host.state)
      modifies this, host
      ensures Grounded(host.state)
      ensures Prepared(snap.hub, old(host.state), iface) ==> Prepared(snap.hub, host.state, iface)
      ensures NotDown(old(host.state), iface) && !Owned(iface) ==> NotDown(host.state, iface)
      ensures !Owned(iface) ==>
        Inherits(old(host.state), host.state, snap.hub.address, ExitDevs(ExitRoutesOf(snap.grants)))
      ensures !host.faulty && ok && Prepared(snap.hub, old(host.state), iface) ==>
        InForce(snap, peers, chain, host.state, iface)
      ensures !host.faulty && NotDown(old(host.state), iface) ==>
        (ok <==> var routes := ExitRoutesOf(snap.grants);
                 Feasible(old(host.state), MeshOf(snap.hub, snap.nodes), ExitDevs(routes), ExitRules(routes)))
    {
      ghost var start := host.state;
      var hubConf := RenderHub(snap.nodes, snap.clients);
      var nftRules := RenderNFT(snap.hub, snap.nodes, snap.grants, snap.links);
      var applied := Apply(hubConf, nftRules, snap.hub.pool);
      InterfaceIsReady(snap.hub, start, host.state, iface, ExitRoutesOf(snap.grants));
      if !applied {
        return false;
      }
      ok := ApplyRoutes(snap);
    }

    /** Reads the database, puts the snapshot in force, then hands the domain routes to the
        resolver. `o` is the order the database lists rows in. */
    method Reconcile(o: RowOrder) returns (ok: bool)
      requires ValidOrder(store.db, o) && Grounded(host.state)
      modifies this, host, resolver
      ensures Grounded(host.state)
      ensures Prepared(GetHub(store.db), old(host.state), iface) ==> Prepared(GetHub(store.db), host.state, iface)
      ensures NotDown(old(host.state), iface) && !Owned(iface) ==> NotDown(host.state, iface)
      ensures !Owned(iface) ==>
        Inherits(old(host.state), host.state, store.db.hub.address, ExitDevs(ExitRoutesOf(SnapshotOf(store.db, o).grants)))
      ensures !host.faulty && ok && Prepared(GetHub(store.db), old(host.state), iface) ==>
        InForce(SnapshotOf(store.db, o), peers, chain, host.state, iface)
      ensures ok && resolver != null ==> R.IsTable(RouteMap(DomainAnswer(store.db, o)), upstream, resolver.cur)
      ensures !ok && resolver != null ==> resolver.cur == old(resolver.cur)
      ensures !host.faulty && NotDown(old(host.state), iface) ==>
        (ok <==> var s := SnapshotOf(store.db, o);
                 var routes := ExitRoutesOf(s.grants);
                 Feasible(old(host.state), MeshOf(s.hub, s.nodes), ExitDevs(routes), ExitRules(routes)))
    {
      var snap := store.Snapshot(o);
      ok := Install(snap);
      if ok && resolver != null {
        var byDomain := store.DomainRoutes(o);
        resolver.SetRoutes(byDomain, upstream);
      }
    }
  }
}

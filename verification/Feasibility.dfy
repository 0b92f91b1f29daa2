/** Why Reconcile's kernel commands are never refused for what is in the database: in every
    reachable state whose LANs do not overlap, no rule is planned twice and no two devices
    share a name. */
module Feasibility {
  import opened Basics
  import opened Net
  import opened Model
  import opened Nft
  import opened Render
  import opened Database
  import opened Snapshot
  import opened Invariant
  import opened Policy
  import opened ExitPlan
  import opened Kernel
  import opened Apply
  import opened Stabilise
  import opened Service
  import opened Delivery

  lemma PrefixHoldsItsAddress(p: Prefix)
    ensures Contains(p, p.addr)
  {
  }

  /** Subnets of the listed nodes are different: within a node the primary key says so,
      across nodes the LANs are apart. */
  lemma {:induction false} SubnetsDistinct(db: Db, o: RowOrder, ids: seq<Id>)
    requires LansApart(db) && SubnetOrder(db, o.subnets) && NoDup(ids) && forall id :: id in ids ==> Visible(db, id)
    ensures NoDup(NodeSubnets(NodeRows(db, o, ids)))
    ensures forall p :: p in NodeSubnets(NodeRows(db, o, ids)) ==>
      exists id :: id in ids && RealNode(db, id) && p in db.nodes[id].subnets
  {
    if ids != [] {
      var init, last := ids[..|ids| - 1], ids[|ids| - 1];
      assert ids == init + [last];
      assert NodeRows(db, o, ids)[..|init|] == NodeRows(db, o, init);
      SubnetsDistinct(db, o, init);
      assert last in ids && Visible(db, last);
      var before, mine := NodeSubnets(NodeRows(db, o, init)), if db.nodes[last].isHub then [] else o.subnets[last];
      forall p | p in before ensures p !in mine {
        var id :| id in init && RealNode(db, id) && p in db.nodes[id].subnets;
        if p in mine {
          SubnetsExact(db, o, last, p);
          PrefixHoldsItsAddress(p);
          assert InLan(db, id, p.addr) && InLan(db, last, p.addr);
        }
      }
      NoDupConcat(before, mine);
      forall p | p in before + mine
        ensures exists id :: id in ids && RealNode(db, id) && p in db.nodes[id].subnets
      {
        if p in before {
          var id :| id in init && RealNode(db, id) && p in db.nodes[id].subnets;
          assert id in ids;
        } else {
          SubnetsExact(db, o, last, p);
          assert RealNode(db, last);
        }
      }
    }
  }

  lemma MeshDistinct(db: Db, o: RowOrder)
    requires LansApart(db) && ValidOrder(db, o)
    ensures NoDup(MeshPrefixes(db, o))
  {
    RowsExist(db, o);
    SubnetsDistinct(db, o, o.nodes);
    var lans, pool := NodeSubnets(SnapshotOf(db, o).nodes), db.hub.pool;
    if pool in lans {
      var id :| id in o.nodes && RealNode(db, id) && pool in db.nodes[id].subnets;
      PrefixHoldsItsAddress(pool);
      assert InLan(db, id, pool.addr);
    }
    NoDupConcat(lans, [pool]);
  }

  predicate FromGrants(db: Db, rs: seq<ExitRoute>, ks: seq<GrantKey>) {
    forall r :: r in rs ==> exists k :: k in ks && ExitGrant(db, k) && r.client == db.clients[k.client].address
  }

  predicate DistinctClients(rs: seq<ExitRoute>) {
    forall i, j :: 0 <= i < j < |rs| ==> rs[i].client != rs[j].client
  }

  /** A further grant's route starts at a client no earlier route starts at. */
  lemma NewClient(db: Db, rs: seq<ExitRoute>, ks: seq<GrantKey>, last: GrantKey)
    requires Inv(db) && FromGrants(db, rs, ks) && DistinctClients(rs) && last !in ks && ExitGrant(db, last)
    ensures DistinctClients(rs + [RouteOf(db, last)])
  {
  }

  lemma FromGrantsSnoc(db: Db, rs: seq<ExitRoute>, ks: seq<GrantKey>, last: GrantKey)
    requires FromGrants(db, rs, ks)
    ensures FromGrants(db, rs, ks + [last])
    ensures ExitGrant(db, last) ==> FromGrants(db, rs + [RouteOf(db, last)], ks + [last])
  {
  }

  lemma ExitRoutesSnoc(grants: seq<Grant>, g: Grant)
    ensures ExitRoutesOf(grants + [g]) == ExitRoutesOf(grants) + if g.nodeExit then [ExitRoute(g.clientAddr, g.nodeAddr)] else []
  {
  }

  lemma RoutesStep(db: Db, o: RowOrder, ks: seq<GrantKey>)
    requires SubnetOrder(db, o.subnets) && ks != []
    requires forall k :: k in ks ==> k in db.grants && k.client in db.clients && Enabled(db, k.client)
    ensures var init, last := ks[..|ks| - 1], ks[|ks| - 1];
      ExitRoutesOf(GrantRows(db, o, ks))
        == ExitRoutesOf(GrantRows(db, o, init)) + if ExitGrant(db, last) then [RouteOf(db, last)] else []
  {
    var rows, last := GrantRows(db, o, ks[..|ks| - 1]), ks[|ks| - 1];
    if Visible(db, last.node) {
      ExitRoutesSnoc(rows, ToGrant(db, o, last));
    } else {
      assert GrantRows(db, o, ks) == rows + [] == rows;
    }
  }

  /** Appending one grant's route, if it has one, keeps the clients different. */
  lemma DistinctStep(db: Db, rs: seq<ExitRoute>, ks: seq<GrantKey>, last: GrantKey)
    requires Inv(db) && FromGrants(db, rs, ks) && DistinctClients(rs) && last !in ks
    ensures var all := rs + if ExitGrant(db, last) then [RouteOf(db, last)] else [];
      DistinctClients(all) && FromGrants(db, all, ks + [last])
  {
    FromGrantsSnoc(db, rs, ks, last);
    if ExitGrant(db, last) {
      NewClient(db, rs, ks, last);
    } else {
      assert rs + [] == rs;
    }
  }

  /** No two exit routes start at the same client. */
  lemma {:induction false} ClientsDistinct(db: Db, o: RowOrder, ks: seq<GrantKey>)
    requires Inv(db) && SubnetOrder(db, o.subnets) && NoDup(ks)
    requires forall k :: k in ks ==> k in db.grants && k.client in db.clients && Enabled(db, k.client)
    ensures DistinctClients(ExitRoutesOf(GrantRows(db, o, ks)))
    ensures FromGrants(db, ExitRoutesOf(GrantRows(db, o, ks)), ks)
  {
    if ks != [] {
      var init, last := ks[..|ks| - 1], ks[|ks| - 1];
      assert ks == init + [last] && last !in init;
      ClientsDistinct(db, o, init);
      RoutesStep(db, o, ks);
      DistinctStep(db, ExitRoutesOf(GrantRows(db, o, init)), init, last);
    }
  }

  /** At most one exit route, hence one source rule, per client. */
  lemma RoutesHaveDistinctClients(db: Db, o: RowOrder)
    requires Inv(db) && ValidOrder(db, o)
    ensures DistinctClients(Routes(db, o))
    ensures NoDup(ExitRules(Routes(db, o)))
  {
    RowsExist(db, o);
    forall k | k in o.grants ensures k in db.grants && k.client in db.clients && Enabled(db, k.client) {
      ListedIff(o.grants, EnabledGrants(db), k);
    }
    ClientsDistinct(db, o, o.grants);
    var rs := Routes(db, o);
    var plan := PlanRules(rs);
    assert NoDup(plan) by {
      forall i, j | 0 <= i < j < |plan| ensures plan[i] != plan[j] {
        assert plan[i].client == rs[i].client && plan[j].client == rs[j].client;
      }
    }
    SortRulesSorts(plan);
    NoDupByMultiset(plan, ExitRules(rs));
  }

  lemma RoutesInPool(db: Db, o: RowOrder)
    requires Inv(db) && ValidOrder(db, o)
    ensures NodesIn(Routes(db, o), db.hub.pool)
  {
    TunnelAddressesInPool(db);
    forall r | r in Routes(db, o) ensures Contains(db.hub.pool, r.node) {
      RoutesExact(db, o, r);
      var k :| ExitGrant(db, k) && r == RouteOf(db, k);
      assert RealNode(db, k.node);
    }
  }

  /** What Reconcile asks of the kernel is feasible in every reachable state, unless an
      earlier run left a planned device down. */
  lemma ReconcileIsFeasible(db: Db, o: RowOrder, s: KState)
    requires Inv(db) && LansApart(db) && ValidOrder(db, o)
    ensures db.hub.pool.bits >= 16 ==> Separate(ExitDevs(Routes(db, o)))
    ensures Feasible(s, MeshPrefixes(db, o), ExitDevs(Routes(db, o)), ExitRules(Routes(db, o)))
       <==> forall d :: d in ExitDevs(Routes(db, o)) && d.name in s.links ==> s.links[d.name].up
  {
    MeshDistinct(db, o);
    RoutesHaveDistinctClients(db, o);
    RoutesInPool(db, o);
    if db.hub.pool.bits >= 16 {
      PlansAreSeparate(Routes(db, o), db.hub.pool);
    }
  }

  /** From devices that lead where their names say, as they do after any history of runs, a pass
      leaves every exit client's device leading to its own node. */
  lemma AgreeingDevicesLeadHome(db: Db, before: KState, k: GrantKey)
    requires Inv(db) && db.hub.pool.bits >= 16 && Agrees(before, db.hub.pool, db.hub.address) && ExitGrant(db, k)
    ensures WillLeadHome(db, before, k)
  {
    NarrowPoolIsLowest(db, k);
    TunnelAddressesInPool(db);
    assert RealNode(db, k.node);
  }

  /** The whole loop over every run: whatever transactions led here, Reconcile's commands succeed
      unless a planned device was left down; once its plan is in force a new-flow packet is forwarded
      exactly when the database permits it; and in a /16 or smaller the plan is sound and leads every
      exit client home, from any kernel whose devices agree with their names. */
  lemma ReachableReconcile(
    states: seq<Db>, ops: seq<Op>, i: nat, o: RowOrder, before: KState,
    peers: seq<Peer>, chain: seq<Line>, s: KState, iface: string, pkt: Packet)
    requires IsRun(states, ops) && Fresh(states[0]) && i < |states|
    requires LansApart(states[i]) && ValidOrder(states[i], o)
    ensures Feasible(before, MeshPrefixes(states[i], o), ExitDevs(Routes(states[i], o)), ExitRules(Routes(states[i], o)))
       <==> forall d :: d in ExitDevs(Routes(states[i], o)) && d.name in before.links ==> before.links[d.name].up
    ensures Running(states[i], o, peers, chain, s, iface) && pkt.newFlow ==>
      (Evaluate(chain, pkt) == Accepted <==> Permitted(states[i], pkt))
    ensures states[i].hub.pool.bits >= 16 ==> Separate(ExitDevs(Routes(states[i], o)))
    ensures states[i].hub.pool.bits >= 16 && Agrees(before, states[i].hub.pool, states[i].hub.address) ==>
      forall k :: ExitGrant(states[i], k) ==> WillLeadHome(states[i], before, k)
  {
    ReachableStatesSatisfyInv(states, ops, i);
    ReconcileIsFeasible(states[i], o, before);
    if states[i].hub.pool.bits >= 16 && Agrees(before, states[i].hub.pool, states[i].hub.address) {
      forall k | ExitGrant(states[i], k) ensures WillLeadHome(states[i], before, k) {
        AgreeingDevicesLeadHome(states[i], before, k);
      }
    }
    if Running(states[i], o, peers, chain, s, iface) && pkt.newFlow {
      AclExact(states[i], o, pkt);
    }
  }
}

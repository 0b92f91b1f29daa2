/** The access policy stated on the database, with no renderer in sight, and the proof
    that the compiled forward chain enforces exactly it. */
module Policy {
  import opened Basics
  import opened Net
  import opened Model
  import opened Nft
  import opened Database
  import opened Snapshot
  import opened Invariant

  // ---------------------------------------------------------------- the policy

  predicate InLan(db: Db, id: Id, a: Addr)
    requires id in db.nodes
  {
    exists p :: p in db.nodes[id].subnets && Contains(p, a)
  }

  predicate RealNode(db: Db, id: Id) {
    Visible(db, id) && !db.nodes[id].isHub
  }

  /** Destinations inside the VPN: the pool and every real node's LANs. */
  ghost predicate InMesh(db: Db, a: Addr) {
    Contains(db.hub.pool, a) || exists id :: RealNode(db, id) && InLan(db, id, a)
  }

  predicate LiveGrant(db: Db, k: GrantKey) {
    k in db.grants && Enabled(db, k.client) && Visible(db, k.node)
  }

  ghost predicate GrantOpens(db: Db, k: GrantKey, pkt: Packet) {
    && LiveGrant(db, k)
    && pkt.saddr == db.clients[k.client].address
    && if db.nodes[k.node].isHub then pkt.oif == db.hub.wanIface
       else
         || (db.grants[k] && !InMesh(db, pkt.daddr))
         || (RulesOf(db, k) == [] && InLan(db, k.node, pkt.daddr))
         || (exists r :: r in RulesOf(db, k) && RuleAllows(r, pkt))
  }

  ghost predicate LinkOpens(db: Db, l: LinkKey, pkt: Packet) {
    && l in db.links && Visible(db, l.src) && Visible(db, l.dst)
    && db.nodes[l.src].subnets != {}
    && InLan(db, l.dst, pkt.daddr)
    && (db.nodes[l.src].address == Some(pkt.saddr) || InLan(db, l.src, pkt.saddr))
  }

  /** What a new flow may do. */
  ghost predicate Permitted(db: Db, pkt: Packet) {
    || (exists k :: GrantOpens(db, k, pkt))
    || (exists l :: LinkOpens(db, l, pkt))
  }

  // ---------------------------------------------------------------- exactness

  function HubChain(db: Db, o: RowOrder): seq<Line>
    requires ValidOrder(db, o)
  {
    var s := SnapshotOf(db, o);
    ForwardChain(s.hub, s.nodes, s.grants, s.links)
  }

  function MeshPrefixes(db: Db, o: RowOrder): seq<Prefix>
    requires ValidOrder(db, o)
  {
    MeshOf(GetHub(db), SnapshotOf(db, o).nodes)
  }

  lemma LanCovered(db: Db, o: RowOrder, id: Id, a: Addr)
    requires SubnetOrder(db, o.subnets) && Visible(db, id)
    ensures Covers(o.subnets[id], a) <==> InLan(db, id, a)
  {
  }

  /** The mesh prefixes are the pool and the real nodes' subnets, no more and no less. */
  lemma MeshPrefixExact(db: Db, o: RowOrder, p: Prefix)
    requires ValidOrder(db, o)
    ensures p in MeshPrefixes(db, o) <==>
      p == db.hub.pool || exists id :: RealNode(db, id) && p in db.nodes[id].subnets
  {
    var nodes := SnapshotOf(db, o).nodes;
    NodeSubnetsExact(nodes, p);
    if p in NodeSubnets(nodes) {
      var n :| n in nodes && !n.isHub && p in n.subnets;
      NodesExact(db, o, n);
      var id :| Visible(db, id) && n == ToNode(db, o, id);
      SubnetsExact(db, o, id, p);
      assert RealNode(db, id);
    }
    if id :| RealNode(db, id) && p in db.nodes[id].subnets {
      SubnetsExact(db, o, id, p);
      NodesExact(db, o, ToNode(db, o, id));
    }
  }

  /** The rendered mesh set denotes exactly the addresses inside the VPN. */
  lemma MeshExact(db: Db, o: RowOrder, a: Addr)
    requires ValidOrder(db, o)
    ensures Covers(MeshPrefixes(db, o), a) <==> InMesh(db, a)
  {
    if p :| p in MeshPrefixes(db, o) && Contains(p, a) {
      MeshPrefixExact(db, o, p);
      if p != db.hub.pool {
        var id :| RealNode(db, id) && p in db.nodes[id].subnets;
        assert InLan(db, id, a);
      }
    }
    if InMesh(db, a) {
      if Contains(db.hub.pool, a) {
        MeshPrefixExact(db, o, db.hub.pool);
      } else {
        var id :| RealNode(db, id) && InLan(db, id, a);
        var p :| p in db.nodes[id].subnets && Contains(p, a);
        MeshPrefixExact(db, o, p);
      }
    }
  }

  lemma SomeRuleAllows(db: Db, o: RowOrder, k: GrantKey, pkt: Packet)
    requires RuleOrder(db, o.rules)
    ensures (exists r :: r in RulesRead(o.rules, k) && RuleAllows(r, pkt))
       <==> (exists r :: r in RulesOf(db, k) && RuleAllows(r, pkt))
    ensures RulesRead(o.rules, k) == [] <==> RulesOf(db, k) == []
  {
    forall r ensures r in RulesRead(o.rules, k) <==> r in RulesOf(db, k) {
      RulesExact(db, o, k, r);
    }
    RulesExact(db, o, k, GrantRule(EVERYTHING, Any, 0, 0));
  }

  lemma GrantExact(db: Db, o: RowOrder, k: GrantKey, pkt: Packet)
    requires ValidOrder(db, o) && LiveGrant(db, k)
    ensures GrantAllows(GetHub(db), MeshPrefixes(db, o), ToGrant(db, o, k), pkt) <==> GrantOpens(db, k, pkt)
  {
    MeshExact(db, o, pkt.daddr);
    LanCovered(db, o, k.node, pkt.daddr);
    SomeRuleAllows(db, o, k, pkt);
  }

  lemma LinkExact(db: Db, o: RowOrder, l: LinkKey, pkt: Packet)
    requires ValidOrder(db, o) && l in db.links
    ensures LinkShown(db, o, l) && LinkAllows(ToLink(db, o, l), pkt) <==> LinkOpens(db, l, pkt)
  {
    if Visible(db, l.src) && Visible(db, l.dst) {
      LanCovered(db, o, l.src, pkt.saddr);
      LanCovered(db, o, l.dst, pkt.daddr);
      SubnetsExact(db, o, l.src, EVERYTHING);
      SubnetsExact(db, o, l.dst, EVERYTHING);
    }
  }

  lemma GrantsDecide(db: Db, o: RowOrder, pkt: Packet)
    requires ValidOrder(db, o)
    ensures SomeGrantAllows(GetHub(db), MeshPrefixes(db, o), SnapshotOf(db, o).grants, pkt)
       <==> exists k :: GrantOpens(db, k, pkt)
  {
    var grants := SnapshotOf(db, o).grants;
    if g :| g in grants && GrantAllows(GetHub(db), MeshPrefixes(db, o), g, pkt) {
      GrantsExact(db, o, g);
      var k :| k in db.grants && Enabled(db, k.client) && Visible(db, k.node) && g == ToGrant(db, o, k);
      GrantExact(db, o, k, pkt);
    }
    if k :| GrantOpens(db, k, pkt) {
      GrantExact(db, o, k, pkt);
      GrantsExact(db, o, ToGrant(db, o, k));
    }
  }

  lemma LinksDecide(db: Db, o: RowOrder, pkt: Packet)
    requires ValidOrder(db, o)
    ensures (exists l :: l in SnapshotOf(db, o).links && LinkAllows(l, pkt)) <==> exists l :: LinkOpens(db, l, pkt)
  {
    var links := SnapshotOf(db, o).links;
    if x :| x in links && LinkAllows(x, pkt) {
      LinksExact(db, o, x);
      var l :| l in db.links && LinkShown(db, o, l) && x == ToLink(db, o, l);
      LinkExact(db, o, l, pkt);
    }
    if l :| LinkOpens(db, l, pkt) {
      LinkExact(db, o, l, pkt);
      LinksExact(db, o, ToLink(db, o, l));
    }
  }

  /** The compiled chain accepts a new flow exactly when the policy permits it, whatever
      order the database returned its rows in. */
  lemma AclExact(db: Db, o: RowOrder, pkt: Packet)
    requires ValidOrder(db, o) && pkt.newFlow
    ensures Evaluate(HubChain(db, o), pkt) == Accepted <==> Permitted(db, pkt)
  {
    var s := SnapshotOf(db, o);
    ForwardChainExact(s.hub, s.nodes, s.grants, s.links, pkt);
    GrantsDecide(db, o, pkt);
    LinksDecide(db, o, pkt);
  }

  // ---------------------------------------------------------------- frames

  /** The transactions that change one client's grants. */
  predicate GrantChange(op: Op) {
    op.OpSetGrant? || op.OpDeleteGrant? || op.OpSetGrantRules? || op.OpSetGrantExit?
  }

  predicate SameHosts(db: Db, other: Db) {
    db.hub == other.hub && db.nodes == other.nodes && db.clients == other.clients
  }

  lemma MeshSame(db: Db, other: Db, a: Addr)
    requires SameHosts(db, other)
    ensures InMesh(db, a) ==> InMesh(other, a)
  {
    if !Contains(db.hub.pool, a) && InMesh(db, a) {
      var id :| RealNode(db, id) && InLan(db, id, a);
      assert RealNode(other, id) && InLan(other, id, a);
    }
  }

  /** A grant opens the same packets in two states that agree on hosts and on the grant. */
  lemma GrantOpensSame(db: Db, other: Db, k: GrantKey, pkt: Packet)
    requires SameHosts(db, other)
    requires k in db.grants && k in other.grants && db.grants[k] == other.grants[k]
    requires RulesOf(db, k) == RulesOf(other, k)
    requires GrantOpens(db, k, pkt)
    ensures GrantOpens(other, k, pkt)
  {
    MeshSame(other, db, pkt.daddr);
    assert LiveGrant(other, k);
    assert InLan(db, k.node, pkt.daddr) ==> InLan(other, k.node, pkt.daddr);
  }

  lemma LinkOpensSame(db: Db, other: Db, l: LinkKey, pkt: Packet)
    requires SameHosts(db, other) && db.links == other.links && LinkOpens(db, l, pkt)
    ensures LinkOpens(other, l, pkt)
  {
  }

  lemma PermittedSame(db: Db, other: Db, pkt: Packet)
    requires SameHosts(db, other) && db.links == other.links && Permitted(db, pkt)
    requires forall k :: GrantOpens(db, k, pkt) ==>
      k in other.grants && db.grants[k] == other.grants[k] && RulesOf(db, k) == RulesOf(other, k)
    ensures Permitted(other, pkt)
  {
    if k :| GrantOpens(db, k, pkt) {
      GrantOpensSame(db, other, k, pkt);
    } else {
      var l :| LinkOpens(db, l, pkt);
      LinkOpensSame(db, other, l, pkt);
    }
  }

  lemma GrantChangeEffect(db: Db, op: Op, j: GrantKey)
    requires GrantChange(op)
    ensures SameHosts(db, Next(db, op)) && db.links == Next(db, op).links
    ensures j != op.k ==>
      var next := Next(db, op);
      && (j in db.grants <==> j in next.grants)
      && (j in db.grants ==> db.grants[j] == next.grants[j])
      && RulesOf(db, j) == RulesOf(next, j)
  {
  }

  /** Changing one client's grants leaves the verdict of every packet from any other
      source as it was. */
  lemma ClientFrame(db: Db, op: Op, pkt: Packet)
    requires GrantChange(op) && References(db)
    requires op.k.client in db.clients ==> pkt.saddr != db.clients[op.k.client].address
    ensures Permitted(Next(db, op), pkt) <==> Permitted(db, pkt)
  {
    var next := Next(db, op);
    forall j { GrantChangeEffect(db, op, j); }
    if Permitted(db, pkt) {
      PermittedSame(db, next, pkt);
    }
    if Permitted(next, pkt) {
      PermittedSame(next, db, pkt);
    }
  }

  /** Granting never takes anything away. */
  lemma GrantingOnlyAdds(db: Db, k: GrantKey, pkt: Packet)
    requires Permitted(db, pkt)
    ensures Permitted(Next(db, OpSetGrant(k)), pkt)
  {
    var op := OpSetGrant(k);
    forall j { GrantChangeEffect(db, op, j); }
    PermittedSame(db, Next(db, op), pkt);
  }

  /** The frame, said of the filters actually loaded before and after. */
  lemma ClientFrameOnVerdicts(db: Db, op: Op, before: RowOrder, after: RowOrder, pkt: Packet)
    requires GrantChange(op) && References(db) && pkt.newFlow
    requires ValidOrder(db, before) && ValidOrder(Next(db, op), after)
    requires op.k.client in db.clients ==> pkt.saddr != db.clients[op.k.client].address
    ensures Evaluate(HubChain(Next(db, op), after), pkt) == Evaluate(HubChain(db, before), pkt)
  {
    AclExact(db, before, pkt);
    AclExact(Next(db, op), after, pkt);
    ClientFrame(db, op, pkt);
  }
}

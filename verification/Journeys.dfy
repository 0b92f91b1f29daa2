/** From an administrator's or a node's request to the peer, the config and the answer it leads to:
    several operations and renderers in a row, said on the request's own values. */
module Journeys {
  import opened Basics
  import opened Net
  import opened Model
  import opened Nft
  import opened Render
  import opened Database
  import opened Snapshot
  import opened Invariant
  import opened Policy
  import opened Kernel
  import opened Apply
  import opened Service
  import opened Delivery
  import opened Enrolment
  import opened Changes

  // ---------------------------------------------------------------- joining

  predicate AnnouncedLan(subnets: seq<Cidr>, a: Addr) {
    exists c :: c in subnets && c.Masked() && Contains(c, a)
  }

  lemma AnnouncedIffInLan(db: Db, id: Id, subnets: seq<Cidr>, a: Addr)
    requires id in db.nodes && HoldsAnnounced(db.nodes[id], subnets) && Announceable(subnets)
    ensures InLan(db, id, a) <==> AnnouncedLan(subnets, a)
  {
    if InLan(db, id, a) {
      var p :| p in db.nodes[id].subnets && Contains(p, a);
      assert p in subnets;
    }
    if c :| c in subnets && c.Masked() && Contains(c, a) {
      var p: Prefix := c;
      assert p in db.nodes[id].subnets;
    }
  }

  /** A node that announces itself and is approved is reached: every address of a LAN it announced,
      and its own, is sent to the key it announced, and accepted from it. */
  lemma EnrolledNodeIsReached(
    db: Db, id: Id, name: string, lanIface: string, publicKey: string, subnets: seq<Cidr>, token: string,
    o: RowOrder, a: Addr)
    requires Inv(db) && Legal(db, OpEnroll(None, id, name, lanIface, publicKey, subnets, token))
    requires EnrollNew(db, id, name, lanIface, publicKey, subnets, token).Some?
    requires AllocateIP(EnrollNew(db, id, name, lanIface, publicKey, subnets, token).value).Some?
    ensures var enrolled := EnrollNew(db, id, name, lanIface, publicKey, subnets, token).value;
      && ApproveNode(enrolled, id).Some?
      && var next := ApproveNode(enrolled, id).value;
      && RealNode(next, id)
      && (LansApart(next) && ValidOrder(next, o) ==>
           && OwnedBy(Table(next, o), next.nodes[id].address.value, publicKey)
           && (AnnouncedLan(subnets, a) ==> OwnedBy(Table(next, o), a, publicKey)))
  {
    var enrolled := EnrollNew(db, id, name, lanIface, publicKey, subnets, token).value;
    FirstAnnouncementDoes(db, id, name, lanIface, publicKey, subnets, token);
    StepPreserves(db, OpEnroll(None, id, name, lanIface, publicKey, subnets, token));
    ApprovalDoes(enrolled, id);
    StepPreserves(enrolled, OpApproveNode(id));
    var next := ApproveNode(enrolled, id).value;
    AnnouncedIffInLan(next, id, subnets, a);
    if LansApart(next) && ValidOrder(next, o) {
      NodeOwner(next, o, id);
      if AnnouncedLan(subnets, a) {
        LanOwner(next, o, id, a);
      }
    }
  }

  /** A node the administrator makes is reached at once. */
  lemma CreatedNodeIsReached(
    db: Db, id: Id, name: string, lanIface: string, subnets: seq<Cidr>, publicKey: string, o: RowOrder, a: Addr)
    requires Inv(db) && Legal(db, OpCreateNode(id, name, lanIface, subnets, publicKey))
    requires CreateNode(db, id, name, lanIface, subnets, publicKey).Some?
    ensures var next := CreateNode(db, id, name, lanIface, subnets, publicKey).value;
      && RealNode(next, id)
      && (LansApart(next) && ValidOrder(next, o) ==>
           && OwnedBy(Table(next, o), next.nodes[id].address.value, publicKey)
           && (AnnouncedLan(subnets, a) ==> OwnedBy(Table(next, o), a, publicKey)))
  {
    CreateNodeDoes(db, id, name, lanIface, subnets, publicKey);
    StepPreserves(db, OpCreateNode(id, name, lanIface, subnets, publicKey));
    var next := CreateNode(db, id, name, lanIface, subnets, publicKey).value;
    AnnouncedIffInLan(next, id, subnets, a);
    if LansApart(next) && ValidOrder(next, o) {
      NodeOwner(next, o, id);
      if AnnouncedLan(subnets, a) {
        LanOwner(next, o, id, a);
      }
    }
  }

  /** A later announcement with subnets moves an active node's LANs: the announced addresses are the
      node's from then on, and no others are. */
  lemma ReannouncedNodeIsReached(
    db: Db, id: Id, lanIface: string, publicKey: string, subnets: seq<Cidr>, token: string, o: RowOrder, a: Addr)
    requires Inv(db) && RealNode(db, id) && Legal(db, OpEnroll(Some(id), id, "", lanIface, publicKey, subnets, token))
    requires EnrollExisting(db, id, lanIface, subnets, token).Some? && subnets != []
    ensures var next := EnrollExisting(db, id, lanIface, subnets, token).value;
      && RealNode(next, id) && (InLan(next, id, a) <==> AnnouncedLan(subnets, a))
      && (LansApart(next) && ValidOrder(next, o) && AnnouncedLan(subnets, a) ==> OwnedBy(Table(next, o), a, publicKey))
  {
    ReannouncementDoes(db, id, lanIface, subnets, token);
    StepPreserves(db, OpEnroll(Some(id), id, "", lanIface, publicKey, subnets, token));
    var next := EnrollExisting(db, id, lanIface, subnets, token).value;
    AnnouncedIffInLan(next, id, subnets, a);
    if LansApart(next) && ValidOrder(next, o) && AnnouncedLan(subnets, a) {
      LanOwner(next, o, id, a);
    }
  }

  lemma NewClientHasNoRules(db: Db, id: Id, node: Id)
    requires Inv(db) && id !in db.clients
    ensures GrantKey(id, node) !in db.grants && GrantKey(id, node) !in db.rules
  {
  }

  /** A new client is served at once: its address belongs to its key, and a grant on a real node
      without rules opens that node's LANs to it. */
  lemma CreatedClientIsServed(db: Db, id: Id, name: string, publicKey: string, node: Id, o: RowOrder, pkt: Packet)
    requires Inv(db) && CreateClient(db, id, name, publicKey).Some? && RealNode(db, node)
    requires SetGrant(CreateClient(db, id, name, publicKey).value, GrantKey(id, node)).Some?
    requires var next := SetGrant(CreateClient(db, id, name, publicKey).value, GrantKey(id, node)).value;
      LansApart(next) && ValidOrder(next, o)
    requires pkt.newFlow && AllocateIP(db) == Some(pkt.saddr) && InLan(db, node, pkt.daddr)
    ensures var next := SetGrant(CreateClient(db, id, name, publicKey).value, GrantKey(id, node)).value;
      && OwnedBy(Table(next, o), pkt.saddr, publicKey)
      && Evaluate(HubChain(next, o), pkt) == Accepted
  {
    var created := CreateClient(db, id, name, publicKey).value;
    CreateClientDoes(db, id, name, publicKey);
    StepPreserves(db, OpCreateClient(id, name, publicKey));
    GrantDoes(created, GrantKey(id, node));
    StepPreserves(created, OpSetGrant(GrantKey(id, node)));
    var next := SetGrant(created, GrantKey(id, node)).value;
    ClientOwner(next, o, id);
    NewClientHasNoRules(db, id, node);
    assert RulesOf(next, GrantKey(id, node)) == [];
    assert InLan(next, node, pkt.daddr);
    assert GrantOpens(next, GrantKey(id, node), pkt);
    AclExact(next, o, pkt);
  }

  // ---------------------------------------------------------------- leaving

  /** Nothing passes to, from, or by way of the node. */
  ghost predicate IsCut(db: Db, id: Id) {
    && (forall k: GrantKey, pkt: Packet :: k.node == id ==> !GrantOpens(db, k, pkt))
    && (forall l: LinkKey, pkt: Packet :: l.src == id || l.dst == id ==> !LinkOpens(db, l, pkt))
    && (forall d: string :: (id, d) !in ServedDomains(db))
    && !RealNode(db, id)
  }

  /** Rejecting a node cuts it: no grant and no link on it opens anything, its LANs and domains are
      gone from what is rendered, and announcing itself again changes none of that. */
  lemma RejectedNodeIsCut(db: Db, id: Id, lanIface: string, subnets: seq<Cidr>, token: string)
    requires id in db.nodes
    ensures IsCut(RejectNode(db, id).value, id)
    ensures var again := EnrollExisting(RejectNode(db, id).value, id, lanIface, subnets, token);
      again.Some? ==> IsCut(again.value, id) && again.value.nodes[id].status == Pending
  {
    RejectionDoes(db, id);
    ReannouncementDoes(RejectNode(db, id).value, id, lanIface, subnets, token);
  }

  /** And none of its addresses is in the table, as far as no other row brings them in. */
  lemma RejectedNodeIsNotListed(db: Db, id: Id, o: RowOrder, e: Entry)
    requires Inv(db) && id in db.nodes && db.nodes[id].publicKey != "" && ValidOrder(RejectNode(db, id).value, o)
    requires forall c :: c in db.clients ==> db.clients[c].publicKey != db.nodes[id].publicKey
    ensures e in Table(RejectNode(db, id).value, o) ==> e.key != db.nodes[id].publicKey
  {
    var next := RejectNode(db, id).value;
    StepPreserves(db, OpRejectNode(id));
    if e in Table(next, o) {
      TableExact(next, o, e);
      if i :| RealNode(next, i) && NodeOwns(next, i, e) {
        assert i != id && next.nodes[i].publicKey == db.nodes[i].publicKey;
      }
    }
  }

  // ---------------------------------------------------------------- the polled config

  /** A link joins the two nodes, whichever end either is. */
  predicate Linked(db: Db, id: Id, other: Id) {
    LinkKey(id, other) in db.links || LinkKey(other, id) in db.links
  }

  lemma ReachIffLinked(db: Db, id: Id, p: Prefix)
    ensures p in Reach(db, id) <==> exists j :: j in db.nodes && Linked(db, id, j) && p in db.nodes[j].subnets
  {
    if p in ReachSet(db, id) {
      var l :| l in db.links && l.src == id && l.dst in db.nodes && p in db.nodes[l.dst].subnets;
      assert l == LinkKey(id, l.dst) && Linked(db, id, l.dst);
    } else if p in ReachBackSet(db, id) {
      var l :| l in db.links && l.dst == id && l.src in db.nodes && p in db.nodes[l.src].subnets;
      assert l == LinkKey(l.src, id) && Linked(db, id, l.src);
    }
    if j :| j in db.nodes && Linked(db, id, j) && p in db.nodes[j].subnets {
      if LinkKey(id, j) in db.links {
        assert p in ReachSet(db, id);
      } else {
        assert p in ReachBackSet(db, id);
      }
    }
  }

  /** What a polled config says: the row it is for, that row's own subnets and no others, and a list
      of linked subnets whose rendering covers exactly the pool and the LANs of the linked nodes. */
  lemma PolledConfigIsExact(
    lookup: Db, row: Db, links: Db, id: Id, p: Prefix, reach: seq<Prefix>, a: Addr)
    requires id in lookup.nodes
    requires PollAcross(lookup, row, links, Some(id), true).Config?
    requires Lists(reach, PollAcross(lookup, row, links, Some(id), true).reach)
    ensures var r := PollAcross(lookup, row, links, Some(id), true);
      && r.id == id && id in row.nodes && row.nodes[id].address == Some(r.address)
      && (p in r.subnets <==> p in row.nodes[id].subnets)
      && (Covers(NodeConfig(links, reach), a) <==>
            Contains(links.hub.pool, a) || exists j :: j in links.nodes && Linked(links, id, j) && InLan(links, j, a))
  {
    AddNewExact(PoolOnly(GetHub(links)), reach);
    assert forall q :: q in PoolOnly(GetHub(links)) <==> q == links.hub.pool;
    if q :| q in reach && Contains(q, a) {
      ListedIff(reach, Reach(links, id), q);
      ReachIffLinked(links, id, q);
    }
    if j :| j in links.nodes && Linked(links, id, j) && InLan(links, j, a) {
      var q :| q in links.nodes[j].subnets && Contains(q, a);
      ReachIffLinked(links, id, q);
      ListedIff(reach, Reach(links, id), q);
    }
  }

  lemma PolledReach(db: Db, id: Id, reach: seq<Prefix>)
    requires id in db.nodes && Poll(db, Some(id), true).Config? && Lists(reach, Poll(db, Some(id), true).reach)
    ensures ReachRows(db, id, reach)
  {
  }

  /** Site to site with the configs the two nodes polled: over a link between two active nodes the
      source's config sends the packet into its tunnel, the hub takes it from the source, accepts it,
      and hands it to the destination, whose config takes it; and the reply the same way back. */
  lemma PolledLinkDelivery(
    db: Db, o: RowOrder, peers: seq<Peer>, chain: seq<Nft.Line>, s: KState, iface: string,
    l: LinkKey, srcReach: seq<Prefix>, dstReach: seq<Prefix>, pkt: Packet)
    requires Inv(db) && LansApart(db) && Running(db, o, peers, chain, s, iface)
    requires pkt.newFlow && LinkOpens(db, l, pkt)
    requires forall p :: p in db.nodes[l.src].subnets + db.nodes[l.dst].subnets ==> NoForeignRouteInside(s, p, iface)
    requires NoForeignRouteInside(s, db.hub.pool, iface)
    requires Poll(db, Some(l.src), true).Config? ==> Lists(srcReach, Poll(db, Some(l.src), true).reach)
    requires Poll(db, Some(l.dst), true).Config? ==> Lists(dstReach, Poll(db, Some(l.dst), true).reach)
    ensures Poll(db, Some(l.src), true).Config? && Poll(db, Some(l.dst), true).Config?
    ensures Covers(NodeConfig(db, srcReach), pkt.daddr) && Covers(NodeConfig(db, dstReach), pkt.saddr)
    ensures OwnedBy(Entries(peers), pkt.saddr, db.nodes[l.src].publicKey) && Evaluate(chain, pkt) == Accepted
    ensures OwnedBy(Entries(peers), pkt.daddr, db.nodes[l.dst].publicKey)
    ensures MainSends(s, pkt.daddr, iface) && MainSends(s, pkt.saddr, iface)
    ensures forall reply: Packet :: !reply.newFlow ==> Evaluate(chain, reply) == Accepted
  {
    PolledReach(db, l.src, srcReach);
    PolledReach(db, l.dst, dstReach);
    LinkDelivery(db, o, peers, chain, s, iface, l, srcReach, dstReach, pkt);
  }
}

/** What a reconcile puts in force as a function of the answers it read, and when two databases
    cannot be told apart by any statement it runs (internal/service/service.go). */
module Rendering {
  import opened Basics
  import opened Net
  import opened Model
  import opened Database
  import opened Snapshot
  import opened Queries
  import opened Policy
  import opened Nft
  import opened Render
  import opened ExitPlan
  import opened Kernel
  import opened Service

  // ---------------------------------------------------------------- what a reconcile applies

  /** Everything a pass puts in force: the hub's address and pool, the cryptokey table, the forward
      chain, the exit routes, the mesh, and the map the resolver is given. */
  datatype Artefacts = Artefacts(
    hub: Hub, peers: seq<Peer>, chain: seq<Line>, routes: seq<ExitRoute>, mesh: seq<Prefix>, domains: map<string, string>)

  function ArtefactsOf(s: Snap, domains: map<string, string>): Artefacts {
    Artefacts(s.hub, HubPeers(s.nodes, s.clients), ForwardChain(s.hub, s.nodes, s.grants, s.links),
              ExitRoutesOf(s.grants), MeshOf(s.hub, s.nodes), domains)
  }

  /** The rendering of what was read, statement by statement. */
  function RenderReads(r: Reads): Artefacts
    requires Complete(r)
  {
    ArtefactsOf(Assembled(r), RouteMap(r.domains.value))
  }

  /** The rendering of one database. */
  function Rendered(db: Db, o: RowOrder): Artefacts
    requires ValidOrder(db, o)
  {
    ArtefactsOf(SnapshotOf(db, o), RouteMap(DomainAnswer(db, o)))
  }

  // ---------------------------------------------------------------- what the statements can see

  /** What the hub's artefacts use of a node row. */
  datatype NodeFact = NodeFact(address: Addr, publicKey: string, isHub: bool, subnets: set<Prefix>)
  datatype ClientFact = ClientFact(address: Addr, publicKey: string)

  /** Everything about a database that some statement's answer depends on. */
  datatype Facts = Facts(
    hub: HubRow,
    nodes: map<Id, NodeFact>,
    clients: map<Id, ClientFact>,
    rules: map<GrantKey, seq<GrantRule>>,
    grants: map<GrantKey, bool>,
    links: set<LinkKey>,
    domains: map<(Id, string), string>)

  function FactOf(n: NodeRow): NodeFact
    requires n.address.Some?
  {
    NodeFact(n.address.value, n.publicKey, n.isHub, n.subnets)
  }

  function NodeFacts(db: Db): map<Id, NodeFact> {
    map id | id in db.nodes && Visible(db, id) :: FactOf(db.nodes[id])
  }

  function ClientFacts(db: Db): map<Id, ClientFact> {
    map id | id in db.clients && db.clients[id].enabled :: ClientFact(db.clients[id].address, db.clients[id].publicKey)
  }

  function GrantFacts(db: Db): map<GrantKey, bool> {
    map k | k in db.grants && Enabled(db, k.client) :: db.grants[k]
  }

  function DomainFacts(db: Db): map<(Id, string), string> {
    map x | x in ServedDomains(db) && x.0 in db.nodes :: db.nodes[x.0].dns
  }

  function FactsOf(db: Db): Facts {
    Facts(db.hub, NodeFacts(db), ClientFacts(db), db.rules, GrantFacts(db), db.links, DomainFacts(db))
  }

  /** No statement can tell the two databases apart by what the artefacts use of its answer. A
      node's DNS server counts for the domains the node serves; the NAT table is not an artefact
      here. */
  predicate SameAnswers(a: Db, b: Db) {
    FactsOf(a) == FactsOf(b)
  }

  lemma VisibleAlike(a: Db, b: Db, id: Id)
    requires SameAnswers(a, b)
    ensures Visible(a, id) <==> Visible(b, id)
    ensures Visible(a, id) ==> FactOf(a.nodes[id]) == FactOf(b.nodes[id])
  {
    var x, y := NodeFacts(a), NodeFacts(b);
    assert id in x <==> Visible(a, id);
    assert id in y <==> Visible(b, id);
    if id in x {
      assert x[id] == FactOf(a.nodes[id]) && y[id] == FactOf(b.nodes[id]);
    }
  }

  lemma EnabledAlike(a: Db, b: Db, id: Id)
    requires SameAnswers(a, b)
    ensures Enabled(a, id) <==> Enabled(b, id)
    ensures Enabled(a, id) ==> ToClient(a, id) == ToClient(b, id)
  {
    var x, y := ClientFacts(a), ClientFacts(b);
    assert id in x <==> Enabled(a, id);
    assert id in y <==> Enabled(b, id);
    if id in x {
      assert x[id] == y[id];
    }
  }

  lemma GrantRowAlike(a: Db, b: Db, k: GrantKey)
    requires SameAnswers(a, b)
    ensures k in EnabledGrants(a) <==> k in EnabledGrants(b)
    ensures k in EnabledGrants(a) ==> a.grants[k] == b.grants[k]
  {
    var x, y := GrantFacts(a), GrantFacts(b);
    assert k in x <==> k in EnabledGrants(a);
    assert k in y <==> k in EnabledGrants(b);
    if k in x {
      assert x[k] == y[k];
    }
  }

  lemma DomainAlike(a: Db, b: Db, x: (Id, string))
    requires SameAnswers(a, b)
    ensures x in ServedDomains(a) <==> x in ServedDomains(b)
    ensures x in ServedDomains(a) ==> a.nodes[x.0].dns == b.nodes[x.0].dns
  {
    var p, q := DomainFacts(a), DomainFacts(b);
    assert x in p <==> x in ServedDomains(a);
    assert x in q <==> x in ServedDomains(b);
    if x in p {
      assert p[x] == q[x];
    }
  }

  lemma OrdersAlike(a: Db, b: Db, o: RowOrder)
    requires SameAnswers(a, b) && ValidOrder(a, o)
    ensures ValidOrder(b, o)
  {
    assert VisibleNodes(a) == VisibleNodes(b) by {
      forall id ensures id in VisibleNodes(a) <==> id in VisibleNodes(b) {
        VisibleAlike(a, b, id);
      }
    }
    assert EnabledClients(a) == EnabledClients(b) by {
      forall id ensures id in EnabledClients(a) <==> id in EnabledClients(b) {
        EnabledAlike(a, b, id);
      }
    }
    assert EnabledGrants(a) == EnabledGrants(b) by {
      forall k ensures k in EnabledGrants(a) <==> k in EnabledGrants(b) {
        GrantRowAlike(a, b, k);
      }
    }
    assert ServedDomains(a) == ServedDomains(b) by {
      forall x ensures x in ServedDomains(a) <==> x in ServedDomains(b) {
        DomainAlike(a, b, x);
      }
    }
    forall id | id in b.nodes && Visible(b, id) ensures id in o.subnets && Lists(o.subnets[id], b.nodes[id].subnets) {
      VisibleAlike(a, b, id);
    }
  }

  lemma NodeRowsAlike(a: Db, b: Db, o: RowOrder)
    requires SameAnswers(a, b) && ValidOrder(a, o) && ValidOrder(b, o)
    ensures NodeAnswer(a, o) == NodeAnswer(b, o)
  {
    RowsExist(a, o);
    RowsExist(b, o);
    forall i | 0 <= i < |o.nodes| ensures NodeAnswer(a, o)[i] == NodeAnswer(b, o)[i] {
      assert o.nodes[i] in o.nodes;
      VisibleAlike(a, b, o.nodes[i]);
    }
  }

  lemma ClientRowsAlike(a: Db, b: Db, o: RowOrder)
    requires SameAnswers(a, b) && ValidOrder(a, o) && ValidOrder(b, o)
    ensures ClientAnswer(a, o) == ClientAnswer(b, o)
  {
    forall i | 0 <= i < |o.clients| ensures ClientAnswer(a, o)[i] == ClientAnswer(b, o)[i] {
      ListedIff(o.clients, EnabledClients(a), o.clients[i]);
      EnabledAlike(a, b, o.clients[i]);
    }
  }

  lemma GrantRowsAlike(a: Db, b: Db, o: RowOrder)
    requires SameAnswers(a, b) && ValidOrder(a, o) && ValidOrder(b, o)
    ensures GrantAnswer(a, o) == GrantAnswer(b, o)
  {
    forall i | 0 <= i < |o.grants| ensures GrantAnswer(a, o)[i] == GrantAnswer(b, o)[i] {
      ListedIff(o.grants, EnabledGrants(a), o.grants[i]);
      GrantRowAlike(a, b, o.grants[i]);
    }
  }

  lemma DomainRowsAlike(a: Db, b: Db, o: RowOrder)
    requires SameAnswers(a, b) && ValidOrder(a, o) && ValidOrder(b, o)
    ensures DomainAnswer(a, o) == DomainAnswer(b, o)
  {
    forall i | 0 <= i < |o.domains| ensures DomainAnswer(a, o)[i] == DomainAnswer(b, o)[i] {
      ListedIff(o.domains, ServedDomains(a), o.domains[i]);
      DomainAlike(a, b, o.domains[i]);
    }
  }

  /** The statements then return the same rows, in the same order. */
  lemma AskAlike(a: Db, b: Db, o: RowOrder, r: Reads, q: Query)
    requires SameAnswers(a, b) && ValidOrder(a, o)
    ensures ValidOrder(b, o) && Ask(r, q, a, o) == Ask(r, q, b, o)
  {
    OrdersAlike(a, b, o);
    match q
    case NodesQuery => NodeRowsAlike(a, b, o);
    case ClientsQuery => ClientRowsAlike(a, b, o);
    case GrantsQuery => GrantRowsAlike(a, b, o);
    case DomainsQuery => DomainRowsAlike(a, b, o);
    case _ =>
  }

  /** What no statement can tell apart is rendered alike. */
  lemma RenderedAlike(a: Db, b: Db, o: RowOrder)
    requires SameAnswers(a, b) && ValidOrder(a, o)
    ensures ValidOrder(b, o) && Rendered(a, o) == Rendered(b, o)
  {
    OrdersAlike(a, b, o);
    AskAlike(a, b, o, NOTHING_READ, NodesQuery);
    AskAlike(a, b, o, NOTHING_READ, ClientsQuery);
    AskAlike(a, b, o, NOTHING_READ, GrantsQuery);
    AskAlike(a, b, o, NOTHING_READ, DomainsQuery);
    assert AskAll(a, o) == AskAll(b, o);
    AssembledIsSnapshot(a, o);
    AssembledIsSnapshot(b, o);
  }

  // ---------------------------------------------------------------- answers determine the policy

  lemma MeshAlike(a: Db, b: Db, x: Addr)
    requires SameAnswers(a, b) && InMesh(a, x)
    ensures InMesh(b, x)
  {
    if !Contains(a.hub.pool, x) {
      var id :| RealNode(a, id) && InLan(a, id, x);
      VisibleAlike(a, b, id);
      assert RealNode(b, id) && InLan(b, id, x);
    }
  }

  lemma GrantAlike(a: Db, b: Db, k: GrantKey, pkt: Packet)
    requires SameAnswers(a, b) && GrantOpens(a, k, pkt)
    ensures GrantOpens(b, k, pkt)
  {
    GrantRowAlike(a, b, k);
    EnabledAlike(a, b, k.client);
    assert k in EnabledGrants(a);
    VisibleAlike(a, b, k.node);
    if InMesh(b, pkt.daddr) {
      MeshAlike(b, a, pkt.daddr);
    }
    assert LiveGrant(b, k);
    assert InLan(a, k.node, pkt.daddr) ==> InLan(b, k.node, pkt.daddr);
    assert RulesOf(a, k) == RulesOf(b, k);
  }

  /** Two databases that answer alike enforce the same policy, so consistency of answers is
      consistency of behaviour. */
  lemma AnswersDecidePolicy(a: Db, b: Db, pkt: Packet)
    requires SameAnswers(a, b) && Permitted(a, pkt)
    ensures Permitted(b, pkt)
  {
    forall id ensures Visible(a, id) <==> Visible(b, id) {
      VisibleAlike(a, b, id);
    }
    if k :| GrantOpens(a, k, pkt) {
      GrantAlike(a, b, k, pkt);
    } else {
      var l :| LinkOpens(a, l, pkt);
      VisibleAlike(a, b, l.src);
      VisibleAlike(a, b, l.dst);
      assert InLan(b, l.dst, pkt.daddr);
      assert LinkOpens(b, l, pkt);
    }
  }

  // ---------------------------------------------------------------- artefacts determine the kernel

  /** What a kernel must look like is decided by the artefacts, not by the rows behind them. */
  lemma ArtefactsDecideKernel(a: Snap, x: map<string, string>, b: Snap, y: map<string, string>, s: KState, iface: string)
    requires ArtefactsOf(a, x) == ArtefactsOf(b, y) && KernelInForce(a, s, iface)
    ensures KernelInForce(b, s, iface)
  {
    var m := MeshOf(a.hub, a.nodes);
    var n := if a.hub.pool.Some? then |m| - 1 else |m|;
    assert NodeSubnets(a.nodes) == m[..n] == NodeSubnets(b.nodes);
  }
}

/** End to end: what happens to a packet once the configuration rendered from the database
    is in force. Here the filter, the cryptokey table, the routing rules and the peers' own
    AllowedIPs, each built by its own renderer, must agree. */
module Delivery {
  import opened Basics
  import opened Net
  import opened Model
  import opened Nft
  import opened Render
  import opened Database
  import opened Snapshot
  import opened Invariant
  import opened Policy
  import opened ExitPlan
  import opened Kernel
  import opened Apply
  import opened Service

  /** The premise on the administrator: the LANs of different real nodes do not overlap
      each other or the pool. */
  ghost predicate LansApart(db: Db) {
    && (forall i, j, a: Addr :: RealNode(db, i) && RealNode(db, j) && i != j && InLan(db, i, a) ==> !InLan(db, j, a))
    && (forall i, a: Addr :: RealNode(db, i) && InLan(db, i, a) ==> !Contains(db.hub.pool, a))
  }

  function Table(db: Db, o: RowOrder): seq<Entry>
    requires ValidOrder(db, o)
  {
    var s := SnapshotOf(db, o);
    Entries(HubPeers(s.nodes, s.clients))
  }

  /** The peer the hub sends an address to, and the only peer it accepts it from. */
  predicate OwnedBy(table: seq<Entry>, a: Addr, key: string) {
    Lookup(table, a).Some? && Lookup(table, a).value.key == key
  }

  // ---------------------------------------------------------------- the cryptokey table

  /** A node owns its tunnel address and its LANs. */
  predicate NodeOwns(db: Db, id: Id, e: Entry)
    requires RealNode(db, id)
  {
    db.nodes[id].publicKey == e.key && (e.prefix == Single(db.nodes[id].address.value) || e.prefix in db.nodes[id].subnets)
  }

  lemma TableExact(db: Db, o: RowOrder, e: Entry)
    requires ValidOrder(db, o)
    ensures e in Table(db, o) <==>
      || (exists id :: RealNode(db, id) && NodeOwns(db, id, e))
      || (exists id :: Enabled(db, id) && db.clients[id].publicKey == e.key && e.prefix == Single(db.clients[id].address))
  {
    var s := SnapshotOf(db, o);
    HubTableExact(s.nodes, s.clients, e);
    if n :| n in s.nodes && !n.isHub && n.publicKey == e.key && (e.prefix == Single(n.address) || e.prefix in n.subnets) {
      NodesExact(db, o, n);
      var id :| Visible(db, id) && n == ToNode(db, o, id);
      SubnetsExact(db, o, id, e.prefix);
      assert RealNode(db, id);
    }
    if c :| c in s.clients && c.publicKey == e.key && e.prefix == Single(c.address) {
      ClientsExact(db, o, c);
    }
    if id :| RealNode(db, id) && NodeOwns(db, id, e) {
      SubnetsExact(db, o, id, e.prefix);
      NodesExact(db, o, ToNode(db, o, id));
    }
    if id :| Enabled(db, id) && db.clients[id].publicKey == e.key && e.prefix == Single(db.clients[id].address) {
      ClientsExact(db, o, ToClient(db, id));
    }
  }

  lemma TunnelAddressesInPool(db: Db)
    requires Inv(db)
    ensures forall id :: RealNode(db, id) ==> Contains(db.hub.pool, db.nodes[id].address.value)
    ensures forall id :: id in db.clients ==> Contains(db.hub.pool, db.clients[id].address)
  {
    forall id | id in db.clients ensures Contains(db.hub.pool, db.clients[id].address) {
      assert Usable(db.hub, db.clients[id].address);
    }
    forall id | RealNode(db, id) ensures Contains(db.hub.pool, db.nodes[id].address.value) {
      assert NodePlaced(db.hub, db.nodes[id]);
    }
  }

  /** A LAN address belongs to its node's peer. */
  lemma LanOwner(db: Db, o: RowOrder, id: Id, a: Addr)
    requires Inv(db) && LansApart(db) && ValidOrder(db, o) && RealNode(db, id) && InLan(db, id, a)
    ensures OwnedBy(Table(db, o), a, db.nodes[id].publicKey)
  {
    var table, key := Table(db, o), db.nodes[id].publicKey;
    TunnelAddressesInPool(db);
    var p :| p in db.nodes[id].subnets && Contains(p, a);
    TableExact(db, o, Entry(p, key));
    forall e | e in table && Contains(e.prefix, a) ensures e.key == key {
      TableExact(db, o, e);
      if i :| RealNode(db, i) && NodeOwns(db, i, e) {
        assert e.prefix in db.nodes[i].subnets ==> InLan(db, i, a);
      }
    }
    LookupOwner(table, a, key);
  }

  /** No entry but the node's own covers its tunnel address. */
  lemma NodeEntry(db: Db, o: RowOrder, id: Id, e: Entry)
    requires Inv(db) && LansApart(db) && ValidOrder(db, o) && RealNode(db, id)
    requires e in Table(db, o) && Contains(e.prefix, db.nodes[id].address.value)
    ensures e.key == db.nodes[id].publicKey
  {
    var a := db.nodes[id].address.value;
    TunnelAddressesInPool(db);
    TableExact(db, o, e);
    if i :| RealNode(db, i) && NodeOwns(db, i, e) {
      assert e.prefix in db.nodes[i].subnets ==> InLan(db, i, a);
    }
  }

  /** A node's tunnel address belongs to that node's peer. */
  lemma NodeOwner(db: Db, o: RowOrder, id: Id)
    requires Inv(db) && LansApart(db) && ValidOrder(db, o) && RealNode(db, id)
    ensures OwnedBy(Table(db, o), db.nodes[id].address.value, db.nodes[id].publicKey)
  {
    var table, key, a := Table(db, o), db.nodes[id].publicKey, db.nodes[id].address.value;
    TableExact(db, o, Entry(Single(a), key));
    assert NodeOwns(db, id, Entry(Single(a), key));
    assert Contains(Single(a), a);
    forall e | e in table && Contains(e.prefix, a) ensures e.key == key {
      NodeEntry(db, o, id, e);
    }
    LookupOwner(table, a, key);
  }

  /** A client's address belongs to that client's peer. */
  lemma ClientOwner(db: Db, o: RowOrder, id: Id)
    requires Inv(db) && LansApart(db) && ValidOrder(db, o) && Enabled(db, id)
    ensures OwnedBy(Table(db, o), db.clients[id].address, db.clients[id].publicKey)
  {
    var table, key, a := Table(db, o), db.clients[id].publicKey, db.clients[id].address;
    TunnelAddressesInPool(db);
    TableExact(db, o, Entry(Single(a), key));
    assert Contains(Single(a), a);
    forall e | e in table && Contains(e.prefix, a) ensures e.key == key {
      TableExact(db, o, e);
      if i :| RealNode(db, i) && NodeOwns(db, i, e) {
        assert e.prefix in db.nodes[i].subnets ==> InLan(db, i, a);
      }
    }
    LookupOwner(table, a, key);
  }

  // ---------------------------------------------------------------- routing on the hub

  lemma {:induction false} WalkMesh(s: KState, mesh: seq<Prefix>, saddr: Addr, daddr: Addr)
    ensures WalkRules(s, MeshRules(mesh), saddr, daddr) == if Covers(mesh, daddr) then Some(MainTable) else None
  {
    if mesh != [] {
      WalkMesh(s, mesh[1..], saddr, daddr);
      assert MeshRules(mesh)[1..] == MeshRules(mesh[1..]);
      assert mesh == [mesh[0]] + mesh[1..];
    }
  }

  /** With one table for a source, the walk ends in that table's device; with none, nowhere. */
  lemma {:induction false} WalkSource(s: KState, rules: seq<ExitRule>, saddr: Addr, daddr: Addr, table: string, dev: string)
    requires forall r :: r in rules && r.client == saddr ==> r.table == table
    requires table != "main" && DefaultVia(s, table, dev)
    ensures WalkRules(s, SourceRules(rules), saddr, daddr)
         == if exists r :: r in rules && r.client == saddr then Some(Through(dev)) else None
  {
    if rules != [] {
      WalkSource(s, rules[1..], saddr, daddr, table, dev);
      assert SourceRules(rules)[1..] == SourceRules(rules[1..]);
      assert rules == [rules[0]] + rules[1..];
    }
  }

  lemma {:induction false} WalkNoSource(s: KState, rules: seq<ExitRule>, saddr: Addr, daddr: Addr)
    requires forall r :: r in rules ==> r.client != saddr
    ensures WalkRules(s, SourceRules(rules), saddr, daddr) == None
  {
    if rules != [] {
      WalkNoSource(s, rules[1..], saddr, daddr);
      assert SourceRules(rules)[1..] == SourceRules(rules[1..]);
    }
  }

  /** The configuration of the whole hub, as left by a successful Reconcile. */
  ghost predicate Running(db: Db, o: RowOrder, peers: seq<Peer>, chain: seq<Line>, s: KState, iface: string) {
    ValidOrder(db, o) && InForce(SnapshotOf(db, o), peers, chain, s, iface)
  }

  function Routes(db: Db, o: RowOrder): seq<ExitRoute>
    requires ValidOrder(db, o)
  {
    ExitRoutesOf(SnapshotOf(db, o).grants)
  }

  predicate ExitGrant(db: Db, k: GrantKey) {
    LiveGrant(db, k) && db.grants[k] && !db.nodes[k.node].isHub
  }

  function RouteOf(db: Db, k: GrantKey): ExitRoute
    requires ExitGrant(db, k)
  {
    ExitRoute(db.clients[k.client].address, db.nodes[k.node].address.value)
  }

  /** Routes are the live exit grants: client address to node address. */
  lemma RoutesExact(db: Db, o: RowOrder, r: ExitRoute)
    requires ValidOrder(db, o)
    ensures r in Routes(db, o) <==> exists k :: ExitGrant(db, k) && r == RouteOf(db, k)
  {
    var grants := SnapshotOf(db, o).grants;
    ExitRoutesExact(grants, r);
    if g :| g in grants && g.nodeExit && r == ExitRoute(g.clientAddr, g.nodeAddr) {
      GrantsExact(db, o, g);
      var k :| k in db.grants && Enabled(db, k.client) && Visible(db, k.node) && g == ToGrant(db, o, k);
      assert ExitGrant(db, k);
    }
    if k :| ExitGrant(db, k) && r == RouteOf(db, k) {
      GrantsExact(db, o, ToGrant(db, o, k));
    }
  }

  /** One client, one exit: two routes from the same source are the same route. */
  lemma OneRoutePerClient(db: Db, o: RowOrder, r: ExitRoute, q: ExitRoute)
    requires Inv(db) && ValidOrder(db, o) && r in Routes(db, o) && q in Routes(db, o) && r.client == q.client
    ensures r == q
  {
    RoutesExact(db, o, r);
    RoutesExact(db, o, q);
    var j :| ExitGrant(db, j) && r == RouteOf(db, j);
    var k :| ExitGrant(db, k) && q == RouteOf(db, k);
    assert j.client == k.client;
    assert j == k;
  }

  lemma LastIsDigit(n: nat)
    ensures Itoa(n)[|Itoa(n)| - 1] in "0123456789"
  {
  }

  lemma TablesAreNumbers(node: Addr)
    ensures ExitTableFor(node) != "main"
  {
    var t := ExitTableFor(node);
    if t == "main" {
      LastIsDigit(EXIT_TABLE_BASE + ExitIndex(node));
    }
  }

  lemma ExitLineFires(mesh: seq<Prefix>, g: Grant, pkt: Packet)
    requires pkt.saddr == g.clientAddr
    ensures Fires(ExitLine(mesh, g), pkt) <==> !Covers(mesh, pkt.daddr)
  {
  }

  /** The exit rules of a client's address all name its own exit node's table, which leads to
      that node's device. */
  lemma OwnRules(db: Db, o: RowOrder, peers: seq<Peer>, chain: seq<Line>, s: KState, iface: string, k: GrantKey)
    requires Inv(db) && Running(db, o, peers, chain, s, iface) && ExitGrant(db, k)
    ensures var mine := RouteOf(db, k); var rules := ExitRules(Routes(db, o));
      && RuleFor(mine) in rules
      && (forall r :: r in rules && r.client == mine.client ==> r.table == ExitTableFor(mine.node))
      && DefaultVia(s, ExitTableFor(mine.node), ExitDevName(mine.node))
  {
    var routes, mine := Routes(db, o), RouteOf(db, k);
    RoutesExact(db, o, mine);
    ExitRulesExact(routes);
    ExitDevsExact(routes);
    assert DeviceFor(mine.node) in ExitDevs(routes);
    forall r | r in ExitRules(routes) && r.client == mine.client ensures r.table == ExitTableFor(mine.node) {
      var q :| q in routes && r == RuleFor(q);
      OneRoutePerClient(db, o, q, mine);
    }
  }

  /** Exit routing and the filter split the world at the same line. For a client that
      exits through a node, a destination leaves through that node's own tunnel exactly
      when it is outside the VPN, which is exactly when the exit accept lets it pass. */
  lemma ExitAgreement(
    db: Db, o: RowOrder, peers: seq<Peer>, chain: seq<Line>, s: KState, iface: string, k: GrantKey, pkt: Packet)
    requires Inv(db) && Running(db, o, peers, chain, s, iface)
    requires ExitGrant(db, k) && pkt.saddr == db.clients[k.client].address
    ensures PolicyRoute(s, EXIT_MESH_PREF, EXIT_PREF, pkt.saddr, pkt.daddr)
         == if InMesh(db, pkt.daddr) then MainTable else Through(ExitDevName(db.nodes[k.node].address.value))
    ensures Fires(ExitLine(MeshPrefixes(db, o), ToGrant(db, o, k)), pkt) <==> !InMesh(db, pkt.daddr)
  {
    var mesh, node := MeshPrefixes(db, o), RouteOf(db, k).node;
    MeshExact(db, o, pkt.daddr);
    WalkMesh(s, mesh, pkt.saddr, pkt.daddr);
    ExitLineFires(mesh, ToGrant(db, o, k), pkt);
    OwnRules(db, o, peers, chain, s, iface, k);
    TablesAreNumbers(node);
    WalkSource(s, ExitRules(Routes(db, o)), pkt.saddr, pkt.daddr, ExitTableFor(node), ExitDevName(node));
  }

  /** No other live exit goes to a node of lower address whose device has the same name. */
  predicate LowestOfItsName(db: Db, k: GrantKey)
    requires ExitGrant(db, k)
  {
    forall j :: j in db.grants && ExitGrant(db, j) && ExitDevName(RouteOf(db, j).node) == ExitDevName(RouteOf(db, k).node)
      ==> RouteOf(db, k).node <= RouteOf(db, j).node
  }

  lemma {:induction false} CreatorIsLowest(devs: seq<ExitDevice>, d: ExitDevice)
    requires StrictDevs(devs) && d in devs
    ensures d.name in NamesOf(devs) && Creator(devs, d.name).remote <= d.remote
  {
    var init, last := devs[..|devs| - 1], devs[|devs| - 1];
    assert devs == init + [last];
    if d in init {
      CreatorIsLowest(init, d);
    } else if d.name in NamesOf(init) {
      var e := Creator(init, d.name);
      var i :| 0 <= i < |init| && init[i] == e;
      assert devs[i].remote < devs[|devs| - 1].remote;
    }
  }

  lemma ExitDeviceIsPlanned(db: Db, o: RowOrder, k: GrantKey)
    requires ValidOrder(db, o) && ExitGrant(db, k)
    ensures var node := RouteOf(db, k).node; var devs := ExitDevs(Routes(db, o));
      && DeviceFor(node) in devs && ExitDevName(node) in NamesOf(devs)
      && Creator(devs, ExitDevName(node)).remote <= node
      && exists j :: ExitGrant(db, j) && RouteOf(db, j).node == Creator(devs, ExitDevName(node)).remote
           && ExitDevName(RouteOf(db, j).node) == ExitDevName(node)
  {
    var node, devs := RouteOf(db, k).node, ExitDevs(Routes(db, o));
    RoutesExact(db, o, RouteOf(db, k));
    ExitDevsExact(Routes(db, o));
    assert DeviceFor(node) in devs;
    CreatorIsLowest(devs, DeviceFor(node));
    var c := Creator(devs, ExitDevName(node));
    var r :| r in Routes(db, o) && c == DeviceFor(r.node);
    RoutesExact(db, o, r);
    var j :| ExitGrant(db, j) && r == RouteOf(db, j);
  }

  lemma CreatorIffLowest(db: Db, o: RowOrder, k: GrantKey)
    requires ValidOrder(db, o) && ExitGrant(db, k)
    ensures var node := RouteOf(db, k).node; var devs := ExitDevs(Routes(db, o));
      ExitDevName(node) in NamesOf(devs) && (Creator(devs, ExitDevName(node)).remote == node <==> LowestOfItsName(db, k))
  {
    var node, devs := RouteOf(db, k).node, ExitDevs(Routes(db, o));
    var dev := ExitDevName(node);
    ExitDeviceIsPlanned(db, o, k);
    var j :| ExitGrant(db, j) && RouteOf(db, j).node == Creator(devs, dev).remote && ExitDevName(RouteOf(db, j).node) == dev;
    if !LowestOfItsName(db, k) {
      var i :| i in db.grants && ExitGrant(db, i) && ExitDevName(RouteOf(db, i).node) == dev && RouteOf(db, i).node < node;
      ExitDeviceIsPlanned(db, o, i);
    }
  }

  lemma NarrowPoolIsLowest(db: Db, k: GrantKey)
    requires Inv(db) && ExitGrant(db, k) && db.hub.pool.bits >= 16
    ensures LowestOfItsName(db, k)
  {
    TunnelAddressesInPool(db);
    assert RealNode(db, k.node);
    forall j | j in db.grants && ExitGrant(db, j) && ExitDevName(RouteOf(db, j).node) == ExitDevName(RouteOf(db, k).node)
      ensures RouteOf(db, k).node == RouteOf(db, j).node
    {
      assert RealNode(db, j.node);
      NameIdentifies(db.hub.pool, RouteOf(db, j).node, RouteOf(db, k).node);
    }
  }

  /** What decides, before a pass, where an exit client's device will lead after it: a device that
      is there keeps its endpoints, a new one is made for the lowest node of the name. */
  predicate WillLeadHome(db: Db, before: KState, k: GrantKey)
    requires ExitGrant(db, k)
  {
    var node := RouteOf(db, k).node;
    var dev := ExitDevName(node);
    if dev in before.links then before.links[dev].kind == Ipip(db.hub.address, node) else LowestOfItsName(db, k)
  }

  /** Where the tunnel of an exit client leads after a pass that began in state `before`: its device
      is up, and ends at the client's own exit node exactly when it led there already, or is new and
      no exit node of lower address has the same device name. */
  lemma ExitDeviceLeadsHome(
    db: Db, o: RowOrder, peers: seq<Peer>, chain: seq<Line>, before: KState, s: KState, iface: string, k: GrantKey)
    requires Inv(db) && Running(db, o, peers, chain, s, iface) && ExitGrant(db, k)
    requires Inherits(before, s, db.hub.address, ExitDevs(Routes(db, o)))
    ensures var node := RouteOf(db, k).node; var dev := ExitDevName(node);
      && dev in s.links && s.links[dev].up
      && (s.links[dev].kind == Ipip(db.hub.address, node) <==> WillLeadHome(db, before, k))
  {
    CreatorIffLowest(db, o, k);
    assert ExitDevName(RouteOf(db, k).node) in NamesOf(ExitDevs(Routes(db, o)));
  }

  /** Any other source is routed by the main table. */
  lemma NonExitSourcesUseMain(
    db: Db, o: RowOrder, peers: seq<Peer>, chain: seq<Line>, s: KState, iface: string, saddr: Addr, daddr: Addr)
    requires Inv(db) && Running(db, o, peers, chain, s, iface)
    requires forall k :: ExitGrant(db, k) ==> db.clients[k.client].address != saddr
    ensures PolicyRoute(s, EXIT_MESH_PREF, EXIT_PREF, saddr, daddr) == MainTable
  {
    var routes := Routes(db, o);
    WalkMesh(s, MeshPrefixes(db, o), saddr, daddr);
    ExitRulesExact(routes);
    forall r | r in ExitRules(routes) ensures r.client != saddr {
      var q :| q in routes && r == RuleFor(q);
      RoutesExact(db, o, q);
    }
    WalkNoSource(s, ExitRules(routes), saddr, daddr);
  }

  /** Destinations inside the VPN are always looked up in the main table. */
  lemma MeshUsesMain(db: Db, o: RowOrder, peers: seq<Peer>, chain: seq<Line>, s: KState, iface: string, saddr: Addr, daddr: Addr)
    requires Running(db, o, peers, chain, s, iface) && InMesh(db, daddr)
    ensures PolicyRoute(s, EXIT_MESH_PREF, EXIT_PREF, saddr, daddr) == MainTable
  {
    MeshExact(db, o, daddr);
    WalkMesh(s, MeshPrefixes(db, o), saddr, daddr);
  }

  /** No foreign route of the host is more specific than a LAN inside it. */
  ghost predicate NoForeignRouteInside(s: KState, p: Prefix, iface: string) {
    forall q :: q in s.main && q.bits > p.bits && (exists a: Addr :: Contains(p, a) && Contains(q, a)) ==> s.main[q] == iface
  }

  lemma SameLengthSamePrefix(p: Prefix, q: Prefix, a: Addr)
    requires p.bits == q.bits && Contains(p, a) && Contains(q, a)
    ensures p == q
  {
    Nested(p, q, a, q.addr);
    Nested(q, p, a, p.addr);
  }

  /** With no foreign route inside it, a prefix that leads to the interface takes its addresses
      there. */
  lemma PrefixRoutesTo(s: KState, p: Prefix, iface: string, a: Addr)
    requires p in s.main && s.main[p] == iface && Contains(p, a) && NoForeignRouteInside(s, p, iface)
    ensures MainSends(s, a, iface)
  {
    forall q | q in s.main && Contains(q, a) && (forall r :: r in s.main && Contains(r, a) ==> r.bits <= q.bits)
      ensures s.main[q] == iface
    {
      assert p.bits <= q.bits;
      if p.bits == q.bits {
        SameLengthSamePrefix(p, q, a);
      }
    }
  }

  /** A LAN apart from the pool is not the default route. */
  lemma LanIsNotDefault(db: Db, id: Id, p: Prefix)
    requires LansApart(db) && RealNode(db, id) && p in db.nodes[id].subnets
    ensures p.bits != 0
  {
    if p.bits == 0 {
      ZeroBitsIsEverything(p);
      EverythingContains(db.hub.pool.addr);
      assert InLan(db, id, db.hub.pool.addr) && Contains(db.hub.pool, db.hub.pool.addr);
    }
  }

  /** The main table sends a LAN address into the tunnel interface. */
  lemma LanRoutedToTunnel(
    db: Db, o: RowOrder, peers: seq<Peer>, chain: seq<Line>, s: KState, iface: string, id: Id, a: Addr)
    requires LansApart(db) && Running(db, o, peers, chain, s, iface)
    requires RealNode(db, id) && InLan(db, id, a)
    requires forall p :: p in db.nodes[id].subnets ==> NoForeignRouteInside(s, p, iface)
    ensures MainSends(s, a, iface)
  {
    var nodes := SnapshotOf(db, o).nodes;
    var p :| p in db.nodes[id].subnets && Contains(p, a);
    SubnetsExact(db, o, id, p);
    NodesExact(db, o, ToNode(db, o, id));
    NodeSubnetsExact(nodes, p);
    LanIsNotDefault(db, id, p);
    PrefixRoutesTo(s, p, iface, a);
  }

  /** And so it does with every tunnel address. */
  lemma PoolRoutedToTunnel(
    db: Db, o: RowOrder, peers: seq<Peer>, chain: seq<Line>, s: KState, iface: string, a: Addr)
    requires Running(db, o, peers, chain, s, iface)
    requires Contains(db.hub.pool, a) && NoForeignRouteInside(s, db.hub.pool, iface)
    ensures MainSends(s, a, iface)
    ensures forall saddr: Addr :: PolicyRoute(s, EXIT_MESH_PREF, EXIT_PREF, saddr, a) == MainTable
  {
    PrefixRoutesTo(s, db.hub.pool, iface, a);
    assert InMesh(db, a);
    forall saddr: Addr ensures PolicyRoute(s, EXIT_MESH_PREF, EXIT_PREF, saddr, a) == MainTable {
      MeshUsesMain(db, o, peers, chain, s, iface, saddr, a);
    }
  }

  // ---------------------------------------------------------------- a client's traffic

  /** Rows of the two export queries, in whatever order they came. */
  predicate ExportRows(db: Db, cid: Id, ks: seq<GrantKey>) {
    Lists(ks, ClientGrantKeys(db, cid))
  }

  lemma ExportRowsExist(db: Db, cid: Id, ks: seq<GrantKey>)
    requires ExportRows(db, cid, ks) && cid in db.clients
    ensures forall k :: k in ks <==> k in db.grants && k.client == cid && Visible(db, k.node)
  {
    forall k ensures k in ks <==> k in db.grants && k.client == cid && Visible(db, k.node) {
      ListedIff(ks, ClientGrantKeys(db, cid), k);
    }
  }

  /** The AllowedIPs written into the client's configuration. */
  function ClientConfig(db: Db, o: RowOrder, cid: Id, ks: seq<GrantKey>): seq<Prefix>
    requires SubnetOrder(db, o.subnets) && ExportRows(db, cid, ks) && cid in db.clients
  {
    ExportRowsExist(db, cid, ks);
    ClientAllowed(GetHub(db), ExportGrants(db, o, ks))
  }

  /** The AllowedIPs written into a node's configuration. */
  function NodeConfig(db: Db, reach: seq<Prefix>): seq<Prefix> {
    AddNew(PoolOnly(GetHub(db)), reach)
  }

  /** The destinations one grant puts into the client's configuration. */
  ghost predicate ExportCovers(db: Db, k: GrantKey, a: Addr)
    requires k in db.grants && Visible(db, k.node)
  {
    || (db.grants[k] && !db.nodes[k.node].isHub)
    || (if RulesOf(db, k) == [] then InLan(db, k.node, a) else exists r :: r in RulesOf(db, k) && Contains(r.dest, a))
  }

  lemma GrantExports(db: Db, o: RowOrder, k: GrantKey, a: Addr)
    requires ValidOrder(db, o) && k in db.grants && k.client in db.clients && Visible(db, k.node)
    ensures var g := ToGrant(db, o, k); (g.nodeExit || Covers(Dests(g), a)) <==> ExportCovers(db, k, a)
  {
    var g := ToGrant(db, o, k);
    forall r ensures r in g.rules <==> r in RulesOf(db, k) {
      RulesExact(db, o, k, r);
    }
    if g.rules == [] {
      LanCovered(db, o, k.node, a);
    } else {
      RulesExact(db, o, k, g.rules[0]);
      RuleDestsExact(g.rules);
      if p :| p in Dests(g) && Contains(p, a) {
        var r :| r in g.rules && r.dest == p;
      }
      if r :| r in RulesOf(db, k) && Contains(r.dest, a) {
        assert r.dest in Dests(g);
      }
    }
  }

  /** A client's AllowedIPs are the hub and what its grants export, no more and no less. */
  lemma ClientConfigExact(db: Db, o: RowOrder, cid: Id, ks: seq<GrantKey>, a: Addr)
    requires ValidOrder(db, o) && ExportRows(db, cid, ks) && cid in db.clients
    ensures Covers(ClientConfig(db, o, cid, ks), a) <==>
      || a == db.hub.address
      || exists k :: k in db.grants && k.client == cid && Visible(db, k.node) && ExportCovers(db, k, a)
  {
    ExportRowsExist(db, cid, ks);
    var granted := ExportGrants(db, o, ks);
    ClientAllowedCovers(GetHub(db), granted, a);
    if g :| g in granted && (g.nodeExit || Covers(Dests(g), a)) {
      var i :| 0 <= i < |granted| && granted[i] == g;
      assert ks[i] in ks;
      GrantExports(db, o, ks[i], a);
    }
    if k :| k in db.grants && k.client == cid && Visible(db, k.node) && ExportCovers(db, k, a) {
      var i :| 0 <= i < |ks| && ks[i] == k;
      GrantExports(db, o, k, a);
      assert granted[i] == ToGrant(db, o, k);
      assert granted[i] in granted;
    }
  }

  /** Whatever a grant opens it also exports, unless it is a hub exit with rules: the filter
      ignores the rules of a hub exit, the client's configuration does not. */
  lemma GrantReaches(db: Db, k: GrantKey, pkt: Packet)
    requires Inv(db) && GrantOpens(db, k, pkt)
    ensures !db.nodes[k.node].isHub || RulesOf(db, k) == [] ==> ExportCovers(db, k, pkt.daddr)
  {
    if db.nodes[k.node].isHub {
      assert EVERYTHING in db.nodes[k.node].subnets;
      EverythingContains(pkt.daddr);
    }
  }

  /** What a grant opens reaches the tunnel exactly when the grant is no hub exit with rules, or
      the destination is the hub or exported anyway. */
  lemma ClientConfigCovers(db: Db, o: RowOrder, k: GrantKey, ks: seq<GrantKey>, pkt: Packet)
    requires Inv(db) && ValidOrder(db, o) && ExportRows(db, k.client, ks)
    requires GrantOpens(db, k, pkt)
    ensures Covers(ClientConfig(db, o, k.client, ks), pkt.daddr) <==>
      || !db.nodes[k.node].isHub || RulesOf(db, k) == []
      || pkt.daddr == db.hub.address
      || exists j :: j in db.grants && j.client == k.client && Visible(db, j.node) && ExportCovers(db, j, pkt.daddr)
  {
    ClientConfigExact(db, o, k.client, ks, pkt.daddr);
    GrantReaches(db, k, pkt);
  }

  lemma HubRuleExports(db: Db, k: GrantKey, r: GrantRule, a: Addr)
    requires k in db.grants && Visible(db, k.node) && db.nodes[k.node].isHub && RulesOf(db, k) == [r]
    ensures ExportCovers(db, k, a) <==> Contains(r.dest, a)
  {
    assert RulesOf(db, k)[0] == r;
  }

  /** A hub exit whose one rule names another destination: the filter lets the packet out, the
      client never sends it. */
  lemma HubRuleNarrowsTheClientOnly(db: Db, o: RowOrder, k: GrantKey, ks: seq<GrantKey>, r: GrantRule, pkt: Packet)
    requires Inv(db) && ValidOrder(db, o) && ExportRows(db, k.client, ks)
    requires GrantOpens(db, k, pkt) && db.nodes[k.node].isHub && RulesOf(db, k) == [r]
    requires forall j :: j in db.grants && j.client == k.client ==> j == k
    requires pkt.daddr != db.hub.address
    ensures Covers(ClientConfig(db, o, k.client, ks), pkt.daddr) <==> Contains(r.dest, pkt.daddr)
  {
    ClientConfigExact(db, o, k.client, ks, pkt.daddr);
    HubRuleExports(db, k, r, pkt.daddr);
  }

  lemma PoolInNodeConfig(db: Db, reach: seq<Prefix>, a: Addr)
    requires Contains(db.hub.pool, a)
    ensures Covers(NodeConfig(db, reach), a)
  {
    AddNewExact(PoolOnly(GetHub(db)), reach);
    assert db.hub.pool in PoolOnly(GetHub(db));
  }

  lemma RepliesPass(db: Db, o: RowOrder)
    requires ValidOrder(db, o)
    ensures forall reply: Packet :: !reply.newFlow ==> Evaluate(HubChain(db, o), reply) == Accepted
  {
  }

  /** A grant delivers. Every packet that a grant on a real node opens into that node's LAN, by its
      rules or for want of any, enters the client's tunnel, is accepted
      from the client by the hub, passes the filter, is routed by the main table into the
      tunnel interface whatever exit the client uses, goes to that node's peer, and is
      accepted by the node. The reply, from that LAN back to the client, is accepted as part
      of the flow and routed by the main table into the tunnel; the peer that must own its
      source and the peer it is sent to are the two above, the other way round. */
  lemma ClientDelivery(
    db: Db, o: RowOrder, peers: seq<Peer>, chain: seq<Line>, s: KState, iface: string,
    k: GrantKey, ks: seq<GrantKey>, reach: seq<Prefix>, pkt: Packet)
    requires Inv(db) && LansApart(db) && Running(db, o, peers, chain, s, iface)
    requires GrantOpens(db, k, pkt) && RealNode(db, k.node) && InLan(db, k.node, pkt.daddr) && pkt.newFlow
    requires ExportRows(db, k.client, ks)
    requires forall p :: p in db.nodes[k.node].subnets ==> NoForeignRouteInside(s, p, iface)
    requires NoForeignRouteInside(s, db.hub.pool, iface)
    ensures Covers(ClientConfig(db, o, k.client, ks), pkt.daddr)
    ensures OwnedBy(Entries(peers), pkt.saddr, db.clients[k.client].publicKey)
    ensures Evaluate(chain, pkt) == Accepted
    ensures PolicyRoute(s, EXIT_MESH_PREF, EXIT_PREF, pkt.saddr, pkt.daddr) == MainTable
    ensures MainSends(s, pkt.daddr, iface)
    ensures OwnedBy(Entries(peers), pkt.daddr, db.nodes[k.node].publicKey)
    ensures Covers(NodeConfig(db, reach), pkt.saddr)
    ensures forall reply: Packet :: !reply.newFlow ==> Evaluate(chain, reply) == Accepted
    ensures PolicyRoute(s, EXIT_MESH_PREF, EXIT_PREF, pkt.daddr, pkt.saddr) == MainTable
    ensures MainSends(s, pkt.saddr, iface)
  {
    ClientConfigCovers(db, o, k, ks, pkt);
    ClientOwner(db, o, k.client);
    LanOwner(db, o, k.node, pkt.daddr);
    AclExact(db, o, pkt);
    assert InMesh(db, pkt.daddr);
    MeshUsesMain(db, o, peers, chain, s, iface, pkt.saddr, pkt.daddr);
    LanRoutedToTunnel(db, o, peers, chain, s, iface, k.node, pkt.daddr);
    TunnelAddressesInPool(db);
    PoolInNodeConfig(db, reach, pkt.saddr);
    PoolRoutedToTunnel(db, o, peers, chain, s, iface, pkt.saddr);
    RepliesPass(db, o);
  }

  /** Disabling a client cuts it off: no new flow from its address is permitted. */
  lemma DisabledClientIsCut(db: Db, cid: Id, pkt: Packet)
    requires Inv(db) && LansApart(db) && cid in db.clients && !db.clients[cid].enabled
    requires pkt.saddr == db.clients[cid].address
    ensures !Permitted(db, pkt)
  {
  }

  // ---------------------------------------------------------------- site to site

  predicate ReachRows(db: Db, id: Id, reach: seq<Prefix>) {
    Lists(reach, Reach(db, id))
  }

  /** A node's AllowedIPs cover the LAN of every node it is linked with, either way. */
  lemma ReachCovers(db: Db, id: Id, other: Id, reach: seq<Prefix>, a: Addr)
    requires ReachRows(db, id, reach) && other in db.nodes && InLan(db, other, a)
    requires LinkKey(id, other) in db.links || LinkKey(other, id) in db.links
    ensures Covers(NodeConfig(db, reach), a)
  {
    var p :| p in db.nodes[other].subnets && Contains(p, a);
    assert p in Reach(db, id) by {
      if LinkKey(id, other) in db.links {
        assert p in ReachSet(db, id);
      } else {
        assert p in ReachBackSet(db, id);
      }
    }
    ListedIff(reach, Reach(db, id), p);
    AddNewExact(PoolOnly(GetHub(db)), reach);
  }

  /** A link delivers. For every link between active nodes, traffic from the source's LAN
      or from the source itself to the destination's LAN passes the source's AllowedIPs,
      the hub's source check, the filter, the hub's routing into the tunnel and its choice of
      peer, and the destination's AllowedIPs; on the way back the same tables accept the reply
      at each step, and it is routed into the tunnel too. */
  lemma LinkDelivery(
    db: Db, o: RowOrder, peers: seq<Peer>, chain: seq<Line>, s: KState, iface: string,
    l: LinkKey, srcReach: seq<Prefix>, dstReach: seq<Prefix>, pkt: Packet)
    requires Inv(db) && LansApart(db) && Running(db, o, peers, chain, s, iface)
    requires l.src in db.nodes && l.dst in db.nodes
    requires ReachRows(db, l.src, srcReach) && ReachRows(db, l.dst, dstReach)
    requires forall p :: p in db.nodes[l.src].subnets + db.nodes[l.dst].subnets ==> NoForeignRouteInside(s, p, iface)
    requires NoForeignRouteInside(s, db.hub.pool, iface)
    requires pkt.newFlow && LinkOpens(db, l, pkt)
    ensures Evaluate(chain, pkt) == Accepted
    ensures Covers(NodeConfig(db, srcReach), pkt.daddr)
    ensures OwnedBy(Entries(peers), pkt.saddr, db.nodes[l.src].publicKey)
    ensures OwnedBy(Entries(peers), pkt.daddr, db.nodes[l.dst].publicKey)
    ensures Covers(NodeConfig(db, dstReach), pkt.saddr)
    ensures PolicyRoute(s, EXIT_MESH_PREF, EXIT_PREF, pkt.saddr, pkt.daddr) == MainTable
    ensures PolicyRoute(s, EXIT_MESH_PREF, EXIT_PREF, pkt.daddr, pkt.saddr) == MainTable
    ensures MainSends(s, pkt.daddr, iface) && MainSends(s, pkt.saddr, iface)
    ensures forall reply: Packet :: !reply.newFlow ==> Evaluate(chain, reply) == Accepted
  {
    assert RealNode(db, l.src) && RealNode(db, l.dst);
    AclExact(db, o, pkt);
    ReachCovers(db, l.src, l.dst, srcReach, pkt.daddr);
    LanOwner(db, o, l.dst, pkt.daddr);
    TunnelAddressesInPool(db);
    if InLan(db, l.src, pkt.saddr) {
      LanOwner(db, o, l.src, pkt.saddr);
      ReachCovers(db, l.dst, l.src, dstReach, pkt.saddr);
      LanRoutedToTunnel(db, o, peers, chain, s, iface, l.src, pkt.saddr);
    } else {
      NodeOwner(db, o, l.src);
      PoolInNodeConfig(db, dstReach, pkt.saddr);
      PoolRoutedToTunnel(db, o, peers, chain, s, iface, pkt.saddr);
    }
    LanRoutedToTunnel(db, o, peers, chain, s, iface, l.dst, pkt.daddr);
    MeshUsesMain(db, o, peers, chain, s, iface, pkt.saddr, pkt.daddr);
    MeshUsesMain(db, o, peers, chain, s, iface, pkt.daddr, pkt.saddr);
    RepliesPass(db, o);
  }

  // ---------------------------------------------------------------- out to the internet

  /** The packet around an exit client's traffic travels like any other to the node: main table,
      tunnel interface, the node's peer. */
  lemma OuterPacketDelivered(
    db: Db, o: RowOrder, peers: seq<Peer>, chain: seq<Line>, s: KState, iface: string, id: Id)
    requires Inv(db) && LansApart(db) && Running(db, o, peers, chain, s, iface) && RealNode(db, id)
    requires NoForeignRouteInside(s, db.hub.pool, iface)
    ensures var node := db.nodes[id].address.value;
      && PolicyRoute(s, EXIT_MESH_PREF, EXIT_PREF, db.hub.address, node) == MainTable && MainSends(s, node, iface)
      && OwnedBy(Entries(peers), node, db.nodes[id].publicKey)
  {
    TunnelAddressesInPool(db);
    PoolRoutedToTunnel(db, o, peers, chain, s, iface, db.nodes[id].address.value);
    NodeOwner(db, o, id);
  }

  /** Out of the client and past the filter. */
  lemma ExitEnters(
    db: Db, o: RowOrder, peers: seq<Peer>, chain: seq<Line>, s: KState, iface: string,
    k: GrantKey, ks: seq<GrantKey>, pkt: Packet)
    requires Inv(db) && LansApart(db) && Running(db, o, peers, chain, s, iface)
    requires ExitGrant(db, k) && ExportRows(db, k.client, ks)
    requires pkt.newFlow && pkt.saddr == db.clients[k.client].address && !InMesh(db, pkt.daddr)
    ensures Covers(ClientConfig(db, o, k.client, ks), pkt.daddr)
    ensures OwnedBy(Entries(peers), pkt.saddr, db.clients[k.client].publicKey)
    ensures Evaluate(chain, pkt) == Accepted
  {
    assert GrantOpens(db, k, pkt);
    ClientConfigCovers(db, o, k, ks, pkt);
    ClientOwner(db, o, k.client);
    AclExact(db, o, pkt);
  }

  /** Into the tunnel: the packet goes through a device that is up and ends at the exit node. */
  lemma ExitTunnel(
    db: Db, o: RowOrder, peers: seq<Peer>, chain: seq<Line>, before: KState, s: KState, iface: string, k: GrantKey, pkt: Packet)
    requires Inv(db) && Running(db, o, peers, chain, s, iface)
    requires ExitGrant(db, k) && WillLeadHome(db, before, k)
    requires Inherits(before, s, db.hub.address, ExitDevs(Routes(db, o)))
    requires pkt.saddr == db.clients[k.client].address && !InMesh(db, pkt.daddr)
    ensures var node := RouteOf(db, k).node; var dev := ExitDevName(node);
      && PolicyRoute(s, EXIT_MESH_PREF, EXIT_PREF, pkt.saddr, pkt.daddr) == Through(dev)
      && dev in s.links && s.links[dev].up && s.links[dev].kind == Ipip(db.hub.address, node)
  {
    ExitAgreement(db, o, peers, chain, s, iface, k, pkt);
    ExitDeviceLeadsHome(db, o, peers, chain, before, s, iface, k);
  }

  /** An exit delivers. For an enabled client that exits through a node, after a pass that began
      where its device leads to that node or will be made to, every packet to a
      destination outside the VPN enters the client's tunnel, is accepted from the client by the
      hub and by the filter, and is routed into a device that is up and ends at that node. The
      packet around it, from the hub to the node, is routed by the main table into the tunnel
      interface, goes to that node's peer, and is accepted by the node. On the way back the hub
      accepts the node as the source of the outer packet, and the inner reply is accepted as
      part of the flow, routed into the tunnel interface, and sent to the client's peer. */
  lemma ExitDelivery(
    db: Db, o: RowOrder, peers: seq<Peer>, chain: seq<Line>, before: KState, s: KState, iface: string,
    k: GrantKey, ks: seq<GrantKey>, reach: seq<Prefix>, pkt: Packet)
    requires Inv(db) && LansApart(db) && Running(db, o, peers, chain, s, iface)
    requires ExitGrant(db, k) && WillLeadHome(db, before, k) && ExportRows(db, k.client, ks)
    requires Inherits(before, s, db.hub.address, ExitDevs(Routes(db, o)))
    requires Contains(db.hub.pool, db.hub.address) && NoForeignRouteInside(s, db.hub.pool, iface)
    requires pkt.newFlow && pkt.saddr == db.clients[k.client].address && !InMesh(db, pkt.daddr)
    ensures Covers(ClientConfig(db, o, k.client, ks), pkt.daddr)
    ensures OwnedBy(Entries(peers), pkt.saddr, db.clients[k.client].publicKey)
    ensures Evaluate(chain, pkt) == Accepted
    ensures var node := RouteOf(db, k).node; var dev := ExitDevName(node);
      && PolicyRoute(s, EXIT_MESH_PREF, EXIT_PREF, pkt.saddr, pkt.daddr) == Through(dev)
      && dev in s.links && s.links[dev].up && s.links[dev].kind == Ipip(db.hub.address, node)
      && PolicyRoute(s, EXIT_MESH_PREF, EXIT_PREF, db.hub.address, node) == MainTable && MainSends(s, node, iface)
      && OwnedBy(Entries(peers), node, db.nodes[k.node].publicKey)
    ensures Covers(NodeConfig(db, reach), db.hub.address)
    ensures forall reply: Packet :: !reply.newFlow ==> Evaluate(chain, reply) == Accepted
    ensures PolicyRoute(s, EXIT_MESH_PREF, EXIT_PREF, pkt.daddr, pkt.saddr) == MainTable && MainSends(s, pkt.saddr, iface)
  {
    ExitEnters(db, o, peers, chain, s, iface, k, ks, pkt);
    ExitTunnel(db, o, peers, chain, before, s, iface, k, pkt);
    TunnelAddressesInPool(db);
    OuterPacketDelivered(db, o, peers, chain, s, iface, k.node);
    PoolRoutedToTunnel(db, o, peers, chain, s, iface, pkt.saddr);
    PoolInNodeConfig(db, reach, db.hub.address);
    RepliesPass(db, o);
  }
}

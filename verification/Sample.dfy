/** A small installation in force: two sites, one client that exits through the first, and a
    link between the sites. It meets the premises of the delivery theorems all at once. */
module Sample {
  import opened Basics
  import opened Net
  import opened Nft
  import opened Render
  import opened Database
  import opened Snapshot
  import opened Invariant
  import opened Policy
  import opened ExitPlan
  import opened Kernel
  import opened Apply
  import opened Service
  import opened Delivery
  import Alloc

  /** 10.8.0.0. */
  const BASE: Addr := 0x0A08_0000

  lemma MasksAreMasked()
    ensures Cidr(BASE, 24).Masked() && Cidr(0xC0A8_0100, 24).Masked() && Cidr(0xC0A8_0200, 24).Masked()
    ensures Pow2(8) == 256
  {
    assert Pow2(8) == 2 * Pow2(7) && Pow2(7) == 2 * Pow2(6) && Pow2(6) == 2 * Pow2(5) && Pow2(5) == 2 * Pow2(4);
  }

  function Pool(): Prefix {
    MasksAreMasked();
    Cidr(BASE, 24)
  }

  /** 192.168.1.0/24 and 192.168.2.0/24. */
  function Home(): Prefix {
    MasksAreMasked();
    Cidr(0xC0A8_0100, 24)
  }

  function Office(): Prefix {
    MasksAreMasked();
    Cidr(0xC0A8_0200, 24)
  }

  const HUB: Addr := BASE + 1
  const HOME_NODE: Addr := BASE + 2
  const OFFICE_NODE: Addr := BASE + 3
  const PHONE: Addr := BASE + 4

  function Site(name: string, address: Addr, key: string, lan: Prefix): NodeRow {
    NodeRow(name, Some(address), "eth0", key, Active, false, None, {lan}, "", {})
  }

  function SampleDb(): Db {
    Db(HubRow(HUB, Pool(), "eth0"),
       map[1 := Site("home", HOME_NODE, "h", Home()), 2 := Site("office", OFFICE_NODE, "o", Office())],
       map[3 := ClientRow("phone", PHONE, "p", true)],
       map[GrantKey(3, 1) := true],
       map[],
       {LinkKey(1, 2)})
  }

  function SampleOrder(): RowOrder {
    RowOrder([1, 2], [3], [GrantKey(3, 1)], [LinkKey(1, 2)], map[1 := [Home()], 2 := [Office()]], map[], [])
  }

  lemma Ranges(a: Addr)
    ensures Contains(Pool(), a) <==> BASE <= a < BASE + 256
    ensures Contains(Home(), a) <==> 0xC0A8_0100 <= a < 0xC0A8_0200
    ensures Contains(Office(), a) <==> 0xC0A8_0200 <= a < 0xC0A8_0300
    ensures Alloc.IsHost(Pool(), a) <==> BASE < a < BASE + 255
  {
    MasksAreMasked();
  }

  lemma SampleAddresses()
    ensures AddressesDistinct(SampleDb().nodes, SampleDb().clients)
  {
  }

  lemma SamplePlaced()
    ensures AddressesPlaced(SampleDb().hub, SampleDb().nodes, SampleDb().clients)
  {
    Ranges(HOME_NODE);
    Ranges(OFFICE_NODE);
    Ranges(PHONE);
  }

  lemma SampleKeys(nodes: Nodes)
    requires nodes == SampleDb().nodes
    ensures KeysUnique(nodes) && TokensUnique(nodes) && OneHubNode(nodes) && ActiveHasAddress(nodes)
  {
    assert nodes[1].publicKey == "h" && nodes[2].publicKey == "o" && "h"[0] != "o"[0];
  }

  lemma SampleRows()
    ensures Rows(SampleDb().hub, SampleDb().nodes, SampleDb().clients)
  {
    SampleAddresses();
    SamplePlaced();
    SampleKeys(SampleDb().nodes);
  }

  lemma SampleRelations()
    ensures Relations(SampleDb())
  {
  }

  lemma SampleLans(id: Id, a: Addr)
    ensures RealNode(SampleDb(), id) && InLan(SampleDb(), id, a) ==> (if id == 1 then Contains(Home(), a) else id == 2 && Contains(Office(), a))
  {
  }

  lemma SampleLansApart()
    ensures LansApart(SampleDb())
  {
    var db := SampleDb();
    forall i, j, a: Addr | RealNode(db, i) && RealNode(db, j) && i != j && InLan(db, i, a) ensures !InLan(db, j, a) {
      SampleLans(i, a);
      SampleLans(j, a);
      Ranges(a);
    }
    forall i, a: Addr | RealNode(db, i) && InLan(db, i, a) ensures !Contains(db.hub.pool, a) {
      SampleLans(i, a);
      Ranges(a);
    }
  }

  lemma SampleRowsListed()
    ensures var db, o := SampleDb(), SampleOrder();
      Lists(o.nodes, VisibleNodes(db)) && Lists(o.clients, EnabledClients(db)) && Lists(o.grants, EnabledGrants(db))
  {
    var db, o := SampleDb(), SampleOrder();
    assert VisibleNodes(db) == {1, 2} == set x | x in o.nodes;
    assert EnabledClients(db) == {3};
    assert EnabledGrants(db) == {GrantKey(3, 1)};
  }

  lemma SampleOrderIsValid()
    ensures ValidOrder(SampleDb(), SampleOrder())
  {
    SampleRowsListed();
    assert ServedDomains(SampleDb()) == {};
    assert Lists([Home()], {Home()}) && Lists([Office()], {Office()}) && Lists([LinkKey(1, 2)], {LinkKey(1, 2)});
  }

  lemma SampleIsGood()
    ensures Inv(SampleDb()) && LansApart(SampleDb()) && ValidOrder(SampleDb(), SampleOrder())
  {
    SampleRows();
    SampleRelations();
    SampleLansApart();
    SampleOrderIsValid();
  }

  /** The one exit device of the installation. */
  function SampleDevice(): ExitDevice {
    DeviceFor(HOME_NODE)
  }

  lemma OnlyDevice(routes: seq<ExitRoute>, r: ExitRoute)
    requires r in routes && forall q :: q in routes ==> q == r
    ensures ExitDevs(routes) == [DeviceFor(r.node)]
  {
    var devs, d := ExitDevs(routes), DeviceFor(r.node);
    ExitDevsExact(routes);
    assert d in devs;
    forall i | 0 <= i < |devs| ensures devs[i] == d {
      assert devs[i] in devs;
    }
    assert |devs| > 1 ==> devs[0].remote < devs[1].remote;
  }

  /** A database with one live exit grant gets the one device of its node. */
  lemma OnlyExit(db: Db, o: RowOrder, k: GrantKey)
    requires ValidOrder(db, o)
    requires ExitGrant(db, k) && forall j :: ExitGrant(db, j) ==> j == k
    ensures ExitDevs(Routes(db, o)) == [DeviceFor(RouteOf(db, k).node)]
  {
    var routes, r := Routes(db, o), RouteOf(db, k);
    RoutesExact(db, o, r);
    forall q | q in routes ensures q == r {
      RoutesExact(db, o, q);
    }
    OnlyDevice(routes, r);
  }

  lemma SampleExits(j: GrantKey)
    ensures ExitGrant(SampleDb(), j) <==> j == GrantKey(3, 1)
    ensures RouteOf(SampleDb(), GrantKey(3, 1)).node == HOME_NODE
  {
  }

  lemma SampleDevices()
    requires ValidOrder(SampleDb(), SampleOrder())
    ensures ExitDevs(Routes(SampleDb(), SampleOrder())) == [SampleDevice()]
  {
    var db, k := SampleDb(), GrantKey(3, 1);
    SampleExits(k);
    forall j | ExitGrant(db, j) ensures j == k {
      SampleExits(j);
    }
    OnlyExit(db, SampleOrder(), k);
  }

  /** The kernel as a successful pass leaves it when the plan has one device. */
  function StateFor(mesh: seq<Prefix>, rules: seq<ExitRule>, d: ExitDevice): KState {
    KState(
      map[EXIT_MESH_PREF := MeshRules(mesh), EXIT_PREF := SourceRules(rules)],
      map["awg0" := Link(OtherKind, true, {}), d.name := Link(Ipip(HUB, d.remote), true, {HUB})],
      map[d.table := d.name],
      map[Pool() := "awg0", Home() := "awg0", Office() := "awg0"])
  }

  function SampleState(): KState
    requires ValidOrder(SampleDb(), SampleOrder())
  {
    StateFor(MeshPrefixes(SampleDb(), SampleOrder()), ExitRules(Routes(SampleDb(), SampleOrder())), SampleDevice())
  }

  lemma DeviceIsNoTunnel(d: ExitDevice)
    requires Owned(d.name)
    ensures !Owned("awg0") && d.name != "awg0"
  {
    assert "awg0"[3] != EXIT_DEV_PREFIX[3];
  }

  lemma OneDeviceIsTidy(mesh: seq<Prefix>, rules: seq<ExitRule>, d: ExitDevice)
    requires Owned(d.name)
    ensures TidyLinks(StateFor(mesh, rules, d), "awg0", [d])
  {
    DeviceIsNoTunnel(d);
    assert NamesOf([d]) == {d.name};
  }

  lemma OneDeviceIsUp(mesh: seq<Prefix>, rules: seq<ExitRule>, d: ExitDevice)
    requires Owned(d.name)
    ensures var s, devs := StateFor(mesh, rules, d), [d];
      && (forall n :: n in NamesOf(devs) ==> n in s.links && s.links[n].up)
      && (forall e :: e in devs ==> DefaultVia(s, e.table, e.name))
  {
    DeviceIsNoTunnel(d);
    assert NamesOf([d]) == {d.name} && Creator([d], d.name) == d;
  }

  /** That state is what a snapshot of these LANs and one device demands. */
  lemma StateForIsInForce(snap: Snap, d: ExitDevice)
    requires snap.hub.pool == Some(Pool()) && ExitDevs(ExitRoutesOf(snap.grants)) == [d] && Owned(d.name)
    requires forall p :: p in NodeSubnets(snap.nodes) ==> p == Home() || p == Office()
    ensures KernelInForce(snap, StateFor(MeshOf(snap.hub, snap.nodes), ExitRules(ExitRoutesOf(snap.grants)), d), "awg0")
  {
    OneDeviceIsTidy(MeshOf(snap.hub, snap.nodes), ExitRules(ExitRoutesOf(snap.grants)), d);
    OneDeviceIsUp(MeshOf(snap.hub, snap.nodes), ExitRules(ExitRoutesOf(snap.grants)), d);
  }

  lemma SampleSubnets(p: Prefix)
    requires ValidOrder(SampleDb(), SampleOrder())
    ensures p in NodeSubnets(SnapshotOf(SampleDb(), SampleOrder()).nodes) ==> p == Home() || p == Office()
  {
    var nodes := SnapshotOf(SampleDb(), SampleOrder()).nodes;
    NodeSubnetsExact(nodes, p);
    assert |nodes| == 2 && nodes[0].subnets == [Home()] && nodes[1].subnets == [Office()];
  }

  lemma SampleReach()
    ensures ReachRows(SampleDb(), 1, [Office()]) && ReachRows(SampleDb(), 2, [Home()])
  {
    var db := SampleDb();
    forall p: Prefix ensures p in Reach(db, 1) <==> p == Office() {
      assert p in ReachSet(db, 1) <==> LinkKey(1, 2) in db.links && p in db.nodes[2].subnets;
      assert p !in ReachBackSet(db, 1);
    }
    forall p: Prefix ensures p in Reach(db, 2) <==> p == Home() {
      assert p in ReachBackSet(db, 2) <==> LinkKey(1, 2) in db.links && p in db.nodes[1].subnets;
      assert p !in ReachSet(db, 2);
    }
    assert Reach(db, 1) == {Office()} && Reach(db, 2) == {Home()};
    assert Lists([Office()], {Office()}) && Lists([Home()], {Home()});
  }

  lemma SampleGrant()
    ensures var k := GrantKey(3, 1); ExitGrant(SampleDb(), k) && RulesOf(SampleDb(), k) == []
    ensures LinkKey(1, 2) in SampleDb().links && RealNode(SampleDb(), 1) && RealNode(SampleDb(), 2)
  {
  }

  lemma SampleExport()
    ensures ExportRows(SampleDb(), 3, [GrantKey(3, 1)])
  {
    assert ClientGrantKeys(SampleDb(), 3) == {GrantKey(3, 1)};
    assert Lists([GrantKey(3, 1)], {GrantKey(3, 1)});
  }

  lemma SampleInForce()
    requires ValidOrder(SampleDb(), SampleOrder())
    ensures var snap := SnapshotOf(SampleDb(), SampleOrder());
      InForce(snap, HubPeers(snap.nodes, snap.clients), HubChain(SampleDb(), SampleOrder()), SampleState(), "awg0")
  {
    var snap := SnapshotOf(SampleDb(), SampleOrder());
    NamesAreSane(HOME_NODE);
    SampleDevices();
    forall p | p in NodeSubnets(snap.nodes) ensures p == Home() || p == Office() {
      SampleSubnets(p);
    }
    StateForIsInForce(snap, SampleDevice());
  }

  lemma SampleHasNoForeignRoute(p: Prefix)
    requires ValidOrder(SampleDb(), SampleOrder())
    ensures NoForeignRouteInside(SampleState(), p, "awg0")
  {
  }

  function SamplePeers(): seq<Peer>
    requires ValidOrder(SampleDb(), SampleOrder())
  {
    HubPeers(SnapshotOf(SampleDb(), SampleOrder()).nodes, SnapshotOf(SampleDb(), SampleOrder()).clients)
  }

  /** The configuration is in force in that state, and no LAN has a foreign route. */
  lemma SampleIsRunning()
    requires ValidOrder(SampleDb(), SampleOrder())
    ensures Running(SampleDb(), SampleOrder(), SamplePeers(), HubChain(SampleDb(), SampleOrder()), SampleState(), "awg0")
    ensures forall p: Prefix :: NoForeignRouteInside(SampleState(), p, "awg0")
    ensures SampleDb().hub.pool == Pool() && Contains(Pool(), HUB)
  {
    SampleInForce();
    Ranges(HUB);
    forall p: Prefix ensures NoForeignRouteInside(SampleState(), p, "awg0") {
      SampleHasNoForeignRoute(p);
    }
  }

  lemma OneDeviceIsMade(mesh: seq<Prefix>, rules: seq<ExitRule>, d: ExitDevice)
    requires Owned(d.name)
    ensures Inherits(KState(map[], map[], map[], map[]), StateFor(mesh, rules, d), HUB, [d])
  {
    DeviceIsNoTunnel(d);
    assert NamesOf([d]) == {d.name} && Creator([d], d.name) == d;
  }

  lemma SampleInherits()
    requires ValidOrder(SampleDb(), SampleOrder())
    ensures var empty := KState(map[], map[], map[], map[]);
      && Inherits(empty, SampleState(), HUB, ExitDevs(Routes(SampleDb(), SampleOrder())))
      && WillLeadHome(SampleDb(), empty, GrantKey(3, 1))
  {
    NamesAreSane(HOME_NODE);
    OneDeviceIsMade(MeshPrefixes(SampleDb(), SampleOrder()), ExitRules(Routes(SampleDb(), SampleOrder())), SampleDevice());
    SampleDevices();
    forall j ensures ExitGrant(SampleDb(), j) <==> j == GrantKey(3, 1) {
      SampleExits(j);
    }
  }

  /** A packet of each kind: from the phone into the home LAN, from the home LAN into the office's,
      and from the phone to 1.1.1.1. */
  function ToLan(): Packet {
    Packet(PHONE, 0xC0A8_0105, TcpSegment, 443, "awg0", true)
  }

  function SiteToSite(): Packet {
    Packet(0xC0A8_0105, 0xC0A8_0205, TcpSegment, 443, "awg0", true)
  }

  function Outside(): Packet {
    Packet(PHONE, 0x0101_0101, TcpSegment, 443, SampleDevice().name, true)
  }

  lemma SamplePackets()
    ensures GrantOpens(SampleDb(), GrantKey(3, 1), ToLan()) && InLan(SampleDb(), 1, ToLan().daddr)
    ensures LinkOpens(SampleDb(), LinkKey(1, 2), SiteToSite())
    ensures !InMesh(SampleDb(), Outside().daddr)
    ensures SampleDb().nodes[1].subnets == {Home()} && SampleDb().nodes[2].subnets == {Office()}
    ensures SampleDb().nodes[1].publicKey == "h" && SampleDb().nodes[2].publicKey == "o"
    ensures ToLan().newFlow && SiteToSite().newFlow && Outside().newFlow
  {
    SampleGrant();
    Ranges(ToLan().daddr);
    Ranges(SiteToSite().daddr);
    Ranges(Outside().daddr);
    assert Home() in SampleDb().nodes[1].subnets && Office() in SampleDb().nodes[2].subnets;
  }

  /** The premises of ClientDelivery, LinkDelivery and ExitDelivery hold here, packet included. */
  lemma SampleClientDelivers()
    requires ValidOrder(SampleDb(), SampleOrder())
    ensures Evaluate(HubChain(SampleDb(), SampleOrder()), ToLan()) == Accepted
    ensures OwnedBy(Entries(SamplePeers()), ToLan().daddr, "h")
  {
    var db, o, k := SampleDb(), SampleOrder(), GrantKey(3, 1);
    SampleIsGood();
    SampleIsRunning();
    SamplePackets();
    SampleGrant();
    SampleExport();
    ClientDelivery(db, o, SamplePeers(), HubChain(db, o), SampleState(), "awg0", k, [k], [Office()], ToLan());
  }

  lemma SampleLinkDelivers()
    requires ValidOrder(SampleDb(), SampleOrder())
    ensures Evaluate(HubChain(SampleDb(), SampleOrder()), SiteToSite()) == Accepted
    ensures OwnedBy(Entries(SamplePeers()), SiteToSite().daddr, "o")
  {
    var db, o := SampleDb(), SampleOrder();
    SampleIsGood();
    SampleIsRunning();
    SamplePackets();
    SampleReach();
    LinkDelivery(db, o, SamplePeers(), HubChain(db, o), SampleState(), "awg0", LinkKey(1, 2), [Office()], [Home()], SiteToSite());
  }

  lemma SampleExitDelivers()
    requires ValidOrder(SampleDb(), SampleOrder())
    ensures Evaluate(HubChain(SampleDb(), SampleOrder()), Outside()) == Accepted
    ensures PolicyRoute(SampleState(), EXIT_MESH_PREF, EXIT_PREF, PHONE, Outside().daddr) == Through(SampleDevice().name)
  {
    var db, o, k, empty := SampleDb(), SampleOrder(), GrantKey(3, 1), KState(map[], map[], map[], map[]);
    SampleIsGood();
    SampleIsRunning();
    SamplePackets();
    SampleGrant();
    SampleExport();
    SampleInherits();
    ExitDelivery(db, o, SamplePeers(), HubChain(db, o), empty, SampleState(), "awg0", k, [k], [Office()], Outside());
  }
}

/** A pool wider than a /16, where two exit nodes share a device name: the client of the lower node
    ends up in the tunnel of the other one, because the device was there first. */
module WidePool {
  import opened Basics
  import opened Net
  import opened Nft
  import opened Render
  import opened Database
  import opened Snapshot
  import opened Invariant
  import opened Policy
  import opened ExitPlan
  import opened Kernel
  import opened Apply
  import opened Service
  import opened Delivery
  import opened Feasibility
  import Alloc
  import St = Store

  /** 10.0.0.0/15, with nodes 10.0.0.2 and 10.1.0.2. */
  const BASE: Addr := 0x0A00_0000
  const HUB: Addr := BASE + 1
  const LOW: Addr := BASE + 2
  const HIGH: Addr := BASE + 0x1_0002
  const PHONE: Addr := BASE + 3
  const LAPTOP: Addr := BASE + 4
  const IFACE := "awg0"

  lemma PoolIsMasked()
    ensures Cidr(BASE, 15).Masked() && Pow2(17) == 0x2_0000
  {
    assert Pow2(17) == 2 * Pow2(16) && Pow2(16) == 2 * Pow2(15) && Pow2(15) == 2 * Pow2(14) && Pow2(14) == 2 * Pow2(13);
    assert Pow2(13) == 2 * Pow2(12) && Pow2(12) == 2 * Pow2(11) && Pow2(11) == 2 * Pow2(10) && Pow2(10) == 2 * Pow2(9);
    assert Pow2(9) == 2 * Pow2(8) && Pow2(8) == 2 * Pow2(7) && Pow2(7) == 2 * Pow2(6) && Pow2(6) == 2 * Pow2(5);
  }

  function Pool(): Prefix {
    PoolIsMasked();
    Cidr(BASE, 15)
  }

  function ExitNode(name: string, address: Addr, key: string): NodeRow {
    NodeRow(name, Some(address), "eth0", key, Active, false, None, {}, "", {})
  }

  const BY_LOW := GrantKey(3, 1)
  const BY_HIGH := GrantKey(4, 2)

  /** The laptop exits through the higher node; the phone has a grant on the lower one, and exits
      through it or not. */
  function WideDb(phoneExits: bool): Db {
    Db(HubRow(HUB, Pool(), "eth0"),
       map[1 := ExitNode("low", LOW, "l"), 2 := ExitNode("high", HIGH, "h")],
       map[3 := ClientRow("phone", PHONE, "p", true), 4 := ClientRow("laptop", LAPTOP, "q", true)],
       map[BY_LOW := phoneExits, BY_HIGH := true],
       map[],
       {})
  }

  function WideOrder(): RowOrder {
    RowOrder([1, 2], [3, 4], [BY_LOW, BY_HIGH], [], map[1 := [], 2 := []], map[], [])
  }

  lemma WideAddresses(nodes: Nodes, clients: Clients)
    requires nodes == WideDb(false).nodes && clients == WideDb(false).clients
    ensures AddressesDistinct(nodes, clients)
  {
    assert nodes[1].address == Some(LOW) && nodes[2].address == Some(HIGH);
    assert clients[3].address == PHONE && clients[4].address == LAPTOP;
  }

  lemma HostsOfPool(a: Addr)
    ensures Alloc.IsHost(Pool(), a) <==> BASE < a < BASE + 0x1_FFFF
  {
    PoolIsMasked();
  }

  lemma WidePlaced(nodes: Nodes, clients: Clients)
    requires nodes == WideDb(false).nodes && clients == WideDb(false).clients
    ensures AddressesPlaced(WideDb(false).hub, nodes, clients)
  {
    HostsOfPool(LOW);
    HostsOfPool(HIGH);
    HostsOfPool(PHONE);
    HostsOfPool(LAPTOP);
  }

  lemma WideKeys(nodes: Nodes)
    requires nodes == WideDb(false).nodes
    ensures KeysUnique(nodes) && TokensUnique(nodes) && OneHubNode(nodes) && ActiveHasAddress(nodes)
  {
    assert nodes[1].publicKey == "l" && nodes[2].publicKey == "h" && "l"[0] != "h"[0];
  }

  lemma WideRelations(e: bool)
    ensures Relations(WideDb(e))
  {
  }

  lemma NoLansAreApart(db: Db)
    requires forall id :: id in db.nodes ==> db.nodes[id].subnets == {}
    ensures LansApart(db)
  {
  }

  lemma WideIsGood(e: bool)
    ensures Inv(WideDb(e)) && LansApart(WideDb(e))
  {
    var db := WideDb(e);
    assert db.nodes == WideDb(false).nodes && db.clients == WideDb(false).clients;
    WideAddresses(db.nodes, db.clients);
    WidePlaced(db.nodes, db.clients);
    WideKeys(db.nodes);
    WideRelations(e);
    NoLansAreApart(db);
  }

  lemma WideRowsListed(e: bool)
    ensures var db, o := WideDb(e), WideOrder();
      Lists(o.nodes, VisibleNodes(db)) && Lists(o.clients, EnabledClients(db)) && Lists(o.grants, EnabledGrants(db))
  {
    var db, o := WideDb(e), WideOrder();
    assert VisibleNodes(db) == {1, 2};
    assert EnabledClients(db) == {3, 4};
    assert EnabledGrants(db) == {BY_LOW, BY_HIGH};
  }

  lemma WideOrderIsValid(e: bool)
    ensures ValidOrder(WideDb(e), WideOrder())
  {
    WideRowsListed(e);
    assert ServedDomains(WideDb(e)) == {};
    assert Lists<Prefix>([], {});
  }

  lemma SameIndexSameName(a: Addr, b: Addr)
    requires ExitIndex(a) == ExitIndex(b)
    ensures ExitDevName(a) == ExitDevName(b)
  {
  }

  lemma SharedName()
    ensures ExitDevName(LOW) == ExitDevName(HIGH)
  {
    SameIndexSameName(LOW, HIGH);
  }

  lemma TunnelIsNotOwned()
    ensures !Owned(IFACE)
  {
    assert IFACE[3] != EXIT_DEV_PREFIX[3];
  }

  lemma WideExits(e: bool, k: GrantKey)
    ensures ExitGrant(WideDb(e), k) <==> k == BY_HIGH || (e && k == BY_LOW)
    ensures RouteOf(WideDb(e), BY_HIGH) == ExitRoute(LAPTOP, HIGH)
    ensures e ==> RouteOf(WideDb(e), BY_LOW) == ExitRoute(PHONE, LOW)
  {
  }

  /** The lower node is the lowest of its name; being so does not help its client. */
  lemma PhoneIsLowest()
    ensures SetGrantExit(WideDb(false), BY_LOW, true) == Some(WideDb(true))
    ensures ExitGrant(WideDb(true), BY_LOW) && LowestOfItsName(WideDb(true), BY_LOW)
    ensures LowestOfItsName(WideDb(false), BY_HIGH)
  {
    forall e, j ensures ExitGrant(WideDb(e), j) <==> j == BY_HIGH || (e && j == BY_LOW) {
      WideExits(e, j);
    }
    assert map[BY_LOW := false, BY_HIGH := true][BY_LOW := true] == map[BY_LOW := true, BY_HIGH := true];
  }

  /** The device both nodes share, in a kernel the first pass has left behind. */
  lemma DeviceOfTheFirst(peers: seq<Peer>, chain: seq<Line>, before: KState, s: KState)
    requires ValidOrder(WideDb(false), WideOrder()) && ExitDevName(HIGH) !in before.links
    requires Running(WideDb(false), WideOrder(), peers, chain, s, IFACE)
    requires Inherits(before, s, HUB, ExitDevs(Routes(WideDb(false), WideOrder())))
    ensures ExitDevName(HIGH) in s.links && s.links[ExitDevName(HIGH)].up && s.links[ExitDevName(HIGH)].kind == Ipip(HUB, HIGH)
  {
    WideIsGood(false);
    PhoneIsLowest();
    WideExits(false, BY_HIGH);
    ExitDeviceLeadsHome(WideDb(false), WideOrder(), peers, chain, before, s, IFACE, BY_HIGH);
  }

  lemma OneName(e: bool)
    requires ValidOrder(WideDb(e), WideOrder())
    ensures NamesOf(ExitDevs(Routes(WideDb(e), WideOrder()))) == {ExitDevName(HIGH)}
  {
    var db, o := WideDb(e), WideOrder();
    var routes := Routes(db, o);
    SharedName();
    WideExits(e, BY_HIGH);
    RoutesExact(db, o, RouteOf(db, BY_HIGH));
    ExitDevsExact(routes);
    assert DeviceFor(HIGH) in ExitDevs(routes);
    forall d | d in ExitDevs(routes) ensures d.name == ExitDevName(HIGH) {
      var r :| r in routes && d == DeviceFor(r.node);
      RoutesExact(db, o, r);
      var k :| ExitGrant(db, k) && r == RouteOf(db, k);
      WideExits(e, k);
    }
  }

  lemma UpByName(devs: seq<ExitDevice>, name: string, s: KState)
    requires NamesOf(devs) == {name} && (name in s.links ==> s.links[name].up)
    ensures NoneDown(s, devs)
  {
    forall d | d in devs ensures d.name == name {
      assert d.name in NamesOf(devs);
    }
  }

  /** Both passes find nothing in their way. */
  lemma WideIsFeasible(e: bool, s: KState)
    requires ValidOrder(WideDb(e), WideOrder())
    requires ExitDevName(HIGH) in s.links ==> s.links[ExitDevName(HIGH)].up
    ensures var db, o := WideDb(e), WideOrder();
      Feasible(s, MeshPrefixes(db, o), ExitDevs(Routes(db, o)), ExitRules(Routes(db, o)))
  {
    WideIsGood(e);
    OneName(e);
    ReconcileIsFeasible(WideDb(e), WideOrder(), s);
    UpByName(ExitDevs(Routes(WideDb(e), WideOrder())), ExitDevName(HIGH), s);
  }

  /** The second pass plans the name, finds the device, and leaves it where it leads. */
  lemma DeviceStays(peers: seq<Peer>, chain: seq<Line>, before: KState, s: KState)
    requires ValidOrder(WideDb(true), WideOrder()) && ExitDevName(HIGH) in before.links
    requires Running(WideDb(true), WideOrder(), peers, chain, s, IFACE)
    requires Inherits(before, s, HUB, ExitDevs(Routes(WideDb(true), WideOrder())))
    ensures ExitDevName(LOW) in s.links && s.links[ExitDevName(LOW)].kind == before.links[ExitDevName(HIGH)].kind
  {
    OneName(true);
    SharedName();
    assert ExitDevName(HIGH) in NamesOf(ExitDevs(Routes(WideDb(true), WideOrder())));
  }

  predicate CanPass(s: KState, e: bool) {
    && Grounded(s) && Prepared(GetHub(WideDb(e)), s, IFACE) && NotDown(s, IFACE)
    && (ExitDevName(HIGH) in s.links ==> s.links[ExitDevName(HIGH)].up)
  }

  method Pass(service: Service, e: bool) returns (ok: bool)
    requires service.store.db == WideDb(e) && !service.host.faulty && service.iface == IFACE && service.resolver == null
    requires ValidOrder(WideDb(e), WideOrder()) && CanPass(service.host.state, e)
    modifies service, service.host
    ensures ok && Running(WideDb(e), WideOrder(), service.peers, service.chain, service.host.state, IFACE)
    ensures Inherits(old(service.host.state), service.host.state, HUB, ExitDevs(Routes(WideDb(e), WideOrder())))
    ensures Grounded(service.host.state) && Prepared(GetHub(WideDb(e)), service.host.state, IFACE)
    ensures NotDown(service.host.state, IFACE)
  {
    WideIsFeasible(e, service.host.state);
    ok := service.Reconcile(WideOrder());
  }

  /** The laptop's exit is put in force on an empty kernel, then the phone's is switched on and put
      in force. Everything succeeds, and the phone's device leads to the laptop's node. */
  method LowExitIsLedHigh() returns (first: bool, switched: bool, second: bool, kind: LinkKind)
    ensures first && switched && second && kind == Ipip(HUB, HIGH)
  {
    var empty := KState(map[], map[], map[], map[]);
    var store := new St.Store(WideDb(false));
    var host := new Host(empty, false);
    var service := new Service(store, host, IFACE, null, "");
    WideOrderIsValid(false);
    TunnelIsNotOwned();
    first := Pass(service, false);
    ghost var middle := host.state;
    DeviceOfTheFirst(service.peers, service.chain, empty, middle);
    PhoneIsLowest();
    switched := store.SetGrantExit(BY_LOW, true);
    WideOrderIsValid(true);
    second := Pass(service, true);
    DeviceStays(service.peers, service.chain, middle, host.state);
    kind := host.state.links[ExitDevName(LOW)].kind;
  }
}

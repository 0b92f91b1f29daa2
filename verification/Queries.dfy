/** The separate statements a reconcile reads the database with, and what it puts together from
    their answers (internal/store/queries.go, grant_rules.go, node_links.go, api_queries.go).
    Other transactions may commit between any two statements, so the assembly is a function of
    the answers and not of one database. */
module Queries {
  import opened Basics
  import opened Net
  import opened Model
  import opened Database
  import opened Snapshot

  // ---------------------------------------------------------------- answers

  datatype Query = HubQuery | NodesQuery | ClientsQuery | RulesQuery | GrantsQuery | LinksQuery | DomainsQuery

  function NodeAnswer(db: Db, o: RowOrder): seq<(Id, Node)>
    requires ValidOrder(db, o)
  {
    RowsExist(db, o);
    seq(|o.nodes|, i requires 0 <= i < |o.nodes| => (o.nodes[i], ToNode(db, o, o.nodes[i])))
  }

  function ClientAnswer(db: Db, o: RowOrder): seq<(Id, Client)>
    requires ValidOrder(db, o)
  {
    RowsExist(db, o);
    seq(|o.clients|, i requires 0 <= i < |o.clients| => (o.clients[i], ToClient(db, o.clients[i])))
  }

  function GrantAnswer(db: Db, o: RowOrder): seq<(GrantKey, bool)>
    requires ValidOrder(db, o)
  {
    RowsExist(db, o);
    seq(|o.grants|, i requires 0 <= i < |o.grants| => (o.grants[i], db.grants[o.grants[i]]))
  }

  lemma ServedRowsExist(db: Db, o: RowOrder)
    requires ValidOrder(db, o)
    ensures forall x :: x in o.domains ==> x.0 in db.nodes
  {
    forall x | x in o.domains ensures x.0 in db.nodes {
      ListedIff(o.domains, ServedDomains(db), x);
    }
  }

  /** Domain and DNS server, one row for every node that serves the domain. */
  function DomainAnswer(db: Db, o: RowOrder): seq<(string, string)>
    requires ValidOrder(db, o)
  {
    ServedRowsExist(db, o);
    seq(|o.domains|, i requires 0 <= i < |o.domains| => (o.domains[i].1, db.nodes[o.domains[i].0].dns))
  }

  /** The answers received so far. */
  datatype Reads = Reads(
    hub: Option<Hub>,
    nodes: Option<seq<(Id, Node)>>,
    clients: Option<seq<(Id, Client)>>,
    rules: Option<map<GrantKey, seq<GrantRule>>>,
    grants: Option<seq<(GrantKey, bool)>>,
    links: Option<seq<LinkKey>>,
    domains: Option<seq<(string, string)>>)

  const NOTHING_READ := Reads(None, None, None, None, None, None, None)

  /** Runs one statement against the database as it is at that moment. */
  function Ask(r: Reads, q: Query, db: Db, o: RowOrder): Reads
    requires ValidOrder(db, o)
  {
    match q
    case HubQuery => r.(hub := Some(GetHub(db)))
    case NodesQuery => r.(nodes := Some(NodeAnswer(db, o)))
    case ClientsQuery => r.(clients := Some(ClientAnswer(db, o)))
    case RulesQuery => r.(rules := Some(o.rules))
    case GrantsQuery => r.(grants := Some(GrantAnswer(db, o)))
    case LinksQuery => r.(links := Some(o.links))
    case DomainsQuery => r.(domains := Some(DomainAnswer(db, o)))
  }

  /** All the answers of one database. */
  function AskAll(db: Db, o: RowOrder): Reads
    requires ValidOrder(db, o)
  {
    Reads(Some(GetHub(db)), Some(NodeAnswer(db, o)), Some(ClientAnswer(db, o)), Some(o.rules),
          Some(GrantAnswer(db, o)), Some(o.links), Some(DomainAnswer(db, o)))
  }

  /** Everything the snapshot is put together from; the domain routes are read after it. */
  predicate SnapshotRead(r: Reads) {
    r.hub.Some? && r.nodes.Some? && r.clients.Some? && r.rules.Some? && r.grants.Some? && r.links.Some?
  }

  predicate Complete(r: Reads) {
    SnapshotRead(r) && r.domains.Some?
  }

  // ---------------------------------------------------------------- assembling them

  function Second<A, B>(rows: seq<(A, B)>): seq<B> {
    seq(|rows|, i requires 0 <= i < |rows| => rows[i].1)
  }

  function NodeByID(rows: seq<(Id, Node)>): map<Id, Node> {
    if rows == [] then map[] else NodeByID(rows[..|rows| - 1])[rows[|rows| - 1].0 := rows[|rows| - 1].1]
  }

  function ClientAddrByID(rows: seq<(Id, Client)>): map<Id, Addr> {
    if rows == [] then map[]
    else ClientAddrByID(rows[..|rows| - 1])[rows[|rows| - 1].0 := rows[|rows| - 1].1.address]
  }

  /** Grants of clients or nodes that the other statements did not list are skipped. */
  function KeptGrants(
    rows: seq<(GrantKey, bool)>, nodes: map<Id, Node>, clients: map<Id, Addr>, rules: map<GrantKey, seq<GrantRule>>): seq<Grant>
  {
    if rows == [] then []
    else
      var (k, exit) := rows[|rows| - 1];
      KeptGrants(rows[..|rows| - 1], nodes, clients, rules) +
      if k.client in clients && k.node in nodes then
        var n := nodes[k.node];
        [Grant(clients[k.client], n.address, n.subnets, RulesRead(rules, k), n.isHub, exit && !n.isHub)]
      else []
  }

  predicate LinkKept(l: LinkKey, nodes: map<Id, Node>) {
    l.src in nodes && l.dst in nodes && nodes[l.src].subnets != [] && nodes[l.dst].subnets != []
  }

  function KeptLinks(rows: seq<LinkKey>, nodes: map<Id, Node>): seq<NodeLink> {
    if rows == [] then []
    else
      var l := rows[|rows| - 1];
      KeptLinks(rows[..|rows| - 1], nodes) +
      if LinkKept(l, nodes) then [NodeLink(Some(nodes[l.src].address), nodes[l.src].subnets, nodes[l.dst].subnets)] else []
  }

  function Assembled(r: Reads): Snap
    requires SnapshotRead(r)
  {
    var nodes, clients := NodeByID(r.nodes.value), ClientAddrByID(r.clients.value);
    Snap(r.hub.value, Second(r.nodes.value), Second(r.clients.value),
         KeptGrants(r.grants.value, nodes, clients, r.rules.value), KeptLinks(r.links.value, nodes))
  }

  /** Domain to DNS server, as the loop fills the map; see RouteMapExact. */
  function RouteMap(rows: seq<(string, string)>): map<string, string> {
    if rows == [] then map[] else RouteMap(rows[..|rows| - 1])[rows[|rows| - 1].0 := rows[|rows| - 1].1]
  }

  // ---------------------------------------------------------------- the loops

  method CollectGrants(
    rows: seq<(GrantKey, bool)>, nodeByID: map<Id, Node>, clientAddrByID: map<Id, Addr>, rules: map<GrantKey, seq<GrantRule>>)
    returns (grants: seq<Grant>)
    ensures grants == KeptGrants(rows, nodeByID, clientAddrByID, rules)
  {
    grants := [];
    for i := 0 to |rows|
      invariant grants == KeptGrants(rows[..i], nodeByID, clientAddrByID, rules)
    {
      assert rows[..i + 1][..i] == rows[..i];
      var (k, exit) := rows[i];
      if k.client !in clientAddrByID || k.node !in nodeByID {
        continue;
      }
      var node := nodeByID[k.node];
      grants := grants +
        [Grant(clientAddrByID[k.client], node.address, node.subnets, RulesRead(rules, k), node.isHub, exit && !node.isHub)];
    }
    assert rows[..|rows|] == rows;
  }

  method CollectLinks(rows: seq<LinkKey>, nodeByID: map<Id, Node>) returns (links: seq<NodeLink>)
    ensures links == KeptLinks(rows, nodeByID)
  {
    links := [];
    for i := 0 to |rows|
      invariant links == KeptLinks(rows[..i], nodeByID)
    {
      assert rows[..i + 1][..i] == rows[..i];
      var l := rows[i];
      if l.src !in nodeByID || l.dst !in nodeByID || |nodeByID[l.src].subnets| == 0 || |nodeByID[l.dst].subnets| == 0 {
        continue;
      }
      var src, dst := nodeByID[l.src], nodeByID[l.dst];
      links := links + [NodeLink(Some(src.address), src.subnets, dst.subnets)];
    }
    assert rows[..|rows|] == rows;
  }

  method AssembleSnapshot(r: Reads) returns (s: Snap)
    requires SnapshotRead(r)
    ensures s == Assembled(r)
  {
    var nodeRows, clientRows := r.nodes.value, r.clients.value;
    var nodes: seq<Node>, nodeByID: map<Id, Node> := [], map[];
    for i := 0 to |nodeRows|
      invariant nodes == Second(nodeRows[..i]) && nodeByID == NodeByID(nodeRows[..i])
    {
      assert nodeRows[..i + 1][..i] == nodeRows[..i];
      nodes := nodes + [nodeRows[i].1];
      nodeByID := nodeByID[nodeRows[i].0 := nodeRows[i].1];
    }
    assert nodeRows[..|nodeRows|] == nodeRows;
    var clients: seq<Client>, clientAddrByID: map<Id, Addr> := [], map[];
    for i := 0 to |clientRows|
      invariant clients == Second(clientRows[..i]) && clientAddrByID == ClientAddrByID(clientRows[..i])
    {
      assert clientRows[..i + 1][..i] == clientRows[..i];
      clients := clients + [clientRows[i].1];
      clientAddrByID := clientAddrByID[clientRows[i].0 := clientRows[i].1.address];
    }
    assert clientRows[..|clientRows|] == clientRows;
    var grants := CollectGrants(r.grants.value, nodeByID, clientAddrByID, r.rules.value);
    var links := CollectLinks(r.links.value, nodeByID);
    s := Snap(r.hub.value, nodes, clients, grants, links);
  }

  /** The map holds the domains of the rows, each with the server of its last row. */
  predicate LastDecides(rows: seq<(string, string)>, m: map<string, string>) {
    && (forall d :: d in m ==> exists i :: 0 <= i < |rows| && rows[i].0 == d)
    && (forall i :: 0 <= i < |rows| ==> rows[i].0 in m)
    && (forall i :: 0 <= i < |rows| && (forall j :: i < j < |rows| ==> rows[j].0 != rows[i].0) ==> m[rows[i].0] == rows[i].1)
  }

  lemma {:induction false} RouteMapExact(rows: seq<(string, string)>)
    ensures LastDecides(rows, RouteMap(rows))
  {
    if rows != [] {
      var n := |rows| - 1;
      RouteMapExact(rows[..n]);
      forall d | d in RouteMap(rows) ensures exists i :: 0 <= i < |rows| && rows[i].0 == d {
        if d == rows[n].0 {
          assert rows[n].0 == d;
        } else {
          var i :| 0 <= i < n && rows[..n][i].0 == d;
          assert rows[i].0 == d;
        }
      }
      forall i | 0 <= i < |rows| ensures rows[i].0 in RouteMap(rows) {
        assert i < n ==> rows[..n][i].0 in RouteMap(rows[..n]);
      }
      forall i | 0 <= i < |rows| && (forall j :: i < j < |rows| ==> rows[j].0 != rows[i].0)
        ensures RouteMap(rows)[rows[i].0] == rows[i].1
      {
        if i < n {
          assert rows[n].0 != rows[i].0 && rows[..n][i] == rows[i];
          assert forall j :: i < j < n ==> rows[..n][j].0 == rows[j].0;
        }
      }
    }
  }

  method CollectDomains(rows: seq<(string, string)>) returns (out: map<string, string>)
    ensures out == RouteMap(rows) && LastDecides(rows, out)
  {
    out := map[];
    for i := 0 to |rows|
      invariant out == RouteMap(rows[..i])
    {
      assert rows[..i + 1][..i] == rows[..i];
      out := out[rows[i].0 := rows[i].1];
    }
    assert rows[..|rows|] == rows;
    RouteMapExact(rows);
  }

  // ---------------------------------------------------------------- answers of one database

  lemma {:induction false} IndexedNodes(rows: seq<(Id, Node)>, id: Id)
    ensures id in NodeByID(rows) <==> exists i :: 0 <= i < |rows| && rows[i].0 == id
    ensures id in NodeByID(rows) ==> exists i :: 0 <= i < |rows| && rows[i] == (id, NodeByID(rows)[id])
  {
    if rows != [] {
      var init, last := rows[..|rows| - 1], rows[|rows| - 1];
      IndexedNodes(init, id);
      if last.0 == id {
        assert rows[|rows| - 1] == (id, NodeByID(rows)[id]);
      } else if id in NodeByID(init) {
        var i :| 0 <= i < |init| && init[i] == (id, NodeByID(init)[id]);
        assert rows[i] == (id, NodeByID(rows)[id]);
      }
    }
  }

  lemma {:induction false} IndexedClients(rows: seq<(Id, Client)>, id: Id)
    ensures id in ClientAddrByID(rows) <==> exists i :: 0 <= i < |rows| && rows[i].0 == id
    ensures id in ClientAddrByID(rows) ==>
      exists i :: 0 <= i < |rows| && rows[i].0 == id && rows[i].1.address == ClientAddrByID(rows)[id]
  {
    if rows != [] {
      var init, last := rows[..|rows| - 1], rows[|rows| - 1];
      IndexedClients(init, id);
      if last.0 == id {
        assert rows[|rows| - 1].1.address == ClientAddrByID(rows)[id];
      } else if id in ClientAddrByID(init) {
        var i :| 0 <= i < |init| && init[i].0 == id && init[i].1.address == ClientAddrByID(init)[id];
        assert rows[i].0 == id && rows[i].1.address == ClientAddrByID(rows)[id];
      }
    }
  }

  lemma NodeIndexExact(db: Db, o: RowOrder, id: Id)
    requires ValidOrder(db, o)
    ensures id in NodeByID(NodeAnswer(db, o)) <==> Visible(db, id)
    ensures Visible(db, id) ==> NodeByID(NodeAnswer(db, o))[id] == ToNode(db, o, id)
  {
    var rows := NodeAnswer(db, o);
    IndexedNodes(rows, id);
    ListedIff(o.nodes, VisibleNodes(db), id);
    RowsExist(db, o);
    if Visible(db, id) {
      var i :| 0 <= i < |o.nodes| && o.nodes[i] == id;
      assert rows[i].0 == id;
    }
  }

  lemma ClientIndexExact(db: Db, o: RowOrder, id: Id)
    requires ValidOrder(db, o)
    ensures id in ClientAddrByID(ClientAnswer(db, o)) <==> Enabled(db, id)
    ensures Enabled(db, id) ==> ClientAddrByID(ClientAnswer(db, o))[id] == db.clients[id].address
  {
    var rows := ClientAnswer(db, o);
    IndexedClients(rows, id);
    ListedIff(o.clients, EnabledClients(db), id);
    RowsExist(db, o);
    if Enabled(db, id) {
      var i :| 0 <= i < |o.clients| && o.clients[i] == id;
      assert rows[i].0 == id;
    }
  }

  lemma {:induction false} GrantsAssembled(db: Db, o: RowOrder, n: nat)
    requires ValidOrder(db, o) && n <= |o.grants|
    requires forall k :: k in o.grants ==> k in db.grants && k.client in db.clients
    ensures KeptGrants(GrantAnswer(db, o)[..n], NodeByID(NodeAnswer(db, o)), ClientAddrByID(ClientAnswer(db, o)), o.rules)
         == GrantRows(db, o, o.grants[..n])
  {
    if n > 0 {
      GrantsAssembled(db, o, n - 1);
      var k := o.grants[n - 1];
      assert GrantAnswer(db, o)[..n][..n - 1] == GrantAnswer(db, o)[..n - 1];
      assert o.grants[..n][..n - 1] == o.grants[..n - 1];
      ListedIff(o.grants, EnabledGrants(db), k);
      NodeIndexExact(db, o, k.node);
      ClientIndexExact(db, o, k.client);
    }
  }

  lemma {:induction false} LinksAssembled(db: Db, o: RowOrder, n: nat)
    requires ValidOrder(db, o) && n <= |o.links|
    ensures KeptLinks(o.links[..n], NodeByID(NodeAnswer(db, o))) == LinkRows(db, o, o.links[..n])
  {
    if n > 0 {
      LinksAssembled(db, o, n - 1);
      var l := o.links[n - 1];
      assert o.links[..n][..n - 1] == o.links[..n - 1];
      NodeIndexExact(db, o, l.src);
      NodeIndexExact(db, o, l.dst);
    }
  }

  /** Read without interruption, the statements give the snapshot of the database. */
  lemma AssembledIsSnapshot(db: Db, o: RowOrder)
    requires ValidOrder(db, o)
    ensures Assembled(AskAll(db, o)) == SnapshotOf(db, o)
  {
    RowsExist(db, o);
    GrantsAssembled(db, o, |o.grants|);
    LinksAssembled(db, o, |o.links|);
    assert GrantAnswer(db, o)[..|o.grants|] == GrantAnswer(db, o) && o.grants[..|o.grants|] == o.grants;
    assert o.links[..|o.links|] == o.links;
    assert Second(NodeAnswer(db, o)) == NodeRows(db, o, o.nodes);
    assert Second(ClientAnswer(db, o)) == ClientRows(db, o.clients);
  }

  // ---------------------------------------------------------------- the domain map of a database

  /** The DNS servers of the active nodes that serve a domain. */
  function Servers(db: Db, d: string): set<string> {
    set id | id in db.nodes && (id, d) in ServedDomains(db) :: db.nodes[id].dns
  }

  /** Exactly the served domains, each with the server of some node that serves it. */
  ghost predicate IsRouteMap(db: Db, m: map<string, string>) {
    && (forall d :: d in m ==> m[d] in Servers(db, d))
    && (forall d :: Servers(db, d) != {} ==> d in m)
  }

  /** No domain is served by two nodes with different DNS servers. */
  ghost predicate OneServerEach(db: Db) {
    forall d, x, y :: x in Servers(db, d) && y in Servers(db, d) ==> x == y
  }

  /** The rows are the served domains with their servers. */
  lemma RowIsServed(db: Db, o: RowOrder, d: string, x: string)
    requires ValidOrder(db, o)
    ensures (d, x) in DomainAnswer(db, o) <==> x in Servers(db, d)
  {
    ServedRowsExist(db, o);
    var rows := DomainAnswer(db, o);
    if (d, x) in rows {
      var i :| 0 <= i < |rows| && rows[i] == (d, x);
      ListedIff(o.domains, ServedDomains(db), o.domains[i]);
      assert o.domains[i] == (o.domains[i].0, d);
    }
    if x in Servers(db, d) {
      var id :| id in db.nodes && (id, d) in ServedDomains(db) && db.nodes[id].dns == x;
      ListedIff(o.domains, ServedDomains(db), (id, d));
      var i :| 0 <= i < |o.domains| && o.domains[i] == (id, d);
      assert rows[i] == (d, x);
    }
  }

  lemma LastRowOf(rows: seq<(string, string)>, d: string, n: nat) returns (i: nat)
    requires n < |rows| && rows[n].0 == d
    ensures n <= i < |rows| && rows[i].0 == d && forall j :: i < j < |rows| ==> rows[j].0 != d
  {
    i := |rows| - 1;
    while rows[i].0 != d
      invariant n <= i < |rows| && forall j :: i < j < |rows| ==> rows[j].0 != d
      decreases i
    {
      i := i - 1;
    }
  }

  lemma MapIsOfRows(rows: seq<(string, string)>, d: string)
    ensures d in RouteMap(rows) ==> (d, RouteMap(rows)[d]) in rows
    ensures forall x :: (d, x) in rows ==> d in RouteMap(rows)
  {
    RouteMapExact(rows);
    if d in RouteMap(rows) {
      var n :| 0 <= n < |rows| && rows[n].0 == d;
      var i := LastRowOf(rows, d, n);
      assert rows[i] == (d, RouteMap(rows)[d]);
    }
  }

  /** In whatever order the rows come, the map is one of the database's route maps. */
  lemma RoutesAreServed(db: Db, o: RowOrder)
    requires ValidOrder(db, o)
    ensures IsRouteMap(db, RouteMap(DomainAnswer(db, o)))
  {
    var rows := DomainAnswer(db, o);
    var m := RouteMap(rows);
    forall d | d in m ensures m[d] in Servers(db, d) {
      MapIsOfRows(rows, d);
      RowIsServed(db, o, d, m[d]);
    }
    forall d | Servers(db, d) != {} ensures d in m {
      var x :| x in Servers(db, d);
      MapIsOfRows(rows, d);
      RowIsServed(db, o, d, x);
    }
  }

  /** Rows whose tail agrees with a map, and names all its domains, give that map. */
  lemma TailDecides(rows: seq<(string, string)>, n: nat, m: map<string, string>)
    requires n <= |rows| && forall i :: 0 <= i < |rows| ==> rows[i].0 in m
    requires forall i :: n <= i < |rows| ==> rows[i].1 == m[rows[i].0]
    requires forall d :: d in m ==> exists i :: n <= i < |rows| && rows[i].0 == d
    ensures RouteMap(rows) == m
  {
    var r := RouteMap(rows);
    RouteMapExact(rows);
    forall d | d in m ensures d in r && r[d] == m[d] {
      var w :| n <= w < |rows| && rows[w].0 == d;
      var i := LastRowOf(rows, d, w);
    }
    assert r.Keys == m.Keys;
  }

  /** The rows that a route map takes its servers from. */
  function Winners(db: Db, m: map<string, string>): set<(Id, string)> {
    set x | x in ServedDomains(db) && x.0 in db.nodes && x.1 in m && m[x.1] == db.nodes[x.0].dns
  }

  lemma WinnerOf(db: Db, m: map<string, string>, winners: seq<(Id, string)>, d: string) returns (w: nat)
    requires IsRouteMap(db, m) && Lists(winners, Winners(db, m)) && d in m
    ensures w < |winners| && winners[w].1 == d
  {
    var id :| id in db.nodes && (id, d) in ServedDomains(db) && db.nodes[id].dns == m[d];
    ListedIff(winners, Winners(db, m), (id, d));
    w :| 0 <= w < |winners| && winners[w] == (id, d);
  }

  lemma DomainOfRow(db: Db, p: RowOrder, m: map<string, string>, i: nat)
    requires ValidOrder(db, p) && IsRouteMap(db, m) && i < |p.domains|
    ensures p.domains[i].0 in db.nodes && p.domains[i].1 in m
    ensures DomainAnswer(db, p)[i] == (p.domains[i].1, db.nodes[p.domains[i].0].dns)
  {
    ServedRowsExist(db, p);
    var row := DomainAnswer(db, p)[i];
    assert (row.0, row.1) in DomainAnswer(db, p);
    RowIsServed(db, p, row.0, row.1);
  }

  lemma WinnersDecide(db: Db, p: RowOrder, losers: seq<(Id, string)>, winners: seq<(Id, string)>, m: map<string, string>)
    requires ValidOrder(db, p) && p.domains == losers + winners
    requires IsRouteMap(db, m) && Lists(winners, Winners(db, m))
    ensures RouteMap(DomainAnswer(db, p)) == m
  {
    var rows, n := DomainAnswer(db, p), |losers|;
    forall i | 0 <= i < |rows| ensures rows[i].0 in m {
      DomainOfRow(db, p, m, i);
    }
    forall i | n <= i < |rows| ensures rows[i].1 == m[rows[i].0] {
      DomainOfRow(db, p, m, i);
      ListedIff(winners, Winners(db, m), winners[i - n]);
    }
    forall d | d in m ensures exists i :: n <= i < |rows| && rows[i].0 == d {
      var w := WinnerOf(db, m, winners, d);
      DomainOfRow(db, p, m, n + w);
    }
    TailDecides(rows, n, m);
  }

  /** And every route map of the database comes from some order of the rows. */
  lemma OrderForRoutes(db: Db, o: RowOrder, m: map<string, string>) returns (p: RowOrder)
    requires ValidOrder(db, o) && IsRouteMap(db, m)
    ensures p == o.(domains := p.domains) && ValidOrder(db, p) && RouteMap(DomainAnswer(db, p)) == m
  {
    var win := Winners(db, m);
    var winners := SomeOrder(win);
    var losers := SomeOrder(ServedDomains(db) - win);
    ListsConcat(losers, ServedDomains(db) - win, winners, win);
    assert (ServedDomains(db) - win) + win == ServedDomains(db);
    p := o.(domains := losers + winners);
    WinnersDecide(db, p, losers, winners, m);
  }

  lemma RouteMapsAgree(db: Db, m: map<string, string>, r: map<string, string>)
    requires OneServerEach(db) && IsRouteMap(db, m) && IsRouteMap(db, r)
    ensures m == r
  {
    forall d | d in m ensures d in r && m[d] == r[d] {
      assert m[d] in Servers(db, d);
    }
    forall d | d in r ensures d in m {
      assert r[d] in Servers(db, d);
    }
    assert m.Keys == r.Keys;
  }

  lemma AnotherRouteMap(db: Db, m: map<string, string>) returns (other: map<string, string>)
    requires IsRouteMap(db, m) && !OneServerEach(db)
    ensures IsRouteMap(db, other) && other != m
  {
    var d, x, y :| x in Servers(db, d) && y in Servers(db, d) && x != y;
    other := m[d := if m[d] == x then y else x];
    assert other[d] != m[d];
  }

  /** The resolver's input does depend on the order of the rows, which no ORDER BY fixes, exactly
      when two active nodes serve one domain with different servers. */
  lemma RoutesAreFixedIff(db: Db, o: RowOrder)
    requires ValidOrder(db, o)
    ensures (forall p :: ValidOrder(db, p) ==> RouteMap(DomainAnswer(db, p)) == RouteMap(DomainAnswer(db, o)))
      <==> OneServerEach(db)
  {
    var m := RouteMap(DomainAnswer(db, o));
    RoutesAreServed(db, o);
    if OneServerEach(db) {
      forall p | ValidOrder(db, p) ensures RouteMap(DomainAnswer(db, p)) == m {
        RoutesAreServed(db, p);
        RouteMapsAgree(db, RouteMap(DomainAnswer(db, p)), m);
      }
    } else {
      var other := AnotherRouteMap(db, m);
      var p := OrderForRoutes(db, o, other);
    }
  }

  /** Whichever node of a domain has its row read last, its server is the one in the map. */
  lemma EitherServerWins(db: Db, o: RowOrder, id: Id, d: string) returns (p: RowOrder)
    requires ValidOrder(db, o) && id in db.nodes && (id, d) in ServedDomains(db)
    ensures ValidOrder(db, p) && d in RouteMap(DomainAnswer(db, p)) && RouteMap(DomainAnswer(db, p))[d] == db.nodes[id].dns
  {
    RoutesAreServed(db, o);
    p := OrderForRoutes(db, o, RouteMap(DomainAnswer(db, o))[d := db.nodes[id].dns]);
  }

  function ServingNode(address: Addr, dns: string): NodeRow {
    NodeRow("", Some(address), "", "", Active, false, None, {}, dns, {"lan"})
  }

  /** Two nodes that both serve "lan". */
  function SharedDomain(): Db {
    Db(HubRow(1, Cidr(0, 32), "eth0"), map[1 := ServingNode(2, "10.0.0.1"), 2 := ServingNode(3, "10.0.0.2")], map[], map[], map[], {})
  }

  lemma SharedDomainDepends() returns (o: RowOrder, p: RowOrder)
    ensures ValidOrder(SharedDomain(), o) && ValidOrder(SharedDomain(), p)
    ensures "lan" in RouteMap(DomainAnswer(SharedDomain(), o)) && "lan" in RouteMap(DomainAnswer(SharedDomain(), p))
    ensures RouteMap(DomainAnswer(SharedDomain(), o))["lan"] != RouteMap(DomainAnswer(SharedDomain(), p))["lan"]
  {
    var db := SharedDomain();
    var domains := [(1, "lan"), (2, "lan")];
    var some := RowOrder([1, 2], [], [], [], map[1 := [], 2 := []], map[], domains);
    assert Lists(some.nodes, VisibleNodes(db)) by {
      assert VisibleNodes(db) == {1, 2};
    }
    assert Lists(domains, ServedDomains(db)) by {
      assert ServedDomains(db) == {(1, "lan"), (2, "lan")};
    }
    assert Lists<Prefix>([], {}) && Lists<Id>([], EnabledClients(db)) && Lists<GrantKey>([], EnabledGrants(db));
    o := EitherServerWins(db, some, 1, "lan");
    p := EitherServerWins(db, some, 2, "lan");
    assert "10.0.0.1"[7] != "10.0.0.2"[7];
  }
}

/** How a change stays out of force: the two handlers of several statements, for clients and for
    nodes, fail after the first and return without reconciling (internal/api/handlers.go), and a
    re-announcement is never reconciled (internal/api/handlers_enroll.go). */
module Staleness {
  import opened Basics
  import opened Net
  import opened Model
  import opened Database
  import opened Snapshot
  import opened Queries
  import opened Invariant
  import opened Policy
  import opened Nft
  import opened Render
  import opened Rendering
  import opened Handlers

  // ---------------------------------------------------------------- the early return

  lemma EarlyReturnKeepsTheRest(s: State, h: nat, next: Db)
    requires s.handlers == map[]
    ensures After(After(After(s, Start(h)), Mutate(h, next)), ReturnEarly(h)) == s.(db := next)
  {
    var t := After(After(After(s, Start(h)), Mutate(h, next)), ReturnEarly(h));
    assert t.handlers == map[];
  }

  /** A handler that changes the database in one statement and fails in the next returns without
      reconciling. That is harmless when no statement sees the change. */
  lemma EarlyReturnIsHarmless(s: State, h: nat, next: Db)
    requires s.handlers == map[] && s.holder == None && Consistent(s) && SameAnswers(s.db, next)
    ensures Consistent(After(After(After(s, Start(h)), Mutate(h, next)), ReturnEarly(h)))
  {
    EarlyReturnKeepsTheRest(s, h, next);
    ConsistentAlike(s, next);
  }

  /** A client's row answers differently exactly when its switch moves. */
  lemma UpdateClientUnobservedIff(db: Db, id: Id, enabled: bool)
    ensures SameAnswers(db, UpdateClient(db, id, enabled).value) <==>
      id !in db.clients || db.clients[id].enabled == enabled
  {
    var next := UpdateClient(db, id, enabled).value;
    if id in db.clients {
      var a, b := ClientFacts(db), ClientFacts(next);
      assert (id in a <==> db.clients[id].enabled) && (id in b <==> enabled);
      if db.clients[id].enabled == enabled {
        assert next.clients == db.clients;
        assert next == db;
      }
    }
  }

  lemma {:induction false} ListLength<T>(rows: seq<T>, s: set<T>)
    requires Lists(rows, s)
    ensures |rows| == |s|
  {
    if rows != [] {
      var init, last := rows[..|rows| - 1], rows[|rows| - 1];
      var t := set x | x in init;
      assert rows == init + [last];
      assert last !in t && s == t + {last};
      ListLength(init, t);
    }
  }

  /** The listed nodes that are peers of the hub. */
  function PeerIds(db: Db, ids: seq<Id>): set<Id> {
    set id | id in ids && id in db.nodes && !db.nodes[id].isHub
  }

  lemma PeerIdsSnoc(db: Db, init: seq<Id>, last: Id)
    requires last in db.nodes && last !in init
    ensures PeerIds(db, init + [last]) == PeerIds(db, init) + if db.nodes[last].isHub then {} else {last}
    ensures last !in PeerIds(db, init)
  {
    var all := init + [last];
    assert forall id :: id in all <==> id in init || id == last;
  }

  lemma NodePeersSnoc(nodes: seq<Node>, n: Node)
    ensures |NodePeers(nodes + [n])| == |NodePeers(nodes)| + if n.isHub then 0 else 1
  {
    assert (nodes + [n])[..|nodes|] == nodes;
  }

  /** One peer for every listed real node, in whatever order. */
  lemma {:induction false} NodePeerCount(db: Db, o: RowOrder, ids: seq<Id>)
    requires SubnetOrder(db, o.subnets) && NoDup(ids) && forall id :: id in ids ==> Visible(db, id)
    ensures |NodePeers(NodeRows(db, o, ids))| == |PeerIds(db, ids)|
  {
    if ids != [] {
      var init, last := ids[..|ids| - 1], ids[|ids| - 1];
      assert ids == init + [last] && last !in init && Visible(db, last);
      assert NodeRows(db, o, ids) == NodeRows(db, o, init) + [ToNode(db, o, last)];
      NodePeerCount(db, o, init);
      NodePeersSnoc(NodeRows(db, o, init), ToNode(db, o, last));
      PeerIdsSnoc(db, init, last);
    }
  }

  lemma ClientPeerCount(clients: seq<Client>)
    ensures |ClientPeers(clients)| == |clients|
  {
  }

  /** The visible real nodes. */
  function RealNodes(db: Db): set<Id> {
    set id | id in db.nodes && RealNode(db, id)
  }

  /** The table has one peer per visible real node and one per enabled client. */
  lemma PeerCount(db: Db, o: RowOrder)
    requires ValidOrder(db, o)
    ensures |Rendered(db, o).peers| == |RealNodes(db)| + |EnabledClients(db)|
  {
    RowsExist(db, o);
    NodePeerCount(db, o, o.nodes);
    assert PeerIds(db, o.nodes) == RealNodes(db) by {
      forall id ensures id in o.nodes <==> Visible(db, id) {
        ListedIff(o.nodes, VisibleNodes(db), id);
      }
    }
    ListLength(o.clients, EnabledClients(db));
    ClientPeerCount(SnapshotOf(db, o).clients);
  }

  lemma SwitchMovesOne(db: Db, id: Id, enabled: bool)
    requires id in db.clients && db.clients[id].enabled != enabled
    ensures |EnabledClients(UpdateClient(db, id, enabled).value)| != |EnabledClients(db)|
  {
    var next := UpdateClient(db, id, enabled).value;
    if enabled {
      assert EnabledClients(next) == EnabledClients(db) + {id} && id !in EnabledClients(db);
    } else {
      assert EnabledClients(db) == EnabledClients(next) + {id} && id !in EnabledClients(next);
    }
  }

  /** Moving a client's switch changes the number of peers, so no order makes the renderings
      agree. */
  lemma SwitchChangesTable(db: Db, id: Id, enabled: bool, o: RowOrder, p: RowOrder)
    requires ValidOrder(db, o) && id in db.clients && db.clients[id].enabled != enabled
    requires ValidOrder(UpdateClient(db, id, enabled).value, p)
    ensures Rendered(db, o) != Rendered(UpdateClient(db, id, enabled).value, p)
  {
    var next := UpdateClient(db, id, enabled).value;
    PeerCount(db, o);
    PeerCount(next, p);
    SwitchMovesOne(db, id, enabled);
    assert RealNodes(next) == RealNodes(db) by {
      assert next.nodes == db.nodes;
    }
  }

  predicate HexDigit(c: char) {
    '0' <= c <= '9' || 'a' <= c <= 'f' || 'A' <= c <= 'F'
  }

  lemma HexDigitListed(c: char)
    ensures HexDigit(c) <==> c in "0123456789abcdefABCDEF"
  {
    var all := "0123456789abcdefABCDEF";
    if '0' <= c <= '9' {
      assert all[c as int - '0' as int] == c;
    } else if 'a' <= c <= 'f' {
      assert all[10 + (c as int - 'a' as int)] == c;
    } else if 'A' <= c <= 'F' {
      assert all[16 + (c as int - 'A' as int)] == c;
    }
  }

  /** Empty, or '#' and six hexadecimal digits. */
  predicate ColorAccepted(color: string) {
    color == "" || (|color| == 7 && color[0] == '#' && forall i :: 1 <= i < 7 ==> HexDigit(color[i]))
  }

  /** A colour is accepted when it is empty or spelt with six digits out of the sixteen, in either
      case. */
  lemma ColorAcceptedIff(color: string)
    ensures ColorAccepted(color) <==>
      color == "" || exists digits: string ::
        color == "#" + digits && |digits| == 6 && forall i :: 0 <= i < 6 ==> digits[i] in "0123456789abcdefABCDEF"
  {
    forall c: char ensures HexDigit(c) <==> c in "0123456789abcdefABCDEF" {
      HexDigitListed(c);
    }
    if color != "" && ColorAccepted(color) {
      var digits := color[1..];
      assert color == "#" + digits;
      assert forall i :: 0 <= i < 6 ==> digits[i] == color[i + 1];
    }
    if digits: string :| color == "#" + digits && |digits| == 6 && forall i :: 0 <= i < 6 ==> digits[i] in "0123456789abcdefABCDEF" {
      assert forall i :: 1 <= i < 7 ==> color[i] == digits[i - 1];
    }
  }

  /** The client handler commits the switch before it validates the colour, and returns early
      on a bad one; a good one, or none, goes on to Reconcile. */
  function PatchClient(s: State, h: nat, id: Id, enabled: bool, color: Option<string>): State
    requires h !in s.handlers
  {
    var changed := After(After(s, Start(h)), Mutate(h, UpdateClient(s.db, id, enabled).value));
    if color.Some? && !ColorAccepted(color.value) then After(changed, ReturnEarly(h)) else After(changed, Request(h))
  }

  lemma MovedSwitchIsStale(s: State, id: Id, enabled: bool)
    requires Consistent(s)
    ensures Consistent(s.(db := UpdateClient(s.db, id, enabled).value)) <==>
      id !in s.db.clients || s.db.clients[id].enabled == enabled
  {
    var next := UpdateClient(s.db, id, enabled).value;
    UpdateClientUnobservedIff(s.db, id, enabled);
    if SameAnswers(s.db, next) {
      ConsistentAlike(s, next);
    } else {
      var o :| ValidOrder(s.db, o) && s.applied == Some(Rendered(s.db, o));
      forall p | ValidOrder(next, p) ensures s.applied != Some(Rendered(next, p)) {
        SwitchChangesTable(s.db, id, enabled, o, p);
      }
    }
  }

  /** So a request that moves a client's switch and carries a bad colour leaves the old
      configuration in force with no reconcile pending: disabling the client does not cut it. */
  lemma PatchClientConsistentIff(s: State, h: nat, id: Id, enabled: bool, color: Option<string>)
    requires s.handlers == map[] && s.holder == None && Consistent(s)
    ensures var t := PatchClient(s, h, id, enabled, color);
      Consistent(t) || Handlers.Pending(t) <==>
        (color.Some? ==> ColorAccepted(color.value)) || id !in s.db.clients || s.db.clients[id].enabled == enabled
  {
    var next := UpdateClient(s.db, id, enabled).value;
    var t := PatchClient(s, h, id, enabled, color);
    if color.Some? && !ColorAccepted(color.value) {
      EarlyReturnKeepsTheRest(s, h, next);
      assert t == s.(db := next) && !Handlers.Pending(t);
      MovedSwitchIsStale(s, id, enabled);
    } else {
      assert t.handlers[h] == Waiting;
    }
  }

  // ---------------------------------------------------------------- the node handler

  /** The node after the handler's DNS statement. */
  function WithDns(db: Db, id: Id, dns: Option<string>): Db {
    if dns.Some? then Outcome(db, SetNodeDNS(db, id, dns.value)) else db
  }

  /** And after its domains statement, which is refused for a node that does not exist. */
  function WithDomains(db: Db, id: Id, domains: Option<seq<string>>): Db {
    if domains.Some? then Outcome(db, SetNodeDomains(db, id, domains.value)) else db
  }

  /** What the request leaves in the database. */
  function PatchedNode(db: Db, id: Id, dns: Option<string>, domains: Option<seq<string>>): (next: Db)
    ensures id in db.nodes ==> id in next.nodes && next.nodes == db.nodes[id := next.nodes[id]]
  {
    WithDomains(WithDns(db, id, dns), id, domains)
  }

  /** The request gets past its domains and its colour. */
  predicate NodeRequestAccepted(db: Db, id: Id, domains: Option<seq<string>>, color: Option<string>) {
    && (domains.Some? ==> id in db.nodes || StoredDomains(domains.value) == {})
    && (color.Some? ==> ColorAccepted(color.value))
  }

  function MutateIf(s: State, h: nat, on: bool, next: Db): State
    requires h in s.handlers && s.handlers[h].Started?
  {
    if on then After(s, Mutate(h, next)) else s
  }

  /** The node handler commits the DNS server, then the domains, and only then validates the
      colour; each failure returns without Reconcile. */
  function PatchNode(
    s: State, h: nat, id: Id, dns: Option<string>, domains: Option<seq<string>>, color: Option<string>): State
    requires h !in s.handlers
  {
    var s1 := MutateIf(After(s, Start(h)), h, dns.Some?, WithDns(s.db, id, dns));
    if domains.Some? && SetNodeDomains(s1.db, id, domains.value).None? then After(s1, ReturnEarly(h))
    else
      var s2 := MutateIf(s1, h, domains.Some?, WithDomains(s1.db, id, domains));
      if color.Some? && !ColorAccepted(color.value) then After(s2, ReturnEarly(h)) else After(s2, Request(h))
  }

  lemma PatchNodeEnds(
    s: State, h: nat, id: Id, dns: Option<string>, domains: Option<seq<string>>, color: Option<string>)
    requires s.handlers == map[]
    ensures var t := PatchNode(s, h, id, dns, domains, color); var next := PatchedNode(s.db, id, dns, domains);
      if NodeRequestAccepted(s.db, id, domains, color) then Handlers.Pending(t) && t.db == next
      else t == s.(db := next)
  {
    var t, next := PatchNode(s, h, id, dns, domains, color), PatchedNode(s.db, id, dns, domains);
    if NodeRequestAccepted(s.db, id, domains, color) {
      assert t.handlers[h] == Waiting;
    } else {
      assert t.handlers == s.handlers;
    }
  }

  /** Two databases that differ in nodes' DNS servers and domains only. */
  ghost predicate DiffersInDns(a: Db, b: Db) {
    && a.hub == b.hub && a.clients == b.clients && a.grants == b.grants && a.rules == b.rules && a.links == b.links
    && (forall id :: id in a.nodes <==> id in b.nodes)
    && (forall id :: id in a.nodes ==> b.nodes[id] == a.nodes[id].(dns := b.nodes[id].dns, domains := b.nodes[id].domains))
  }

  lemma PatchDiffersInDns(db: Db, id: Id, dns: Option<string>, domains: Option<seq<string>>)
    ensures DiffersInDns(db, PatchedNode(db, id, dns, domains))
  {
  }

  lemma RowsCarryOver(a: Db, b: Db)
    requires DiffersInDns(a, b)
    ensures VisibleNodes(a) == VisibleNodes(b) && EnabledClients(a) == EnabledClients(b) && EnabledGrants(a) == EnabledGrants(b)
    ensures forall id :: Visible(a, id) <==> Visible(b, id)
    ensures forall id :: Visible(a, id) ==> a.nodes[id].subnets == b.nodes[id].subnets
  {
    forall id ensures Visible(a, id) <==> Visible(b, id) {
      assert id in a.nodes <==> id in b.nodes;
    }
  }

  lemma OrderCarriesOver(a: Db, b: Db, o: RowOrder) returns (p: RowOrder)
    requires DiffersInDns(a, b) && ValidOrder(a, o)
    ensures p == o.(domains := p.domains) && ValidOrder(b, p)
  {
    var rows := SomeOrder(ServedDomains(b));
    p := o.(domains := rows);
    RowsCarryOver(a, b);
    assert SubnetOrder(b, p.subnets) by {
      forall id | id in b.nodes && Visible(b, id) ensures id in p.subnets && Lists(p.subnets[id], b.nodes[id].subnets) {
        assert Visible(a, id);
      }
    }
  }

  lemma AnswersCarryOver(a: Db, b: Db, o: RowOrder, p: RowOrder)
    requires DiffersInDns(a, b) && ValidOrder(a, o) && ValidOrder(b, p) && p == o.(domains := p.domains)
    ensures NodeAnswer(a, o) == NodeAnswer(b, p) && ClientAnswer(a, o) == ClientAnswer(b, p) && GrantAnswer(a, o) == GrantAnswer(b, p)
  {
    RowsExist(a, o);
    RowsExist(b, p);
    forall i | 0 <= i < |o.nodes| ensures NodeAnswer(a, o)[i] == NodeAnswer(b, p)[i] {
      var id := o.nodes[i];
      assert id in o.nodes && Visible(a, id) && Visible(b, id);
      assert b.nodes[id] == a.nodes[id].(dns := b.nodes[id].dns, domains := b.nodes[id].domains);
    }
  }

  /** Such databases have the same snapshots, so their renderings differ in the domain map only. */
  lemma SnapshotsCarryOver(a: Db, b: Db, o: RowOrder, p: RowOrder)
    requires DiffersInDns(a, b) && ValidOrder(a, o) && ValidOrder(b, p) && p == o.(domains := p.domains)
    ensures SnapshotOf(a, o) == SnapshotOf(b, p)
  {
    AnswersCarryOver(a, b, o, p);
    AssembledIsSnapshot(a, o);
    AssembledIsSnapshot(b, p);
    assert Assembled(AskAll(a, o)) == Assembled(AskAll(b, p));
  }

  /** So what runs is still right exactly when the resolver's map in force is a route map of the new
      database: each domain somebody serves, with the server of a node that serves it. */
  lemma DnsChangeIsStaleIff(s: State, next: Db)
    requires Consistent(s) && DiffersInDns(s.db, next)
    ensures Consistent(s.(db := next)) <==> IsRouteMap(next, s.applied.value.domains)
  {
    var o :| ValidOrder(s.db, o) && s.applied == Some(Rendered(s.db, o));
    if IsRouteMap(next, s.applied.value.domains) {
      var q := OrderCarriesOver(s.db, next, o);
      var p := OrderForRoutes(next, q, s.applied.value.domains);
      SnapshotsCarryOver(s.db, next, o, p);
      assert s.applied == Some(Rendered(next, p));
    }
    if Consistent(s.(db := next)) {
      var p :| ValidOrder(next, p) && s.applied == Some(Rendered(next, p));
      RoutesAreServed(next, p);
    }
  }

  /** A request to the node handler on a settled system leaves the running configuration right, or a
      reconcile on its way, exactly when it is accepted, or the map in force is a route map of the
      database it leaves. */
  lemma PatchNodeConsistentIff(
    s: State, h: nat, id: Id, dns: Option<string>, domains: Option<seq<string>>, color: Option<string>)
    requires s.handlers == map[] && s.holder == None && Consistent(s)
    ensures var t := PatchNode(s, h, id, dns, domains, color);
      Consistent(t) || Handlers.Pending(t) <==>
        NodeRequestAccepted(s.db, id, domains, color)
        || IsRouteMap(PatchedNode(s.db, id, dns, domains), s.applied.value.domains)
  {
    PatchNodeEnds(s, h, id, dns, domains, color);
    PatchDiffersInDns(s.db, id, dns, domains);
    DnsChangeIsStaleIff(s, PatchedNode(s.db, id, dns, domains));
  }

  /** The domains a row contributes, with its server. */
  function Offer(n: NodeRow): set<(string, string)> {
    if n.status == Active && n.dns != "" then set d | d in n.domains :: (d, n.dns) else {}
  }

  lemma OfferIsServed(db: Db, id: Id, d: string)
    requires id in db.nodes
    ensures (id, d) in ServedDomains(db) <==> (d, db.nodes[id].dns) in Offer(db.nodes[id])
    ensures forall x :: (d, x) in Offer(db.nodes[id]) ==> x == db.nodes[id].dns
  {
  }

  /** No other node serves a domain that the row offers, before or after. */
  ghost predicate ServesAlone(a: Db, b: Db, id: Id)
    requires id in a.nodes && id in b.nodes
  {
    forall j, d, x :: j in a.nodes && j != id && (j, d) in ServedDomains(a) ==>
      (d, x) !in Offer(a.nodes[id]) && (d, x) !in Offer(b.nodes[id])
  }

  /** The node is the only server of what it offers. */
  lemma OnlyServer(a: Db, b: Db, c: Db, id: Id, d: string, x: string)
    requires id in a.nodes && id in b.nodes && ServesAlone(a, b, id)
    requires c == a || c == b
    requires b.nodes == a.nodes[id := b.nodes[id]]
    requires (d, x) in Offer(a.nodes[id]) || (d, x) in Offer(b.nodes[id])
    ensures forall y :: y in Servers(c, d) <==> (d, y) in Offer(c.nodes[id])
  {
    OfferIsServed(c, id, d);
    forall y | y in Servers(c, d) ensures (d, y) in Offer(c.nodes[id]) {
      var j :| j in c.nodes && (j, d) in ServedDomains(c) && c.nodes[j].dns == y;
      assert j != id ==> (j, d) in ServedDomains(a);
    }
  }

  lemma SameOfferSameServers(a: Db, b: Db, id: Id, d: string)
    requires id in a.nodes && id in b.nodes && b.nodes == a.nodes[id := b.nodes[id]] && Offer(a.nodes[id]) == Offer(b.nodes[id])
    ensures Servers(a, d) == Servers(b, d)
  {
    OfferIsServed(a, id, d);
    OfferIsServed(b, id, d);
    forall j | j != id ensures (j, d) in ServedDomains(a) <==> (j, d) in ServedDomains(b) {
    }
  }

  /** For a node that serves alone, a route map stays one exactly when its offer is the same. */
  lemma AloneRouteMapIff(a: Db, b: Db, id: Id, m: map<string, string>)
    requires id in a.nodes && id in b.nodes && b.nodes == a.nodes[id := b.nodes[id]] && ServesAlone(a, b, id) && IsRouteMap(a, m)
    ensures IsRouteMap(b, m) <==> Offer(a.nodes[id]) == Offer(b.nodes[id])
  {
    var old_, new_ := Offer(a.nodes[id]), Offer(b.nodes[id]);
    if old_ == new_ {
      forall d ensures Servers(a, d) == Servers(b, d) {
        SameOfferSameServers(a, b, id, d);
      }
    }
    if IsRouteMap(b, m) {
      forall d, x ensures (d, x) in old_ <==> (d, x) in new_ {
        if (d, x) in old_ || (d, x) in new_ {
          OnlyServer(a, b, a, id, d, x);
          OnlyServer(a, b, b, id, d, x);
          assert Servers(if (d, x) in old_ then a else b, d) != {};
          OfferIsServed(a, id, d);
          OfferIsServed(b, id, d);
        }
      }
    }
  }

  /** So of a node whose domains nobody else serves, an early return leaves the resolver stale exactly
      when the request changes what the node offers: its server, its domains, or both. */
  lemma PatchNodeAloneIff(
    s: State, h: nat, id: Id, dns: Option<string>, domains: Option<seq<string>>, color: Option<string>)
    requires s.handlers == map[] && s.holder == None && Consistent(s)
    requires id in s.db.nodes && ServesAlone(s.db, PatchedNode(s.db, id, dns, domains), id)
    ensures var t := PatchNode(s, h, id, dns, domains, color);
      Consistent(t) || Handlers.Pending(t) <==>
        (color.Some? ==> ColorAccepted(color.value))
        || Offer(s.db.nodes[id]) == Offer(PatchedNode(s.db, id, dns, domains).nodes[id])
  {
    var next := PatchedNode(s.db, id, dns, domains);
    var o :| ValidOrder(s.db, o) && s.applied == Some(Rendered(s.db, o));
    RoutesAreServed(s.db, o);
    AloneRouteMapIff(s.db, next, id, s.applied.value.domains);
    PatchNodeConsistentIff(s, h, id, dns, domains, color);
  }

  /** An instance: the first DNS server of an active node that lists a domain of its own, sent with
      a bad colour. The row holds it, the resolver does not, and no reconcile is on its way. */
  lemma FirstServerIsLost(s: State, h: nat, id: Id, dns: string, color: string, d: string)
    requires s.handlers == map[] && s.holder == None && Consistent(s) && !ColorAccepted(color)
    requires id in s.db.nodes && s.db.nodes[id].status == Active && s.db.nodes[id].dns == "" && dns != ""
    requires d in s.db.nodes[id].domains && Servers(s.db, d) == {}
    ensures var t := PatchNode(s, h, id, Some(dns), None, Some(color));
      !Consistent(t) && !Handlers.Pending(t) && t.db.nodes[id].dns == dns && t.applied == s.applied
      && d !in t.applied.value.domains
  {
    var next := PatchedNode(s.db, id, Some(dns), None);
    var o :| ValidOrder(s.db, o) && s.applied == Some(Rendered(s.db, o));
    RoutesAreServed(s.db, o);
    assert (id, d) in ServedDomains(next) && dns in Servers(next, d);
    PatchNodeEnds(s, h, id, Some(dns), None, Some(color));
    PatchNodeConsistentIff(s, h, id, Some(dns), None, Some(color));
  }

  // ---------------------------------------------------------------- enrolment does not reconcile

  /** The new row serves the domains the old one does. */
  predicate ServesAlike(db: Db, id: Id, n: NodeRow) {
    if id in db.nodes then
      var m := db.nodes[id];
      m.dns == n.dns && m.domains == n.domains && (m.status == Active <==> n.status == Active)
    else n.status != Active
  }

  lemma ServedByOthers(db: Db, id: Id, n: NodeRow, i: Id, d: string)
    requires ServesAlike(db, id, n)
    ensures var next := db.(nodes := db.nodes[id := n]);
      && ((i, d) in ServedDomains(db) <==> (i, d) in ServedDomains(next))
      && ((i, d) in ServedDomains(db) ==> i in db.nodes && db.nodes[i].dns == next.nodes[i].dns)
  {
  }

  lemma DomainFact(db: Db, i: Id, d: string)
    ensures (i, d) in DomainFacts(db) <==> (i, d) in ServedDomains(db)
    ensures (i, d) in DomainFacts(db) ==> i in db.nodes && DomainFacts(db)[(i, d)] == db.nodes[i].dns
  {
  }

  lemma SameFacts(a: map<(Id, string), string>, b: map<(Id, string), string>)
    requires forall x: (Id, string) :: (x in a <==> x in b) && (x in a ==> a[x] == b[x])
    ensures a == b
  {
  }

  lemma ServedAlike(db: Db, id: Id, n: NodeRow)
    requires ServesAlike(db, id, n)
    ensures DomainFacts(db) == DomainFacts(db.(nodes := db.nodes[id := n]))
  {
    var next := db.(nodes := db.nodes[id := n]);
    var a, b := DomainFacts(db), DomainFacts(next);
    forall x: (Id, string) ensures (x in a <==> x in b) && (x in a ==> a[x] == b[x]) {
      ServedByOthers(db, id, n, x.0, x.1);
      DomainFact(db, x.0, x.1);
      DomainFact(next, x.0, x.1);
      assert x == (x.0, x.1);
    }
    SameFacts(a, b);
  }

  lemma NodeFactsDiffer(db: Db, id: Id, n: NodeRow)
    ensures var next := db.(nodes := db.nodes[id := n]);
      NodeFacts(db) == NodeFacts(next) <==>
        && (Visible(db, id) <==> Visible(next, id))
        && (Visible(db, id) ==> FactOf(db.nodes[id]) == FactOf(n))
  {
    var next := db.(nodes := db.nodes[id := n]);
    var a, b := NodeFacts(db), NodeFacts(next);
    assert forall i :: i != id ==> (i in a <==> i in b) && (i in a ==> a[i] == b[i]);
    assert (id in a <==> Visible(db, id)) && (id in b <==> Visible(next, id));
  }

  /** Changing one node row, but not the domains it serves, alters an answer exactly when the row's
      visible facts change. */
  lemma NodeRowAnswers(db: Db, id: Id, n: NodeRow)
    requires ServesAlike(db, id, n)
    ensures var next := db.(nodes := db.nodes[id := n]);
      SameAnswers(db, next) <==>
        && (Visible(db, id) <==> Visible(next, id))
        && (Visible(db, id) ==> FactOf(db.nodes[id]) == FactOf(n))
  {
    var next := db.(nodes := db.nodes[id := n]);
    ServedAlike(db, id, n);
    NodeFactsDiffer(db, id, n);
    assert GrantFacts(db) == GrantFacts(next) && ClientFacts(db) == ClientFacts(next);
  }

  /** Enrolling a node that is not in the table alters no answer. */
  lemma EnrollNewIsUnobserved(db: Db, id: Id, name: string, lanIface: string, publicKey: string, subnets: seq<Cidr>, newToken: string)
    ensures var r := EnrollNew(db, id, name, lanIface, publicKey, subnets, newToken); r.Some? ==> SameAnswers(db, r.value)
  {
    var r := EnrollNew(db, id, name, lanIface, publicKey, subnets, newToken);
    if r.Some? {
      NodeRowAnswers(db, id, r.value.nodes[id]);
    }
  }

  /** A re-announcement alters no answer exactly when the node is not visible, or announces
      the subnets it has, or announces none. */
  lemma ReannounceUnobservedIff(db: Db, found: Id, lanIface: string, subnets: seq<Cidr>, newToken: string)
    requires found in db.nodes
    ensures var r := EnrollExisting(db, found, lanIface, subnets, newToken); r.Some? ==>
      (SameAnswers(db, r.value) <==>
        !Visible(db, found) || SubnetRows(subnets).value == {} || SubnetRows(subnets).value == db.nodes[found].subnets)
  {
    var r := EnrollExisting(db, found, lanIface, subnets, newToken);
    if r.Some? {
      NodeRowAnswers(db, found, r.value.nodes[found]);
    }
  }

  /** The listed real nodes that have a subnet. */
  function Holders(db: Db, ids: seq<Id>, p: Prefix): set<Id> {
    set id | id in ids && id in db.nodes && !db.nodes[id].isHub && p in db.nodes[id].subnets
  }

  lemma HoldersSnoc(db: Db, init: seq<Id>, last: Id, p: Prefix)
    requires last in db.nodes && last !in init
    ensures Holders(db, init + [last], p) ==
      Holders(db, init, p) + if !db.nodes[last].isHub && p in db.nodes[last].subnets then {last} else {}
    ensures last !in Holders(db, init, p)
  {
    var all := init + [last];
    assert forall id :: id in all <==> id in init || id == last;
  }

  lemma OnceIn(rows: seq<Prefix>, s: set<Prefix>, p: Prefix)
    requires Lists(rows, s)
    ensures multiset(rows)[p] == if p in s then 1 else 0
  {
    if p in rows {
      var i :| 0 <= i < |rows| && rows[i] == p;
      assert rows == rows[..i] + [p] + rows[i + 1..];
      assert p !in rows[..i] && p !in rows[i + 1..];
      assert multiset(rows) == multiset(rows[..i]) + multiset{p} + multiset(rows[i + 1..]);
    }
  }

  lemma CountSplits(a: seq<Prefix>, b: seq<Prefix>, p: Prefix)
    ensures multiset(a + b)[p] == multiset(a)[p] + multiset(b)[p]
  {
  }

  lemma NodeSubnetsSnoc(nodes: seq<Node>, n: Node)
    ensures NodeSubnets(nodes + [n]) == NodeSubnets(nodes) + if n.isHub then [] else n.subnets
  {
    assert (nodes + [n])[..|nodes|] == nodes;
  }

  /** A subnet stands among the LANs once for each of them. */
  lemma {:induction false} SubnetCount(db: Db, o: RowOrder, ids: seq<Id>, p: Prefix)
    requires SubnetOrder(db, o.subnets) && NoDup(ids) && forall id :: id in ids ==> Visible(db, id)
    ensures multiset(NodeSubnets(NodeRows(db, o, ids)))[p] == |Holders(db, ids, p)|
  {
    if ids != [] {
      var init, last := ids[..|ids| - 1], ids[|ids| - 1];
      assert ids == init + [last] && last !in init && Visible(db, last);
      assert NodeRows(db, o, ids) == NodeRows(db, o, init) + [ToNode(db, o, last)];
      SubnetCount(db, o, init, p);
      NodeSubnetsSnoc(NodeRows(db, o, init), ToNode(db, o, last));
      HoldersSnoc(db, init, last, p);
      if !db.nodes[last].isHub {
        CountSplits(NodeSubnets(NodeRows(db, o, init)), o.subnets[last], p);
        OnceIn(o.subnets[last], db.nodes[last].subnets, p);
      }
    }
  }

  /** The real nodes whose LANs include the prefix. */
  function LanHolders(db: Db, p: Prefix): set<Id> {
    set id | id in RealNodes(db) && p in db.nodes[id].subnets
  }

  /** How often a prefix stands in the mesh: once per real node that has it, and for the pool. */
  lemma MeshCount(db: Db, o: RowOrder, p: Prefix)
    requires ValidOrder(db, o)
    ensures multiset(Rendered(db, o).mesh)[p] ==
      |LanHolders(db, p)| + if p == db.hub.pool then 1 else 0
  {
    RowsExist(db, o);
    SubnetCount(db, o, o.nodes, p);
    CountSplits(NodeSubnets(SnapshotOf(db, o).nodes), [db.hub.pool], p);
    assert Holders(db, o.nodes, p) == LanHolders(db, p) by {
      forall id ensures id in o.nodes <==> Visible(db, id) {
        ListedIff(o.nodes, VisibleNodes(db), id);
      }
    }
  }

  lemma SizesDiffer(a: set<Id>, b: set<Id>, id: Id)
    requires a - {id} == b - {id} && (id in a <==> id !in b)
    ensures |a| != |b|
  {
    if id in a {
      assert a == (a - {id}) + {id} && b == b - {id};
    } else {
      assert b == (b - {id}) + {id} && a == a - {id};
    }
  }

  lemma HoldersDiffer(db: Db, id: Id, n: NodeRow, p: Prefix)
    requires RealNode(db, id) && n.status == Active && n.address.Some? && !n.isHub
    requires p in n.subnets <==> p !in db.nodes[id].subnets
    ensures |LanHolders(db.(nodes := db.nodes[id := n]), p)| != |LanHolders(db, p)|
  {
    var next := db.(nodes := db.nodes[id := n]);
    forall i | i != id ensures i in LanHolders(db, p) <==> i in LanHolders(next, p) {
    }
    SizesDiffer(LanHolders(db, p), LanHolders(next, p), id);
  }

  /** Two databases that differ in the subnets of one visible real node never render alike. */
  lemma SubnetsChangeMesh(db: Db, id: Id, n: NodeRow, o: RowOrder, q: RowOrder)
    requires RealNode(db, id) && ValidOrder(db, o)
    requires n.status == Active && n.address.Some? && !n.isHub && n.subnets != db.nodes[id].subnets
    requires ValidOrder(db.(nodes := db.nodes[id := n]), q)
    ensures Rendered(db, o) != Rendered(db.(nodes := db.nodes[id := n]), q)
  {
    var p :| p in n.subnets <==> p !in db.nodes[id].subnets;
    MeshCount(db, o, p);
    MeshCount(db.(nodes := db.nodes[id := n]), q, p);
    HoldersDiffer(db, id, n, p);
  }

  /** From a settled system, a re-announcement leaves the running configuration right exactly when
      the node is not visible, or announces the subnets it has, or announces none. An active node
      that announces new ones is the case the handler's missing Reconcile leaves stale. */
  lemma ReannounceConsistentIff(s: State, found: Id, publicKey: string, lanIface: string, subnets: seq<Cidr>, newToken: string)
    requires Inv(s.db) && Consistent(s) && HasKey(s.db, found, publicKey) && publicKey != ""
    ensures var r := EnrollExisting(s.db, found, lanIface, subnets, newToken); r.Some? ==>
      (Consistent(s.(db := r.value)) <==>
        !Visible(s.db, found) || SubnetRows(subnets).value == {} || SubnetRows(subnets).value == s.db.nodes[found].subnets)
  {
    var r := EnrollExisting(s.db, found, lanIface, subnets, newToken);
    if r.Some? {
      ReannounceUnobservedIff(s.db, found, lanIface, subnets, newToken);
      if SameAnswers(s.db, r.value) {
        ConsistentAlike(s, r.value);
      } else {
        var n := r.value.nodes[found];
        assert r.value == s.db.(nodes := s.db.nodes[found := n]) && !s.db.nodes[found].isHub;
        var o :| ValidOrder(s.db, o) && s.applied == Some(Rendered(s.db, o));
        forall q | ValidOrder(r.value, q) ensures s.applied != Some(Rendered(r.value, q)) {
          SubnetsChangeMesh(s.db, found, n, o, q);
        }
      }
    }
  }
}

/** Reading the tables into the compiler's values (internal/store/queries.go,
    node_links.go, api_queries.go). A query without an ORDER BY may deliver its rows in
    any order, so the order is an argument and every theorem quantifies over it. */
module Snapshot {
  import opened Basics
  import opened Net
  import opened Model
  import opened Database

  // ---------------------------------------------------------------- row orders

  /** Nodes that take part in the VPN: active, with an address. */
  predicate Visible(db: Db, id: Id) {
    id in db.nodes && db.nodes[id].status == Active && db.nodes[id].address.Some?
  }

  function VisibleNodes(db: Db): set<Id> {
    set id | id in db.nodes && Visible(db, id)
  }

  predicate Enabled(db: Db, id: Id) {
    id in db.clients && db.clients[id].enabled
  }

  function EnabledClients(db: Db): set<Id> {
    set id | id in db.clients && Enabled(db, id)
  }

  function EnabledGrants(db: Db): set<GrantKey> {
    set k | k in db.grants && Enabled(db, k.client)
  }

  /** The domain rows of active nodes that have a DNS server. */
  function ServedDomains(db: Db): set<(Id, string)> {
    set id, d | id in db.nodes && db.nodes[id].status == Active && db.nodes[id].dns != "" && d in db.nodes[id].domains :: (id, d)
  }

  /** The order in which the database returns the rows of each query. */
  datatype RowOrder = RowOrder(
    nodes: seq<Id>, clients: seq<Id>, grants: seq<GrantKey>, links: seq<LinkKey>,
    subnets: map<Id, seq<Prefix>>, rules: map<GrantKey, seq<GrantRule>>, domains: seq<(Id, string)>)

  predicate SubnetOrder(db: Db, subnets: map<Id, seq<Prefix>>) {
    forall id :: id in db.nodes && Visible(db, id) ==> id in subnets && Lists(subnets[id], db.nodes[id].subnets)
  }

  predicate RuleOrder(db: Db, rules: map<GrantKey, seq<GrantRule>>) {
    && (forall k :: k in rules ==> k in db.rules && multiset(rules[k]) == multiset(db.rules[k]))
    && (forall k :: k in db.rules && db.rules[k] != [] ==> k in rules)
  }

  predicate ValidOrder(db: Db, o: RowOrder) {
    && Lists(o.nodes, VisibleNodes(db))
    && Lists(o.clients, EnabledClients(db))
    && Lists(o.grants, EnabledGrants(db))
    && Lists(o.links, db.links)
    && SubnetOrder(db, o.subnets)
    && RuleOrder(db, o.rules)
    && Lists(o.domains, ServedDomains(db))
  }

  // ---------------------------------------------------------------- rows to values

  function ToNode(db: Db, o: RowOrder, id: Id): Node
    requires Visible(db, id) && SubnetOrder(db, o.subnets)
  {
    var n := db.nodes[id];
    Node(n.address.value, o.subnets[id], n.publicKey, n.isHub)
  }

  function ToClient(db: Db, id: Id): Client
    requires id in db.clients
  {
    Client(db.clients[id].address, db.clients[id].publicKey)
  }

  /** The rules a map holds for a key; a missing key reads as the empty slice. */
  function RulesRead(rules: map<GrantKey, seq<GrantRule>>, k: GrantKey): seq<GrantRule> {
    if k in rules then rules[k] else []
  }

  function ToGrant(db: Db, o: RowOrder, k: GrantKey): Grant
    requires k in db.grants && k.client in db.clients && Visible(db, k.node) && SubnetOrder(db, o.subnets)
  {
    var n := db.nodes[k.node];
    Grant(db.clients[k.client].address, n.address.value, o.subnets[k.node], RulesRead(o.rules, k),
          n.isHub, db.grants[k] && !n.isHub)
  }

  /** Rows whose node is not visible are skipped. */
  function GrantRows(db: Db, o: RowOrder, ks: seq<GrantKey>): seq<Grant>
    requires SubnetOrder(db, o.subnets)
    requires forall k :: k in ks ==> k in db.grants && k.client in db.clients
  {
    if ks == [] then []
    else
      var k := ks[|ks| - 1];
      GrantRows(db, o, ks[..|ks| - 1]) + if Visible(db, k.node) then [ToGrant(db, o, k)] else []
  }

  predicate LinkShown(db: Db, o: RowOrder, l: LinkKey)
    requires SubnetOrder(db, o.subnets)
  {
    Visible(db, l.src) && Visible(db, l.dst) && o.subnets[l.src] != [] && o.subnets[l.dst] != []
  }

  function ToLink(db: Db, o: RowOrder, l: LinkKey): NodeLink
    requires SubnetOrder(db, o.subnets) && LinkShown(db, o, l)
  {
    NodeLink(db.nodes[l.src].address, o.subnets[l.src], o.subnets[l.dst])
  }

  function LinkRows(db: Db, o: RowOrder, ls: seq<LinkKey>): seq<NodeLink>
    requires SubnetOrder(db, o.subnets)
  {
    if ls == [] then []
    else
      var l := ls[|ls| - 1];
      LinkRows(db, o, ls[..|ls| - 1]) + if LinkShown(db, o, l) then [ToLink(db, o, l)] else []
  }

  datatype Snap = Snap(hub: Hub, nodes: seq<Node>, clients: seq<Client>, grants: seq<Grant>, links: seq<NodeLink>)

  function NodeRows(db: Db, o: RowOrder, ids: seq<Id>): seq<Node>
    requires SubnetOrder(db, o.subnets) && forall id :: id in ids ==> Visible(db, id)
  {
    seq(|ids|, i requires 0 <= i < |ids| => ToNode(db, o, ids[i]))
  }

  function ClientRows(db: Db, ids: seq<Id>): seq<Client>
    requires forall id :: id in ids ==> id in db.clients
  {
    seq(|ids|, i requires 0 <= i < |ids| => ToClient(db, ids[i]))
  }

  lemma RowsExist(db: Db, o: RowOrder)
    requires ValidOrder(db, o)
    ensures forall id :: id in o.nodes ==> Visible(db, id)
    ensures forall id :: id in o.clients ==> id in db.clients
    ensures forall k :: k in o.grants ==> k in db.grants && k.client in db.clients
  {
    forall id | id in o.nodes ensures Visible(db, id) {
      assert id in VisibleNodes(db);
    }
    forall id | id in o.clients ensures id in db.clients {
      assert id in EnabledClients(db);
    }
    forall k | k in o.grants ensures k in db.grants && k.client in db.clients {
      assert k in EnabledGrants(db);
    }
  }

  function SnapshotOf(db: Db, o: RowOrder): Snap
    requires ValidOrder(db, o)
  {
    RowsExist(db, o);
    Snap(GetHub(db), NodeRows(db, o, o.nodes), ClientRows(db, o.clients), GrantRows(db, o, o.grants), LinkRows(db, o, o.links))
  }

  // ---------------------------------------------------------------- what the values say

  lemma ListedIff<T>(rows: seq<T>, s: set<T>, x: T)
    requires Lists(rows, s)
    ensures x in rows <==> x in s
  {
  }

  lemma NodesExact(db: Db, o: RowOrder, n: Node)
    requires ValidOrder(db, o)
    ensures n in SnapshotOf(db, o).nodes <==> exists id :: Visible(db, id) && n == ToNode(db, o, id)
  {
    var rows := SnapshotOf(db, o).nodes;
    if n in rows {
      var i :| 0 <= i < |rows| && rows[i] == n;
      assert o.nodes[i] in VisibleNodes(db);
    }
    if id :| Visible(db, id) && n == ToNode(db, o, id) {
      ListedIff(o.nodes, VisibleNodes(db), id);
      var i :| 0 <= i < |o.nodes| && o.nodes[i] == id;
      assert rows[i] == n;
    }
  }

  lemma ClientsExact(db: Db, o: RowOrder, c: Client)
    requires ValidOrder(db, o)
    ensures c in SnapshotOf(db, o).clients <==> exists id :: Enabled(db, id) && c == ToClient(db, id)
  {
    var rows := SnapshotOf(db, o).clients;
    if c in rows {
      var i :| 0 <= i < |rows| && rows[i] == c;
      assert o.clients[i] in EnabledClients(db);
    }
    if id :| Enabled(db, id) && c == ToClient(db, id) {
      ListedIff(o.clients, EnabledClients(db), id);
      var i :| 0 <= i < |o.clients| && o.clients[i] == id;
      assert rows[i] == c;
    }
  }

  lemma {:induction false} GrantRowsExact(db: Db, o: RowOrder, ks: seq<GrantKey>, g: Grant)
    requires SubnetOrder(db, o.subnets)
    requires forall k :: k in ks ==> k in db.grants && k.client in db.clients
    ensures g in GrantRows(db, o, ks) <==> exists k :: k in ks && Visible(db, k.node) && g == ToGrant(db, o, k)
  {
    if ks != [] {
      var init, last := ks[..|ks| - 1], ks[|ks| - 1];
      GrantRowsExact(db, o, init, g);
      assert GrantRows(db, o, ks) == GrantRows(db, o, init) + if Visible(db, last.node) then [ToGrant(db, o, last)] else [];
      assert forall k :: k in ks <==> k in init || k == last by {
        assert ks == init + [last];
      }
    }
  }

  lemma GrantsExact(db: Db, o: RowOrder, g: Grant)
    requires ValidOrder(db, o)
    ensures g in SnapshotOf(db, o).grants <==>
      exists k :: k in db.grants && Enabled(db, k.client) && Visible(db, k.node) && g == ToGrant(db, o, k)
  {
    RowsExist(db, o);
    GrantRowsExact(db, o, o.grants, g);
    forall k ensures k in o.grants <==> k in db.grants && Enabled(db, k.client) {
      ListedIff(o.grants, EnabledGrants(db), k);
    }
  }

  lemma {:induction false} LinkRowsExact(db: Db, o: RowOrder, ls: seq<LinkKey>, x: NodeLink)
    requires SubnetOrder(db, o.subnets)
    ensures x in LinkRows(db, o, ls) <==> exists l :: l in ls && LinkShown(db, o, l) && x == ToLink(db, o, l)
  {
    if ls != [] {
      var init, last := ls[..|ls| - 1], ls[|ls| - 1];
      LinkRowsExact(db, o, init, x);
      assert ls == init + [last];
    }
  }

  lemma LinksExact(db: Db, o: RowOrder, x: NodeLink)
    requires ValidOrder(db, o)
    ensures x in SnapshotOf(db, o).links <==> exists l :: l in db.links && LinkShown(db, o, l) && x == ToLink(db, o, l)
  {
    LinkRowsExact(db, o, o.links, x);
    forall l ensures l in o.links <==> l in db.links {
      ListedIff(o.links, db.links, l);
    }
  }

  /** A grant's rules as read are the stored rules, up to order. */
  lemma RulesExact(db: Db, o: RowOrder, k: GrantKey, r: GrantRule)
    requires RuleOrder(db, o.rules)
    ensures r in RulesRead(o.rules, k) <==> r in RulesOf(db, k)
    ensures RulesRead(o.rules, k) == [] <==> RulesOf(db, k) == []
  {
    if k in o.rules {
      assert r in o.rules[k] <==> r in multiset(o.rules[k]);
      assert |multiset(o.rules[k])| == |o.rules[k]|;
      assert r in db.rules[k] <==> r in multiset(db.rules[k]);
      assert |multiset(db.rules[k])| == |db.rules[k]|;
    }
  }

  lemma SubnetsExact(db: Db, o: RowOrder, id: Id, p: Prefix)
    requires SubnetOrder(db, o.subnets) && Visible(db, id)
    ensures p in o.subnets[id] <==> p in db.nodes[id].subnets
    ensures o.subnets[id] == [] <==> db.nodes[id].subnets == {}
  {
    ListedIff(o.subnets[id], db.nodes[id].subnets, p);
    if o.subnets[id] != [] {
      ListedIff(o.subnets[id], db.nodes[id].subnets, o.subnets[id][0]);
    }
    if q :| q in db.nodes[id].subnets {
      ListedIff(o.subnets[id], db.nodes[id].subnets, q);
    }
  }

  // ---------------------------------------------------------------- exports

  /** The grants of one client on visible nodes, enabled or not. */
  function ClientGrantKeys(db: Db, cid: Id): set<GrantKey> {
    set k | k in db.grants && k.client == cid && Visible(db, k.node)
  }

  /** What GetClientForExport hands to the client renderer. */
  function ExportGrants(db: Db, o: RowOrder, ks: seq<GrantKey>): seq<Grant>
    requires SubnetOrder(db, o.subnets)
    requires forall k :: k in ks ==> k in db.grants && k.client in db.clients && Visible(db, k.node)
  {
    seq(|ks|, i requires 0 <= i < |ks| => ToGrant(db, o, ks[i]))
  }

  /** The other ends' subnets over all links of a node, whatever the status of those ends. */
  function ReachSet(db: Db, id: Id): set<Prefix> {
    set l, p | l in db.links && l.src == id && l.dst in db.nodes && p in db.nodes[l.dst].subnets :: p
  }

  function ReachBackSet(db: Db, id: Id): set<Prefix> {
    set l, p | l in db.links && l.dst == id && l.src in db.nodes && p in db.nodes[l.src].subnets :: p
  }

  function Reach(db: Db, id: Id): set<Prefix> {
    ReachSet(db, id) + ReachBackSet(db, id)
  }
}

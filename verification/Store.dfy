/** The store's operations as they run (internal/store): row loops, checks in the source's
    order, and rollback, each proved to have exactly the effect stated in Database. */
module Store {
  import opened Basics
  import opened Net
  import opened Model
  import Alloc
  import opened Database
  import opened Snapshot
  import opened Queries

  lemma {:induction false} RejectedPrefix(subnets: seq<Cidr>, n: nat)
    requires n <= |subnets| && SubnetRows(subnets[..n]).None?
    ensures SubnetRows(subnets).None?
    decreases |subnets| - n
  {
    if n < |subnets| {
      assert subnets[..n + 1][..n] == subnets[..n];
      RejectedPrefix(subnets, n + 1);
    } else {
      assert subnets[..n] == subnets;
    }
  }

  /** The insert loop over node_subnets. */
  method InsertSubnets(subnets: seq<Cidr>) returns (rows: Option<set<Prefix>>)
    ensures rows == SubnetRows(subnets)
    ensures rows.Some? ==> NoDup(subnets) && rows.value == set c | c in subnets
  {
    var done: set<Prefix> := {};
    for i := 0 to |subnets|
      invariant SubnetRows(subnets[..i]) == Some(done)
      invariant NoDup(subnets[..i]) && done == set c | c in subnets[..i]
    {
      var c := subnets[i];
      assert subnets[..i + 1][..i] == subnets[..i];
      assert subnets[..i + 1] == subnets[..i] + [c];
      if !c.Masked() || c in done {
        RejectedPrefix(subnets, i + 1);
        return None;
      }
      done := done + {c};
    }
    assert subnets[..|subnets|] == subnets;
    return Some(done);
  }

  class Store {
    var db: Db

    constructor (initial: Db)
      ensures db == initial
    {
      db := initial;
    }

    // -------------------------------------------------------------- addresses

    /** Collects the addresses in use row by row and scans the pool. */
    method AllocateIP() returns (a: Option<Addr>)
      ensures a == Database.AllocateIP(db)
      ensures a.Some? ==> Alloc.IsHost(db.hub.pool, a.value) && a.value !in UsedAddrs(db)
      ensures a.None? <==> forall x: Addr :: Alloc.IsHost(db.hub.pool, x) ==> x in UsedAddrs(db)
    {
      var used := {db.hub.address};
      var nodeRows := db.nodes.Keys;
      while nodeRows != {}
        invariant nodeRows <= db.nodes.Keys
        invariant used == {db.hub.address} + set id | id in db.nodes && id !in nodeRows && db.nodes[id].address.Some? :: db.nodes[id].address.value
        decreases |nodeRows|
      {
        var id :| id in nodeRows;
        nodeRows := nodeRows - {id};
        if db.nodes[id].address.Some? {
          used := used + {db.nodes[id].address.value};
        }
      }
      assert used == {db.hub.address} + NodeAddrs(db);
      var clientRows := db.clients.Keys;
      while clientRows != {}
        invariant clientRows <= db.clients.Keys
        invariant used == {db.hub.address} + NodeAddrs(db) + set id | id in db.clients && id !in clientRows :: db.clients[id].address
        decreases |clientRows|
      {
        var id :| id in clientRows;
        clientRows := clientRows - {id};
        used := used + {db.clients[id].address};
      }
      assert used == UsedAddrs(db);
      a := Alloc.ScanPool(db.hub.pool, used);
    }

    /** Allocation and inserts in one transaction. */
    method CreateNode(id: Id, name: string, lanIface: string, subnets: seq<Cidr>, publicKey: string) returns (ok: bool)
      modifies this
      ensures var r := Database.CreateNode(old(db), id, name, lanIface, subnets, publicKey);
        db == Outcome(old(db), r) && (ok <==> r.Some?)
    {
      var a := AllocateIP();
      if a.None? || id in db.nodes || NameTaken(db, name) {
        return false;
      }
      var rows := InsertSubnets(subnets);
      if rows.None? {
        return false;
      }
      db := db.(nodes := db.nodes[id := NodeRow(name, a, lanIface, publicKey, Active, false, None, rows.value, "", {})]);
      return true;
    }

    method CreateClient(id: Id, name: string, publicKey: string) returns (ok: bool)
      modifies this
      ensures var r := Database.CreateClient(old(db), id, name, publicKey);
        db == Outcome(old(db), r) && (ok <==> r.Some?)
    {
      var a := AllocateIP();
      if a.None? || id in db.clients {
        return false;
      }
      db := db.(clients := db.clients[id := ClientRow(name, a.value, publicKey, true)]);
      return true;
    }

    /** Approval gives a node its address; an active node with one is left alone. */
    method ApproveNode(id: Id) returns (ok: bool)
      modifies this
      ensures var r := Database.ApproveNode(old(db), id);
        db == Outcome(old(db), r) && (ok <==> r.Some?)
    {
      if id !in db.nodes {
        return false;
      }
      var n := db.nodes[id];
      if n.status == Active && n.address.Some? {
        return true;
      }
      var a := AllocateIP();
      if a.None? {
        return false;
      }
      db := db.(nodes := db.nodes[id := n.(address := a, status := Active)]);
      return true;
    }

    /** Registers a node or takes a re-announcement; `found` is the row its key selects. */
    method EnrollNode(
      found: Option<Id>, id: Id, name: string, lanIface: string, publicKey: string, subnets: seq<Cidr>, newToken: string)
      returns (ok: bool, token: string, status: Status)
      requires found.Some? ==> HasKey(db, found.value, publicKey)
      modifies this
      ensures var r :=
          if found.Some? then EnrollExisting(old(db), found.value, lanIface, subnets, newToken)
          else EnrollNew(old(db), id, name, lanIface, publicKey, subnets, newToken);
        && db == Outcome(old(db), r) && (ok <==> r.Some?)
        && (ok ==> var row := db.nodes[if found.Some? then found.value else id]; row.token == Some(token) && row.status == status)
    {
      var rows := InsertSubnets(subnets);
      if found.Some? {
        var n := db.nodes[found.value];
        token := KeptToken(n.token, newToken);
        status := n.status;
        if n.status == Rejected {
          status := Pending;
        }
        if rows.None? {
          return false, token, status;
        }
        var m := n.(token := Some(token), lanIface := lanIface, status := status);
        if |subnets| > 0 {
          assert subnets[0] in rows.value;
          m := m.(subnets := rows.value);
        }
        db := db.(nodes := db.nodes[found.value := m]);
        return true, token, status;
      }
      token, status := newToken, Pending;
      if id in db.nodes || NameTaken(db, name) || rows.None? {
        return false, token, status;
      }
      db := db.(nodes := db.nodes[id := NodeRow(name, None, lanIface, publicKey, Pending, false, Some(token), rows.value, "", {})]);
      return true, token, status;
    }

    /** Cleans the given domains one by one and inserts what is left of them. */
    method SetNodeDomains(id: Id, ds: seq<string>) returns (ok: bool)
      modifies this
      ensures var r := Database.SetNodeDomains(old(db), id, ds);
        db == Outcome(old(db), r) && (ok <==> r.Some?)
    {
      var stored: set<string> := {};
      for i := 0 to |ds|
        invariant db == old(db) && stored == StoredDomains(ds[..i])
        invariant id !in db.nodes ==> stored == {}
      {
        var d := Cleaned(ds[i]);
        assert ds[..i + 1] == ds[..i] + [ds[i]];
        if !Kept(d) {
          continue;
        }
        if id !in db.nodes {
          assert d in StoredDomains(ds);
          return false;
        }
        stored := stored + {d};
      }
      assert ds[..|ds|] == ds;
      if id in db.nodes {
        db := db.(nodes := db.nodes[id := db.nodes[id].(domains := stored)]);
      }
      return true;
    }

    // -------------------------------------------------------------- grants and links

    /** Replaces a grant's rules; one bad rule undoes the whole replacement. */
    method SetGrantRules(k: GrantKey, ds: seq<RuleDTO>) returns (ok: bool)
      modifies this
      ensures var r := Database.SetGrantRules(old(db), k, ds);
        db == Outcome(old(db), r) && (ok <==> r.Some?)
    {
      if k !in db.grants {
        return false;
      }
      var rows: seq<GrantRule> := [];
      for i := 0 to |ds|
        invariant db == old(db)
        invariant forall j :: 0 <= j < i ==> RuleAccepted(ds[j])
        invariant rows == RuleRows(ds[..i])
      {
        var d := ds[i];
        if !RuleAccepted(d) {
          return false;
        }
        rows := rows + [RuleRow(d)];
      }
      assert ds[..|ds|] == ds;
      db := db.(rules := db.rules[k := rows]);
      return true;
    }

    /** Toggles the exit column, after looking for another exit of the same client. */
    method SetGrantExit(k: GrantKey, exit: bool) returns (ok: bool)
      modifies this
      ensures var r := Database.SetGrantExit(old(db), k, exit);
        db == Outcome(old(db), r) && (ok <==> r.Some?)
    {
      var isHub := k.node in db.nodes && db.nodes[k.node].isHub;
      if k !in db.grants || isHub {
        return false;
      }
      if exit {
        var rows := db.grants.Keys;
        while rows != {}
          invariant db == old(db) && rows <= db.grants.Keys
          invariant forall j :: j in db.grants && j !in rows && db.grants[j] && j.client == k.client && j.node in db.nodes ==> j.node == k.node
          decreases |rows|
        {
          var j :| j in rows;
          rows := rows - {j};
          if db.grants[j] && j.client == k.client && j.node != k.node && j.node in db.nodes {
            return false;
          }
        }
      }
      db := db.(grants := db.grants[k := exit]);
      return true;
    }

    /** Validates a link pair by pair and inserts it. */
    method SetNodeLink(src: Id, dst: Id) returns (ok: bool)
      modifies this
      ensures var r := Database.SetNodeLink(old(db), src, dst);
        db == Outcome(old(db), r) && (ok <==> r.Some?)
    {
      if src == dst {
        return false;
      }
      if src !in db.nodes || dst !in db.nodes || db.nodes[src].status != Active || db.nodes[dst].status != Active {
        return false;
      }
      if db.nodes[src].isHub || db.nodes[dst].isHub {
        return false;
      }
      var ss, ds := db.nodes[src].subnets, db.nodes[dst].subnets;
      if ss == {} || ds == {} {
        return false;
      }
      var todo := ss;
      while todo != {}
        invariant db == old(db) && todo <= ss
        invariant forall p, q :: p in ss && p !in todo && q in ds ==> !Overlaps(p, q)
        decreases |todo|
      {
        var p :| p in todo;
        var inner := ds;
        while inner != {}
          invariant db == old(db) && inner <= ds
          invariant forall q :: q in ds && q !in inner ==> !Overlaps(p, q)
          decreases |inner|
        {
          var q :| q in inner;
          if Overlaps(p, q) {
            return false;
          }
          inner := inner - {q};
        }
        todo := todo - {p};
      }
      db := db.(links := db.links + {LinkKey(src, dst)});
      return true;
    }

    // -------------------------------------------------------------- reading

    method ListNodes(o: RowOrder) returns (rows: seq<(Id, Node)>)
      requires ValidOrder(db, o)
      ensures rows == NodeAnswer(db, o)
    {
      RowsExist(db, o);
      rows := [];
      for i := 0 to |o.nodes|
        invariant rows == NodeAnswer(db, o)[..i]
      {
        var id := o.nodes[i];
        assert id in o.nodes && Visible(db, id);
        var n := db.nodes[id];
        var node := Node(n.address.value, [], n.publicKey, n.isHub);
        for j := 0 to |o.subnets[id]|
          invariant node == ToNode(db, o, id).(subnets := o.subnets[id][..j])
        {
          node := node.(subnets := node.subnets + [o.subnets[id][j]]);
        }
        assert node == ToNode(db, o, id);
        rows := rows + [(id, node)];
      }
    }

    method ListClients(o: RowOrder) returns (rows: seq<(Id, Client)>)
      requires ValidOrder(db, o)
      ensures rows == ClientAnswer(db, o)
    {
      RowsExist(db, o);
      rows := [];
      for i := 0 to |o.clients|
        invariant rows == ClientAnswer(db, o)[..i]
      {
        var c := db.clients[o.clients[i]];
        rows := rows + [(o.clients[i], Client(c.address, c.publicKey))];
      }
    }

    /** The grants of enabled clients with their exit column. */
    method ListGrants(o: RowOrder) returns (rows: seq<(GrantKey, bool)>)
      requires ValidOrder(db, o)
      ensures rows == GrantAnswer(db, o)
    {
      RowsExist(db, o);
      rows := [];
      for i := 0 to |o.grants|
        invariant rows == GrantAnswer(db, o)[..i]
      {
        var k := o.grants[i];
        assert k in o.grants;
        rows := rows + [(k, db.grants[k])];
      }
    }

    /** The statements one after the other, then the assembly of what they returned. */
    method Snapshot(o: RowOrder) returns (s: Snap)
      requires ValidOrder(db, o)
      ensures s == SnapshotOf(db, o)
    {
      var hub := GetHub(db);
      var nodes := ListNodes(o);
      var clients := ListClients(o);
      var grants := ListGrants(o);
      s := AssembleSnapshot(Reads(Some(hub), Some(nodes), Some(clients), Some(o.rules), Some(grants), Some(o.links), None));
      AssembledIsSnapshot(db, o);
    }

    /** The domain rows of active nodes with a DNS server, as a map. */
    method DomainRoutes(o: RowOrder) returns (out: map<string, string>)
      requires ValidOrder(db, o)
      ensures out == RouteMap(DomainAnswer(db, o)) && IsRouteMap(db, out)
    {
      out := CollectDomains(DomainAnswer(db, o));
      RoutesAreServed(db, o);
    }

    /** One client's granted nodes; `ks` are the rows of the join, in the order they come. */
    method GetClientForExport(o: RowOrder, id: Id, ks: seq<GrantKey>) returns (grants: seq<Grant>)
      requires ValidOrder(db, o) && id in db.clients && Lists(ks, ClientGrantKeys(db, id))
      ensures forall k :: k in ks <==> k in db.grants && k.client == id && Visible(db, k.node)
      ensures grants == ExportGrants(db, o, ks)
    {
      forall k ensures k in ks <==> k in db.grants && k.client == id && Visible(db, k.node) {
        ListedIff(ks, ClientGrantKeys(db, id), k);
      }
      grants := [];
      for i := 0 to |ks|
        invariant grants == ExportGrants(db, o, ks)[..i]
      {
        var k := ks[i];
        var n := db.nodes[k.node];
        var g := Grant(db.clients[id].address, n.address.value, [], RulesRead(o.rules, k), n.isHub, db.grants[k] && !n.isHub);
        for j := 0 to |o.subnets[k.node]|
          invariant g == ToGrant(db, o, k).(subnets := o.subnets[k.node][..j])
        {
          g := g.(subnets := g.subnets + [o.subnets[k.node][j]]);
        }
        assert g == ToGrant(db, o, k);
        grants := grants + [g];
      }
    }
  }
}

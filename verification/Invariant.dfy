/** What every reachable database state satisfies, over all runs of serial transactions. */
module Invariant {
  import opened Basics
  import opened Net
  import Alloc
  import opened Database

  // ---------------------------------------------------------------- the invariant

  type Nodes = map<Id, NodeRow>
  type Clients = map<Id, ClientRow>

  /** All addresses are different, within each table and across the two. No constraint
      of the database says the last part. */
  predicate AddressesDistinct(nodes: Nodes, clients: Clients) {
    && (forall i, j :: i in nodes && j in nodes && i != j && nodes[i].address.Some? ==> nodes[i].address != nodes[j].address)
    && (forall i, j :: i in clients && j in clients && i != j ==> clients[i].address != clients[j].address)
    && (forall i, j :: i in nodes && j in clients ==> nodes[i].address != Some(clients[j].address))
  }

  /** An address the allocator may have produced. */
  predicate Usable(hub: HubRow, a: Addr) {
    Alloc.IsHost(hub.pool, a) && a != hub.address
  }

  predicate NodePlaced(hub: HubRow, n: NodeRow) {
    n.address.Some? ==> Usable(hub, n.address.value) || (n.isHub && n.address.value == hub.address)
  }

  predicate AddressesPlaced(hub: HubRow, nodes: Nodes, clients: Clients) {
    && (forall i :: i in clients ==> Usable(hub, clients[i].address))
    && (forall i :: i in nodes ==> NodePlaced(hub, nodes[i]))
  }

  predicate OneHubNode(nodes: Nodes) {
    && (forall i, j :: i in nodes && j in nodes && nodes[i].isHub && nodes[j].isHub ==> i == j)
    && (forall i :: i in nodes && nodes[i].isHub ==> nodes[i].subnets == {EVERYTHING} && nodes[i].publicKey == "")
  }

  predicate ActiveHasAddress(nodes: Nodes) {
    forall i :: i in nodes && nodes[i].status == Active ==> nodes[i].address.Some?
  }

  /** A public key names one row. */
  predicate KeysUnique(nodes: Nodes) {
    forall i, j :: i in nodes && j in nodes && i != j && nodes[i].publicKey != "" ==> nodes[i].publicKey != nodes[j].publicKey
  }

  predicate TokensUnique(nodes: Nodes) {
    forall i, j :: i in nodes && j in nodes && i != j && nodes[i].token.Some? ==> nodes[i].token != nodes[j].token
  }

  predicate Rows(hub: HubRow, nodes: Nodes, clients: Clients) {
    && AddressesDistinct(nodes, clients)
    && AddressesPlaced(hub, nodes, clients)
    && OneHubNode(nodes)
    && ActiveHasAddress(nodes)
    && KeysUnique(nodes)
    && TokensUnique(nodes)
  }

  predicate References(db: Db) {
    && (forall k :: k in db.grants ==> k.client in db.clients && k.node in db.nodes)
    && (forall k :: k in db.rules ==> k in db.grants)
    && (forall l :: l in db.links ==> l.src in db.nodes && l.dst in db.nodes && l.src != l.dst)
  }

  /** At most one exit per client, and never through the hub node. */
  predicate SingleExit(db: Db) {
    && (forall j, k :: j in db.grants && k in db.grants && db.grants[j] && db.grants[k] && j.client == k.client ==> j == k)
    && (forall k :: k in db.grants && db.grants[k] && k.node in db.nodes ==> !db.nodes[k.node].isHub)
  }

  predicate LinksAvoidHub(db: Db) {
    forall l :: l in db.links && l.src in db.nodes && l.dst in db.nodes
      ==> !db.nodes[l.src].isHub && !db.nodes[l.dst].isHub
  }

  predicate Relations(db: Db) {
    References(db) && SingleExit(db) && LinksAvoidHub(db)
  }

  predicate Inv(db: Db) {
    Rows(db.hub, db.nodes, db.clients) && Relations(db)
  }

  // ---------------------------------------------------------------- transactions as steps

  datatype Op =
    | OpCreateNode(id: Id, name: string, lanIface: string, subnets: seq<Cidr>, publicKey: string)
    | OpCreateClient(id: Id, name: string, publicKey: string)
    | OpUpdateClient(id: Id, enabled: bool)
    | OpDeleteClient(id: Id)
    | OpDeleteNode(id: Id)
    | OpEnsureHubNode(id: Id)
    | OpSetNodeDNS(id: Id, dns: string)
    | OpSetNodeDomains(id: Id, domains: seq<string>)
    | OpEnroll(found: Option<Id>, id: Id, name: string, lanIface: string, publicKey: string, subnets: seq<Cidr>, newToken: string)
    | OpApproveNode(id: Id)
    | OpRejectNode(id: Id)
    | OpSetGrant(k: GrantKey)
    | OpDeleteGrant(k: GrantKey)
    | OpSetGrantRules(k: GrantKey, ds: seq<RuleDTO>)
    | OpSetGrantExit(k: GrantKey, exit: bool)
    | OpSetNodeLink(src: Id, dst: Id)
    | OpDeleteNodeLink(src: Id, dst: Id)

  predicate KeyFree(db: Db, publicKey: string) {
    forall id :: id in db.nodes ==> db.nodes[id].publicKey != publicKey
  }

  predicate TokenFree(db: Db, token: string) {
    forall id :: id in db.nodes ==> db.nodes[id].token != Some(token)
  }

  /** What a step may assume: generated keys and tokens are new, `found` is what the
      lookup by public key returns, and the enrolment handler refuses an empty key. */
  predicate Legal(db: Db, op: Op) {
    match op
    case OpCreateNode(_, _, _, _, publicKey) => publicKey != "" && KeyFree(db, publicKey)
    case OpEnroll(found, _, _, _, publicKey, _, newToken) =>
      && publicKey != ""
      && newToken != "" && TokenFree(db, newToken)
      && (if found.Some? then HasKey(db, found.value, publicKey) else KeyFree(db, publicKey))
    case _ => true
  }

  function Effect(db: Db, op: Op): Option<Db>
    requires Legal(db, op)
  {
    match op
    case OpCreateNode(id, name, lanIface, subnets, publicKey) => CreateNode(db, id, name, lanIface, subnets, publicKey)
    case OpCreateClient(id, name, publicKey) => CreateClient(db, id, name, publicKey)
    case OpUpdateClient(id, enabled) => UpdateClient(db, id, enabled)
    case OpDeleteClient(id) => DeleteClient(db, id)
    case OpDeleteNode(id) => DeleteNode(db, id)
    case OpEnsureHubNode(id) => EnsureHubNode(db, id)
    case OpSetNodeDNS(id, dns) => SetNodeDNS(db, id, dns)
    case OpSetNodeDomains(id, ds) => SetNodeDomains(db, id, ds)
    case OpEnroll(found, id, name, lanIface, publicKey, subnets, newToken) =>
      if found.Some? then EnrollExisting(db, found.value, lanIface, subnets, newToken)
      else EnrollNew(db, id, name, lanIface, publicKey, subnets, newToken)
    case OpApproveNode(id) => ApproveNode(db, id)
    case OpRejectNode(id) => RejectNode(db, id)
    case OpSetGrant(k) => SetGrant(db, k)
    case OpDeleteGrant(k) => DeleteGrant(db, k)
    case OpSetGrantRules(k, ds) => SetGrantRules(db, k, ds)
    case OpSetGrantExit(k, exit) => SetGrantExit(db, k, exit)
    case OpSetNodeLink(src, dst) => SetNodeLink(db, src, dst)
    case OpDeleteNodeLink(src, dst) => DeleteNodeLink(db, src, dst)
  }

  /** A transaction commits its effect or, when it fails, changes nothing. */
  function Next(db: Db, op: Op): Db
    requires Legal(db, op)
  {
    Outcome(db, Effect(db, op))
  }

  /** The states of a run, one more than its transactions. */
  ghost predicate IsRun(states: seq<Db>, ops: seq<Op>) {
    && |states| == |ops| + 1
    && forall i :: 0 <= i < |ops| ==> Legal(states[i], ops[i]) && states[i + 1] == Next(states[i], ops[i])
  }

  /** The database after the hub row was written and before anything else. */
  predicate Fresh(db: Db) {
    db.nodes == map[] && db.clients == map[] && db.grants == map[] && db.rules == map[] && db.links == {}
  }

  // ---------------------------------------------------------------- preservation

  lemma AllocatedIsNew(db: Db)
    ensures var a := AllocateIP(db); a.Some? ==>
      && Usable(db.hub, a.value)
      && a.value !in NodeAddrs(db) && a.value !in ClientAddrs(db)
  {
    Alloc.AllocateIsLeast(db.hub.pool, UsedAddrs(db));
  }

  /** An address nobody holds. */
  predicate AddressFree(nodes: Nodes, clients: Clients, a: Addr) {
    && (forall i :: i in nodes ==> nodes[i].address != Some(a))
    && (forall i :: i in clients ==> clients[i].address != a)
  }

  lemma NotInUseIsFree(db: Db, a: Addr)
    requires a !in NodeAddrs(db) && a !in ClientAddrs(db)
    ensures AddressFree(db.nodes, db.clients, a)
  {
  }

  /** What a new or changed node row must satisfy among the others. */
  predicate Fits(hub: HubRow, nodes: Nodes, clients: Clients, id: Id, n: NodeRow) {
    && NodePlaced(hub, n)
    && (n.status == Active ==> n.address.Some?)
    && (n.isHub ==> n.subnets == {EVERYTHING} && n.publicKey == "" && forall j :: j in nodes && nodes[j].isHub ==> j == id)
    && (n.address.None? || (id in nodes && nodes[id].address == n.address) || AddressFree(nodes, clients, n.address.value))
    && (n.publicKey == "" || (id in nodes && nodes[id].publicKey == n.publicKey)
        || forall j :: j in nodes ==> nodes[j].publicKey != n.publicKey)
    && (n.token.None? || (id in nodes && nodes[id].token == n.token) || forall j :: j in nodes ==> nodes[j].token != n.token)
  }

  lemma PutNodeKeepsAddresses(hub: HubRow, nodes: Nodes, clients: Clients, id: Id, n: NodeRow)
    requires Rows(hub, nodes, clients) && Fits(hub, nodes, clients, id, n)
    ensures AddressesDistinct(nodes[id := n], clients)
  {
  }

  lemma PutNodeKeepsRows(hub: HubRow, nodes: Nodes, clients: Clients, id: Id, n: NodeRow)
    requires Rows(hub, nodes, clients) && Fits(hub, nodes, clients, id, n)
    ensures Rows(hub, nodes[id := n], clients)
  {
    PutNodeKeepsAddresses(hub, nodes, clients, id, n);
  }

  lemma PutClientKeepsRows(hub: HubRow, nodes: Nodes, clients: Clients, id: Id, c: ClientRow)
    requires Rows(hub, nodes, clients) && id !in clients && Usable(hub, c.address) && AddressFree(nodes, clients, c.address)
    ensures Rows(hub, nodes, clients[id := c])
  {
  }

  lemma PutNodeKeepsRelations(db: Db, id: Id, n: NodeRow)
    requires Relations(db) && (id in db.nodes ==> db.nodes[id].isHub == n.isHub)
    ensures Relations(db.(nodes := db.nodes[id := n]))
  {
  }

  /** What the resolver reads of a node decides nothing else. */
  lemma ResolverStepPreserves(db: Db, op: Op)
    requires Inv(db) && Legal(db, op) && (op.OpSetNodeDNS? || op.OpSetNodeDomains?)
    ensures Inv(Next(db, op))
  {
    var next := Next(db, op);
    if next != db {
      var n := next.nodes[op.id];
      assert next == db.(nodes := db.nodes[op.id := n]) && NodePlaced(db.hub, db.nodes[op.id]);
      PutNodeKeepsRows(db.hub, db.nodes, db.clients, op.id, n);
      PutNodeKeepsRelations(db, op.id, n);
    }
  }

  /** A key names no hub node, so a re-announcement never touches the hub node's row. */
  lemma ReannouncedRowFits(db: Db, id: Id, lanIface: string, subnets: seq<Cidr>, newToken: string)
    requires Inv(db) && id in db.nodes && db.nodes[id].publicKey != "" && TokenFree(db, newToken)
    ensures var r := EnrollExisting(db, id, lanIface, subnets, newToken);
      r.Some? ==> (id in r.value.nodes && Fits(db.hub, db.nodes, db.clients, id, r.value.nodes[id])
        && r.value.nodes[id].isHub == db.nodes[id].isHub)
  {
  }

  lemma EnrolledRowFits(db: Db, op: Op, id: Id, n: NodeRow)
    requires Inv(db) && Legal(db, op) && op.OpEnroll?
    requires Next(db, op) != db && id == if op.found.Some? then op.found.value else op.id
    requires id in Next(db, op).nodes && n == Next(db, op).nodes[id]
    ensures Fits(db.hub, db.nodes, db.clients, id, n)
    ensures id in db.nodes ==> db.nodes[id].isHub == n.isHub
  {
    if op.found.Some? {
      ReannouncedRowFits(db, id, op.lanIface, op.subnets, op.newToken);
    }
  }

  lemma AllocatedRowFits(db: Db, op: Op, id: Id, n: NodeRow)
    requires Inv(db) && Legal(db, op) && (op.OpCreateNode? || op.OpApproveNode?)
    requires Next(db, op) != db && id == op.id
    requires id in Next(db, op).nodes && n == Next(db, op).nodes[id]
    ensures Fits(db.hub, db.nodes, db.clients, id, n)
    ensures id in db.nodes ==> db.nodes[id].isHub == n.isHub
  {
    AllocatedIsNew(db);
    NotInUseIsFree(db, AllocateIP(db).value);
  }

  lemma HubAddressIsFree(db: Db)
    requires Inv(db) && db.hub.address !in NodeAddrs(db)
    ensures AddressFree(db.nodes, db.clients, db.hub.address)
  {
  }

  lemma ChangedRowFits(db: Db, op: Op, id: Id, n: NodeRow)
    requires Inv(db) && Legal(db, op)
    requires op.OpCreateNode? || op.OpApproveNode? || op.OpEnsureHubNode? || op.OpEnroll? || op.OpRejectNode?
    requires Next(db, op) != db
    requires id == if op.OpEnroll? && op.found.Some? then op.found.value else op.id
    requires id in Next(db, op).nodes && n == Next(db, op).nodes[id]
    ensures Fits(db.hub, db.nodes, db.clients, id, n)
    ensures id in db.nodes ==> db.nodes[id].isHub == n.isHub
  {
    if op.OpCreateNode? || op.OpApproveNode? {
      AllocatedRowFits(db, op, id, n);
    } else if op.OpEnsureHubNode? {
      HubAddressIsFree(db);
    } else if op.OpEnroll? {
      EnrolledRowFits(db, op, id, n);
    }
  }

  /** The transactions that insert or update one node row. */
  lemma NodeStepPreserves(db: Db, op: Op)
    requires Inv(db) && Legal(db, op)
    requires op.OpCreateNode? || op.OpApproveNode? || op.OpEnsureHubNode? || op.OpEnroll? || op.OpRejectNode?
    ensures Inv(Next(db, op))
  {
    var next := Next(db, op);
    if next != db {
      var id := if op.OpEnroll? && op.found.Some? then op.found.value else op.id;
      var n := next.nodes[id];
      assert next == db.(nodes := db.nodes[id := n]);
      ChangedRowFits(db, op, id, n);
      PutNodeKeepsRows(db.hub, db.nodes, db.clients, id, n);
      PutNodeKeepsRelations(db, id, n);
    }
  }

  lemma CreateClientPreserves(db: Db, op: Op)
    requires Inv(db) && op.OpCreateClient?
    ensures Inv(Next(db, op))
  {
    var next := Next(db, op);
    if next != db {
      AllocatedIsNew(db);
      var a := AllocateIP(db).value;
      NotInUseIsFree(db, a);
      PutClientKeepsRows(db.hub, db.nodes, db.clients, op.id, ClientRow(op.name, a, op.publicKey, true));
    }
  }

  lemma DeleteNodePreserves(db: Db, id: Id)
    requires Inv(db)
    ensures Inv(DeleteNode(db, id).value)
  {
    var next := DeleteNode(db, id).value;
    assert Relations(next);
  }

  lemma DeleteClientPreserves(db: Db, id: Id)
    requires Inv(db)
    ensures Inv(DeleteClient(db, id).value)
  {
    var next := DeleteClient(db, id).value;
    assert Relations(next);
  }

  /** The guards of the exit toggle are what keeps the exit single. */
  lemma SetGrantExitPreserves(db: Db, k: GrantKey, exit: bool)
    requires Relations(db)
    ensures var r := SetGrantExit(db, k, exit); r.Some? ==> Relations(r.value)
  {
  }

  lemma SetGrantPreserves(db: Db, k: GrantKey)
    requires Relations(db)
    ensures var r := SetGrant(db, k); r.Some? ==> Relations(r.value)
  {
  }

  lemma DeleteGrantPreserves(db: Db, k: GrantKey)
    requires Relations(db)
    ensures Relations(DeleteGrant(db, k).value)
  {
  }

  lemma SetGrantRulesPreserves(db: Db, k: GrantKey, ds: seq<RuleDTO>)
    requires Relations(db)
    ensures var r := SetGrantRules(db, k, ds); r.Some? ==> Relations(r.value)
  {
  }

  lemma SetNodeLinkPreserves(db: Db, src: Id, dst: Id)
    requires Relations(db)
    ensures var r := SetNodeLink(db, src, dst); r.Some? ==> Relations(r.value)
  {
  }

  lemma DeleteNodeLinkPreserves(db: Db, src: Id, dst: Id)
    requires Relations(db)
    ensures Relations(DeleteNodeLink(db, src, dst).value)
  {
  }

  /** The transactions that touch only grants, rules and links. */
  predicate RelationOp(op: Op) {
    op.OpSetGrant? || op.OpDeleteGrant? || op.OpSetGrantRules? || op.OpSetGrantExit? || op.OpSetNodeLink? || op.OpDeleteNodeLink?
  }

  lemma RelationOpKeepsRows(db: Db, op: Op)
    requires RelationOp(op)
    ensures var next := Next(db, op); next.hub == db.hub && next.nodes == db.nodes && next.clients == db.clients
  {
  }

  lemma GrantOpKeepsRelations(db: Db, op: Op)
    requires Relations(db) && (op.OpSetGrant? || op.OpDeleteGrant? || op.OpSetGrantRules? || op.OpSetGrantExit?)
    ensures Relations(Next(db, op))
  {
    match op
    case OpSetGrant(k) => SetGrantPreserves(db, k);
    case OpDeleteGrant(k) => DeleteGrantPreserves(db, k);
    case OpSetGrantRules(k, ds) => SetGrantRulesPreserves(db, k, ds);
    case OpSetGrantExit(k, exit) => SetGrantExitPreserves(db, k, exit);
  }

  lemma LinkOpKeepsRelations(db: Db, op: Op)
    requires Relations(db) && (op.OpSetNodeLink? || op.OpDeleteNodeLink?)
    ensures Relations(Next(db, op))
  {
    match op
    case OpSetNodeLink(src, dst) => SetNodeLinkPreserves(db, src, dst);
    case OpDeleteNodeLink(src, dst) => DeleteNodeLinkPreserves(db, src, dst);
  }

  lemma RelationStepPreserves(db: Db, op: Op)
    requires Inv(db) && RelationOp(op)
    ensures Inv(Next(db, op))
  {
    RelationOpKeepsRows(db, op);
    if op.OpSetNodeLink? || op.OpDeleteNodeLink? {
      LinkOpKeepsRelations(db, op);
    } else {
      GrantOpKeepsRelations(db, op);
    }
  }

  lemma UpdateClientPreserves(db: Db, op: Op)
    requires Inv(db) && op.OpUpdateClient?
    ensures Inv(Next(db, op))
  {
  }

  lemma StepPreserves(db: Db, op: Op)
    requires Inv(db) && Legal(db, op)
    ensures Inv(Next(db, op))
  {
    match op
    case OpCreateNode(_, _, _, _, _) => NodeStepPreserves(db, op);
    case OpApproveNode(_) => NodeStepPreserves(db, op);
    case OpEnsureHubNode(_) => NodeStepPreserves(db, op);
    case OpEnroll(_, _, _, _, _, _, _) => NodeStepPreserves(db, op);
    case OpRejectNode(_) => NodeStepPreserves(db, op);
    case OpSetNodeDNS(_, _) => ResolverStepPreserves(db, op);
    case OpSetNodeDomains(_, _) => ResolverStepPreserves(db, op);
    case OpCreateClient(_, _, _) => CreateClientPreserves(db, op);
    case OpUpdateClient(_, _) => UpdateClientPreserves(db, op);
    case OpDeleteClient(id) => DeleteClientPreserves(db, id);
    case OpDeleteNode(id) => DeleteNodePreserves(db, id);
    case _ => RelationStepPreserves(db, op);
  }

  /** Every state of every run from a fresh database satisfies the invariant. */
  lemma {:induction false} ReachableStatesSatisfyInv(states: seq<Db>, ops: seq<Op>, i: nat)
    requires IsRun(states, ops) && Fresh(states[0]) && i < |states|
    ensures Inv(states[i])
  {
    if i > 0 {
      ReachableStatesSatisfyInv(states, ops, i - 1);
      StepPreserves(states[i - 1], ops[i - 1]);
    }
  }

  // ---------------------------------------------------------------- the hub's own node

  predicate IsHubRow(db: Db, id: Id) {
    id in db.nodes && db.nodes[id].isHub
  }

  lemma ApprovalMovesRow(db: Db, id: Id)
    requires id in db.nodes && db.nodes[id].address.Some?
    ensures var next := Next(db, OpApproveNode(id));
      id in next.nodes && (next.nodes[id].address != db.nodes[id].address <==> db.nodes[id].status != Active && AllocateIP(db).Some?)
  {
    AllocatedIsNew(db);
    assert db.nodes[id].address.value in NodeAddrs(db);
  }

  /** A key names no hub node, so no announcement touches its row. */
  lemma EnrolKeepsHubRow(db: Db, op: Op, id: Id)
    requires Inv(db) && Legal(db, op) && IsHubRow(db, id) && op.OpEnroll?
    ensures id in Next(db, op).nodes && Next(db, op).nodes[id] == db.nodes[id]
  {
    assert db.nodes[id].publicKey == "";
  }

  lemma ClientOpKeepsNodes(db: Db, op: Op)
    requires op.OpCreateClient? || op.OpUpdateClient? || op.OpDeleteClient?
    ensures Next(db, op).nodes == db.nodes
  {
  }

  lemma NodeOpKeepsAddress(db: Db, op: Op, id: Id)
    requires Legal(db, op) && id in db.nodes && op != OpApproveNode(id) && !op.OpEnroll? && !RelationOp(op)
    requires !op.OpCreateClient? && !op.OpUpdateClient? && !op.OpDeleteClient?
    ensures var next := Next(db, op); id in next.nodes ==> next.nodes[id].address == db.nodes[id].address
  {
  }

  lemma OthersKeepHubRow(db: Db, op: Op, id: Id)
    requires Inv(db) && Legal(db, op) && IsHubRow(db, id) && op != OpApproveNode(id)
    ensures var next := Next(db, op); id in next.nodes ==> next.nodes[id].address == db.nodes[id].address
  {
    if op.OpEnroll? {
      EnrolKeepsHubRow(db, op, id);
    } else if RelationOp(op) {
      RelationOpKeepsRows(db, op);
    } else if op.OpCreateClient? || op.OpUpdateClient? || op.OpDeleteClient? {
      ClientOpKeepsNodes(db, op);
    } else {
      NodeOpKeepsAddress(db, op, id);
    }
  }

  /** A transaction moves the address of the hub's own node exactly when it approves that node while
      it is not active and an address is free. */
  lemma HubRowMovesIff(db: Db, op: Op, id: Id)
    requires Inv(db) && Legal(db, op) && IsHubRow(db, id) && db.nodes[id].address.Some?
    ensures var next := Next(db, op);
      (id in next.nodes && next.nodes[id].address != db.nodes[id].address) <==>
        op == OpApproveNode(id) && db.nodes[id].status != Active && AllocateIP(db).Some?
  {
    if op == OpApproveNode(id) {
      ApprovalMovesRow(db, id);
    } else {
      OthersKeepHubRow(db, op, id);
    }
  }

  lemma RejectingFreesNothing(db: Db, id: Id)
    requires id in db.nodes
    ensures UsedAddrs(Next(db, OpRejectNode(id))) == UsedAddrs(db)
  {
    var rejected := Next(db, OpRejectNode(id));
    forall a | a in NodeAddrs(db) ensures a in NodeAddrs(rejected) {
      var i :| i in db.nodes && db.nodes[i].address == Some(a);
      assert i in rejected.nodes && rejected.nodes[i].address == Some(a);
    }
    assert NodeAddrs(rejected) == NodeAddrs(db);
  }

  lemma ApprovalRow(db: Db, id: Id)
    requires id in db.nodes && db.nodes[id].status != Active && AllocateIP(db).Some?
    ensures var next := Next(db, OpApproveNode(id));
      id in next.nodes && next.nodes[id] == db.nodes[id].(address := AllocateIP(db), status := Active)
  {
  }

  /** So rejecting and then approving the hub's own node leaves it on an address of the pool that
      is not the hub's, and it stays the hub node. */
  lemma RejectedHubNodeMoves(db: Db, id: Id)
    requires Inv(db) && IsHubRow(db, id) && AllocateIP(db).Some?
    ensures var rejected := Next(db, OpRejectNode(id));
      var approved := Next(rejected, OpApproveNode(id));
      && IsHubRow(approved, id) && approved.nodes[id].status == Active
      && approved.nodes[id].address == AllocateIP(db) && Usable(db.hub, approved.nodes[id].address.value)
      && approved.nodes[id].address.value != db.hub.address
  {
    var rejected := Next(db, OpRejectNode(id));
    AllocatedIsNew(db);
    RejectingFreesNothing(db, id);
    assert rejected.nodes[id] == db.nodes[id].(status := Rejected);
    ApprovalRow(rejected, id);
  }
}

/** The relational state of the hub and the effect of every transaction on it
    (internal/store). A transaction that fails leaves no trace, so each effect is a
    function that returns the next state, or None when the transaction rolls back. */
module Database {
  import opened Basics
  import opened Net
  import opened Model
  import opened Text
  import Alloc

  type Id = nat

  datatype Status = Pending | Active | Rejected

  datatype HubRow = HubRow(address: Addr, pool: Prefix, wanIface: string)

  datatype NodeRow = NodeRow(
    name: string, address: Option<Addr>, lanIface: string, publicKey: string,
    status: Status, isHub: bool, token: Option<string>, subnets: set<Prefix>,
    dns: string, domains: set<string>)

  datatype ClientRow = ClientRow(name: string, address: Addr, publicKey: string, enabled: bool)

  datatype GrantKey = GrantKey(client: Id, node: Id)
  datatype LinkKey = LinkKey(src: Id, dst: Id)

  /** The tables. `grants` maps a grant to its exit column; `rules` holds the rule rows
      of each grant that has any. */
  datatype Db = Db(
    hub: HubRow,
    nodes: map<Id, NodeRow>,
    clients: map<Id, ClientRow>,
    grants: map<GrantKey, bool>,
    rules: map<GrantKey, seq<GrantRule>>,
    links: set<LinkKey>)

  function RulesOf(db: Db, k: GrantKey): seq<GrantRule> {
    if k in db.rules then db.rules[k] else []
  }

  function GetHub(db: Db): Hub {
    Hub(db.hub.address, Some(db.hub.pool), db.hub.wanIface)
  }

  /** What is in the database after a transaction with the given outcome. */
  function Outcome(before: Db, r: Option<Db>): Db {
    if r.Some? then r.value else before
  }

  // ---------------------------------------------------------------- addresses in use

  function NodeAddrs(db: Db): set<Addr> {
    set id | id in db.nodes && db.nodes[id].address.Some? :: db.nodes[id].address.value
  }

  function ClientAddrs(db: Db): set<Addr> {
    set id | id in db.clients :: db.clients[id].address
  }

  function UsedAddrs(db: Db): set<Addr> {
    {db.hub.address} + NodeAddrs(db) + ClientAddrs(db)
  }

  function AllocateIP(db: Db): Option<Addr> {
    Alloc.Allocate(db.hub.pool, UsedAddrs(db))
  }

  // ---------------------------------------------------------------- nodes and clients

  predicate NameTaken(db: Db, name: string) {
    exists id :: id in db.nodes && db.nodes[id].name == name
  }

  /** The subnet rows an insert loop leaves, or None when the cast to cidr or the
      primary key rejects one of them. */
  function SubnetRows(subnets: seq<Cidr>): Option<set<Prefix>> {
    if subnets == [] then Some({})
    else
      var init := SubnetRows(subnets[..|subnets| - 1]);
      var c := subnets[|subnets| - 1];
      if init.None? || !c.Masked() || c in init.value then None else Some(init.value + {c})
  }

  function CreateNode(
    db: Db, id: Id, name: string, lanIface: string, subnets: seq<Cidr>, publicKey: string): Option<Db>
  {
    var a := AllocateIP(db);
    var rows := SubnetRows(subnets);
    if a.None? || rows.None? || id in db.nodes || NameTaken(db, name) then None
    else Some(db.(nodes := db.nodes[id := NodeRow(name, a, lanIface, publicKey, Active, false, None, rows.value, "", {})]))
  }

  function CreateClient(db: Db, id: Id, name: string, publicKey: string): Option<Db> {
    var a := AllocateIP(db);
    if a.None? || id in db.clients then None
    else Some(db.(clients := db.clients[id := ClientRow(name, a.value, publicKey, true)]))
  }

  function UpdateClient(db: Db, id: Id, enabled: bool): Option<Db> {
    if id !in db.clients then Some(db)
    else Some(db.(clients := db.clients[id := db.clients[id].(enabled := enabled)]))
  }

  /** Deleting a row takes its grants, their rules and its links with it. */
  function DeleteClient(db: Db, id: Id): Option<Db> {
    Some(db.(
      clients := db.clients - {id},
      grants := map k | k in db.grants && k.client != id :: db.grants[k],
      rules := map k | k in db.rules && k.client != id :: db.rules[k]))
  }

  function DeleteNode(db: Db, id: Id): Option<Db> {
    Some(db.(
      nodes := db.nodes - {id},
      grants := map k | k in db.grants && k.node != id :: db.grants[k],
      rules := map k | k in db.rules && k.node != id :: db.rules[k],
      links := set l | l in db.links && l.src != id && l.dst != id))
  }

  function SetNodeDNS(db: Db, id: Id, dns: string): Option<Db> {
    if id !in db.nodes then Some(db)
    else Some(db.(nodes := db.nodes[id := db.nodes[id].(dns := dns)]))
  }

  /** A domain as it is stored: no final dot, no white space around it, lower case, and without
      a leading wildcard label. */
  function Cleaned(d: string): string {
    TrimPrefix(Lower(TrimSpace(TrimDot(d))), "*.")
  }

  predicate Kept(d: string) {
    d != "" && d != "*"
  }

  function StoredDomains(ds: seq<string>): set<string> {
    set d | d in ds && Kept(Cleaned(d)) :: Cleaned(d)
  }

  /** Replaces a node's domains; inserting one for a node that does not exist is refused. */
  function SetNodeDomains(db: Db, id: Id, ds: seq<string>): Option<Db> {
    if id in db.nodes then Some(db.(nodes := db.nodes[id := db.nodes[id].(domains := StoredDomains(ds))]))
    else if StoredDomains(ds) == {} then Some(db)
    else None
  }

  /** The virtual exit node: address of the hub, subnet 0.0.0.0/0. */
  function EnsureHubNode(db: Db, id: Id): Option<Db> {
    if exists i :: i in db.nodes && db.nodes[i].isHub then Some(db)
    else if id in db.nodes || NameTaken(db, "panel (internet exit)") || db.hub.address in NodeAddrs(db) then None
    else Some(db.(nodes := db.nodes[id :=
      NodeRow("panel (internet exit)", Some(db.hub.address), "", "", Active, true, None, {EVERYTHING}, "", {})]))
  }

  // ---------------------------------------------------------------- enrolment

  predicate HasKey(db: Db, id: Id, publicKey: string) {
    id in db.nodes && db.nodes[id].publicKey == publicKey
  }

  /** The row a re-announce leaves: token kept if it has one, a rejected node pending
      again, subnets replaced unless the announce carries none. */
  function Reannounced(n: NodeRow, lanIface: string, token: string, rows: set<Prefix>): NodeRow {
    n.(token := Some(token),
       lanIface := lanIface,
       status := if n.status == Rejected then Pending else n.status,
       subnets := if rows == {} then n.subnets else rows)
  }

  function KeptToken(current: Option<string>, newToken: string): string {
    if current.Some? && current.value != "" then current.value else newToken
  }

  /** `found` is the row the lookup by public key returns. */
  function EnrollExisting(
    db: Db, found: Id, lanIface: string, subnets: seq<Cidr>, freshToken: string): Option<Db>
    requires found in db.nodes
  {
    var rows := SubnetRows(subnets);
    var n := db.nodes[found];
    if rows.None? then None
    else Some(db.(nodes := db.nodes[found := Reannounced(n, lanIface, KeptToken(n.token, freshToken), rows.value)]))
  }

  function EnrollNew(
    db: Db, id: Id, name: string, lanIface: string, publicKey: string, subnets: seq<Cidr>, freshToken: string): Option<Db>
  {
    var rows := SubnetRows(subnets);
    if rows.None? || id in db.nodes || NameTaken(db, name) then None
    else Some(db.(nodes := db.nodes[id :=
      NodeRow(name, None, lanIface, publicKey, Pending, false, Some(freshToken), rows.value, "", {})]))
  }

  function ApproveNode(db: Db, id: Id): Option<Db> {
    if id !in db.nodes then None
    else
      var n := db.nodes[id];
      if n.status == Active && n.address.Some? then Some(db)
      else
        var a := AllocateIP(db);
        if a.None? then None else Some(db.(nodes := db.nodes[id := n.(address := a, status := Active)]))
  }

  function RejectNode(db: Db, id: Id): Option<Db> {
    if id !in db.nodes then None
    else Some(db.(nodes := db.nodes[id := db.nodes[id].(status := Rejected)]))
  }

  // ---------------------------------------------------------------- grants

  function SetGrant(db: Db, k: GrantKey): Option<Db> {
    if k.client !in db.clients || k.node !in db.nodes then None
    else if k in db.grants then Some(db)
    else Some(db.(grants := db.grants[k := false]))
  }

  function DeleteGrant(db: Db, k: GrantKey): Option<Db> {
    Some(db.(grants := db.grants - {k}, rules := db.rules - {k}))
  }

  /** A rule as the API receives it; `dest` None when it does not parse. */
  datatype RuleDTO = RuleDTO(dest: Option<Cidr>, proto: Proto, portFrom: int, portTo: int)

  /** What the loop's own checks and the table's constraints let through. */
  predicate RuleAccepted(d: RuleDTO) {
    && d.dest.Some? && d.dest.value.Masked()
    && d.proto != Unset
    && 0 <= d.portFrom <= 65535
    && 0 <= d.portTo <= 65535
    && (d.portFrom == 0 || d.portTo == 0 || d.portFrom <= d.portTo)
  }

  function RuleRow(d: RuleDTO): GrantRule
    requires RuleAccepted(d)
  {
    GrantRule(d.dest.value, d.proto, d.portFrom, d.portTo)
  }

  function RuleRows(ds: seq<RuleDTO>): seq<GrantRule>
    requires forall i :: 0 <= i < |ds| ==> RuleAccepted(ds[i])
  {
    seq(|ds|, i requires 0 <= i < |ds| => RuleRow(ds[i]))
  }

  function SetGrantRules(db: Db, k: GrantKey, ds: seq<RuleDTO>): Option<Db> {
    if k !in db.grants || exists i :: 0 <= i < |ds| && !RuleAccepted(ds[i]) then None
    else Some(db.(rules := db.rules[k := RuleRows(ds)]))
  }

  /** Whether the client already exits through another node. */
  predicate ExitsElsewhere(db: Db, k: GrantKey) {
    exists j :: j in db.grants && db.grants[j] && j.client == k.client && j.node != k.node && j.node in db.nodes
  }

  function SetGrantExit(db: Db, k: GrantKey, exit: bool): Option<Db> {
    if k !in db.grants || (k.node in db.nodes && db.nodes[k.node].isHub) then None
    else if exit && ExitsElsewhere(db, k) then None
    else Some(db.(grants := db.grants[k := exit]))
  }

  // ---------------------------------------------------------------- links

  predicate SubnetsOverlap(s: set<Prefix>, t: set<Prefix>) {
    exists p, q :: p in s && q in t && Overlaps(p, q)
  }

  predicate Linkable(db: Db, src: Id, dst: Id) {
    && src != dst
    && src in db.nodes && dst in db.nodes
    && db.nodes[src].status == Active && db.nodes[dst].status == Active
    && !db.nodes[src].isHub && !db.nodes[dst].isHub
    && db.nodes[src].subnets != {} && db.nodes[dst].subnets != {}
    && !SubnetsOverlap(db.nodes[src].subnets, db.nodes[dst].subnets)
  }

  function SetNodeLink(db: Db, src: Id, dst: Id): Option<Db> {
    if Linkable(db, src, dst) then Some(db.(links := db.links + {LinkKey(src, dst)})) else None
  }

  function DeleteNodeLink(db: Db, src: Id, dst: Id): Option<Db> {
    Some(db.(links := db.links - {LinkKey(src, dst)}))
  }
}

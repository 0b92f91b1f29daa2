/** Address allocation under concurrency (internal/store/alloc.go, queries.go, enroll.go):
    transactions interleave statement by statement, reads see committed rows only, and one
    advisory lock is held from before the scan until the commit. */
module AllocProtocol {
  import opened Basics
  import opened Net
  import opened Database
  import opened Invariant
  import Alloc

  /** What an allocating transaction is for. An approval holds its node's row lock. */
  datatype Purpose = ForNode(row: NodeRow) | ForClient(name: string, publicKey: string) | ForApproval

  /** Begun, waiting for the lock; Locked; Scanned the used addresses; Inserted a row with
      the chosen address, not yet visible to others. */
  datatype Phase = Begun | Locked | Scanned(used: set<Addr>) | Inserted(addr: Addr)

  datatype Tx = Tx(purpose: Purpose, id: Id, phase: Phase)

  /** `enforced` says whether taking the advisory lock waits for its holder. */
  datatype Sys = Sys(db: Db, txs: map<nat, Tx>, lock: Option<nat>, enforced: bool)

  datatype Step =
    | Begin(t: nat, purpose: Purpose, id: Id)
    | TakeLock(t: nat)
    | Scan(t: nat)
    | Insert(t: nat)
    | Commit(t: nat)
    | Rollback(t: nat)
    | Other(next: Db)
    | AddHubNode(id: Id, row: NodeRow)

  predicate At(s: Sys, t: nat, p: Phase) {
    t in s.txs && s.txs[t].phase == p
  }

  /** A change by transactions that do not allocate: rows go, come without an address, or
      keep the address they have; rows under approval stay. */
  predicate KeepsAddresses(s: Sys, next: Db) {
    && next.hub == s.db.hub
    && (forall i :: i in next.nodes && next.nodes[i].address.Some? ==>
          i in s.db.nodes && s.db.nodes[i].address == next.nodes[i].address && s.db.nodes[i].isHub == next.nodes[i].isHub)
    && (forall i :: i in next.clients ==> i in s.db.clients && s.db.clients[i].address == next.clients[i].address)
    && (forall t :: t in s.txs && s.txs[t].purpose.ForApproval? ==>
          s.txs[t].id in s.db.nodes && s.txs[t].id in next.nodes)
  }

  predicate Possible(s: Sys, step: Step) {
    match step
    case Begin(t, purpose, id) =>
      && t !in s.txs
      && (purpose.ForNode? ==> !purpose.row.isHub)
      && (purpose.ForApproval? ==> id in s.db.nodes)
    case TakeLock(t) => At(s, t, Begun) && (s.enforced ==> s.lock.None?)
    case Scan(t) => At(s, t, Locked)
    case Insert(t) => t in s.txs && s.txs[t].phase.Scanned?
    case Commit(t) => t in s.txs && s.txs[t].phase.Inserted?
    case Rollback(t) => t in s.txs
    case Other(next) => KeepsAddresses(s, next)
    case AddHubNode(id, row) =>
      && id !in s.db.nodes && row.isHub && row.address == Some(s.db.hub.address)
      && (forall i :: i in s.db.nodes ==> s.db.nodes[i].address != row.address)
  }

  function End(s: Sys, t: nat): Sys {
    s.(txs := s.txs - {t}, lock := if s.lock == Some(t) then None else s.lock)
  }

  /** The rows a commit makes visible; a duplicate id rolls back. */
  function CommitRow(s: Sys, tx: Tx): Db
    requires tx.phase.Inserted?
  {
    match tx.purpose
    case ForNode(row) =>
      if tx.id in s.db.nodes then s.db
      else s.db.(nodes := s.db.nodes[tx.id := row.(address := Some(tx.phase.addr))])
    case ForClient(name, publicKey) =>
      if tx.id in s.db.clients then s.db
      else s.db.(clients := s.db.clients[tx.id := ClientRow(name, tx.phase.addr, publicKey, true)])
    case ForApproval =>
      if tx.id !in s.db.nodes then s.db
      else s.db.(nodes := s.db.nodes[tx.id := s.db.nodes[tx.id].(address := Some(tx.phase.addr), status := Active)])
  }

  function After(s: Sys, step: Step): Sys
    requires Possible(s, step)
  {
    match step
    case Begin(t, purpose, id) => s.(txs := s.txs[t := Tx(purpose, id, Begun)])
    case TakeLock(t) => s.(txs := s.txs[t := s.txs[t].(phase := Locked)], lock := Some(t))
    case Scan(t) => s.(txs := s.txs[t := s.txs[t].(phase := Scanned(UsedAddrs(s.db)))])
    case Insert(t) =>
      var a := Alloc.Allocate(s.db.hub.pool, s.txs[t].phase.used);
      if a.None? then End(s, t) else s.(txs := s.txs[t := s.txs[t].(phase := Inserted(a.value))])
    case Commit(t) => End(s.(db := CommitRow(s, s.txs[t])), t)
    case Rollback(t) => End(s, t)
    case Other(next) => s.(db := next)
    case AddHubNode(id, row) => s.(db := s.db.(nodes := s.db.nodes[id := row]))
  }

  // ---------------------------------------------------------------- the invariant

  predicate Holding(p: Phase) {
    !p.Begun?
  }

  /** Only the transaction with the lock is past `Begun`. */
  predicate LockHeld(s: Sys) {
    forall t :: t in s.txs && Holding(s.txs[t].phase) ==> s.lock == Some(t)
  }

  /** Every visible address is in the set the holder scanned. */
  predicate ScanCurrent(s: Sys, used: set<Addr>) {
    && s.db.hub.address in used
    && (forall i :: i in s.db.nodes && s.db.nodes[i].address.Some? ==> s.db.nodes[i].address.value in used)
    && (forall i :: i in s.db.clients ==> s.db.clients[i].address in used)
  }

  predicate TxOk(s: Sys, tx: Tx) {
    && (tx.phase.Scanned? ==> ScanCurrent(s, tx.phase.used))
    && (tx.phase.Inserted? ==> Usable(s.db.hub, tx.phase.addr) && AddressFree(s.db.nodes, s.db.clients, tx.phase.addr))
    && (tx.purpose.ForNode? ==> !tx.purpose.row.isHub)
    && (tx.purpose.ForApproval? ==> tx.id in s.db.nodes)
  }

  predicate AddressesGood(db: Db) {
    AddressesDistinct(db.nodes, db.clients) && AddressesPlaced(db.hub, db.nodes, db.clients)
  }

  predicate Good(s: Sys) {
    && s.enforced
    && AddressesGood(s.db)
    && LockHeld(s)
    && forall t :: t in s.txs ==> TxOk(s, s.txs[t])
  }

  lemma CommitKeepsAddresses(s: Sys, t: nat)
    requires Good(s) && t in s.txs && s.txs[t].phase.Inserted?
    ensures AddressesGood(CommitRow(s, s.txs[t]))
  {
  }

  /** The commit disturbs no other transaction: none of them has scanned. */
  lemma CommitKeepsOthers(s: Sys, t: nat, u: nat)
    requires Good(s) && t in s.txs && s.txs[t].phase.Inserted? && u in s.txs && u != t
    ensures TxOk(After(s, Commit(t)), s.txs[u])
  {
  }

  lemma InsertIsGood(s: Sys, t: nat)
    requires Good(s) && t in s.txs && s.txs[t].phase.Scanned?
    ensures var a := Alloc.Allocate(s.db.hub.pool, s.txs[t].phase.used);
      a.Some? ==> Usable(s.db.hub, a.value) && AddressFree(s.db.nodes, s.db.clients, a.value)
  {
    assert TxOk(s, s.txs[t]);
    Alloc.AllocateIsLeast(s.db.hub.pool, s.txs[t].phase.used);
  }

  lemma OtherAddressesGood(s: Sys, next: Db)
    requires Good(s) && KeepsAddresses(s, next)
    ensures AddressesGood(next)
  {
  }

  lemma OtherIsGood(s: Sys, next: Db)
    requires Good(s) && KeepsAddresses(s, next)
    ensures Good(s.(db := next))
  {
    forall t | t in s.txs ensures TxOk(s.(db := next), s.txs[t]) {
      assert TxOk(s, s.txs[t]);
    }
    OtherAddressesGood(s, next);
  }

  lemma HubNodeIsGood(s: Sys, id: Id, row: NodeRow)
    requires Good(s) && Possible(s, AddHubNode(id, row))
    ensures Good(After(s, AddHubNode(id, row)))
  {
  }

  lemma CommitIsGood(s: Sys, t: nat)
    requires Good(s) && t in s.txs && s.txs[t].phase.Inserted?
    ensures Good(After(s, Commit(t)))
  {
    CommitKeepsAddresses(s, t);
    var next := After(s, Commit(t));
    forall u | u in next.txs ensures TxOk(next, next.txs[u]) {
      CommitKeepsOthers(s, t, u);
    }
  }

  /** Steps that leave the committed rows alone. */
  lemma QuietStepIsGood(s: Sys, step: Step)
    requires Good(s) && Possible(s, step)
    requires step.Begin? || step.TakeLock? || step.Scan? || step.Insert? || step.Rollback?
    requires step.Insert? ==>
      var a := Alloc.Allocate(s.db.hub.pool, s.txs[step.t].phase.used);
      a.Some? ==> Usable(s.db.hub, a.value) && AddressFree(s.db.nodes, s.db.clients, a.value)
    ensures Good(After(s, step))
  {
  }

  lemma StepIsGood(s: Sys, step: Step)
    requires Good(s) && Possible(s, step)
    ensures Good(After(s, step))
  {
    match step
    case Other(next) => OtherIsGood(s, next);
    case AddHubNode(id, row) => HubNodeIsGood(s, id, row);
    case Commit(t) => CommitIsGood(s, t);
    case Insert(t) =>
      InsertIsGood(s, t);
      QuietStepIsGood(s, step);
    case _ => QuietStepIsGood(s, step);
  }

  /** Runs from any state with good addresses and no transaction in flight. */
  ghost predicate IsRun(states: seq<Sys>, steps: seq<Step>) {
    && |states| == |steps| + 1
    && AddressesGood(states[0].db) && states[0].txs == map[] && states[0].lock == None
    && forall i :: 0 <= i < |steps| ==> Possible(states[i], steps[i]) && states[i + 1] == After(states[i], steps[i])
  }

  lemma {:induction false} RunIsGood(states: seq<Sys>, steps: seq<Step>, i: nat)
    requires IsRun(states, steps) && states[0].enforced && i < |states|
    ensures Good(states[i])
  {
    if i > 0 {
      RunIsGood(states, steps, i - 1);
      StepIsGood(states[i - 1], steps[i - 1]);
    }
  }

  /** Over every interleaving all node and client addresses are different, across both
      tables, and every one but the hub node's is a host address of the pool other than
      the hub's. */
  lemma AddressesAlwaysUnique(states: seq<Sys>, steps: seq<Step>, i: nat)
    requires IsRun(states, steps) && states[0].enforced && i < |states|
    ensures var db := states[i].db;
      && AddressesDistinct(db.nodes, db.clients)
      && (forall c :: c in db.clients ==> Usable(db.hub, db.clients[c].address))
      && (forall n :: n in db.nodes && db.nodes[n].address.Some? && !db.nodes[n].isHub ==> Usable(db.hub, db.nodes[n].address.value))
  {
    RunIsGood(states, steps, i);
    var db := states[i].db;
    forall n | n in db.nodes && db.nodes[n].address.Some? && !db.nodes[n].isHub
      ensures Usable(db.hub, db.nodes[n].address.value)
    {
      assert NodePlaced(db.hub, db.nodes[n]);
    }
  }

  lemma ExtendRun(states: seq<Sys>, steps: seq<Step>, step: Step) returns (more: seq<Sys>)
    requires IsRun(states, steps) && Possible(states[|states| - 1], step)
    ensures IsRun(more, steps + [step]) && more == states + [After(states[|states| - 1], step)]
  {
    more := states + [After(states[|states| - 1], step)];
    var all := steps + [step];
    forall i | 0 <= i < |all| ensures Possible(more[i], all[i]) && more[i + 1] == After(more[i], all[i]) {
      if i < |steps| {
        assert all[i] == steps[i] && more[i] == states[i];
      }
    }
  }

  lemma BeginTogether(s: Sys, p: Purpose, i: Id, q: Purpose, j: Id) returns (states: seq<Sys>, steps: seq<Step>)
    requires AddressesGood(s.db) && s.txs == map[] && s.lock == None
    requires Possible(s, Begin(0, p, i)) && q.ForClient?
    ensures IsRun(states, steps) && states[0] == s
    ensures states[|states| - 1] == s.(txs := map[0 := Tx(p, i, Begun), 1 := Tx(q, j, Begun)])
  {
    states := ExtendRun([s], [], Begin(0, p, i));
    steps := [Begin(0, p, i)];
    states := ExtendRun(states, steps, Begin(1, q, j));
    steps := steps + [Begin(1, q, j)];
  }

  /** Two transactions that both hold the lock, because taking it does not wait. */
  lemma LockTogether(s: Sys, p: Purpose, i: Id, q: Purpose, j: Id) returns (states: seq<Sys>, steps: seq<Step>)
    requires AddressesGood(s.db) && s.txs == map[] && s.lock == None && !s.enforced
    requires Possible(s, Begin(0, p, i)) && q.ForClient?
    ensures IsRun(states, steps) && states[0] == s
    ensures var last := states[|states| - 1];
      last.db == s.db && last.txs == map[0 := Tx(p, i, Locked), 1 := Tx(q, j, Locked)]
  {
    states, steps := BeginTogether(s, p, i, q, j);
    states := ExtendRun(states, steps, TakeLock(0));
    steps := steps + [TakeLock(0)];
    states := ExtendRun(states, steps, TakeLock(1));
    steps := steps + [TakeLock(1)];
  }

  /** And so both scan the same rows. */
  lemma ScanTogether(s: Sys, row: NodeRow, node: Id, name: string, publicKey: string, client: Id)
    returns (states: seq<Sys>, steps: seq<Step>)
    requires AddressesGood(s.db) && s.txs == map[] && s.lock == None && !s.enforced && !row.isHub
    ensures IsRun(states, steps) && states[0] == s
    ensures var last := states[|states| - 1]; var used := UsedAddrs(s.db);
      && last.db == s.db
      && last.txs == map[0 := Tx(ForNode(row), node, Scanned(used)), 1 := Tx(ForClient(name, publicKey), client, Scanned(used))]
  {
    states, steps := LockTogether(s, ForNode(row), node, ForClient(name, publicKey), client);
    states := ExtendRun(states, steps, Scan(0));
    steps := steps + [Scan(0)];
    states := ExtendRun(states, steps, Scan(1));
    steps := steps + [Scan(1)];
  }

  /** And so both insert the same address. */
  lemma InsertTogether(s: Sys, row: NodeRow, node: Id, name: string, publicKey: string, client: Id)
    returns (states: seq<Sys>, steps: seq<Step>)
    requires AddressesGood(s.db) && s.txs == map[] && s.lock == None && !s.enforced && !row.isHub
    requires AllocateIP(s.db).Some?
    ensures IsRun(states, steps) && states[0] == s
    ensures var last := states[|states| - 1]; var a := AllocateIP(s.db).value;
      && last.db == s.db
      && last.txs == map[0 := Tx(ForNode(row), node, Inserted(a)), 1 := Tx(ForClient(name, publicKey), client, Inserted(a))]
  {
    states, steps := ScanTogether(s, row, node, name, publicKey, client);
    states := ExtendRun(states, steps, Insert(0));
    steps := steps + [Insert(0)];
    states := ExtendRun(states, steps, Insert(1));
    steps := steps + [Insert(1)];
  }

  /** The lock is what does it. Where taking it does not wait, some run from any good state with an
      address to spare gives a node and a client the same address: both transactions scan before
      either commits, and no constraint objects. */
  lemma WithoutLockAddressesCollide(s: Sys, row: NodeRow, node: Id, name: string, publicKey: string, client: Id)
    returns (states: seq<Sys>, steps: seq<Step>)
    requires AddressesGood(s.db) && s.txs == map[] && s.lock == None && !s.enforced
    requires AllocateIP(s.db).Some? && node !in s.db.nodes && client !in s.db.clients && !row.isHub
    ensures IsRun(states, steps) && states[0] == s
    ensures var db := states[|states| - 1].db; !AddressesDistinct(db.nodes, db.clients)
  {
    states, steps := InsertTogether(s, row, node, name, publicKey, client);
    states := ExtendRun(states, steps, Commit(0));
    steps := steps + [Commit(0)];
    states := ExtendRun(states, steps, Commit(1));
    steps := steps + [Commit(1)];
    var db := states[|states| - 1].db;
    assert db.nodes[node].address == Some(db.clients[client].address);
  }
}

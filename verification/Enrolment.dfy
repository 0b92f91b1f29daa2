/** Enrolment as a protocol over runs (internal/store/enroll.go, internal/api/handlers_enroll.go):
    a node's token is stable until its row is deleted, and a poll hands out a config exactly to
    the holder of an active row's token. */
module Enrolment {
  import opened Basics
  import opened Net
  import opened Database
  import opened Invariant
  import Snapshot

  // ---------------------------------------------------------------- the poll endpoint

  datatype Reply =
    | NotFound
    | Failed
    | StatusOnly(status: Status)
    | Config(id: Id, address: Addr, subnets: set<Prefix>, reach: set<Prefix>)

  /** The row a token selects, if any. */
  predicate HoldsToken(db: Db, id: Id, token: string) {
    id in db.nodes && db.nodes[id].token == Some(token)
  }

  /** The export of one node, its row and its links read by separate statements: it fails on a row
      that is gone or has no address. */
  function Export(row: Db, links: Db, id: Id): Reply {
    if id !in row.nodes || row.nodes[id].address.None? then Failed
    else Config(id, row.nodes[id].address.value, row.nodes[id].subnets, Snapshot.Reach(links, id))
  }

  /** The reply when the lookup by token and the two statements of the export each see the database
      of their own moment. `found` is the row the lookup returns. The handler answers "unknown
      token" for every error of the lookup, a failed query (`answered` false) included. */
  function PollAcross(lookup: Db, row: Db, links: Db, found: Option<Id>, answered: bool): Reply
    requires found.Some? ==> found.value in lookup.nodes
  {
    if !answered || found.None? then NotFound
    else
      var n := lookup.nodes[found.value];
      if n.status == Active then Export(row, links, found.value) else StatusOnly(n.status)
  }

  /** The reply when nothing commits in between. */
  function Poll(db: Db, found: Option<Id>, answered: bool): Reply
    requires found.Some? ==> found.value in db.nodes
  {
    PollAcross(db, db, db, found, answered)
  }

  ghost predicate Finds(db: Db, token: string, found: Option<Id>) {
    if found.Some? then HoldsToken(db, found.value, token) else forall id :: !HoldsToken(db, id, token)
  }

  /** In a reachable state a token finds one row at most, and the poll answers with a config
      exactly when the query ran and that row is active; the export never fails. */
  lemma PollAnswers(db: Db, token: string, found: Option<Id>, other: Option<Id>, answered: bool)
    requires Inv(db) && Finds(db, token, found) && Finds(db, token, other)
    ensures found == other
    ensures var r := Poll(db, found, answered);
            && !r.Failed?
            && (r.NotFound? <==> !answered || forall id :: !HoldsToken(db, id, token))
            && (r.Config? <==> answered && exists id :: HoldsToken(db, id, token) && db.nodes[id].status == Active)
            && (r.Config? ==> HoldsToken(db, r.id, token) && db.nodes[r.id].address == Some(r.address))
  {
  }

  // ---------------------------------------------------------------- tokens over runs

  /** The token an enrol call returns. */
  function IssuedToken(db: Db, op: Op): string
    requires op.OpEnroll? && Legal(db, op)
  {
    if op.found.Some? then KeptToken(db.nodes[op.found.value].token, op.newToken) else op.newToken
  }

  function EnrolledRow(op: Op): Id
    requires op.OpEnroll?
  {
    if op.found.Some? then op.found.value else op.id
  }

  predicate Deletes(op: Op, id: Id) {
    op.OpDeleteNode? && op.id == id
  }

  /** The row holds a key and the token issued to it. */
  predicate Enrolled(db: Db, id: Id, key: string, token: string) {
    HoldsToken(db, id, token) && db.nodes[id].publicKey == key
  }

  lemma EnrolIssues(db: Db, op: Op)
    requires op.OpEnroll? && Legal(db, op) && Effect(db, op).Some?
    ensures Enrolled(Next(db, op), EnrolledRow(op), op.publicKey, IssuedToken(db, op))
  {
  }

  lemma StepKeepsToken(db: Db, op: Op, id: Id, key: string, token: string)
    requires Legal(db, op) && Enrolled(db, id, key, token) && token != "" && !Deletes(op, id)
    ensures Enrolled(Next(db, op), id, key, token)
  {
    if RelationOp(op) {
      RelationOpKeepsRows(db, op);
    }
  }

  /** No transaction but the row's own deletion takes a token away from its key: not approval,
      rejection, a re-announcement, or anything done to other rows. */
  lemma {:induction false} TokenIsStable(states: seq<Db>, ops: seq<Op>, i: nat, j: nat, id: Id, key: string, token: string)
    requires IsRun(states, ops) && i <= j < |states|
    requires Enrolled(states[i], id, key, token) && token != ""
    requires forall m :: i <= m < j ==> !Deletes(ops[m], id)
    ensures Enrolled(states[j], id, key, token)
  {
    if i < j {
      TokenIsStable(states, ops, i, j - 1, id, key, token);
      StepKeepsToken(states[j - 1], ops[j - 1], id, key, token);
    }
  }

  /** A token once issued to a key is returned by every later enrol of that key until the row is
      deleted. */
  lemma TokenIsReturnedAgain(states: seq<Db>, ops: seq<Op>, i: nat, j: nat)
    requires IsRun(states, ops) && Fresh(states[0]) && i < j < |ops|
    requires ops[i].OpEnroll? && Effect(states[i], ops[i]).Some?
    requires ops[j].OpEnroll? && ops[j].publicKey == ops[i].publicKey
    requires forall m :: i < m < j ==> !Deletes(ops[m], EnrolledRow(ops[i]))
    ensures IssuedToken(states[j], ops[j]) == IssuedToken(states[i], ops[i])
    ensures EnrolledRow(ops[j]) == EnrolledRow(ops[i])
  {
    var id, key, token := EnrolledRow(ops[i]), ops[i].publicKey, IssuedToken(states[i], ops[i]);
    EnrolIssues(states[i], ops[i]);
    TokenIsStable(states, ops, i + 1, j, id, key, token);
    ReachableStatesSatisfyInv(states, ops, j);
    assert HasKey(states[j], id, key);
  }

  // ---------------------------------------------------------------- unknown tokens

  predicate Reissues(op: Op, token: string) {
    op.OpEnroll? && op.newToken == token
  }

  lemma HolderComesFrom(db: Db, op: Op, id: Id, token: string)
    requires Legal(db, op) && HoldsToken(Next(db, op), id, token)
    ensures HoldsToken(db, id, token) || Reissues(op, token)
  {
  }

  lemma StepAddsNoHolder(db: Db, op: Op, token: string)
    requires Legal(db, op) && !Reissues(op, token) && forall id :: !HoldsToken(db, id, token)
    ensures forall id :: !HoldsToken(Next(db, op), id, token)
  {
    forall id | HoldsToken(Next(db, op), id, token) ensures false {
      HolderComesFrom(db, op, id, token);
    }
  }

  lemma {:induction false} LostTokenStaysLost(states: seq<Db>, ops: seq<Op>, i: nat, j: nat, token: string)
    requires IsRun(states, ops) && i <= j < |states|
    requires forall id :: !HoldsToken(states[i], id, token)
    requires forall m :: i <= m < j ==> !Reissues(ops[m], token)
    ensures forall id :: !HoldsToken(states[j], id, token)
  {
    if i < j {
      LostTokenStaysLost(states, ops, i, j - 1, token);
      StepAddsNoHolder(states[j - 1], ops[j - 1], token);
    }
  }

  lemma DeletionRemovesHolder(db: Db, id: Id, token: string)
    requires Inv(db) && HoldsToken(db, id, token)
    ensures forall k :: !HoldsToken(DeleteNode(db, id).value, k, token)
  {
  }

  lemma {:induction false} FirstDeletion(ops: seq<Op>, i: nat, m: nat, id: Id) returns (first: nat)
    requires i <= m < |ops| && Deletes(ops[m], id)
    ensures i <= first <= m && Deletes(ops[first], id)
    ensures forall k :: i <= k < first ==> !Deletes(ops[k], id)
    decreases m - i
  {
    if Deletes(ops[i], id) {
      first := i;
    } else {
      first := FirstDeletion(ops, i + 1, m, id);
    }
  }

  lemma DeletedIsUnknown(states: seq<Db>, ops: seq<Op>, i: nat, j: nat, m: nat, id: Id, token: string)
    requires IsRun(states, ops) && Fresh(states[0]) && i <= m < j < |states| && Deletes(ops[m], id)
    requires HoldsToken(states[i], id, token) && token != ""
    requires forall k :: i <= k < j ==> !Reissues(ops[k], token)
    ensures forall k :: !HoldsToken(states[j], k, token)
  {
    var first := FirstDeletion(ops, i, m, id);
    TokenIsStable(states, ops, i, first, id, states[i].nodes[id].publicKey, token);
    ReachableStatesSatisfyInv(states, ops, first);
    DeletionRemovesHolder(states[first], id, token);
    LostTokenStaysLost(states, ops, first + 1, j, token);
  }

  /** While generated tokens are new, the panel answers "unknown token", on which the agent tears
      its tunnel down, exactly to a node whose row was deleted since it enrolled, or whose lookup
      query failed. */
  lemma UnknownIffDeleted(
    states: seq<Db>, ops: seq<Op>, i: nat, j: nat, id: Id, token: string, found: Option<Id>, answered: bool)
    requires IsRun(states, ops) && Fresh(states[0]) && i <= j < |states|
    requires HoldsToken(states[i], id, token) && token != ""
    requires forall m :: i <= m < j ==> !Reissues(ops[m], token)
    requires Finds(states[j], token, found)
    ensures Poll(states[j], found, answered).NotFound? <==>
            !answered || exists m :: i <= m < j && Deletes(ops[m], id)
  {
    ReachableStatesSatisfyInv(states, ops, j);
    PollAnswers(states[j], token, found, found, answered);
    if m :| i <= m < j && Deletes(ops[m], id) {
      DeletedIsUnknown(states, ops, i, j, m, id, token);
    } else {
      TokenIsStable(states, ops, i, j, id, states[i].nodes[id].publicKey, token);
    }
  }

  // ---------------------------------------------------------------- a poll across commits

  /** The transactions that can make a row. */
  predicate Makes(op: Op, id: Id) {
    (op.OpCreateNode? && op.id == id) || (op.OpEnroll? && op.found.None? && op.id == id) || op == OpEnsureHubNode(id)
  }

  predicate Addressed(db: Db, id: Id) {
    id in db.nodes && db.nodes[id].address.Some?
  }

  lemma StepKeepsAddressed(db: Db, op: Op, id: Id)
    requires Legal(db, op) && Addressed(db, id) && !Deletes(op, id)
    ensures Addressed(Next(db, op), id)
  {
    if RelationOp(op) {
      RelationOpKeepsRows(db, op);
    }
  }

  lemma {:induction false} StaysAddressed(states: seq<Db>, ops: seq<Op>, i: nat, j: nat, id: Id)
    requires IsRun(states, ops) && i <= j < |states| && Addressed(states[i], id)
    requires forall m :: i <= m < j ==> !Deletes(ops[m], id)
    ensures Addressed(states[j], id)
  {
    if i < j {
      StaysAddressed(states, ops, i, j - 1, id);
      StepKeepsAddressed(states[j - 1], ops[j - 1], id);
    }
  }

  lemma StepKeepsAbsent(db: Db, op: Op, id: Id)
    requires Legal(db, op) && !Makes(op, id) && (id !in db.nodes || Deletes(op, id))
    ensures id !in Next(db, op).nodes
  {
    if RelationOp(op) {
      RelationOpKeepsRows(db, op);
    }
  }

  lemma {:induction false} StaysAbsent(states: seq<Db>, ops: seq<Op>, i: nat, j: nat, id: Id)
    requires IsRun(states, ops) && i < j < |states| && Deletes(ops[i], id)
    requires forall m :: i <= m < j ==> !Makes(ops[m], id)
    ensures id !in states[j].nodes
  {
    if i < j - 1 {
      StaysAbsent(states, ops, i, j - 1, id);
    }
    StepKeepsAbsent(states[j - 1], ops[j - 1], id);
  }

  /** The poll of any run, whatever commits between its statements: a config goes to the holder of
      a row that was active when the token was looked up, with the address the row has when it is
      exported; and the poll fails exactly when the row was deleted in between. New rows get new
      ids. */
  lemma PollAcrossAnswers(
    states: seq<Db>, ops: seq<Op>, i: nat, j: nat, k: nat, token: string, id: Id, answered: bool)
    requires IsRun(states, ops) && Fresh(states[0]) && i <= j <= k < |states|
    requires HoldsToken(states[i], id, token) && token != ""
    requires forall m :: i <= m < j ==> !Makes(ops[m], id)
    ensures var r := PollAcross(states[i], states[j], states[k], Some(id), answered);
      var active := states[i].nodes[id].status == Active;
      var deleted := exists m :: i <= m < j && Deletes(ops[m], id);
      && (r.NotFound? <==> !answered)
      && (r.StatusOnly? <==> answered && !active)
      && (r.Failed? <==> answered && active && deleted)
      && (r.Config? ==> HoldsToken(states[j], id, token) && states[j].nodes[id].address == Some(r.address))
  {
    ReachableStatesSatisfyInv(states, ops, i);
    if m :| i <= m < j && Deletes(ops[m], id) {
      StaysAbsent(states, ops, m, j, id);
    } else {
      TokenIsStable(states, ops, i, j, id, states[i].nodes[id].publicKey, token);
      if states[i].nodes[id].status == Active {
        StaysAddressed(states, ops, i, j, id);
      }
    }
  }

  // ---------------------------------------------------------------- approval and rejection

  /** Approving a row makes its token fetch a config that carries the row's address; rejecting
      it makes the token fetch none, and a later announcement only makes it pending. */
  lemma ApprovalOpensThePoll(db: Db, id: Id, token: string)
    requires Inv(db) && HoldsToken(db, id, token)
    ensures var r := ApproveNode(db, id);
            r.Some? ==> Inv(r.value) && Poll(r.value, Some(id), true).Config? && HoldsToken(r.value, id, token)
    ensures var r := RejectNode(db, id);
            r.Some? && Poll(r.value, Some(id), true) == StatusOnly(Rejected) && HoldsToken(r.value, id, token)
  {
    StepPreserves(db, OpApproveNode(id));
  }

  /** A rejected node that announces itself again waits for approval: no announcement ever makes
      a row active or gives it an address. */
  lemma EnrolNeverApproves(db: Db, op: Op, id: Id)
    requires op.OpEnroll? && Legal(db, op) && id in Next(db, op).nodes
    ensures var n := Next(db, op).nodes[id];
            && (n.status == Active ==> id in db.nodes && db.nodes[id].status == Active)
            && (n.address.Some? ==> id in db.nodes && db.nodes[id].address == n.address)
            && (n.status == Rejected ==> id in db.nodes && db.nodes[id].status == Rejected && !(op.found == Some(id) && Effect(db, op).Some?))
  {
  }

  /** The transactions that make a row active. */
  predicate Activates(op: Op, id: Id) {
    op == OpApproveNode(id) || (op.OpCreateNode? && op.id == id) || op == OpEnsureHubNode(id)
  }

  lemma ActiveBefore(db: Db, op: Op, id: Id)
    requires Legal(db, op)
    requires id in Next(db, op).nodes && Next(db, op).nodes[id].status == Active
    requires !Activates(op, id)
    ensures id in db.nodes && db.nodes[id].status == Active
    ensures !Deletes(op, id) && op != OpRejectNode(id)
  {
    if RelationOp(op) {
      RelationOpKeepsRows(db, op);
    } else if op.OpEnroll? {
      EnrolNeverApproves(db, op, id);
    }
  }

  /** Over any run, a row that is active was approved, or created by an administrator, or is the
      panel's own, and was neither rejected nor deleted since: enrolling alone never gets a
      config. */
  lemma {:induction false} ActiveWasApproved(states: seq<Db>, ops: seq<Op>, j: nat, id: Id) returns (m: nat)
    requires IsRun(states, ops) && Fresh(states[0]) && j < |states|
    requires id in states[j].nodes && states[j].nodes[id].status == Active
    ensures m < j && Activates(ops[m], id)
    ensures forall k :: m < k < j ==> !Deletes(ops[k], id) && ops[k] != OpRejectNode(id)
  {
    if Activates(ops[j - 1], id) {
      m := j - 1;
    } else {
      ActiveBefore(states[j - 1], ops[j - 1], id);
      m := ActiveWasApproved(states, ops, j - 1, id);
    }
  }
}

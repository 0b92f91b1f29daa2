/** What one transaction does to another's effect: which calls undo each other exactly, and
    what revoking, disabling and deleting take away from the policy (internal/store). */
module Undo {
  import opened Basics
  import opened Net
  import opened Nft
  import opened Database
  import opened Invariant
  import opened Policy
  import opened Delivery

  // ---------------------------------------------------------------- inverses

  lemma RestrictAll<K, V>(m: map<K, V>, n: map<K, V>)
    requires n.Keys == m.Keys && forall k :: k in m ==> n[k] == m[k]
    ensures n == m
  {
  }

  /** Deleting a client that was just created restores the database: no grant can name it yet. */
  lemma DeleteUndoesCreateClient(db: Db, id: Id, name: string, publicKey: string)
    requires Inv(db)
    ensures var r := CreateClient(db, id, name, publicKey);
      r.Some? ==> DeleteClient(r.value, id) == Some(db)
  {
    var r := CreateClient(db, id, name, publicKey);
    if r.Some? {
      var back := DeleteClient(r.value, id).value;
      RestrictAll(db.clients, back.clients);
      RestrictAll(db.grants, back.grants);
      RestrictAll(db.rules, back.rules);
    }
  }

  lemma DeleteUndoesCreateNode(db: Db, id: Id, name: string, lanIface: string, subnets: seq<Cidr>, publicKey: string)
    requires Inv(db)
    ensures var r := CreateNode(db, id, name, lanIface, subnets, publicKey);
      r.Some? ==> DeleteNode(r.value, id) == Some(db)
  {
    var r := CreateNode(db, id, name, lanIface, subnets, publicKey);
    if r.Some? {
      var back := DeleteNode(r.value, id).value;
      RestrictAll(db.nodes, back.nodes);
      RestrictAll(db.grants, back.grants);
      RestrictAll(db.rules, back.rules);
      assert back.links == db.links;
    }
  }

  /** The two databases differ in one grant's columns and rules at most. */
  predicate DiffersAt(db: Db, other: Db, k: GrantKey) {
    && other == db.(grants := other.grants, rules := other.rules)
    && other.grants - {k} == db.grants - {k}
    && other.rules - {k} == db.rules - {k}
  }

  /** The edits a grant takes while it stands. */
  datatype Edit = Rules(ds: seq<RuleDTO>) | Exit(on: bool)

  function Edited(db: Db, k: GrantKey, e: Edit): Db {
    match e
    case Rules(ds) => Outcome(db, SetGrantRules(db, k, ds))
    case Exit(on) => Outcome(db, SetGrantExit(db, k, on))
  }

  function EditedAll(db: Db, k: GrantKey, es: seq<Edit>): Db {
    if es == [] then db else Edited(EditedAll(db, k, es[..|es| - 1]), k, es[|es| - 1])
  }

  lemma EditStays(db: Db, other: Db, k: GrantKey, e: Edit)
    requires DiffersAt(db, other, k)
    ensures DiffersAt(db, Edited(other, k, e), k)
  {
  }

  lemma {:induction false} EditsStay(db: Db, other: Db, k: GrantKey, es: seq<Edit>)
    requires DiffersAt(db, other, k)
    ensures DiffersAt(db, EditedAll(other, k, es), k)
  {
    if es != [] {
      EditsStay(db, other, k, es[..|es| - 1]);
      EditStays(db, EditedAll(other, k, es[..|es| - 1]), k, es[|es| - 1]);
    }
  }

  lemma RevokeRestores(db: Db, other: Db, k: GrantKey)
    requires DiffersAt(db, other, k) && k !in db.grants && k !in db.rules
    ensures DeleteGrant(other, k) == Some(db)
  {
    RestrictAll(db.grants, db.grants - {k});
    RestrictAll(db.rules, db.rules - {k});
  }

  /** Revoking undoes granting, whatever rules and exits were set on the grant in between, in any
      number and order, accepted or refused. */
  lemma RevokeUndoesGrant(db: Db, k: GrantKey, es: seq<Edit>)
    requires Inv(db) && k !in db.grants && SetGrant(db, k).Some?
    ensures DeleteGrant(EditedAll(SetGrant(db, k).value, k, es), k) == Some(db)
  {
    var granted := SetGrant(db, k).value;
    assert DiffersAt(db, granted, k);
    EditsStay(db, granted, k, es);
    RevokeRestores(db, EditedAll(granted, k, es), k);
  }

  lemma UnlinkUndoesLink(db: Db, src: Id, dst: Id)
    requires LinkKey(src, dst) !in db.links
    ensures var r := SetNodeLink(db, src, dst);
      r.Some? ==> DeleteNodeLink(r.value, src, dst) == Some(db)
  {
  }

  /** Switching a client off and on again restores the database, addresses and grants included. */
  lemma EnableUndoesDisable(db: Db, id: Id)
    requires id in db.clients ==> db.clients[id].enabled
    ensures UpdateClient(UpdateClient(db, id, false).value, id, true) == Some(db)
  {
    if id in db.clients {
      var back := UpdateClient(UpdateClient(db, id, false).value, id, true).value;
      RestrictAll(db.clients, back.clients);
    }
  }

  // ---------------------------------------------------------------- what is taken away

  /** A deleted client's address opens nothing until it is handed out again. */
  lemma DeletedClientIsCut(db: Db, id: Id, pkt: Packet)
    requires Inv(db) && LansApart(db) && id in db.clients && pkt.saddr == db.clients[id].address
    ensures !Permitted(DeleteClient(db, id).value, pkt)
  {
    var next := DeleteClient(db, id).value;
    var a := db.clients[id].address;
    TunnelAddressesInPool(db);
    forall k ensures !GrantOpens(next, k, pkt) {
    }
    forall l | LinkOpens(next, l, pkt) ensures false {
      assert RealNode(db, l.src) by {
        assert l in db.links;
      }
      assert InLan(next, l.src, a) ==> InLan(db, l.src, a);
    }
  }

  lemma LansStayApart(db: Db, next: Db)
    requires LansApart(db) && next.nodes == db.nodes && next.hub == db.hub
    ensures LansApart(next)
  {
    forall i, j, a: Addr | RealNode(next, i) && RealNode(next, j) && i != j && InLan(next, i, a) ensures !InLan(next, j, a) {
      assert RealNode(db, i) && RealNode(db, j) && InLan(db, i, a);
      assert InLan(next, j, a) ==> InLan(db, j, a);
    }
    forall i, a: Addr | RealNode(next, i) && InLan(next, i, a) ensures !Contains(next.hub.pool, a) {
      assert RealNode(db, i) && InLan(db, i, a);
    }
  }

  /** Disabling a client is as good as deleting it, for traffic from its address. */
  lemma UpdateClientCuts(db: Db, id: Id, pkt: Packet)
    requires Inv(db) && LansApart(db) && id in db.clients && pkt.saddr == db.clients[id].address
    ensures !Permitted(UpdateClient(db, id, false).value, pkt)
  {
    var next := UpdateClient(db, id, false).value;
    StepPreserves(db, OpUpdateClient(id, false));
    assert next.nodes == db.nodes && next.hub == db.hub;
    LansStayApart(db, next);
    DisabledClientIsCut(next, id, pkt);
  }

  /** A successful exit toggle leaves exactly the asked exit on, and touches no other column. */
  lemma ExitIsExclusive(db: Db, k: GrantKey, exit: bool)
    requires Inv(db)
    ensures var r := SetGrantExit(db, k, exit); r.Some? ==>
      && r.value == db.(grants := r.value.grants) && r.value.grants.Keys == db.grants.Keys
      && (exit ==> forall j :: j in r.value.grants && j.client == k.client ==> (r.value.grants[j] <==> j == k))
      && (!exit ==> forall j :: j in r.value.grants && r.value.grants[j] ==> j != k && db.grants[j])
  {
  }
}

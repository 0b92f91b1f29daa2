/** From the domains an administrator enters for a node to the server a query is sent to: the store's
    cleaning, the query for the routes, the resolver's table and its answer, in a row. */
module NameService {
  import opened Basics
  import opened Text
  import opened Database
  import opened Snapshot
  import opened Queries
  import opened Changes
  import opened Resolver

  /** The domain is among the entered ones, in some spelling: any case, a final dot, a wildcard. */
  ghost predicate Entered(ds: seq<string>, d: string) {
    exists e :: SameSpelling(e, d) && (e in ds || e + "." in ds || "*." + e in ds || "*." + e + "." in ds)
  }

  lemma OnlyServerIsRouted(db: Db, o: RowOrder, id: Id, d: string)
    requires ValidOrder(db, o) && id in db.nodes && (id, d) in ServedDomains(db)
    requires forall j :: j != id ==> (j, d) !in ServedDomains(db)
    ensures var m := RouteMap(DomainAnswer(db, o)); d in m && m[d] == db.nodes[id].dns
  {
    RoutesAreServed(db, o);
    assert db.nodes[id].dns in Servers(db, d);
    var m := RouteMap(DomainAnswer(db, o));
    assert m[d] in Servers(db, d);
  }

  lemma EnteredIsServed(db: Db, id: Id, ds: seq<string>, d: string)
    requires id in db.nodes && db.nodes[id].status == Active && db.nodes[id].dns != ""
    requires PlainDomain(d) && Entered(ds, d) && SetNodeDomains(db, id, ds).Some?
    requires forall j :: j != id ==> (j, d) !in ServedDomains(db)
    ensures var next := SetNodeDomains(db, id, ds).value;
      && id in next.nodes && next.nodes[id].dns == db.nodes[id].dns && (id, d) in ServedDomains(next)
      && forall j :: j != id ==> (j, d) !in ServedDomains(next)
  {
    var next := SetNodeDomains(db, id, ds).value;
    var e :| SameSpelling(e, d) && (e in ds || e + "." in ds || "*." + e in ds || "*." + e + "." in ds);
    PlainDomainsAreStored(ds, e, d);
    NodeEditsDo(db, id, "", ds);
    forall j | j != id ensures (j, d) !in ServedDomains(next) {
      assert (j, d) !in ServedDomains(db);
    }
  }

  /** A domain entered for an active node that has a DNS server and serves it alone: a query for it or
      for a name under it goes to that server, however either was spelt, unless a longer configured
      domain is above the name too. */
  lemma EnteredDomainIsAnswered(
    db: Db, o: RowOrder, id: Id, ds: seq<string>, d: string, upstream: string, rt: Routing, q: string, up: string)
    requires id in db.nodes && db.nodes[id].status == Active && db.nodes[id].dns != ""
    requires PlainDomain(d) && Entered(ds, d) && SetNodeDomains(db, id, ds).Some?
    requires forall j :: j != id ==> (j, d) !in ServedDomains(db)
    requires ValidOrder(SetNodeDomains(db, id, ds).value, o)
    requires var m := RouteMap(DomainAnswer(SetNodeDomains(db, id, ds).value, o));
      && IsTable(m, upstream, rt) && Unambiguous(m)
      && NameUnder(q, d) && forall e :: e in m && NameUnder(q, e) ==> |TrimDot(e)| <= |TrimDot(d)|
    requires IsPick(rt, q, up)
    ensures up == WithPort(db.nodes[id].dns)
  {
    var next := SetNodeDomains(db, id, ds).value;
    var m := RouteMap(DomainAnswer(next, o));
    EnteredIsServed(db, id, ds, d);
    OnlyServerIsRouted(next, o, id, d);
    AnswerIsClosest(m, upstream, rt, q, up);
    assert IsClosest(m, q, d);
  }
}

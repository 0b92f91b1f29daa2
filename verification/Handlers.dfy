/** Many request handlers at once, each changing the database and then calling Reconcile
    (internal/service/service.go, internal/api). Reconcile holds a mutex; its queries are
    separate statements, so other handlers may commit between any two of them. */
module Handlers {
  import opened Basics
  import opened Database
  import opened Snapshot
  import opened Queries
  import opened Policy
  import opened Nft
  import opened Render
  import opened Kernel
  import opened Service
  import opened Delivery
  import opened Rendering

  // ---------------------------------------------------------------- the state machine

  /** A handler starts, mutates any number of times, then asks for the mutex and reads. */
  datatype Phase = Started(dirty: bool) | Waiting | Reading(seen: Reads)

  /** `applied` is what the last complete pass put in force, None while a pass has failed in the
      middle or none has run, and `kernel` is the state of the host's network stack; `lastOk` is
      whether the latest Reconcile to finish succeeded. */
  datatype State = State(
    db: Db, handlers: map<nat, Phase>, holder: Option<nat>, applied: Option<Artefacts>,
    kernel: KState, iface: string, lastOk: bool)

  datatype Step =
    | Start(h: nat)
    | Mutate(h: nat, next: Db)
    | ReturnEarly(h: nat)
    | Request(h: nat)
    | Lock(h: nat)
    | Read(h: nat, q: Query, o: RowOrder)
    | Finish(h: nat, kernel: KState)
    | Fail(h: nat, kernel: KState)
    | Unobserved(next: Db)

  predicate InPhase(s: State, h: nat, p: Phase) {
    h in s.handlers && s.handlers[h] == p
  }

  /** When a step can happen. A pass finishes once it has read everything, and leaves the kernel as
      Service.Install does with the snapshot that was put together; a pass that fails may leave it
      in any state. `Unobserved` is a change outside any handler that calls Reconcile; no statement
      may see it. */
  ghost predicate CanStep(s: State, t: Step) {
    match t
    case Start(h) => h !in s.handlers
    case Mutate(h, _) => h in s.handlers && s.handlers[h].Started?
    case ReturnEarly(h) => h in s.handlers && s.handlers[h].Started?
    case Request(h) => h in s.handlers && s.handlers[h].Started?
    case Lock(h) => InPhase(s, h, Waiting) && s.holder.None?
    case Read(h, _, o) => h in s.handlers && s.handlers[h].Reading? && ValidOrder(s.db, o)
    case Finish(h, kernel) =>
      && h in s.handlers && s.handlers[h].Reading? && Complete(s.handlers[h].seen)
      && KernelInForce(Assembled(s.handlers[h].seen), kernel, s.iface)
    case Fail(h, _) => h in s.handlers && s.handlers[h].Reading?
    case Unobserved(next) => SameAnswers(s.db, next)
  }

  function After(s: State, t: Step): State
    requires CanStep(s, t)
  {
    match t
    case Start(h) => s.(handlers := s.handlers[h := Started(false)])
    case Mutate(h, next) => s.(db := next, handlers := s.handlers[h := Started(true)])
    case ReturnEarly(h) => s.(handlers := s.handlers - {h})
    case Request(h) => s.(handlers := s.handlers[h := Waiting])
    case Lock(h) => s.(handlers := s.handlers[h := Reading(NOTHING_READ)], holder := Some(h))
    case Read(h, q, o) => s.(handlers := s.handlers[h := Reading(Ask(s.handlers[h].seen, q, s.db, o))])
    case Finish(h, kernel) =>
      s.(handlers := s.handlers - {h}, holder := None, applied := Some(RenderReads(s.handlers[h].seen)),
         kernel := kernel, lastOk := true)
    case Fail(h, kernel) =>
      s.(handlers := s.handlers - {h}, holder := None, applied := None, kernel := kernel, lastOk := false)
    case Unobserved(next) => s.(db := next)
  }

  /** Runs from boot, before the first Reconcile. */
  ghost predicate IsRun(states: seq<State>, steps: seq<Step>) {
    && |states| == |steps| + 1
    && states[0].handlers == map[] && states[0].holder == None && states[0].applied == None && !states[0].lastOk
    && forall i :: 0 <= i < |steps| ==> CanStep(states[i], steps[i]) && states[i + 1] == After(states[i], steps[i])
  }

  /** A handler that has changed the database does not return before reconciling. */
  ghost predicate NoDirtyReturn(states: seq<State>, steps: seq<Step>)
    requires |states| == |steps| + 1
  {
    forall i :: 0 <= i < |steps| && steps[i].ReturnEarly? ==> InPhase(states[i], steps[i].h, Started(false))
  }

  // ---------------------------------------------------------------- consistency

  ghost predicate CouldAnswer(db: Db, o: RowOrder, seen: Reads, q: Query) {
    ValidOrder(db, o) && Ask(seen, q, db, o) == seen
  }

  predicate HasRead(seen: Reads, q: Query) {
    match q
    case HubQuery => seen.hub.Some?
    case NodesQuery => seen.nodes.Some?
    case ClientsQuery => seen.clients.Some?
    case RulesQuery => seen.rules.Some?
    case GrantsQuery => seen.grants.Some?
    case LinksQuery => seen.links.Some?
    case DomainsQuery => seen.domains.Some?
  }

  /** Each answer so far is one the database could give now. */
  ghost predicate Current(seen: Reads, db: Db) {
    forall q :: HasRead(seen, q) ==> exists o :: CouldAnswer(db, o, seen, q)
  }

  /** What runs is the rendering of the database as it is now. */
  ghost predicate Consistent(s: State) {
    exists o :: ValidOrder(s.db, o) && s.applied == Some(Rendered(s.db, o))
  }

  /** Orders that agree on the rows of a statement get the same answer to it. */
  lemma SameOrderSameAnswer(db: Db, o: RowOrder, p: RowOrder)
    requires ValidOrder(db, o) && ValidOrder(db, p)
    ensures o.nodes == p.nodes && o.subnets == p.subnets ==> NodeAnswer(db, o) == NodeAnswer(db, p)
    ensures o.clients == p.clients ==> ClientAnswer(db, o) == ClientAnswer(db, p)
    ensures o.grants == p.grants ==> GrantAnswer(db, o) == GrantAnswer(db, p)
    ensures o.domains == p.domains ==> DomainAnswer(db, o) == DomainAnswer(db, p)
  {
    RowsExist(db, o);
    if o.nodes == p.nodes && o.subnets == p.subnets {
      forall i | 0 <= i < |o.nodes| ensures NodeAnswer(db, o)[i] == NodeAnswer(db, p)[i] {
        assert o.nodes[i] in o.nodes;
      }
    }
  }

  /** Current answers to all the statements are the answers of one database read at once, in an
      order put together from theirs. */
  lemma CurrentIsOneRead(seen: Reads, db: Db) returns (o: RowOrder)
    requires Complete(seen) && Current(seen, db)
    ensures ValidOrder(db, o) && seen == AskAll(db, o)
  {
    assert HasRead(seen, HubQuery) && HasRead(seen, NodesQuery) && HasRead(seen, ClientsQuery) && HasRead(seen, RulesQuery);
    assert HasRead(seen, GrantsQuery) && HasRead(seen, LinksQuery) && HasRead(seen, DomainsQuery);
    var hub :| CouldAnswer(db, hub, seen, HubQuery);
    var nodes :| CouldAnswer(db, nodes, seen, NodesQuery);
    var clients :| CouldAnswer(db, clients, seen, ClientsQuery);
    var rules :| CouldAnswer(db, rules, seen, RulesQuery);
    var grants :| CouldAnswer(db, grants, seen, GrantsQuery);
    var links :| CouldAnswer(db, links, seen, LinksQuery);
    var domains :| CouldAnswer(db, domains, seen, DomainsQuery);
    o := RowOrder(nodes.nodes, clients.clients, grants.grants, links.links, nodes.subnets, rules.rules, domains.domains);
    SameOrderSameAnswer(db, o, nodes);
    SameOrderSameAnswer(db, o, clients);
    SameOrderSameAnswer(db, o, grants);
    SameOrderSameAnswer(db, o, domains);
  }

  lemma CurrentRendering(seen: Reads, db: Db)
    requires Complete(seen) && Current(seen, db)
    ensures exists o :: ValidOrder(db, o) && RenderReads(seen) == Rendered(db, o)
  {
    var o := CurrentIsOneRead(seen, db);
    AssembledIsSnapshot(db, o);
  }

  lemma CurrentAlike(seen: Reads, a: Db, b: Db)
    requires SameAnswers(a, b) && Current(seen, a)
    ensures Current(seen, b)
  {
    forall q | HasRead(seen, q) ensures exists o :: CouldAnswer(b, o, seen, q) {
      var o :| CouldAnswer(a, o, seen, q);
      AskAlike(a, b, o, seen, q);
      assert CouldAnswer(b, o, seen, q);
    }
  }

  lemma ReadStaysCurrent(seen: Reads, db: Db, q: Query, o: RowOrder)
    requires Current(seen, db) && ValidOrder(db, o)
    ensures Current(Ask(seen, q, db, o), db)
  {
    var next := Ask(seen, q, db, o);
    forall p | HasRead(next, p) ensures exists x :: CouldAnswer(db, x, next, p) {
      if p == q {
        assert CouldAnswer(db, o, next, p);
      } else {
        assert HasRead(seen, p);
        var x :| CouldAnswer(db, x, seen, p);
        assert CouldAnswer(db, x, next, p);
      }
    }
  }

  /** Some handler will still take the mutex and read everything anew. */
  predicate Pending(s: State) {
    exists h :: h in s.handlers && (s.handlers[h] == Waiting || s.handlers[h] == Started(true))
  }

  ghost predicate MutexOk(s: State) {
    && (s.holder.Some? ==> s.holder.value in s.handlers && s.handlers[s.holder.value].Reading?)
    && (forall h :: h in s.handlers && s.handlers[h].Reading? ==> s.holder == Some(h))
  }

  /** Either a full read is still to come, or the read in progress has seen nothing stale,
      or the last reconcile left the system consistent. */
  ghost predicate Sound(s: State) {
    && MutexOk(s)
    && (Pending(s)
        || (if s.holder.Some? then Current(s.handlers[s.holder.value].seen, s.db)
            else s.lastOk ==> Consistent(s)))
  }

  lemma StepKeepsMutex(s: State, t: Step)
    requires MutexOk(s) && CanStep(s, t)
    ensures MutexOk(After(s, t))
  {
  }

  lemma PendingSurvives(s: State, t: Step)
    requires CanStep(s, t) && Pending(s) && !t.Lock?
    requires t.ReturnEarly? ==> InPhase(s, t.h, Started(false))
    ensures Pending(After(s, t))
  {
    var next := After(s, t);
    var h :| h in s.handlers && (s.handlers[h] == Waiting || s.handlers[h] == Started(true));
    assert h in next.handlers && (next.handlers[h] == Waiting || next.handlers[h] == Started(true));
  }

  lemma ConsistentAlike(s: State, next: Db)
    requires Consistent(s) && SameAnswers(s.db, next)
    ensures Consistent(s.(db := next))
  {
    var o :| ValidOrder(s.db, o) && s.applied == Some(Rendered(s.db, o));
    RenderedAlike(s.db, next, o);
  }

  /** The steps of the pass in progress, with no other to come. */
  lemma PassKeepsSound(s: State, t: Step)
    requires Sound(s) && CanStep(s, t) && !Pending(s) && (t.Read? || t.Finish?)
    ensures Sound(After(s, t))
  {
    StepKeepsMutex(s, t);
    assert s.holder == Some(t.h);
    if t.Read? {
      ReadStaysCurrent(s.handlers[t.h].seen, s.db, t.q, t.o);
    } else {
      CurrentRendering(s.handlers[t.h].seen, s.db);
    }
  }

  lemma UnobservedKeepsSound(s: State, next: Db)
    requires Sound(s) && SameAnswers(s.db, next) && !Pending(s)
    ensures Sound(After(s, Unobserved(next)))
  {
    if s.holder.Some? {
      CurrentAlike(s.handlers[s.holder.value].seen, s.db, next);
    } else if s.lastOk {
      ConsistentAlike(s, next);
    }
  }

  lemma StepKeepsInvariant(s: State, t: Step)
    requires Sound(s) && CanStep(s, t)
    requires t.ReturnEarly? ==> InPhase(s, t.h, Started(false))
    ensures Sound(After(s, t))
  {
    var next := After(s, t);
    StepKeepsMutex(s, t);
    if t.Mutate? || t.Request? {
      assert next.handlers[t.h] == Started(true) || next.handlers[t.h] == Waiting;
    } else if Pending(s) && !t.Lock? {
      PendingSurvives(s, t);
    } else if t.Unobserved? {
      UnobservedKeepsSound(s, t.next);
    } else if t.Read? || t.Finish? {
      PassKeepsSound(s, t);
    }
  }

  lemma {:induction false} RunKeepsInvariant(states: seq<State>, steps: seq<Step>, i: nat)
    requires IsRun(states, steps) && NoDirtyReturn(states, steps) && i < |states|
    ensures Sound(states[i])
  {
    if i > 0 {
      RunKeepsInvariant(states, steps, i - 1);
      StepKeepsInvariant(states[i - 1], steps[i - 1]);
    }
  }

  /** Whenever no handler is in flight and the latest Reconcile succeeded, the hub's
      address and pool, the cryptokey table, the forward chain, the exit routes, the mesh and the
      resolver's map in force are those of the database as it is now, for every interleaving and whatever earlier reconciles failed. */
  lemma QuiescentConsistency(states: seq<State>, steps: seq<Step>, i: nat)
    requires IsRun(states, steps) && NoDirtyReturn(states, steps) && i < |states|
    requires states[i].handlers == map[] && states[i].lastOk
    ensures var s := states[i];
      exists o :: ValidOrder(s.db, o) && s.applied == Some(Artefacts(
        GetHub(s.db), HubPeers(SnapshotOf(s.db, o).nodes, SnapshotOf(s.db, o).clients), HubChain(s.db, o), Routes(s.db, o),
        MeshPrefixes(s.db, o), RouteMap(DomainAnswer(s.db, o))))
  {
    RunKeepsInvariant(states, steps, i);
    var s := states[i];
    var o :| ValidOrder(s.db, o) && s.applied == Some(Rendered(s.db, o));
    assert s.applied.value.chain == HubChain(s.db, o);
  }

  /** So the chain in force accepts a new flow exactly when the current database permits it. */
  lemma QuiescentPolicy(states: seq<State>, steps: seq<Step>, i: nat, pkt: Packet)
    requires IsRun(states, steps) && NoDirtyReturn(states, steps) && i < |states|
    requires states[i].handlers == map[] && states[i].lastOk && pkt.newFlow
    ensures states[i].applied.Some? && (Evaluate(states[i].applied.value.chain, pkt) == Accepted <==> Permitted(states[i].db, pkt))
  {
    QuiescentConsistency(states, steps, i);
    var s := states[i];
    var o :| ValidOrder(s.db, o) && s.applied.Some? && s.applied.value.chain == HubChain(s.db, o);
    AclExact(s.db, o, pkt);
  }

  // ---------------------------------------------------------------- the kernel

  /** The kernel is as what was applied demands. */
  ghost predicate Loaded(s: State) {
    s.applied.Some? ==>
      exists snap, m :: s.applied.value == ArtefactsOf(snap, m) && KernelInForce(snap, s.kernel, s.iface)
  }

  lemma StepKeepsLoaded(s: State, t: Step)
    requires Loaded(s) && CanStep(s, t)
    ensures Loaded(After(s, t))
  {
    if t.Finish? {
      var seen := s.handlers[t.h].seen;
      assert After(s, t).applied.value == ArtefactsOf(Assembled(seen), RouteMap(seen.domains.value));
    } else if !t.Fail? {
      assert After(s, t).applied == s.applied && After(s, t).kernel == s.kernel && After(s, t).iface == s.iface;
    }
  }

  lemma {:induction false} RunKeepsLoaded(states: seq<State>, steps: seq<Step>, i: nat)
    requires IsRun(states, steps) && i < |states|
    ensures Loaded(states[i])
  {
    if i > 0 {
      RunKeepsLoaded(states, steps, i - 1);
      StepKeepsLoaded(states[i - 1], steps[i - 1]);
    }
  }

  /** Then the whole hub runs as the current database says, kernel included: the premise of the
      delivery theorems holds although no pass need have read one database. */
  lemma QuiescentRunning(states: seq<State>, steps: seq<Step>, i: nat)
    requires IsRun(states, steps) && NoDirtyReturn(states, steps) && i < |states|
    requires states[i].handlers == map[] && states[i].lastOk
    ensures var s := states[i];
      s.applied.Some? && exists o :: Running(s.db, o, s.applied.value.peers, s.applied.value.chain, s.kernel, s.iface)
  {
    RunKeepsInvariant(states, steps, i);
    RunKeepsLoaded(states, steps, i);
    var s := states[i];
    var o :| ValidOrder(s.db, o) && s.applied == Some(Rendered(s.db, o));
    var snap, m :| s.applied.value == ArtefactsOf(snap, m) && KernelInForce(snap, s.kernel, s.iface);
    ArtefactsDecideKernel(snap, m, SnapshotOf(s.db, o), RouteMap(DomainAnswer(s.db, o)), s.kernel, s.iface);
    assert Running(s.db, o, s.applied.value.peers, s.applied.value.chain, s.kernel, s.iface);
  }

  // ---------------------------------------------------------------- progress

  const ALL_QUERIES := [HubQuery, NodesQuery, ClientsQuery, RulesQuery, GrantsQuery, LinksQuery, DomainsQuery]

  /** The statements one after the other, then the end of the pass. */
  function PassSteps(h: nat, qs: seq<Query>, o: RowOrder, kernel: KState): seq<Step> {
    if qs == [] then [Finish(h, kernel)] else [Read(h, qs[0], o)] + PassSteps(h, qs[1..], o, kernel)
  }

  ghost predicate CanDo(s: State, steps: seq<Step>)
    decreases |steps|
  {
    steps == [] || (CanStep(s, steps[0]) && CanDo(After(s, steps[0]), steps[1..]))
  }

  ghost function AfterAll(s: State, steps: seq<Step>): State
    requires CanDo(s, steps)
    decreases |steps|
  {
    if steps == [] then s else AfterAll(After(s, steps[0]), steps[1..])
  }

  lemma OneStep(s: State, t: Step, rest: seq<Step>)
    requires CanStep(s, t) && CanDo(After(s, t), rest)
    ensures CanDo(s, [t] + rest) && AfterAll(s, [t] + rest) == AfterAll(After(s, t), rest)
  {
    assert ([t] + rest)[1..] == rest;
  }

  function AskEach(r: Reads, qs: seq<Query>, db: Db, o: RowOrder): Reads
    requires ValidOrder(db, o)
    decreases |qs|
  {
    if qs == [] then r else AskEach(Ask(r, qs[0], db, o), qs[1..], db, o)
  }

  function Holding(s: State, h: nat, r: Reads): State {
    s.(handlers := s.handlers[h := Reading(r)], holder := Some(h))
  }

  lemma ReadRuns(s: State, h: nat, r: Reads, q: Query, o: RowOrder, rest: seq<Step>)
    requires ValidOrder(s.db, o) && CanDo(Holding(s, h, Ask(r, q, s.db, o)), rest)
    ensures CanDo(Holding(s, h, r), [Read(h, q, o)] + rest)
    ensures AfterAll(Holding(s, h, r), [Read(h, q, o)] + rest) == AfterAll(Holding(s, h, Ask(r, q, s.db, o)), rest)
  {
    assert After(Holding(s, h, r), Read(h, q, o)) == Holding(s, h, Ask(r, q, s.db, o));
    OneStep(Holding(s, h, r), Read(h, q, o), rest);
  }

  lemma FinishRuns(s: State, h: nat, r: Reads, kernel: KState)
    requires Complete(r) && KernelInForce(Assembled(r), kernel, s.iface)
    ensures CanDo(Holding(s, h, r), [Finish(h, kernel)])
    ensures AfterAll(Holding(s, h, r), [Finish(h, kernel)]) ==
      s.(handlers := s.handlers - {h}, holder := None, applied := Some(RenderReads(r)), kernel := kernel, lastOk := true)
  {
    var t := Holding(s, h, r);
    assert t.handlers - {h} == s.handlers - {h};
    OneStep(t, Finish(h, kernel), []);
    assert [Finish(h, kernel)] + [] == [Finish(h, kernel)];
  }

  lemma LastStepRuns(s: State, h: nat, o: RowOrder, kernel: KState)
    requires ValidOrder(s.db, o) && KernelInForce(SnapshotOf(s.db, o), kernel, s.iface)
    ensures var t, steps := Holding(s, h, AskAll(s.db, o)), [Finish(h, kernel)];
      && CanDo(t, steps)
      && AfterAll(t, steps) ==
        s.(handlers := s.handlers - {h}, holder := None, applied := Some(Rendered(s.db, o)), kernel := kernel, lastOk := true)
  {
    AssembledIsSnapshot(s.db, o);
    FinishRuns(s, h, AskAll(s.db, o), kernel);
  }

  lemma {:induction false} ReadsRun(s: State, h: nat, r: Reads, qs: seq<Query>, o: RowOrder, kernel: KState)
    requires ValidOrder(s.db, o) && AskEach(r, qs, s.db, o) == AskAll(s.db, o)
    requires KernelInForce(SnapshotOf(s.db, o), kernel, s.iface)
    ensures CanDo(Holding(s, h, r), PassSteps(h, qs, o, kernel))
    ensures AfterAll(Holding(s, h, r), PassSteps(h, qs, o, kernel)) ==
      s.(handlers := s.handlers - {h}, holder := None, applied := Some(Rendered(s.db, o)), kernel := kernel, lastOk := true)
    decreases |qs|
  {
    if qs == [] {
      LastStepRuns(s, h, o, kernel);
    } else {
      ReadsRun(s, h, Ask(r, qs[0], s.db, o), qs[1..], o, kernel);
      ReadRuns(s, h, r, qs[0], o, PassSteps(h, qs[1..], o, kernel));
    }
  }

  lemma AskedOne(r: Reads, q: Query, rest: seq<Query>, db: Db, o: RowOrder)
    requires ValidOrder(db, o)
    ensures AskEach(r, [q] + rest, db, o) == AskEach(Ask(r, q, db, o), rest, db, o)
  {
    assert ([q] + rest)[1..] == rest;
  }

  lemma AllAsked(db: Db, o: RowOrder)
    requires ValidOrder(db, o)
    ensures AskEach(NOTHING_READ, ALL_QUERIES, db, o) == AskAll(db, o)
  {
    AskedOne(NOTHING_READ, HubQuery, [NodesQuery, ClientsQuery, RulesQuery, GrantsQuery, LinksQuery, DomainsQuery], db, o);
    var r1 := Ask(NOTHING_READ, HubQuery, db, o);
    AskedOne(r1, NodesQuery, [ClientsQuery, RulesQuery, GrantsQuery, LinksQuery, DomainsQuery], db, o);
    var r2 := Ask(r1, NodesQuery, db, o);
    AskedOne(r2, ClientsQuery, [RulesQuery, GrantsQuery, LinksQuery, DomainsQuery], db, o);
    var r3 := Ask(r2, ClientsQuery, db, o);
    AskedOne(r3, RulesQuery, [GrantsQuery, LinksQuery, DomainsQuery], db, o);
    var r4 := Ask(r3, RulesQuery, db, o);
    AskedOne(r4, GrantsQuery, [LinksQuery, DomainsQuery], db, o);
    AskedOne(Ask(r4, GrantsQuery, db, o), LinksQuery, [DomainsQuery], db, o);
    AskedOne(Ask(Ask(r4, GrantsQuery, db, o), LinksQuery, db, o), DomainsQuery, [], db, o);
  }

  /** A handler that waits can take the mutex once it is free and carry its pass through, and the pass
      leaves what the database now says in force. */
  lemma WaitingHandlerCanFinish(s: State, h: nat, o: RowOrder, kernel: KState)
    requires InPhase(s, h, Waiting) && s.holder.None? && ValidOrder(s.db, o)
    requires KernelInForce(SnapshotOf(s.db, o), kernel, s.iface)
    ensures CanStep(s, Lock(h)) && CanDo(After(s, Lock(h)), PassSteps(h, ALL_QUERIES, o, kernel))
    ensures var t := AfterAll(After(s, Lock(h)), PassSteps(h, ALL_QUERIES, o, kernel));
      t.db == s.db && t.handlers == s.handlers - {h} && t.holder.None? && t.lastOk && t.kernel == kernel && Consistent(t)
  {
    AllAsked(s.db, o);
    ReadsRun(s, h, NOTHING_READ, ALL_QUERIES, o, kernel);
    assert After(s, Lock(h)) == Holding(s, h, NOTHING_READ);
  }

  /** A handler that has changed something can always have it put in force: it asks for the pass, and
      once the mutex is free nothing but the other handlers' turns stands between it and a consistent
      system. */
  lemma HandlerCanFinish(s: State, h: nat, dirty: bool, o: RowOrder, kernel: KState)
    requires InPhase(s, h, Started(dirty)) && s.holder.None? && ValidOrder(s.db, o)
    requires KernelInForce(SnapshotOf(s.db, o), kernel, s.iface)
    ensures CanStep(s, Request(h)) && CanStep(After(s, Request(h)), Lock(h))
    ensures var locked := After(After(s, Request(h)), Lock(h)); var steps := PassSteps(h, ALL_QUERIES, o, kernel);
      && CanDo(locked, steps)
      && var t := AfterAll(locked, steps);
      t.db == s.db && t.handlers == s.handlers - {h} && t.holder.None? && t.lastOk && t.kernel == kernel && Consistent(t)
  {
    var asked := After(s, Request(h));
    WaitingHandlerCanFinish(asked, h, o, kernel);
    assert asked.handlers - {h} == s.handlers - {h};
  }
}

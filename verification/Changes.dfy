/** What each change to the database does, said on the caller's inputs: when it is accepted, what
    the row then holds, and that nothing else moved (internal/store). The effects themselves are
    in Database; none of them is named in what is promised here beyond the call in question. */
module Changes {
  import opened Basics
  import opened Net
  import opened Model
  import opened Text
  import opened Nft
  import opened Database
  import opened Snapshot
  import opened Policy

  // ---------------------------------------------------------------- subnets of an announcement

  /** A list of subnets the table takes: masked, and no subnet twice. */
  predicate Announceable(subnets: seq<Cidr>) {
    NoDup(subnets) && forall c :: c in subnets ==> c.Masked()
  }

  lemma {:induction false} SubnetRowsExact(subnets: seq<Cidr>)
    ensures SubnetRows(subnets).Some? <==> Announceable(subnets)
    ensures SubnetRows(subnets).Some? ==> forall p: Prefix :: p in SubnetRows(subnets).value <==> p in subnets
  {
    if subnets != [] {
      var init, c := subnets[..|subnets| - 1], subnets[|subnets| - 1];
      assert subnets == init + [c];
      SubnetRowsExact(init);
      if Announceable(subnets) {
        assert c in subnets && c !in init;
      }
      if Announceable(init) && c.Masked() && c !in init {
        NoDupAppend(init, c);
      }
    }
  }

  // ---------------------------------------------------------------- nodes

  /** The only row that changed, if any did, is the given one. */
  predicate OnlyNode(db: Db, next: Db, id: Id) {
    && id in next.nodes && next == db.(nodes := next.nodes)
    && next.nodes == db.nodes[id := next.nodes[id]]
  }

  predicate NameFree(db: Db, name: string) {
    forall i :: i in db.nodes ==> db.nodes[i].name != name
  }

  /** The row holds exactly the announced subnets. */
  ghost predicate HoldsAnnounced(n: NodeRow, subnets: seq<Cidr>) {
    forall p: Prefix :: p in n.subnets <==> p in subnets
  }

  /** A node the administrator makes is active at once, on the least free address. */
  lemma CreateNodeDoes(db: Db, id: Id, name: string, lanIface: string, subnets: seq<Cidr>, publicKey: string)
    ensures var r := CreateNode(db, id, name, lanIface, subnets, publicKey);
      && (r.Some? <==> AllocateIP(db).Some? && Announceable(subnets) && id !in db.nodes && NameFree(db, name))
      && (r.Some? ==>
        && OnlyNode(db, r.value, id)
        && var n := r.value.nodes[id];
        && n.name == name && n.lanIface == lanIface && n.publicKey == publicKey && HoldsAnnounced(n, subnets)
        && n.address == AllocateIP(db) && n.status == Active && !n.isHub && n.token.None?
        && n.dns == "" && n.domains == {})
  {
    SubnetRowsExact(subnets);
  }

  /** The first announcement of a node leaves it pending, without an address, holding what it
      announced. */
  lemma FirstAnnouncementDoes(
    db: Db, id: Id, name: string, lanIface: string, publicKey: string, subnets: seq<Cidr>, token: string)
    ensures var r := EnrollNew(db, id, name, lanIface, publicKey, subnets, token);
      && (r.Some? <==> Announceable(subnets) && id !in db.nodes && NameFree(db, name))
      && (r.Some? ==>
        && OnlyNode(db, r.value, id)
        && var n := r.value.nodes[id];
        && n.name == name && n.lanIface == lanIface && n.publicKey == publicKey && HoldsAnnounced(n, subnets)
        && n.address.None? && n.status == Pending && !n.isHub && n.token == Some(token)
        && n.dns == "" && n.domains == {})
  {
    SubnetRowsExact(subnets);
  }

  /** A later one brings the LAN interface and the subnets up to date, an empty list leaving the old
      subnets; it touches neither name, key, address nor what the resolver is told. */
  lemma ReannouncementDoes(db: Db, id: Id, lanIface: string, subnets: seq<Cidr>, token: string)
    requires id in db.nodes
    ensures var r := EnrollExisting(db, id, lanIface, subnets, token);
      && (r.Some? <==> Announceable(subnets))
      && (r.Some? ==>
        && OnlyNode(db, r.value, id)
        && var m, n := db.nodes[id], r.value.nodes[id];
        && n.lanIface == lanIface
        && (if subnets == [] then n.subnets == m.subnets else HoldsAnnounced(n, subnets))
        && n.name == m.name && n.publicKey == m.publicKey && n.address == m.address && n.isHub == m.isHub
        && n.dns == m.dns && n.domains == m.domains
        && n.status == (if m.status == Rejected then Pending else m.status))
  {
    SubnetRowsExact(subnets);
    var rows := SubnetRows(subnets);
    if rows.Some? && subnets != [] {
      var p: Prefix := subnets[0];
      assert p in rows.value;
    }
  }

  /** Approval needs a free address unless the row is active with one, and changes address and
      status only. */
  lemma ApprovalDoes(db: Db, id: Id)
    ensures var r := ApproveNode(db, id);
      && (r.Some? <==>
            && id in db.nodes
            && ((db.nodes[id].status == Active && db.nodes[id].address.Some?) || AllocateIP(db).Some?))
      && (r.Some? ==>
        && OnlyNode(db, r.value, id)
        && var m, n := db.nodes[id], r.value.nodes[id];
        && n.status == Active && n.address.Some?
        && n == m.(address := n.address, status := Active)
        && (m.status == Active && m.address.Some? ==> n == m))
  {
    if id in db.nodes {
      assert db.nodes == db.nodes[id := db.nodes[id]];
    }
  }

  lemma RejectionDoes(db: Db, id: Id)
    ensures var r := RejectNode(db, id);
      && (r.Some? <==> id in db.nodes)
      && (r.Some? ==> OnlyNode(db, r.value, id) && r.value.nodes[id] == db.nodes[id].(status := Rejected))
  {
  }

  /** The panel's own node is made once: active, on the hub's address, owning everything. */
  lemma HubNodeIsMade(db: Db, id: Id)
    requires (forall i :: i in db.nodes ==> !db.nodes[i].isHub) && id !in db.nodes
    requires NameFree(db, "panel (internet exit)") && forall i :: i in db.nodes ==> db.nodes[i].address != Some(db.hub.address)
    ensures var r := EnsureHubNode(db, id);
      && r.Some? && OnlyNode(db, r.value, id)
      && Visible(r.value, id) && r.value.nodes[id].isHub
      && r.value.nodes[id].address == Some(db.hub.address)
      && forall a: Addr :: InLan(r.value, id, a)
  {
    var n := EnsureHubNode(db, id).value.nodes[id];
    assert EVERYTHING in n.subnets;
    forall a: Addr ensures Contains(EVERYTHING, a) {
      EverythingContains(a);
    }
  }

  lemma NodeEditsDo(db: Db, id: Id, dns: string, domains: seq<string>)
    requires id in db.nodes
    ensures var r := SetNodeDNS(db, id, dns);
      r.Some? && OnlyNode(db, r.value, id) && r.value.nodes[id] == db.nodes[id].(dns := dns)
    ensures var r := SetNodeDomains(db, id, domains);
      r.Some? && OnlyNode(db, r.value, id)
      && r.value.nodes[id] == db.nodes[id].(domains := r.value.nodes[id].domains)
  {
  }

  // ---------------------------------------------------------------- clients

  /** A new client is enabled, on the least free address, and holds the key it was made with. */
  lemma CreateClientDoes(db: Db, id: Id, name: string, publicKey: string)
    ensures var r := CreateClient(db, id, name, publicKey);
      && (r.Some? <==> AllocateIP(db).Some? && id !in db.clients)
      && (r.Some? ==>
        && r.value == db.(clients := db.clients[id := ClientRow(name, AllocateIP(db).value, publicKey, true)])
        && Enabled(r.value, id) && forall k :: k in db.grants && k.client != id ==> k in r.value.grants)
  {
  }

  // ---------------------------------------------------------------- grants

  lemma GrantDoes(db: Db, k: GrantKey)
    ensures var r := SetGrant(db, k);
      && (r.Some? <==> k.client in db.clients && k.node in db.nodes)
      && (r.Some? && k in db.grants ==> r.value == db)
      && (r.Some? && k !in db.grants ==> r.value == db.(grants := db.grants[k := false]))
  {
  }

  /** The exit can be switched off on any grant of a node that is not the hub's, and on unless the
      client exits through another node. */
  lemma ExitSwitchDoes(db: Db, k: GrantKey, exit: bool)
    requires k.node in db.nodes
    ensures var r := SetGrantExit(db, k, exit);
      && (r.Some? <==>
            && k in db.grants && !db.nodes[k.node].isHub
            && (exit ==> forall j :: j in db.grants && j.client == k.client && j.node != k.node && j.node in db.nodes ==> !db.grants[j]))
      && (r.Some? ==> r.value == db.(grants := db.grants[k := exit]))
  {
  }

  /** A field of a rule that the checks or the table refuse. */
  predicate RuleRefused(d: RuleDTO) {
    || d.dest.None?
    || d.dest.value.addr % Pow2(32 - (if d.dest.value.bits <= 32 then d.dest.value.bits else 32)) != 0
    || d.dest.value.bits > 32
    || d.proto == Unset
    || d.portFrom < 0 || d.portFrom > 65535
    || d.portTo < 0 || d.portTo > 65535
    || (d.portFrom > 0 && d.portTo > 0 && d.portTo < d.portFrom)
  }

  /** Replacing a grant's rules is refused exactly when the grant is missing or some rule has a field
      out of range, and it touches no other grant. */
  lemma RulesAreRefusedIff(db: Db, k: GrantKey, ds: seq<RuleDTO>)
    ensures var r := SetGrantRules(db, k, ds);
      && (r.None? <==> k !in db.grants || exists d :: d in ds && RuleRefused(d))
      && (r.Some? ==>
        && r.value == db.(rules := r.value.rules)
        && forall j :: j != k ==> RulesOf(r.value, j) == RulesOf(db, j))
  {
    forall i | 0 <= i < |ds| ensures RuleAccepted(ds[i]) <==> !RuleRefused(ds[i]) {
    }
    if exists d :: d in ds && RuleRefused(d) {
      var d :| d in ds && RuleRefused(d);
      var i :| 0 <= i < |ds| && ds[i] == d;
    }
  }

  /** The transports a protocol names; a port narrows "any" to the two that have ports. */
  predicate Carries(d: RuleDTO, t: Transport) {
    match d.proto
    case Tcp => t == TcpSegment
    case Udp => t == UdpDatagram
    case _ => d.portFrom == 0 || t == TcpSegment || t == UdpDatagram
  }

  /** What one rule asks for: its destination, its protocol, and its port, its range, or any port. */
  ghost predicate DtoAdmits(d: RuleDTO, pkt: Packet) {
    && d.dest.Some? && d.dest.value.Masked() && Contains(d.dest.value, pkt.daddr)
    && Carries(d, pkt.transport)
    && (d.portFrom == 0 || pkt.dport == d.portFrom || d.portFrom <= pkt.dport <= d.portTo)
  }

  lemma RowAllowsIff(d: RuleDTO, pkt: Packet)
    requires RuleAccepted(d)
    ensures RuleAllows(RuleRow(d), pkt) <==> DtoAdmits(d, pkt)
  {
  }

  lemma SomeRowAllowsIff(ds: seq<RuleDTO>, pkt: Packet)
    requires forall i :: 0 <= i < |ds| ==> RuleAccepted(ds[i])
    ensures (exists r :: r in RuleRows(ds) && RuleAllows(r, pkt)) <==> (exists d :: d in ds && DtoAdmits(d, pkt))
  {
    if r :| r in RuleRows(ds) && RuleAllows(r, pkt) {
      var i :| 0 <= i < |ds| && RuleRows(ds)[i] == r;
      RowAllowsIff(ds[i], pkt);
      assert ds[i] in ds;
    }
    if d :| d in ds && DtoAdmits(d, pkt) {
      var i :| 0 <= i < |ds| && ds[i] == d;
      RowAllowsIff(d, pkt);
      assert RuleRows(ds)[i] in RuleRows(ds);
    }
  }

  /** After rules were set on a live grant of a real node, the grant opens a new flow from the client
      exactly when one of the rules as the caller gave them admits it, its exit apart. */
  lemma RulesOpenExactly(db: Db, k: GrantKey, ds: seq<RuleDTO>, pkt: Packet)
    requires LiveGrant(db, k) && !db.nodes[k.node].isHub && ds != []
    requires SetGrantRules(db, k, ds).Some? && pkt.saddr == db.clients[k.client].address
    ensures var next := SetGrantRules(db, k, ds).value;
      GrantOpens(next, k, pkt) <==> (db.grants[k] && !InMesh(db, pkt.daddr)) || exists d :: d in ds && DtoAdmits(d, pkt)
  {
    var next := SetGrantRules(db, k, ds).value;
    SomeRowAllowsIff(ds, pkt);
    assert RulesOf(next, k) == RuleRows(ds) && RuleRows(ds) != [];
    assert forall id :: Visible(next, id) <==> Visible(db, id);
    assert InMesh(next, pkt.daddr) <==> InMesh(db, pkt.daddr) by {
      forall id ensures RealNode(next, id) && InLan(next, id, pkt.daddr) <==> RealNode(db, id) && InLan(db, id, pkt.daddr) {
      }
    }
  }

  /** And the chain loaded for it lets the packet through for every rule that admits it. */
  lemma AdmittedByRuleIsAccepted(db: Db, k: GrantKey, ds: seq<RuleDTO>, d: RuleDTO, o: RowOrder, pkt: Packet)
    requires LiveGrant(db, k) && !db.nodes[k.node].isHub && d in ds
    requires SetGrantRules(db, k, ds).Some? && ValidOrder(SetGrantRules(db, k, ds).value, o)
    requires pkt.saddr == db.clients[k.client].address && pkt.newFlow && DtoAdmits(d, pkt)
    ensures Evaluate(HubChain(SetGrantRules(db, k, ds).value, o), pkt) == Accepted
  {
    RulesOpenExactly(db, k, ds, pkt);
    AclExact(SetGrantRules(db, k, ds).value, o, pkt);
  }

  // ---------------------------------------------------------------- links

  /** A link is taken exactly between two different active real nodes that each have a LAN and share
      no address. */
  lemma LinkDoes(db: Db, src: Id, dst: Id)
    ensures var r := SetNodeLink(db, src, dst);
      && (r.Some? <==>
            && src != dst && src in db.nodes && dst in db.nodes
            && db.nodes[src].status == Active && db.nodes[dst].status == Active
            && !db.nodes[src].isHub && !db.nodes[dst].isHub
            && db.nodes[src].subnets != {} && db.nodes[dst].subnets != {}
            && forall a: Addr :: !(InLan(db, src, a) && InLan(db, dst, a)))
      && (r.Some? ==> r.value == db.(links := db.links + {LinkKey(src, dst)}))
  {
    if src in db.nodes && dst in db.nodes {
      var s, t := db.nodes[src].subnets, db.nodes[dst].subnets;
      if a: Addr :| InLan(db, src, a) && InLan(db, dst, a) {
        var p :| p in s && Contains(p, a);
        var q :| q in t && Contains(q, a);
        OverlapsIffShared(p, q);
      }
      if p, q :| p in s && q in t && Overlaps(p, q) {
        OverlapsIffShared(p, q);
        var a: Addr :| Contains(p, a) && Contains(q, a);
        assert InLan(db, src, a) && InLan(db, dst, a);
      }
    }
  }

  // ---------------------------------------------------------------- domains

  /** A domain as it is meant: lower case, no wildcard, nothing at the ends to trim. */
  predicate PlainDomain(d: string) {
    && d != "" && d != "*" && !HasCapital(d) && d[|d| - 1] != '.' && !("*." <= d)
    && !IsSpace(d[0]) && !IsSpace(d[|d| - 1])
  }

  lemma TrimmedAlready(s: string)
    requires s != "" && !IsSpace(s[0]) && !IsSpace(s[|s| - 1])
    ensures TrimSpace(s) == s
  {
  }

  lemma SpellingKeepsEnds(e: string, d: string)
    requires PlainDomain(d) && SameSpelling(e, d)
    ensures e[|e| - 1] != '.' && !IsSpace(e[0]) && !IsSpace(e[|e| - 1])
    ensures Lower(e) == d
  {
    LowerIffSameSpelling(e, d);
    LowerHasNoCapital(d);
    assert SameLetter(e[0], d[0]) && SameLetter(e[|e| - 1], d[|d| - 1]);
  }

  lemma TrimDotted(s: string)
    requires s != "" && s[|s| - 1] != '.'
    ensures TrimDot(s) == s && TrimDot(s + ".") == s
  {
  }

  lemma PlainSpelling(e: string, d: string)
    requires PlainDomain(d) && SameSpelling(e, d)
    ensures Cleaned(e) == d && Cleaned(e + ".") == d
  {
    SpellingKeepsEnds(e, d);
    TrimmedAlready(e);
    TrimDotted(e);
  }

  lemma LowerWild(e: string)
    ensures Lower("*." + e) == "*." + Lower(e)
  {
  }

  lemma WildcardGoes(d: string)
    ensures TrimPrefix("*." + d, "*.") == d
  {
    assert "*." <= "*." + d && ("*." + d)[2..] == d;
  }

  lemma WildSpelling(e: string, d: string)
    requires PlainDomain(d) && SameSpelling(e, d)
    ensures Cleaned("*." + e) == d && Cleaned("*." + e + ".") == d
  {
    var wild := "*." + e;
    SpellingKeepsEnds(e, d);
    TrimmedAlready(wild);
    TrimDotted(wild);
    LowerWild(e);
    WildcardGoes(d);
  }

  lemma SpacedSpelling(e: string, d: string, space: char)
    requires PlainDomain(d) && SameSpelling(e, d) && space in [' ', '\t', '\n', '\r', 11 as char, 12 as char]
    ensures Cleaned([space] + e) == d && Cleaned(e + [space]) == d
  {
    SpellingKeepsEnds(e, d);
    TrimmedAlready(e);
    var before, after := [space] + e, e + [space];
    assert TrimDot(before) == before && before[1..] == e && TrimDot(after) == after && after[..|e|] == e;
    assert space != '.' && IsSpace(before[0]) && !IsSpace(after[0]) && IsSpace(after[|after| - 1]);
  }

  /** A domain is stored the same however it is spelt: in any case, with a final dot, as a wildcard,
      and with white space at either end. */
  lemma SpellingsAreStoredAlike(e: string, d: string, space: char)
    requires PlainDomain(d) && SameSpelling(e, d) && space in [' ', '\t', '\n', '\r', 11 as char, 12 as char]
    ensures Cleaned(e) == d && Cleaned(e + ".") == d
    ensures Cleaned("*." + e) == d && Cleaned("*." + e + ".") == d
    ensures Cleaned([space] + e) == d && Cleaned(e + [space]) == d
  {
    PlainSpelling(e, d);
    WildSpelling(e, d);
    SpacedSpelling(e, d, space);
  }

  /** What is stored has no capital, is not empty, and is no bare wildcard. */
  lemma StoredDomainsAreClean(ds: seq<string>, d: string)
    requires d in StoredDomains(ds)
    ensures d != "" && d != "*" && !HasCapital(d)
  {
    var e :| e in ds && d == Cleaned(e);
    var lower := Lower(TrimSpace(TrimDot(e)));
    LowerHasNoCapital(TrimSpace(TrimDot(e)));
    forall i | 0 <= i < |d| ensures !('A' <= d[i] <= 'Z') {
      if "*." <= lower {
        assert d[i] == lower[i + 2];
      }
    }
  }

  /** Every plain domain among the given ones, in whatever spelling, is stored. */
  lemma PlainDomainsAreStored(ds: seq<string>, e: string, d: string)
    requires PlainDomain(d) && SameSpelling(e, d)
    requires e in ds || e + "." in ds || "*." + e in ds || "*." + e + "." in ds
    ensures d in StoredDomains(ds)
  {
    SpellingsAreStoredAlike(e, d, ' ');
  }
}

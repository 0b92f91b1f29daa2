/** The WireGuard side of the compiler (internal/awg/render.go): the hub's peers and the
    cryptokey table they form, and the AllowedIPs of client and node configurations. */
module Render {
  import opened Basics
  import opened Net
  import opened Model

  // ---------------------------------------------------------------- the cryptokey table

  datatype Peer = Peer(publicKey: string, allowedIPs: seq<Prefix>)

  /** One line of the table: packets for `prefix` belong to the peer `key`. */
  datatype Entry = Entry(prefix: Prefix, key: string)

  function PeerEntries(p: Peer): seq<Entry> {
    seq(|p.allowedIPs|, i requires 0 <= i < |p.allowedIPs| => Entry(p.allowedIPs[i], p.publicKey))
  }

  function Entries(peers: seq<Peer>): seq<Entry> {
    if peers == [] then []
    else Entries(peers[..|peers| - 1]) + PeerEntries(peers[|peers| - 1])
  }

  /** Longest match, section 5.1 of RFC 4632. Of two peers that claim the same prefix
      the later one holds it. */
  function Lookup(table: seq<Entry>, a: Addr): Option<Entry> {
    if table == [] then None
    else
      var best := Lookup(table[..|table| - 1], a);
      var e := table[|table| - 1];
      if Contains(e.prefix, a) && (best.None? || best.value.prefix.bits <= e.prefix.bits) then Some(e) else best
  }

  lemma {:induction false} LookupIsLongestMatch(table: seq<Entry>, a: Addr)
    ensures Lookup(table, a).None? <==> forall e :: e in table ==> !Contains(e.prefix, a)
    ensures Lookup(table, a).Some? ==>
      var best := Lookup(table, a).value;
      && best in table && Contains(best.prefix, a)
      && forall e :: e in table && Contains(e.prefix, a) ==> e.prefix.bits <= best.prefix.bits
  {
    if table != [] {
      var init := table[..|table| - 1];
      LookupIsLongestMatch(init, a);
      assert table == init + [table[|table| - 1]];
    }
  }

  /** When every entry that contains an address names one peer, lookup finds that peer. */
  lemma LookupOwner(table: seq<Entry>, a: Addr, key: string)
    requires exists e :: e in table && Contains(e.prefix, a)
    requires forall e :: e in table && Contains(e.prefix, a) ==> e.key == key
    ensures Lookup(table, a).Some? && Lookup(table, a).value.key == key
  {
    LookupIsLongestMatch(table, a);
  }

  lemma PeerEntriesExact(p: Peer, e: Entry)
    ensures e in PeerEntries(p) <==> p.publicKey == e.key && e.prefix in p.allowedIPs
  {
    if e.prefix in p.allowedIPs && p.publicKey == e.key {
      var i :| 0 <= i < |p.allowedIPs| && p.allowedIPs[i] == e.prefix;
      assert PeerEntries(p)[i] == e;
    }
  }

  lemma {:induction false} EntriesExact(peers: seq<Peer>, e: Entry)
    ensures e in Entries(peers) <==> exists p :: p in peers && p.publicKey == e.key && e.prefix in p.allowedIPs
  {
    if peers != [] {
      var init, last := peers[..|peers| - 1], peers[|peers| - 1];
      EntriesExact(init, e);
      PeerEntriesExact(last, e);
      assert peers == init + [last];
    }
  }

  // ---------------------------------------------------------------- the hub's peers

  function NodePeer(n: Node): Peer {
    Peer(n.publicKey, [Single(n.address)] + n.subnets)
  }

  function NodePeers(nodes: seq<Node>): seq<Peer> {
    if nodes == [] then []
    else
      var n := nodes[|nodes| - 1];
      NodePeers(nodes[..|nodes| - 1]) + if n.isHub then [] else [NodePeer(n)]
  }

  function ClientPeers(clients: seq<Client>): seq<Peer> {
    seq(|clients|, i requires 0 <= i < |clients| => Peer(clients[i].publicKey, [Single(clients[i].address)]))
  }

  function HubPeers(nodes: seq<Node>, clients: seq<Client>): seq<Peer> {
    NodePeers(nodes) + ClientPeers(clients)
  }

  lemma {:induction false} NodePeersExact(nodes: seq<Node>, p: Peer)
    ensures p in NodePeers(nodes) <==> exists n :: n in nodes && !n.isHub && p == NodePeer(n)
  {
    if nodes != [] {
      var init, last := nodes[..|nodes| - 1], nodes[|nodes| - 1];
      NodePeersExact(init, p);
      assert nodes == init + [last];
    }
  }

  lemma ClientPeersExact(clients: seq<Client>, p: Peer)
    ensures p in ClientPeers(clients) <==> exists c :: c in clients && p == Peer(c.publicKey, [Single(c.address)])
  {
    if c :| c in clients && p == Peer(c.publicKey, [Single(c.address)]) {
      var i :| 0 <= i < |clients| && clients[i] == c;
      assert ClientPeers(clients)[i] == p;
    }
  }

  /** Who owns what: a node its tunnel address and its LANs, a client its address, and
      the hub node nothing at all, so no peer ever holds the default route through it. */
  lemma HubTableExact(nodes: seq<Node>, clients: seq<Client>, e: Entry)
    ensures e in Entries(HubPeers(nodes, clients)) <==>
      || (exists n :: n in nodes && !n.isHub && n.publicKey == e.key && (e.prefix == Single(n.address) || e.prefix in n.subnets))
      || (exists c :: c in clients && c.publicKey == e.key && e.prefix == Single(c.address))
  {
    var peers := HubPeers(nodes, clients);
    EntriesExact(peers, e);
    if e in Entries(peers) {
      var p :| p in peers && p.publicKey == e.key && e.prefix in p.allowedIPs;
      NodePeersExact(nodes, p);
      ClientPeersExact(clients, p);
    }
    if n :| n in nodes && !n.isHub && n.publicKey == e.key && (e.prefix == Single(n.address) || e.prefix in n.subnets) {
      NodePeersExact(nodes, NodePeer(n));
      assert NodePeer(n) in peers && e.prefix in NodePeer(n).allowedIPs;
    }
    if c :| c in clients && c.publicKey == e.key && e.prefix == Single(c.address) {
      var p := Peer(c.publicKey, [Single(c.address)]);
      ClientPeersExact(clients, p);
      assert p in peers && e.prefix in p.allowedIPs;
    }
  }

  method RenderHub(nodes: seq<Node>, clients: seq<Client>) returns (peers: seq<Peer>)
    ensures peers == HubPeers(nodes, clients)
  {
    peers := [];
    for i := 0 to |nodes|
      invariant peers == NodePeers(nodes[..i])
    {
      assert nodes[..i + 1][..i] == nodes[..i];
      var n := nodes[i];
      if n.isHub {
        continue;
      }
      var allowed := [Single(n.address)];
      for j := 0 to |n.subnets|
        invariant allowed == [Single(n.address)] + n.subnets[..j]
      {
        allowed := allowed + [n.subnets[j]];
      }
      assert n.subnets[..|n.subnets|] == n.subnets;
      peers := peers + [Peer(n.publicKey, allowed)];
    }
    assert nodes[..|nodes|] == nodes;
    for i := 0 to |clients|
      invariant peers == NodePeers(nodes) + ClientPeers(clients)[..i]
    {
      peers := peers + [Peer(clients[i].publicKey, [Single(clients[i].address)])];
    }
  }

  // ---------------------------------------------------------------- a node's AllowedIPs

  /** Appends each prefix not yet present, keeping the order. */
  function AddNew(base: seq<Prefix>, extra: seq<Prefix>): seq<Prefix> {
    if extra == [] then base
    else
      var init := AddNew(base, extra[..|extra| - 1]);
      var s := extra[|extra| - 1];
      if s in init then init else init + [s]
  }

  function PoolOnly(hub: Hub): seq<Prefix> {
    if hub.pool.Some? then [hub.pool.value] else []
  }

  lemma {:induction false} AddNewExact(base: seq<Prefix>, extra: seq<Prefix>)
    ensures forall p :: p in AddNew(base, extra) <==> p in base || p in extra
    ensures NoDup(base) ==> NoDup(AddNew(base, extra))
  {
    if extra != [] {
      var init, s := extra[..|extra| - 1], extra[|extra| - 1];
      AddNewExact(base, init);
      assert extra == init + [s];
      if NoDup(base) && s !in AddNew(base, init) {
        NoDupAppend(AddNew(base, init), s);
      }
    }
  }

  /** A node routes into the tunnel, and accepts out of it, the pool and every linked
      subnet, each listed once. */
  method RenderNodeAllowed(hub: Hub, reach: seq<Prefix>) returns (allowed: seq<Prefix>)
    ensures allowed == AddNew(PoolOnly(hub), reach)
    ensures NoDup(allowed)
    ensures forall p :: p in allowed <==> hub.pool == Some(p) || p in reach
  {
    allowed := PoolOnly(hub);
    var seen := set p | p in allowed;
    for i := 0 to |reach|
      invariant allowed == AddNew(PoolOnly(hub), reach[..i])
      invariant seen == set p | p in allowed
    {
      assert reach[..i + 1][..i] == reach[..i];
      var k := reach[i];
      if k !in seen {
        seen := seen + {k};
        allowed := allowed + [k];
      }
    }
    assert reach[..|reach|] == reach;
    AddNewExact(PoolOnly(hub), reach);
  }

  // ---------------------------------------------------------------- a client's AllowedIPs

  /** The entries one grant adds. */
  function GrantAllowed(g: Grant): seq<Prefix> {
    (if g.nodeExit then [EVERYTHING] else []) + Dests(g)
  }

  function WideAllowed(hub: Hub, granted: seq<Grant>): seq<Prefix> {
    if granted == [] then [Single(hub.address)]
    else
      var g := granted[|granted| - 1];
      WideAllowed(hub, granted[..|granted| - 1]) + GrantAllowed(g)
  }

  /** A list that holds 0.0.0.0/0 collapses to that one entry. */
  function Collapse(allowed: seq<Prefix>): seq<Prefix> {
    if EVERYTHING in allowed then [EVERYTHING] else allowed
  }

  function ClientAllowed(hub: Hub, granted: seq<Grant>): seq<Prefix> {
    Collapse(WideAllowed(hub, granted))
  }

  lemma {:induction false} WideAllowedExact(hub: Hub, granted: seq<Grant>, p: Prefix)
    ensures p in WideAllowed(hub, granted) <==>
      || p == Single(hub.address)
      || exists g :: g in granted && (p in Dests(g) || (g.nodeExit && p == EVERYTHING))
  {
    if granted != [] {
      var init, g := granted[..|granted| - 1], granted[|granted| - 1];
      WideAllowedExact(hub, init, p);
      assert granted == init + [g];
    }
  }

  /** The collapse changes the list but not what it covers, and never leaves 0.0.0.0/0
      beside another entry. */
  lemma CollapsePreservesCoverage(allowed: seq<Prefix>, a: Addr)
    ensures Covers(Collapse(allowed), a) <==> Covers(allowed, a)
    ensures EVERYTHING in Collapse(allowed) ==> |Collapse(allowed)| == 1
  {
    if EVERYTHING in allowed {
      EverythingContains(a);
      assert Collapse(allowed)[0] == EVERYTHING;
    }
  }

  /** What a client may send into the tunnel: the hub, everything if some grant is an
      exit, and otherwise exactly the destinations of its grants. */
  lemma ClientAllowedCovers(hub: Hub, granted: seq<Grant>, a: Addr)
    ensures Covers(ClientAllowed(hub, granted), a) <==>
      || a == hub.address
      || exists g :: g in granted && (g.nodeExit || Covers(Dests(g), a))
  {
    var wide := WideAllowed(hub, granted);
    CollapsePreservesCoverage(wide, a);
    if Covers(wide, a) {
      var p :| p in wide && Contains(p, a);
      WideAllowedExact(hub, granted, p);
    }
    if a == hub.address {
      WideAllowedExact(hub, granted, Single(a));
      assert Contains(Single(a), a);
    }
    if g :| g in granted && (g.nodeExit || Covers(Dests(g), a)) {
      EverythingContains(a);
      var p := if g.nodeExit then EVERYTHING else var q :| q in Dests(g) && Contains(q, a); q;
      WideAllowedExact(hub, granted, p);
    }
  }

  method AppendGrantAllowed(g: Grant) returns (entries: seq<Prefix>)
    ensures entries == GrantAllowed(g)
  {
    entries := [];
    if g.nodeExit {
      entries := entries + [EVERYTHING];
    }
    ghost var exits := entries;
    var dests := CollectDests(g);
    for j := 0 to |dests|
      invariant entries == exits + dests[..j]
    {
      entries := entries + [dests[j]];
    }
  }

  method CollapseAllowed(wide: seq<Prefix>) returns (allowed: seq<Prefix>)
    ensures allowed == Collapse(wide)
  {
    for i := 0 to |wide|
      invariant EVERYTHING !in wide[..i]
    {
      if wide[i] == EVERYTHING {
        return [EVERYTHING];
      }
    }
    assert wide[..|wide|] == wide;
    return wide;
  }

  method RenderClientAllowed(hub: Hub, granted: seq<Grant>) returns (allowed: seq<Prefix>)
    ensures allowed == ClientAllowed(hub, granted)
  {
    allowed := [Single(hub.address)];
    for i := 0 to |granted|
      invariant allowed == WideAllowed(hub, granted[..i])
    {
      assert granted[..i + 1][..i] == granted[..i];
      var entries := AppendGrantAllowed(granted[i]);
      allowed := allowed + entries;
    }
    assert granted[..|granted|] == granted;
    allowed := CollapseAllowed(allowed);
  }
}

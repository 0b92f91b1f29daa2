/** The packet filter (internal/awg/nft.go): the forward chain as an ordered list of
    lines with an evaluator, the compiler that appends them, and the proof that the
    chain accepts exactly what the grants and links allow. */
module Nft {
  import opened Basics
  import opened Net
  import opened Model

  // ---------------------------------------------------------------- packets and lines

  datatype Transport = TcpSegment | UdpDatagram | OtherPayload

  /** A packet in the forward hook. `newFlow` is false for the established and related
      flows that conntrack recognises. */
  datatype Packet = Packet(saddr: Addr, daddr: Addr, transport: Transport, dport: nat, oif: string, newFlow: bool)

  datatype DaddrMatch = AnyDaddr | DaddrIn(prefix: Prefix) | DaddrNotIn(excluded: seq<Prefix>)
  datatype PortMatch = AnyPort | PortRange(lo: nat, hi: nat)
  datatype OifMatch = AnyOif | OifIs(name: string)

  /** `l4` None leaves the protocol free. */
  datatype Line =
    | MssClamp(skipOif: OifMatch)
    | EstablishedAccept
    | Accept(saddr: Prefix, daddr: DaddrMatch, l4: Option<Transport>, dport: PortMatch, oif: OifMatch)

  predicate DaddrMatches(m: DaddrMatch, a: Addr) {
    match m
    case AnyDaddr => true
    case DaddrIn(p) => Contains(p, a)
    case DaddrNotIn(ps) => !Covers(ps, a)
  }

  /** Whether the line decides the packet; the MSS clamp only rewrites and never does. */
  predicate Fires(l: Line, pkt: Packet) {
    match l
    case MssClamp(_) => false
    case EstablishedAccept => !pkt.newFlow
    case Accept(saddr, daddr, l4, dport, oif) =>
      && Contains(saddr, pkt.saddr)
      && DaddrMatches(daddr, pkt.daddr)
      && (l4.None? || l4.value == pkt.transport)
      && (dport.AnyPort? || dport.lo <= pkt.dport <= dport.hi)
      && (oif.AnyOif? || oif.name == pkt.oif)
  }

  datatype Verdict = Accepted | Dropped

  /** Evaluation in order; the chain's policy is drop. */
  function Evaluate(chain: seq<Line>, pkt: Packet): Verdict {
    if chain == [] then Dropped
    else if Fires(chain[0], pkt) then Accepted
    else Evaluate(chain[1..], pkt)
  }

  predicate SomeFires(lines: seq<Line>, pkt: Packet) {
    exists l :: l in lines && Fires(l, pkt)
  }

  lemma {:induction false} EvaluateIffSomeFires(chain: seq<Line>, pkt: Packet)
    ensures Evaluate(chain, pkt) == Accepted <==> SomeFires(chain, pkt)
  {
    if chain != [] {
      EvaluateIffSomeFires(chain[1..], pkt);
      assert chain == [chain[0]] + chain[1..];
    }
  }

  lemma SomeFiresConcat(s: seq<Line>, t: seq<Line>, pkt: Packet)
    ensures SomeFires(s + t, pkt) <==> SomeFires(s, pkt) || SomeFires(t, pkt)
  {
  }

  /** A line for one source address fires for that source only. */
  lemma HostLineFires(client: Addr, daddr: DaddrMatch, l4: Option<Transport>, dport: PortMatch, oif: OifMatch, pkt: Packet)
    ensures Fires(Accept(Single(client), daddr, l4, dport, oif), pkt) <==>
      && pkt.saddr == client
      && DaddrMatches(daddr, pkt.daddr)
      && (l4.None? || l4.value == pkt.transport)
      && (dport.AnyPort? || dport.lo <= pkt.dport <= dport.hi)
      && (oif.AnyOif? || oif.name == pkt.oif)
  {
  }

  // ---------------------------------------------------------------- one rule

  /** What a rule means: destination, protocol and port range. A rule with a port
      but no protocol speaks of TCP and UDP only. */
  predicate RuleAllows(r: GrantRule, pkt: Packet) {
    && Contains(r.dest, pkt.daddr)
    && (match r.proto
        case Tcp => pkt.transport == TcpSegment
        case Udp => pkt.transport == UdpDatagram
        case _ => r.portFrom == 0 || pkt.transport != OtherPayload)
    && (r.portFrom == 0 || pkt.dport == r.portFrom || r.portFrom <= pkt.dport <= r.portTo)
  }

  function RulePorts(r: GrantRule): PortMatch {
    if r.portFrom == 0 then AnyPort
    else PortRange(r.portFrom, if r.portTo > r.portFrom then r.portTo else r.portFrom)
  }

  function RuleTransports(r: GrantRule): seq<Transport> {
    match r.proto
    case Tcp => [TcpSegment]
    case Udp => [UdpDatagram]
    case _ => [TcpSegment, UdpDatagram]
  }

  function RuleLines(client: Addr, r: GrantRule): seq<Line> {
    if r.portFrom == 0 && (r.proto == Unset || r.proto == Any) then
      [Accept(Single(client), DaddrIn(r.dest), None, AnyPort, AnyOif)]
    else
      var ts := RuleTransports(r);
      seq(|ts|, i requires 0 <= i < |ts| => Accept(Single(client), DaddrIn(r.dest), Some(ts[i]), RulePorts(r), AnyOif))
  }

  lemma RuleLinesExact(client: Addr, r: GrantRule, pkt: Packet)
    ensures SomeFires(RuleLines(client, r), pkt) <==> pkt.saddr == client && RuleAllows(r, pkt)
  {
    var lines := RuleLines(client, r);
    if r.portFrom == 0 && (r.proto == Unset || r.proto == Any) {
      HostLineFires(client, DaddrIn(r.dest), None, AnyPort, AnyOif, pkt);
      assert lines[0] in lines;
    } else {
      var ts := RuleTransports(r);
      forall i | 0 <= i < |ts|
        ensures Fires(lines[i], pkt) <==>
          && pkt.saddr == client && Contains(r.dest, pkt.daddr) && ts[i] == pkt.transport
          && (r.portFrom == 0 || pkt.dport == r.portFrom || r.portFrom <= pkt.dport <= r.portTo)
      {
        HostLineFires(client, DaddrIn(r.dest), Some(ts[i]), RulePorts(r), AnyOif, pkt);
      }
      if pkt.saddr == client && RuleAllows(r, pkt) {
        var i := if |ts| == 2 && pkt.transport == UdpDatagram then 1 else 0;
        assert lines[i] in lines;
      }
    }
  }

  /** One rule expands to lines that denote exactly the rule. */
  method NftRuleLines(client: Addr, r: GrantRule) returns (lines: seq<Line>)
    ensures lines == RuleLines(client, r)
    ensures forall pkt: Packet :: SomeFires(lines, pkt) <==> pkt.saddr == client && RuleAllows(r, pkt)
  {
    forall pkt: Packet
      ensures SomeFires(RuleLines(client, r), pkt) <==> pkt.saddr == client && RuleAllows(r, pkt)
    {
      RuleLinesExact(client, r, pkt);
    }
    var hasPort := r.portFrom > 0;
    var port := AnyPort;
    if hasPort {
      if r.portTo > r.portFrom {
        port := PortRange(r.portFrom, r.portTo);
      } else {
        port := PortRange(r.portFrom, r.portFrom);
      }
    }
    var protos := if r.proto == Udp then [UdpDatagram] else [TcpSegment];
    if r.proto == Unset || r.proto == Any {
      if hasPort {
        protos := [TcpSegment, UdpDatagram];
      } else {
        return [Accept(Single(client), DaddrIn(r.dest), None, AnyPort, AnyOif)];
      }
    }
    assert protos == RuleTransports(r) && port == RulePorts(r);
    lines := [];
    for i := 0 to |protos|
      invariant lines == RuleLines(client, r)[..i]
    {
      lines := lines + [Accept(Single(client), DaddrIn(r.dest), Some(protos[i]), port, AnyOif)];
    }
  }

  // ---------------------------------------------------------------- the mesh set

  /** Prefixes inside the VPN: each real node's LANs, then the pool. */
  function NodeSubnets(nodes: seq<Node>): seq<Prefix> {
    if nodes == [] then []
    else
      var n := nodes[|nodes| - 1];
      NodeSubnets(nodes[..|nodes| - 1]) + if n.isHub then [] else n.subnets
  }

  function MeshOf(hub: Hub, nodes: seq<Node>): seq<Prefix> {
    NodeSubnets(nodes) + if hub.pool.Some? then [hub.pool.value] else []
  }

  lemma {:induction false} NodeSubnetsExact(nodes: seq<Node>, p: Prefix)
    ensures p in NodeSubnets(nodes) <==> exists n :: n in nodes && !n.isHub && p in n.subnets
  {
    if nodes != [] {
      var k := |nodes| - 1;
      NodeSubnetsExact(nodes[..k], p);
      assert nodes == nodes[..k] + [nodes[k]];
      if p in NodeSubnets(nodes[..k]) {
        var n :| n in nodes[..k] && !n.isHub && p in n.subnets;
        assert n in nodes;
      } else if p in NodeSubnets(nodes) {
        assert nodes[k] in nodes;
      }
    }
  }

  // ---------------------------------------------------------------- grants

  /** What one grant opens for a new flow. */
  predicate GrantAllows(hub: Hub, mesh: seq<Prefix>, g: Grant, pkt: Packet) {
    && pkt.saddr == g.clientAddr
    && if g.isExit then pkt.oif == hub.wanIface
       else
         || (g.nodeExit && !Covers(mesh, pkt.daddr))
         || (g.rules == [] && Covers(g.subnets, pkt.daddr))
         || (exists r :: r in g.rules && RuleAllows(r, pkt))
  }

  function ExitLine(mesh: seq<Prefix>, g: Grant): Line {
    Accept(Single(g.clientAddr), if mesh == [] then AnyDaddr else DaddrNotIn(mesh), None, AnyPort, AnyOif)
  }

  function SubnetLines(client: Addr, subnets: seq<Prefix>): seq<Line> {
    seq(|subnets|, i requires 0 <= i < |subnets| => Accept(Single(client), DaddrIn(subnets[i]), None, AnyPort, AnyOif))
  }

  function AllRuleLines(client: Addr, rules: seq<GrantRule>): seq<Line> {
    if rules == [] then []
    else AllRuleLines(client, rules[..|rules| - 1]) + RuleLines(client, rules[|rules| - 1])
  }

  function GrantLines(hub: Hub, mesh: seq<Prefix>, g: Grant): seq<Line> {
    if g.isExit then [Accept(Single(g.clientAddr), AnyDaddr, None, AnyPort, OifIs(hub.wanIface))]
    else
      (if g.nodeExit then [ExitLine(mesh, g)] else [])
      + (if g.rules == [] then SubnetLines(g.clientAddr, g.subnets) else AllRuleLines(g.clientAddr, g.rules))
  }

  function AllGrantLines(hub: Hub, mesh: seq<Prefix>, grants: seq<Grant>): seq<Line> {
    if grants == [] then []
    else AllGrantLines(hub, mesh, grants[..|grants| - 1]) + GrantLines(hub, mesh, grants[|grants| - 1])
  }

  lemma SubnetLinesExact(client: Addr, subnets: seq<Prefix>, pkt: Packet)
    ensures SomeFires(SubnetLines(client, subnets), pkt) <==> pkt.saddr == client && Covers(subnets, pkt.daddr)
  {
    var lines := SubnetLines(client, subnets);
    forall i | 0 <= i < |subnets|
      ensures Fires(lines[i], pkt) <==> pkt.saddr == client && Contains(subnets[i], pkt.daddr)
    {
      HostLineFires(client, DaddrIn(subnets[i]), None, AnyPort, AnyOif, pkt);
    }
    if pkt.saddr == client && Covers(subnets, pkt.daddr) {
      var i :| 0 <= i < |subnets| && Contains(subnets[i], pkt.daddr);
      assert lines[i] in lines;
    }
  }

  lemma {:induction false} AllRuleLinesExact(client: Addr, rules: seq<GrantRule>, pkt: Packet)
    ensures SomeFires(AllRuleLines(client, rules), pkt)
       <==> pkt.saddr == client && exists r :: r in rules && RuleAllows(r, pkt)
  {
    if rules != [] {
      var k := |rules| - 1;
      AllRuleLinesExact(client, rules[..k], pkt);
      RuleLinesExact(client, rules[k], pkt);
      SomeFiresConcat(AllRuleLines(client, rules[..k]), RuleLines(client, rules[k]), pkt);
      assert rules == rules[..k] + [rules[k]];
    }
  }

  /** A grant's lines accept exactly what the grant allows. The exit line is the only
      accept that reaches outside the mesh. */
  lemma GrantLinesExact(hub: Hub, mesh: seq<Prefix>, g: Grant, pkt: Packet)
    ensures SomeFires(GrantLines(hub, mesh, g), pkt) <==> GrantAllows(hub, mesh, g, pkt)
  {
    if g.isExit {
      var line := GrantLines(hub, mesh, g)[0];
      assert Fires(line, pkt) <==> GrantAllows(hub, mesh, g, pkt);
    } else {
      var exits := if g.nodeExit then [ExitLine(mesh, g)] else [];
      var rest := if g.rules == [] then SubnetLines(g.clientAddr, g.subnets) else AllRuleLines(g.clientAddr, g.rules);
      SomeFiresConcat(exits, rest, pkt);
      SubnetLinesExact(g.clientAddr, g.subnets, pkt);
      AllRuleLinesExact(g.clientAddr, g.rules, pkt);
      assert g.nodeExit ==> exits[0] in exits;
    }
  }

  predicate SomeGrantAllows(hub: Hub, mesh: seq<Prefix>, grants: seq<Grant>, pkt: Packet) {
    exists g :: g in grants && GrantAllows(hub, mesh, g, pkt)
  }

  lemma AppendGrantExact(
    hub: Hub, mesh: seq<Prefix>, grants: seq<Grant>, g: Grant, before: seq<Line>, lines: seq<Line>, pkt: Packet)
    requires SomeFires(before, pkt) <==> SomeGrantAllows(hub, mesh, grants, pkt)
    requires SomeFires(lines, pkt) <==> GrantAllows(hub, mesh, g, pkt)
    ensures SomeFires(before + lines, pkt) <==> SomeGrantAllows(hub, mesh, grants + [g], pkt)
  {
  }

  lemma AllGrantLinesSnoc(hub: Hub, mesh: seq<Prefix>, grants: seq<Grant>, g: Grant)
    ensures AllGrantLines(hub, mesh, grants + [g]) == AllGrantLines(hub, mesh, grants) + GrantLines(hub, mesh, g)
  {
  }

  lemma {:induction false} AllGrantLinesExact(hub: Hub, mesh: seq<Prefix>, grants: seq<Grant>, pkt: Packet)
    ensures SomeFires(AllGrantLines(hub, mesh, grants), pkt) <==> SomeGrantAllows(hub, mesh, grants, pkt)
  {
    if grants != [] {
      var init, g := grants[..|grants| - 1], grants[|grants| - 1];
      assert grants == init + [g];
      AllGrantLinesExact(hub, mesh, init, pkt);
      GrantLinesExact(hub, mesh, g, pkt);
      AppendGrantExact(hub, mesh, init, g, AllGrantLines(hub, mesh, init), GrantLines(hub, mesh, g), pkt);
      AllGrantLinesSnoc(hub, mesh, init, g);
    }
  }

  // ---------------------------------------------------------------- links

  /** What a site-to-site link opens: the source's LANs and its own tunnel address. */
  predicate LinkAllows(l: NodeLink, pkt: Packet) {
    && Covers(l.dstSubnets, pkt.daddr)
    && (l.srcAddr == Some(pkt.saddr) || Covers(l.srcSubnets, pkt.saddr))
  }

  function PairLines(srcs: seq<Prefix>, dst: Prefix): seq<Line> {
    seq(|srcs|, i requires 0 <= i < |srcs| => Accept(srcs[i], DaddrIn(dst), None, AnyPort, AnyOif))
  }

  function DstLines(l: NodeLink, dst: Prefix): seq<Line> {
    (if l.srcAddr.Some? then [Accept(Single(l.srcAddr.value), DaddrIn(dst), None, AnyPort, AnyOif)] else [])
    + PairLines(l.srcSubnets, dst)
  }

  function LinkLines(l: NodeLink, dsts: seq<Prefix>): seq<Line> {
    if dsts == [] then []
    else LinkLines(l, dsts[..|dsts| - 1]) + DstLines(l, dsts[|dsts| - 1])
  }

  function AllLinkLines(links: seq<NodeLink>): seq<Line> {
    if links == [] then []
    else
      var l := links[|links| - 1];
      AllLinkLines(links[..|links| - 1]) + LinkLines(l, l.dstSubnets)
  }

  lemma DstLinesExact(l: NodeLink, dst: Prefix, pkt: Packet)
    ensures SomeFires(DstLines(l, dst), pkt)
       <==> Contains(dst, pkt.daddr) && (l.srcAddr == Some(pkt.saddr) || Covers(l.srcSubnets, pkt.saddr))
  {
    var self := if l.srcAddr.Some? then [Accept(Single(l.srcAddr.value), DaddrIn(dst), None, AnyPort, AnyOif)] else [];
    var pairs := PairLines(l.srcSubnets, dst);
    SomeFiresConcat(self, pairs, pkt);
    assert l.srcAddr.Some? ==> self[0] in self;
    if Covers(l.srcSubnets, pkt.saddr) && Contains(dst, pkt.daddr) {
      var i :| 0 <= i < |l.srcSubnets| && Contains(l.srcSubnets[i], pkt.saddr);
      assert Fires(pairs[i], pkt);
    }
  }

  lemma {:induction false} LinkLinesExact(l: NodeLink, dsts: seq<Prefix>, pkt: Packet)
    ensures SomeFires(LinkLines(l, dsts), pkt)
       <==> Covers(dsts, pkt.daddr) && (l.srcAddr == Some(pkt.saddr) || Covers(l.srcSubnets, pkt.saddr))
  {
    if dsts != [] {
      var k := |dsts| - 1;
      LinkLinesExact(l, dsts[..k], pkt);
      DstLinesExact(l, dsts[k], pkt);
      SomeFiresConcat(LinkLines(l, dsts[..k]), DstLines(l, dsts[k]), pkt);
      assert dsts == dsts[..k] + [dsts[k]];
    }
  }

  lemma {:induction false} AllLinkLinesExact(links: seq<NodeLink>, pkt: Packet)
    ensures SomeFires(AllLinkLines(links), pkt) <==> exists l :: l in links && LinkAllows(l, pkt)
  {
    if links != [] {
      var k := |links| - 1;
      var l := links[k];
      AllLinkLinesExact(links[..k], pkt);
      LinkLinesExact(l, l.dstSubnets, pkt);
      SomeFiresConcat(AllLinkLines(links[..k]), LinkLines(l, l.dstSubnets), pkt);
      assert links == links[..k] + [l];
      assert SomeFires(LinkLines(l, l.dstSubnets), pkt) <==> LinkAllows(l, pkt);
    }
  }

  // ---------------------------------------------------------------- the forward chain

  function Preamble(hub: Hub): seq<Line> {
    [MssClamp(if hub.wanIface != "" then OifIs(hub.wanIface) else AnyOif), EstablishedAccept]
  }

  function ForwardChain(hub: Hub, nodes: seq<Node>, grants: seq<Grant>, links: seq<NodeLink>): seq<Line> {
    Preamble(hub) + AllGrantLines(hub, MeshOf(hub, nodes), grants) + AllLinkLines(links)
  }

  /** The packets whose handshake a clamp line rewrites; it names the interface it leaves alone. */
  predicate Clamps(l: Line, pkt: Packet) {
    l.MssClamp? && match l.skipOif case AnyOif => true case OifIs(name) => pkt.oif != name
  }

  /** Before anything decides, the chain clamps everything but what leaves by the WAN interface. */
  lemma AllButWanIsClamped(hub: Hub, nodes: seq<Node>, grants: seq<Grant>, links: seq<NodeLink>, pkt: Packet)
    ensures var chain := ForwardChain(hub, nodes, grants, links);
      chain != [] && (Clamps(chain[0], pkt) <==> hub.wanIface == "" || pkt.oif != hub.wanIface)
  {
    var chain := ForwardChain(hub, nodes, grants, links);
    assert chain[0] == Preamble(hub)[0];
  }

  /** The chain accepts a packet exactly when its flow is already established, some
      grant allows it, or some link allows it; everything else meets the drop policy. */
  lemma ForwardChainExact(hub: Hub, nodes: seq<Node>, grants: seq<Grant>, links: seq<NodeLink>, pkt: Packet)
    ensures Evaluate(ForwardChain(hub, nodes, grants, links), pkt) == Accepted <==>
      || !pkt.newFlow
      || SomeGrantAllows(hub, MeshOf(hub, nodes), grants, pkt)
      || (exists l :: l in links && LinkAllows(l, pkt))
  {
    var mesh := MeshOf(hub, nodes);
    var pre, gs, ls := Preamble(hub), AllGrantLines(hub, mesh, grants), AllLinkLines(links);
    EvaluateIffSomeFires(pre + gs + ls, pkt);
    SomeFiresConcat(pre + gs, ls, pkt);
    SomeFiresConcat(pre, gs, pkt);
    AllGrantLinesExact(hub, mesh, grants, pkt);
    AllLinkLinesExact(links, pkt);
    assert pre[1] in pre && Fires(pre[1], pkt) == !pkt.newFlow;
  }

  /** The destinations the exit accepts must not open. */
  method MeshSet(hub: Hub, nodes: seq<Node>) returns (mesh: seq<Prefix>)
    ensures mesh == MeshOf(hub, nodes)
  {
    mesh := [];
    for i := 0 to |nodes|
      invariant mesh == NodeSubnets(nodes[..i])
    {
      assert nodes[..i + 1][..i] == nodes[..i];
      var n := nodes[i];
      if n.isHub {
        continue;
      }
      ghost var before := mesh;
      for j := 0 to |n.subnets|
        invariant mesh == before + n.subnets[..j]
      {
        mesh := mesh + [n.subnets[j]];
      }
    }
    assert nodes[..|nodes|] == nodes;
    if hub.pool.Some? {
      mesh := mesh + [hub.pool.value];
    }
  }

  method AppendSubnets(client: Addr, subnets: seq<Prefix>) returns (lines: seq<Line>)
    ensures lines == SubnetLines(client, subnets)
  {
    lines := [];
    for j := 0 to |subnets|
      invariant lines == SubnetLines(client, subnets)[..j]
    {
      lines := lines + [Accept(Single(client), DaddrIn(subnets[j]), None, AnyPort, AnyOif)];
    }
  }

  method AppendRules(client: Addr, rules: seq<GrantRule>) returns (lines: seq<Line>)
    ensures lines == AllRuleLines(client, rules)
  {
    lines := [];
    for j := 0 to |rules|
      invariant lines == AllRuleLines(client, rules[..j])
    {
      assert rules[..j + 1][..j] == rules[..j];
      var ruleLines := NftRuleLines(client, rules[j]);
      lines := lines + ruleLines;
    }
    assert rules[..|rules|] == rules;
  }

  /** The lines one grant contributes, as the body of the grant loop writes them. */
  method AppendGrant(hub: Hub, mesh: seq<Prefix>, g: Grant) returns (b: seq<Line>)
    ensures b == GrantLines(hub, mesh, g)
  {
    b := [];
    if g.isExit {
      b := b + [Accept(Single(g.clientAddr), AnyDaddr, None, AnyPort, OifIs(hub.wanIface))];
      return;
    }
    if g.nodeExit {
      if mesh != [] {
        b := b + [Accept(Single(g.clientAddr), DaddrNotIn(mesh), None, AnyPort, AnyOif)];
      } else {
        b := b + [Accept(Single(g.clientAddr), AnyDaddr, None, AnyPort, AnyOif)];
      }
    }
    if |g.rules| == 0 {
      var lines := AppendSubnets(g.clientAddr, g.subnets);
      b := b + lines;
      return;
    }
    var lines := AppendRules(g.clientAddr, g.rules);
    b := b + lines;
  }

  method RenderGrants(hub: Hub, mesh: seq<Prefix>, grants: seq<Grant>) returns (b: seq<Line>)
    ensures b == AllGrantLines(hub, mesh, grants)
  {
    b := [];
    for i := 0 to |grants|
      invariant b == AllGrantLines(hub, mesh, grants[..i])
    {
      assert grants[..i + 1][..i] == grants[..i];
      var lines := AppendGrant(hub, mesh, grants[i]);
      b := b + lines;
    }
    assert grants[..|grants|] == grants;
  }

  /** The lines one destination of a link contributes: the node itself, then each source LAN. */
  method AppendDst(l: NodeLink, dst: Prefix) returns (b: seq<Line>)
    ensures b == DstLines(l, dst)
  {
    b := [];
    if l.srcAddr.Some? {
      b := b + [Accept(Single(l.srcAddr.value), DaddrIn(dst), None, AnyPort, AnyOif)];
    }
    var pairs: seq<Line> := [];
    for k := 0 to |l.srcSubnets|
      invariant pairs == PairLines(l.srcSubnets, dst)[..k]
    {
      pairs := pairs + [Accept(l.srcSubnets[k], DaddrIn(dst), None, AnyPort, AnyOif)];
    }
    b := b + pairs;
  }

  method AppendLink(l: NodeLink) returns (b: seq<Line>)
    ensures b == LinkLines(l, l.dstSubnets)
  {
    b := [];
    for j := 0 to |l.dstSubnets|
      invariant b == LinkLines(l, l.dstSubnets[..j])
    {
      assert l.dstSubnets[..j + 1][..j] == l.dstSubnets[..j];
      var lines := AppendDst(l, l.dstSubnets[j]);
      b := b + lines;
    }
    assert l.dstSubnets[..|l.dstSubnets|] == l.dstSubnets;
  }

  method RenderLinks(links: seq<NodeLink>) returns (b: seq<Line>)
    ensures b == AllLinkLines(links)
  {
    b := [];
    for i := 0 to |links|
      invariant b == AllLinkLines(links[..i])
    {
      assert links[..i + 1][..i] == links[..i];
      var lines := AppendLink(links[i]);
      b := b + lines;
    }
    assert links[..|links|] == links;
  }

  /** Renders the chain: the mesh set first, then the fixed lines, the grants and the links. */
  method RenderNFT(hub: Hub, nodes: seq<Node>, grants: seq<Grant>, links: seq<NodeLink>) returns (b: seq<Line>)
    ensures b == ForwardChain(hub, nodes, grants, links)
  {
    var mesh := MeshSet(hub, nodes);
    b := [];
    if hub.wanIface != "" {
      b := b + [MssClamp(OifIs(hub.wanIface))];
    } else {
      b := b + [MssClamp(AnyOif)];
    }
    b := b + [EstablishedAccept];
    assert b == Preamble(hub);
    var grantLines := RenderGrants(hub, mesh, grants);
    b := b + grantLines;
    var linkLines := RenderLinks(links);
    b := b + linkLines;
  }
}

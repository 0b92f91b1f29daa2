/** The node's PostUp and PostDown command lists (internal/awg/render.go), and how a host's
    firewall and routing state answers their commands. */
module NodeScripts {
  import opened Basics
  import opened Net

  // ---------------------------------------------------------------- rules and lines

  datatype Chain = Filter(name: string) | Nat(name: string) | Mangle(name: string)

  /** The match-and-target part of a rule. `Foreign` is any rule that is not the node's. */
  datatype Spec =
    | PoolMasquerade(pool: Prefix)
    | ReachMasquerade(reach: Prefix, lan: string)
    | FromTunnelAccept | ToTunnelAccept | InputAccept
    | Clamp
    | ExitInAccept | ExitOutAccept
    | ExitSetMark | ExitRestoreMark | ExitClamp
    | XkeenDscp | XkeenMark
    | Foreign(text: string)

  datatype Verb = Append | InsertHead | Delete

  datatype IpCmd =
    | ForwardSysctl | TunnelAdd | TunnelAddr | TunnelUp | TunnelRpFilter
    | MarkRuleAdd | ExitRouteReplace | ExitTableFlush | MarkRuleDel | TunnelDel

  /** The commands of a bring-up. */
  predicate UpCmd(cmd: IpCmd) {
    !(cmd.ExitTableFlush? || cmd.MarkRuleDel? || cmd.TunnelDel?)
  }

  /** `tolerated` is the trailing `|| true`. A `Guarded` line adds its rule only on a host
      with XKeen, after probing for it, and is always tolerated. */
  datatype Line =
    | Ipt(verb: Verb, chain: Chain, spec: Spec, tolerated: bool)
    | Guarded(verb: Verb, chain: Chain, spec: Spec)
    | Ip(cmd: IpCmd, tolerated: bool)

  predicate Tolerated(l: Line) {
    l.Guarded? || l.tolerated
  }

  // ---------------------------------------------------------------- the host

  datatype Tunnel = Tunnel(addressed: bool, up: bool, looseRp: bool)

  /** `ipRules` lists the texts of the policy rules; `exitRoute` is table 133's default. */
  datatype HostState = HostState(
    chains: map<Chain, seq<Spec>>, tunnel: Option<Tunnel>, ipRules: seq<string>, exitRoute: bool, forwarding: bool)

  const MARK_RULE := "fwmark 0x33 lookup 133 pref 1330"

  /** What a host can execute: the specs it lacks modules for, and the optional features. */
  datatype Caps = Caps(
    lacks: set<Spec>, xkeen: bool, tunnels: bool, rpFilter: bool, policyRules: bool, routes: bool, sysctl: bool)

  function At(s: HostState, c: Chain): seq<Spec> {
    if c in s.chains then s.chains[c] else []
  }

  function Put(s: HostState, c: Chain, rules: seq<Spec>): HostState {
    s.(chains := s.chains[c := rules])
  }

  function RemoveFirst<T(==)>(s: seq<T>, x: T): seq<T> {
    if s == [] then []
    else if s[0] == x then s[1..]
    else [s[0]] + RemoveFirst(s[1..], x)
  }

  function ExecIpt(h: Caps, s: HostState, v: Verb, c: Chain, x: Spec): Option<HostState> {
    match v
    case Append => if x in h.lacks then None else Some(Put(s, c, At(s, c) + [x]))
    case InsertHead => if x in h.lacks then None else Some(Put(s, c, [x] + At(s, c)))
    case Delete => if x in At(s, c) then Some(Put(s, c, RemoveFirst(At(s, c), x))) else None
  }

  function ExecIp(h: Caps, s: HostState, cmd: IpCmd): Option<HostState> {
    match cmd
    case ForwardSysctl => if h.sysctl then Some(s.(forwarding := true)) else None
    case TunnelAdd => if h.tunnels && s.tunnel.None? then Some(s.(tunnel := Some(Tunnel(false, false, false)))) else None
    case TunnelAddr => if s.tunnel.Some? then Some(s.(tunnel := Some(s.tunnel.value.(addressed := true)))) else None
    case TunnelUp => if s.tunnel.Some? then Some(s.(tunnel := Some(s.tunnel.value.(up := true)))) else None
    case TunnelRpFilter =>
      if h.rpFilter && s.tunnel.Some? then Some(s.(tunnel := Some(s.tunnel.value.(looseRp := true)))) else None
    case MarkRuleAdd => if h.policyRules && MARK_RULE !in s.ipRules then Some(s.(ipRules := s.ipRules + [MARK_RULE])) else None
    case ExitRouteReplace => if h.routes && s.tunnel.Some? && s.tunnel.value.up then Some(s.(exitRoute := true)) else None
    case ExitTableFlush => if h.routes then Some(s.(exitRoute := false)) else None
    case MarkRuleDel => if MARK_RULE in s.ipRules then Some(s.(ipRules := RemoveFirst(s.ipRules, MARK_RULE))) else None
    case TunnelDel => if s.tunnel.Some? then Some(s.(tunnel := None, exitRoute := false)) else None
  }

  /** One command; None when its exit status is not zero. */
  function Exec(h: Caps, s: HostState, l: Line): Option<HostState> {
    match l
    case Ipt(v, c, x, _) => ExecIpt(h, s, v, c, x)
    case Ip(cmd, _) => ExecIp(h, s, cmd)
    case Guarded(v, c, x) => if !h.xkeen then None else if x in At(s, c) then Some(s) else ExecIpt(h, s, v, c, x)
  }

  datatype Outcome = Outcome(state: HostState, ok: bool)

  /** awg-quick runs a list in order and aborts at the first failure that is not tolerated. */
  function RunAll(h: Caps, s: HostState, ls: seq<Line>): Outcome {
    if ls == [] then Outcome(s, true)
    else
      var o := RunAll(h, s, ls[..|ls| - 1]);
      var l := ls[|ls| - 1];
      if !o.ok then o
      else
        var r := Exec(h, o.state, l);
        if r.Some? then Outcome(r.value, true) else Outcome(o.state, Tolerated(l))
  }

  // ---------------------------------------------------------------- the rendered lists

  function ReachUp(reach: seq<Prefix>, lan: string): seq<Line> {
    seq(|reach|, i requires 0 <= i < |reach| => Ipt(Append, Nat("POSTROUTING"), ReachMasquerade(reach[i], lan), false))
  }

  function ReachDown(reach: seq<Prefix>, lan: string): seq<Line> {
    seq(|reach|, i requires 0 <= i < |reach| => Ipt(Delete, Nat("POSTROUTING"), ReachMasquerade(reach[i], lan), false))
  }

  const UP_SYSCTL: seq<Line> := [Ip(ForwardSysctl, false)]
  function UpPool(pool: Prefix): seq<Line> { [Ipt(Append, Nat("POSTROUTING"), PoolMasquerade(pool), false)] }
  const UP_FORWARD: seq<Line> := [
    Ipt(InsertHead, Filter("FORWARD"), FromTunnelAccept, false),
    Ipt(InsertHead, Filter("FORWARD"), ToTunnelAccept, false)]
  const UP_INPUT: seq<Line> := [Ipt(InsertHead, Filter("INPUT"), InputAccept, false)]
  const UP_CLAMP: seq<Line> := [
    Ipt(Append, Mangle("FORWARD"), Clamp, true),
    Ipt(Append, Mangle("OUTPUT"), Clamp, true)]
  const UP_TUNNEL: seq<Line> := [Ip(TunnelAdd, true), Ip(TunnelAddr, true), Ip(TunnelUp, true), Ip(TunnelRpFilter, true)]
  const UP_EXIT_FORWARD: seq<Line> := [
    Ipt(InsertHead, Filter("FORWARD"), ExitInAccept, true),
    Ipt(InsertHead, Filter("FORWARD"), ExitOutAccept, true)]
  const UP_EXIT_MANGLE: seq<Line> := [
    Ipt(Append, Mangle("PREROUTING"), ExitSetMark, true),
    Ipt(Append, Mangle("PREROUTING"), ExitRestoreMark, true),
    Ipt(Append, Mangle("FORWARD"), ExitClamp, true)]
  const UP_POLICY: seq<Line> := [Ip(MarkRuleAdd, true), Ip(ExitRouteReplace, true)]
  const UP_XKEEN: seq<Line> := [
    Guarded(InsertHead, Mangle("PREROUTING"), XkeenDscp),
    Guarded(Append, Mangle("OUTPUT"), XkeenMark)]

  const DOWN_INPUT: seq<Line> := [Ipt(Delete, Filter("INPUT"), InputAccept, false)]
  const DOWN_CLAMP: seq<Line> := [
    Ipt(Delete, Mangle("FORWARD"), Clamp, true),
    Ipt(Delete, Mangle("OUTPUT"), Clamp, true)]
  function DownPool(pool: Prefix): seq<Line> { [Ipt(Delete, Nat("POSTROUTING"), PoolMasquerade(pool), false)] }
  const DOWN_FORWARD: seq<Line> := [
    Ipt(Delete, Filter("FORWARD"), FromTunnelAccept, false),
    Ipt(Delete, Filter("FORWARD"), ToTunnelAccept, false)]
  const DOWN_POLICY: seq<Line> := [Ip(ExitTableFlush, true), Ip(MarkRuleDel, true)]
  const DOWN_EXIT_MANGLE: seq<Line> := [
    Ipt(Delete, Mangle("FORWARD"), ExitClamp, true),
    Ipt(Delete, Mangle("PREROUTING"), ExitRestoreMark, true),
    Ipt(Delete, Mangle("PREROUTING"), ExitSetMark, true)]
  const DOWN_EXIT_FORWARD: seq<Line> := [
    Ipt(Delete, Filter("FORWARD"), ExitInAccept, true),
    Ipt(Delete, Filter("FORWARD"), ExitOutAccept, true)]
  const DOWN_TUNNEL: seq<Line> := [Ip(TunnelDel, true)]
  const DOWN_XKEEN: seq<Line> := [
    Ipt(Delete, Mangle("PREROUTING"), XkeenDscp, true),
    Ipt(Delete, Mangle("OUTPUT"), XkeenMark, true)]

  /** The filter lines before and after the exit tunnel is set up. */
  function UpLan(pool: Prefix, reach: seq<Prefix>, lan: string): seq<Line> {
    UpPool(pool) + ReachUp(reach, lan) + UP_FORWARD + UP_INPUT + UP_CLAMP
  }

  function UpExit(): seq<Line> {
    UP_EXIT_FORWARD + UP_EXIT_MANGLE
  }

  function DownLan(pool: Prefix, reach: seq<Prefix>, lan: string): seq<Line> {
    DOWN_INPUT + DOWN_CLAMP + DownPool(pool) + ReachDown(reach, lan) + DOWN_FORWARD
  }

  function DownExit(): seq<Line> {
    DOWN_EXIT_MANGLE + DOWN_EXIT_FORWARD
  }

  function PostUp(pool: Prefix, reach: seq<Prefix>, lan: string): seq<Line> {
    UP_SYSCTL + UpLan(pool, reach, lan) + UP_TUNNEL + UpExit() + UP_POLICY + UP_XKEEN
  }

  function PostDown(pool: Prefix, reach: seq<Prefix>, lan: string): seq<Line> {
    DownLan(pool, reach, lan) + DOWN_POLICY + DownExit() + DOWN_TUNNEL + DOWN_XKEEN
  }

  method ReachLines(reach: seq<Prefix>, lan: string) returns (up: seq<Line>, down: seq<Line>)
    ensures up == ReachUp(reach, lan) && down == ReachDown(reach, lan)
  {
    up, down := [], [];
    for i := 0 to |reach|
      invariant up == ReachUp(reach, lan)[..i] && down == ReachDown(reach, lan)[..i]
    {
      up := up + [Ipt(Append, Nat("POSTROUTING"), ReachMasquerade(reach[i], lan), false)];
      down := down + [Ipt(Delete, Nat("POSTROUTING"), ReachMasquerade(reach[i], lan), false)];
    }
  }

  /** The two XKeen rules: the first goes to the head of its chain, the OUTPUT one to the end. */
  method XkeenLines() returns (up: seq<Line>, down: seq<Line>)
    ensures up == UP_XKEEN && down == DOWN_XKEEN
  {
    up, down := [], [];
    var rules := [(Mangle("PREROUTING"), XkeenDscp), (Mangle("OUTPUT"), XkeenMark)];
    for i := 0 to |rules|
      invariant up == UP_XKEEN[..i] && down == DOWN_XKEEN[..i]
    {
      var add := if rules[i].0.name == "OUTPUT" then Append else InsertHead;
      up := up + [Guarded(add, rules[i].0, rules[i].1)];
      down := down + [Ipt(Delete, rules[i].0, rules[i].1, true)];
    }
  }

  /** Writes both lists, in the order the renderer prints them. */
  method RenderNodeScripts(pool: Prefix, reach: seq<Prefix>, lan: string) returns (up: seq<Line>, down: seq<Line>)
    ensures up == PostUp(pool, reach, lan) && down == PostDown(pool, reach, lan)
  {
    up := [Ip(ForwardSysctl, false)];
    up := up + [Ipt(Append, Nat("POSTROUTING"), PoolMasquerade(pool), false)];
    var reachUp, reachDown := ReachLines(reach, lan);
    up := up + reachUp;
    up := up + UP_FORWARD + UP_INPUT;
    down := DOWN_INPUT;
    up := up + UP_CLAMP;
    down := down + DOWN_CLAMP;
    down := down + DownPool(pool);
    down := down + reachDown;
    down := down + DOWN_FORWARD;
    assert up == UP_SYSCTL + UpLan(pool, reach, lan) && down == DownLan(pool, reach, lan);
    up := up + UP_TUNNEL + UpExit() + UP_POLICY;
    down := down + DOWN_POLICY + DownExit() + DOWN_TUNNEL;
    var xkeenUp, xkeenDown := XkeenLines();
    up := up + xkeenUp;
    down := down + xkeenDown;
  }
}

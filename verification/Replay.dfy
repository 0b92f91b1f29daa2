/** The netfilter replay hook (scripts/install.sh): after the firmware rebuilds its tables the
    hook re-runs the PostUp lines, first asking iptables whether each rule is still there. It
    restores every rule the host supports, never duplicates one, and is idempotent. */
module Replay {
  import opened Net
  import opened NodeScripts
  import opened ScriptUndo

  // ---------------------------------------------------------------- one line, one run

  /** The line's own verb rewritten to -C: does the probe report the rule as present? Lines
      that do not start with iptables, or carry neither -A nor -I, are not probed. */
  predicate ProbeFinds(s: HostState, l: Line) {
    l.Ipt? && !l.verb.Delete? && l.spec in At(s, l.chain)
  }

  /** A probed rule that is present is skipped; otherwise the line runs and its exit status is
      ignored. */
  function AfterLine(h: Caps, s: HostState, l: Line): HostState {
    if ProbeFinds(s, l) then s
    else
      var r := Exec(h, s, l);
      if r.Some? then r.value else s
  }

  function AfterHook(h: Caps, s: HostState, ls: seq<Line>): HostState {
    if ls == [] then s else AfterLine(h, AfterHook(h, s, ls[..|ls| - 1]), ls[|ls| - 1])
  }

  /** The hook's read loop. */
  method RunHook(h: Caps, s: HostState, ls: seq<Line>) returns (t: HostState)
    ensures t == AfterHook(h, s, ls)
  {
    t := s;
    for i := 0 to |ls|
      invariant t == AfterHook(h, s, ls[..i])
    {
      assert ls[..i + 1][..i] == ls[..i];
      if ProbeFinds(t, ls[i]) {
        continue;
      }
      var r := Exec(h, t, ls[i]);
      if r.Some? {
        t := r.value;
      }
    }
    assert ls[..|ls|] == ls;
  }

  lemma {:induction false} HookConcat(h: Caps, s: HostState, a: seq<Line>, b: seq<Line>)
    ensures AfterHook(h, s, a + b) == AfterHook(h, AfterHook(h, s, a), b)
  {
    if b == [] {
      assert a + b == a;
    } else {
      assert (a + b)[..|a + b| - 1] == a + b[..|b| - 1];
      HookConcat(h, s, a, b[..|b| - 1]);
    }
  }

  // ---------------------------------------------------------------- rules: restored, never duplicated

  predicate AddsRule(l: Line) {
    l.Ip? || Adds(l)
  }

  /** Whether a line that found no copy of its rule adds one on this host. */
  predicate Supported(h: Caps, l: Line) {
    !l.Ip? && l.spec !in h.lacks && (l.Guarded? ==> h.xkeen)
  }

  predicate StandsAt(q: seq<Spec>, q': seq<Spec>, i: int) {
    0 <= i <= |q'| - |q| && forall k :: 0 <= k < |q| ==> q[k] == q'[i + k]
  }

  /** Nothing of a chain is lost or reordered: the old rules stand together, in order, with at
      most some new ones before and after them. */
  ghost predicate Surrounds(q: seq<Spec>, q': seq<Spec>) {
    exists i :: StandsAt(q, q', i)
  }

  lemma SurroundsTrans(a: seq<Spec>, b: seq<Spec>, c: seq<Spec>)
    requires Surrounds(a, b) && Surrounds(b, c)
    ensures Surrounds(a, c)
  {
    var i :| StandsAt(a, b, i);
    var j :| StandsAt(b, c, j);
    forall k | 0 <= k < |a| ensures a[k] == c[j + i + k] {
      assert a[k] == b[i + k] && b[i + k] == c[j + (i + k)];
    }
    assert StandsAt(a, c, j + i);
  }

  lemma LineRestores(h: Caps, s: HostState, l: Line, c: Chain)
    requires AddsRule(l)
    ensures var q := At(s, c); var q' := At(AfterLine(h, s, l), c);
            q' == if !l.Ip? && l.chain == c && Supported(h, l) && l.spec !in q
                  then (if l.verb.Append? then q + [l.spec] else [l.spec] + q)
                  else q
  {
    if !ProbeFinds(s, l) && Exec(h, s, l).Some? {
      ChainAfter(h, s, l, c);
    }
  }

  lemma LineCountAfter(h: Caps, s: HostState, l: Line, c: Chain, x: Spec)
    requires AddsRule(l)
    ensures var n := Count(s, c, x); var m := Count(AfterLine(h, s, l), c, x);
            m == if n == 0 && Hits(l, c, x) && Supported(h, l) then 1 else n
  {
    LineRestores(h, s, l, c);
    AddedCount(At(s, c), x, x);
    if !l.Ip? {
      AddedCount(At(s, c), l.spec, x);
    }
  }

  lemma LineSurrounds(h: Caps, s: HostState, l: Line, c: Chain)
    requires AddsRule(l)
    ensures Surrounds(At(s, c), At(AfterLine(h, s, l), c))
  {
    LineRestores(h, s, l, c);
    var q, q' := At(s, c), At(AfterLine(h, s, l), c);
    if q' == q {
      assert StandsAt(q, q', 0);
    } else if l.verb.Append? {
      assert StandsAt(q, q', 0);
    } else {
      assert StandsAt(q, q', 1);
    }
  }

  lemma {:induction false} HookSurrounds(h: Caps, s: HostState, ls: seq<Line>, c: Chain)
    requires forall l :: l in ls ==> AddsRule(l)
    ensures Surrounds(At(s, c), At(AfterHook(h, s, ls), c))
  {
    if ls == [] {
      assert StandsAt(At(s, c), At(s, c), 0);
    } else {
      var p, l := ls[..|ls| - 1], ls[|ls| - 1];
      HookSurrounds(h, s, p, c);
      LineSurrounds(h, AfterHook(h, s, p), l, c);
      SurroundsTrans(At(s, c), At(AfterHook(h, s, p), c), At(AfterHook(h, s, ls), c));
    }
  }

  ghost predicate Wanted(h: Caps, ls: seq<Line>, c: Chain, x: Spec) {
    exists l :: l in ls && Hits(l, c, x) && Supported(h, l)
  }

  /** The number of copies after a run: a rule that was there keeps its copies, a missing one
      gets exactly one if some supported line asks for it, however many lines do. */
  lemma {:induction false} HookCounts(h: Caps, s: HostState, ls: seq<Line>, c: Chain, x: Spec)
    requires forall l :: l in ls ==> AddsRule(l)
    ensures var n := Count(s, c, x);
            Count(AfterHook(h, s, ls), c, x) == if n == 0 && Wanted(h, ls, c, x) then 1 else n
  {
    if ls != [] {
      var p, l := ls[..|ls| - 1], ls[|ls| - 1];
      assert ls == p + [l];
      HookCounts(h, s, p, c, x);
      LineCountAfter(h, AfterHook(h, s, p), l, c, x);
      if Hits(l, c, x) && Supported(h, l) {
        assert l in ls && Wanted(h, ls, c, x);
      }
      if Wanted(h, p, c, x) {
        var k :| k in p && Hits(k, c, x) && Supported(h, k);
        assert k in ls;
      }
      if Wanted(h, ls, c, x) && !(Hits(l, c, x) && Supported(h, l)) {
        var k :| k in ls && Hits(k, c, x) && Supported(h, k);
        assert k in p;
      }
    }
  }

  /** After one run over the rendered PostUp list every rule the host supports is present, no
      rule that was present has gained or lost a copy, and every chain keeps its old rules in
      their order. */
  lemma HookRestores(h: Caps, s: HostState, pool: Prefix, reach: seq<Prefix>, lan: string)
    ensures var ls := PostUp(pool, reach, lan); var t := AfterHook(h, s, ls);
            && (forall l :: l in ls && Supported(h, l) ==> l.spec in At(t, l.chain))
            && (forall c, x :: x in At(s, c) ==> Count(t, c, x) == Count(s, c, x))
            && (forall c, x :: x !in At(s, c) ==> Count(t, c, x) <= 1)
            && (forall c, x :: x !in At(s, c) && x in At(t, c) ==> Wanted(h, ls, c, x))
            && (forall c :: Surrounds(At(s, c), At(t, c)))
  {
    var ls := PostUp(pool, reach, lan);
    var t := AfterHook(h, s, ls);
    UpIsShaped(pool, reach, lan);
    forall l | l in ls && Supported(h, l) ensures l.spec in At(t, l.chain) {
      HookCounts(h, s, ls, l.chain, l.spec);
      assert Hits(l, l.chain, l.spec);
      assert Count(t, l.chain, l.spec) > 0;
    }
    forall c, x
      ensures x in At(s, c) ==> Count(t, c, x) == Count(s, c, x)
      ensures x !in At(s, c) ==> Count(t, c, x) <= 1
      ensures x !in At(s, c) && x in At(t, c) ==> Wanted(h, ls, c, x)
    {
      HookCounts(h, s, ls, c, x);
    }
    forall c ensures Surrounds(At(s, c), At(t, c)) {
      HookSurrounds(h, s, ls, c);
    }
  }

  // ---------------------------------------------------------------- a second run changes nothing

  /** The line would leave this state alone. */
  predicate Settled(h: Caps, s: HostState, l: Line) {
    AfterLine(h, s, l) == s
  }

  predicate RuleSettled(h: Caps, s: HostState, l: Line) {
    l.Ip? || l.spec in At(s, l.chain) || !Supported(h, l)
  }

  lemma RuleSettledSuffices(h: Caps, s: HostState, l: Line)
    requires Adds(l) && RuleSettled(h, s, l)
    ensures Settled(h, s, l)
  {
  }

  /** The tunnel device exists as far as the host allows, and is fully set up. */
  predicate TunnelSettled(h: Caps, s: HostState) {
    match s.tunnel
    case None => !h.tunnels
    case Some(d) => d.addressed && d.up && (h.rpFilter ==> d.looseRp)
  }

  predicate PolicySettled(h: Caps, s: HostState) {
    && (h.policyRules ==> MARK_RULE in s.ipRules)
    && (h.routes && s.tunnel.Some? && s.tunnel.value.up ==> s.exitRoute)
  }

  predicate RoutingSettled(h: Caps, s: HostState) {
    (h.sysctl ==> s.forwarding) && TunnelSettled(h, s) && PolicySettled(h, s)
  }

  lemma RoutingSettledSuffices(h: Caps, s: HostState, cmd: IpCmd, tolerated: bool)
    requires RoutingSettled(h, s) && UpCmd(cmd)
    ensures Settled(h, s, Ip(cmd, tolerated))
  {
  }

  lemma FilterLineKeeps(h: Caps, s: HostState, l: Line)
    requires !l.Ip?
    ensures SameRouting(s, AfterLine(h, s, l))
  {
  }

  lemma {:induction false} FilterLinesKeep(h: Caps, s: HostState, ls: seq<Line>)
    requires forall l :: l in ls ==> !l.Ip?
    ensures SameRouting(s, AfterHook(h, s, ls))
  {
    if ls != [] {
      FilterLinesKeep(h, s, ls[..|ls| - 1]);
      FilterLineKeeps(h, AfterHook(h, s, ls[..|ls| - 1]), ls[|ls| - 1]);
    }
  }

  lemma SysctlSettles(h: Caps, s: HostState)
    ensures h.sysctl ==> AfterHook(h, s, UP_SYSCTL).forwarding
  {
  }

  lemma TunnelLinesSettle(h: Caps, s: HostState)
    ensures var t := AfterHook(h, s, UP_TUNNEL); TunnelSettled(h, t) && t.forwarding == s.forwarding
  {
    var u := UP_TUNNEL;
    assert u[..3][..2] == u[..2] && u[..2][..1] == u[..1] && u[..1][..0] == [];
    var s1 := AfterLine(h, s, u[0]);
    var s2 := AfterLine(h, s1, u[1]);
    var s3 := AfterLine(h, s2, u[2]);
    assert AfterHook(h, s, u[..1]) == s1;
    assert AfterHook(h, s, u[..2]) == s2;
    assert AfterHook(h, s, u[..3]) == s3;
    assert AfterHook(h, s, u) == AfterLine(h, s3, u[3]);
  }

  lemma PolicyLinesSettle(h: Caps, s: HostState)
    ensures var t := AfterHook(h, s, UP_POLICY);
            PolicySettled(h, t) && t.forwarding == s.forwarding && t.tunnel == s.tunnel
  {
    assert UP_POLICY[..1] == [UP_POLICY[0]] && UP_POLICY[..1][..0] == [];
    assert AfterHook(h, s, UP_POLICY[..1]) == AfterLine(h, s, UP_POLICY[0]);
  }

  lemma HookInParts(h: Caps, s: HostState, pool: Prefix, reach: seq<Prefix>, lan: string)
    ensures var s2 := AfterHook(h, AfterHook(h, s, UP_SYSCTL), UpLan(pool, reach, lan));
            var s4 := AfterHook(h, AfterHook(h, s2, UP_TUNNEL), UpExit());
            AfterHook(h, s, PostUp(pool, reach, lan)) == AfterHook(h, AfterHook(h, s4, UP_POLICY), UP_XKEEN)
  {
    var a := UpLan(pool, reach, lan);
    HookConcat(h, s, UP_SYSCTL + a + UP_TUNNEL + UpExit() + UP_POLICY, UP_XKEEN);
    HookConcat(h, s, UP_SYSCTL + a + UP_TUNNEL + UpExit(), UP_POLICY);
    HookConcat(h, s, UP_SYSCTL + a + UP_TUNNEL, UpExit());
    HookConcat(h, s, UP_SYSCTL + a, UP_TUNNEL);
    HookConcat(h, s, UP_SYSCTL, a);
  }

  lemma PartsAreFilterLines(pool: Prefix, reach: seq<Prefix>, lan: string)
    ensures forall l :: l in UpLan(pool, reach, lan) || l in UpExit() || l in UP_XKEEN ==> !l.Ip?
  {
  }

  lemma HookSettlesRouting(h: Caps, s: HostState, pool: Prefix, reach: seq<Prefix>, lan: string)
    ensures RoutingSettled(h, AfterHook(h, s, PostUp(pool, reach, lan)))
  {
    HookInParts(h, s, pool, reach, lan);
    PartsAreFilterLines(pool, reach, lan);
    var s1 := AfterHook(h, s, UP_SYSCTL);
    var s2 := AfterHook(h, s1, UpLan(pool, reach, lan));
    var s3 := AfterHook(h, s2, UP_TUNNEL);
    var s4 := AfterHook(h, s3, UpExit());
    var s5 := AfterHook(h, s4, UP_POLICY);
    SysctlSettles(h, s);
    FilterLinesKeep(h, s1, UpLan(pool, reach, lan));
    TunnelLinesSettle(h, s2);
    FilterLinesKeep(h, s3, UpExit());
    PolicyLinesSettle(h, s4);
    FilterLinesKeep(h, s5, UP_XKEEN);
  }

  lemma {:induction false} SettledRunIsIdle(h: Caps, s: HostState, ls: seq<Line>)
    requires forall l :: l in ls ==> Settled(h, s, l)
    ensures AfterHook(h, s, ls) == s
  {
    if ls != [] {
      SettledRunIsIdle(h, s, ls[..|ls| - 1]);
      assert Settled(h, s, ls[|ls| - 1]);
    }
  }

  /** Running the hook again changes nothing, from any state the firmware may leave. */
  lemma SecondRunIsIdle(h: Caps, s: HostState, pool: Prefix, reach: seq<Prefix>, lan: string)
    ensures var ls := PostUp(pool, reach, lan);
            AfterHook(h, AfterHook(h, s, ls), ls) == AfterHook(h, s, ls)
  {
    var ls := PostUp(pool, reach, lan);
    var t := AfterHook(h, s, ls);
    HookRestores(h, s, pool, reach, lan);
    HookSettlesRouting(h, s, pool, reach, lan);
    UpIsShaped(pool, reach, lan);
    UpLinesAreUp(pool, reach, lan);
    forall l | l in ls ensures Settled(h, t, l) {
      if l.Ip? {
        RoutingSettledSuffices(h, t, l.cmd, l.tolerated);
      } else {
        RuleSettledSuffices(h, t, l);
      }
    }
    SettledRunIsIdle(h, t, ls);
  }
}

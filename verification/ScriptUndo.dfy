/** PostDown undoes PostUp (internal/awg/render.go): from a host that holds none of the
    config's rules, bringing the tunnel up and down again restores every chain as a sequence
    and the routing state, whatever subset of the tolerated commands the host cannot run. */
module ScriptUndo {
  import opened Net
  import opened NodeScripts

  // ---------------------------------------------------------------- what a list adds and deletes

  predicate Adds(l: Line) {
    (l.Ipt? || l.Guarded?) && !l.verb.Delete?
  }

  predicate Deletes(l: Line) {
    l.Ipt? && l.verb.Delete?
  }

  /** Lines that touch only the node's own rules. */
  predicate OwnLine(l: Line) {
    l.Ip? || (!l.spec.Foreign? && (Adds(l) || Deletes(l)))
  }

  ghost predicate OwnLines(ls: seq<Line>) {
    forall l :: l in ls ==> OwnLine(l)
  }

  predicate Hits(l: Line, c: Chain, x: Spec) {
    !l.Ip? && l.chain == c && l.spec == x
  }

  /** How many lines of a list add, or delete, a given rule of a given chain. */
  function Added(ls: seq<Line>, c: Chain, x: Spec): nat {
    if ls == [] then 0
    else
      var l := ls[|ls| - 1];
      Added(ls[..|ls| - 1], c, x) + (if Adds(l) && Hits(l, c, x) then 1 else 0)
  }

  function Deleted(ls: seq<Line>, c: Chain, x: Spec): nat {
    if ls == [] then 0
    else
      var l := ls[|ls| - 1];
      Deleted(ls[..|ls| - 1], c, x) + (if Deletes(l) && Hits(l, c, x) then 1 else 0)
  }

  lemma {:induction false} AddedConcat(a: seq<Line>, b: seq<Line>, c: Chain, x: Spec)
    ensures Added(a + b, c, x) == Added(a, c, x) + Added(b, c, x)
  {
    if b == [] {
      assert a + b == a;
    } else {
      assert (a + b)[..|a + b| - 1] == a + b[..|b| - 1];
      AddedConcat(a, b[..|b| - 1], c, x);
    }
  }

  lemma {:induction false} DeletedConcat(a: seq<Line>, b: seq<Line>, c: Chain, x: Spec)
    ensures Deleted(a + b, c, x) == Deleted(a, c, x) + Deleted(b, c, x)
  {
    if b == [] {
      assert a + b == a;
    } else {
      assert (a + b)[..|a + b| - 1] == a + b[..|b| - 1];
      DeletedConcat(a, b[..|b| - 1], c, x);
    }
  }

  lemma {:induction false} RunConcat(h: Caps, s: HostState, a: seq<Line>, b: seq<Line>)
    ensures RunAll(h, s, a + b) ==
            (if RunAll(h, s, a).ok then RunAll(h, RunAll(h, s, a).state, b) else RunAll(h, s, a))
  {
    if b == [] {
      assert a + b == a;
    } else {
      assert (a + b)[..|a + b| - 1] == a + b[..|b| - 1];
      RunConcat(h, s, a, b[..|b| - 1]);
    }
  }

  // ---------------------------------------------------------------- one line's effect on a chain

  function Count(s: HostState, c: Chain, x: Spec): nat {
    multiset(At(s, c))[x]
  }

  /** The rules of a chain that are not the node's, in their order. */
  function Others(q: seq<Spec>): seq<Spec> {
    if q == [] then [] else (if q[0].Foreign? then [q[0]] else []) + Others(q[1..])
  }

  lemma {:induction false} OthersConcat(a: seq<Spec>, b: seq<Spec>)
    ensures Others(a + b) == Others(a) + Others(b)
  {
    if a == [] {
      assert a + b == b;
    } else {
      var q, kept := a + b, if a[0].Foreign? then [a[0]] else [];
      assert q[0] == a[0] && q[1..] == a[1..] + b;
      OthersConcat(a[1..], b);
      assert kept + (Others(a[1..]) + Others(b)) == (kept + Others(a[1..])) + Others(b);
    }
  }

  lemma {:induction false} OthersIsAll(q: seq<Spec>)
    requires forall x :: x in q ==> x.Foreign?
    ensures Others(q) == q
  {
    if q != [] {
      assert q == [q[0]] + q[1..];
      OthersIsAll(q[1..]);
    }
  }

  lemma {:induction false} RemovedCount(q: seq<Spec>, y: Spec, x: Spec)
    requires y in q
    ensures multiset(RemoveFirst(q, y))[x] == multiset(q)[x] - (if x == y then 1 else 0)
  {
    assert q == [q[0]] + q[1..];
    if q[0] != y {
      RemovedCount(q[1..], y, x);
    }
  }

  lemma {:induction false} RemovedOthers(q: seq<Spec>, y: Spec)
    requires y in q && !y.Foreign?
    ensures Others(RemoveFirst(q, y)) == Others(q)
  {
    if q[0] != y {
      RemovedOthers(q[1..], y);
      OthersConcat([q[0]], RemoveFirst(q[1..], y));
    }
  }

  /** An added rule goes to one end, so a foreign rule never moves. */
  lemma AddedOthers(q: seq<Spec>, x: Spec)
    requires !x.Foreign?
    ensures Others(q + [x]) == Others(q) == Others([x] + q)
  {
    OthersConcat(q, [x]);
    OthersConcat([x], q);
    assert Others([x]) == [];
  }

  lemma AddedCount(q: seq<Spec>, y: Spec, x: Spec)
    ensures multiset(q + [y])[x] == multiset([y] + q)[x] == multiset(q)[x] + (if x == y then 1 else 0)
  {
  }

  /** What a successful iptables line makes of the rules of its chain. */
  function Edited(q: seq<Spec>, l: Line): seq<Spec>
    requires !l.Ip?
  {
    if l.verb.Delete? && l.Ipt? then RemoveFirst(q, l.spec)
    else if l.Guarded? && l.spec in q then q
    else if l.verb.Append? then q + [l.spec]
    else [l.spec] + q
  }

  lemma ChainAfter(h: Caps, s: HostState, l: Line, c: Chain)
    requires (l.Ip? || Adds(l) || Deletes(l)) && Exec(h, s, l).Some?
    ensures At(Exec(h, s, l).value, c) == if l.Ip? || l.chain != c then At(s, c) else Edited(At(s, c), l)
    ensures !l.Ip? && Deletes(l) ==> l.spec in At(s, l.chain)
  {
  }

  lemma EditedCount(q: seq<Spec>, l: Line, x: Spec)
    requires !l.Ip? && OwnLine(l) && (Deletes(l) ==> l.spec in q)
    ensures var n := multiset(q)[x]; var m := multiset(Edited(q, l))[x];
            && (x != l.spec ==> m == n)
            && (x == l.spec && Deletes(l) ==> m == n - 1)
            && (x == l.spec && Adds(l) ==> m == n + 1 || (l.Guarded? && m == n > 0))
  {
    if Deletes(l) {
      RemovedCount(q, l.spec, x);
    } else {
      AddedCount(q, l.spec, x);
    }
  }

  lemma EditedOthers(q: seq<Spec>, l: Line)
    requires !l.Ip? && OwnLine(l) && (Deletes(l) ==> l.spec in q)
    ensures Others(Edited(q, l)) == Others(q)
  {
    if Deletes(l) {
      RemovedOthers(q, l.spec);
    } else {
      AddedOthers(q, l.spec);
    }
  }

  /** The count of one own rule in one chain, across one line that succeeds. */
  lemma LineCount(h: Caps, s: HostState, l: Line, c: Chain, x: Spec)
    requires OwnLine(l) && Exec(h, s, l).Some?
    ensures var n := Count(s, c, x); var m := Count(Exec(h, s, l).value, c, x);
            && (!Hits(l, c, x) ==> m == n)
            && (Hits(l, c, x) && Deletes(l) ==> m == n - 1)
            && (Hits(l, c, x) && Adds(l) ==> m == n + 1 || (l.Guarded? && m == n > 0))
  {
    ChainAfter(h, s, l, c);
    if !l.Ip? && l.chain == c {
      EditedCount(At(s, c), l, x);
    }
  }

  lemma LineKeepsOthers(h: Caps, s: HostState, l: Line, c: Chain)
    requires OwnLine(l) && Exec(h, s, l).Some?
    ensures Others(At(Exec(h, s, l).value, c)) == Others(At(s, c))
  {
    ChainAfter(h, s, l, c);
    if !l.Ip? && l.chain == c {
      EditedOthers(At(s, c), l);
    }
  }

  // ---------------------------------------------------------------- a whole list's effect

  /** Lists of the node's own lines never touch, drop or reorder a foreign rule. */
  lemma {:induction false} RunKeepsOthers(h: Caps, s: HostState, ls: seq<Line>, c: Chain)
    requires OwnLines(ls)
    ensures Others(At(RunAll(h, s, ls).state, c)) == Others(At(s, c))
  {
    if ls != [] {
      var p, l := ls[..|ls| - 1], ls[|ls| - 1];
      RunKeepsOthers(h, s, p, c);
      var o := RunAll(h, s, p);
      if o.ok && Exec(h, o.state, l).Some? {
        LineKeepsOthers(h, o.state, l, c);
      }
    }
  }

  /** Bring-up adds at most one copy per line, and exactly one for a line that may not fail. */
  lemma {:induction false} UpCounts(h: Caps, s: HostState, ls: seq<Line>, c: Chain, x: Spec)
    requires OwnLines(ls) && RunAll(h, s, ls).ok
    requires forall l :: l in ls ==> !Deletes(l)
    ensures Count(RunAll(h, s, ls).state, c, x) <= Count(s, c, x) + Added(ls, c, x)
    ensures (forall l :: l in ls && Hits(l, c, x) ==> !Tolerated(l)) ==>
              (Count(RunAll(h, s, ls).state, c, x) == Count(s, c, x) + Added(ls, c, x))
  {
    if ls != [] {
      var p, l := ls[..|ls| - 1], ls[|ls| - 1];
      UpCounts(h, s, p, c, x);
      var o := RunAll(h, s, p);
      if Exec(h, o.state, l).Some? {
        LineCount(h, o.state, l, c, x);
      }
    }
  }

  /** Tear-down removes one copy per line while there are any. */
  lemma {:induction false} DownCounts(h: Caps, s: HostState, ls: seq<Line>, c: Chain, x: Spec)
    requires OwnLines(ls) && RunAll(h, s, ls).ok
    requires forall l :: l in ls ==> !Adds(l)
    ensures var left := Count(s, c, x) - Deleted(ls, c, x);
            Count(RunAll(h, s, ls).state, c, x) == if left > 0 then left else 0
  {
    if ls != [] {
      var p, l := ls[..|ls| - 1], ls[|ls| - 1];
      DownCounts(h, s, p, c, x);
      var o := RunAll(h, s, p);
      if Exec(h, o.state, l).Some? {
        LineCount(h, o.state, l, c, x);
      }
    }
  }

  /** No line of a tear-down aborts it while each rule it must delete has enough copies. */
  lemma {:induction false} DownNeverAborts(h: Caps, s: HostState, ls: seq<Line>)
    requires OwnLines(ls) && forall l :: l in ls ==> !Adds(l)
    requires forall l :: l in ls && l.Ip? ==> l.tolerated
    requires forall l :: l in ls && !l.Ip? && !Tolerated(l) ==>
               Deleted(ls, l.chain, l.spec) <= Count(s, l.chain, l.spec)
    ensures RunAll(h, s, ls).ok
  {
    if ls != [] {
      var p, l := ls[..|ls| - 1], ls[|ls| - 1];
      assert ls == p + [l];
      assert forall c, x :: Deleted(p, c, x) <= Deleted(ls, c, x);
      DownNeverAborts(h, s, p);
      if !l.Ip? && !Tolerated(l) {
        assert l in ls;
        DownCounts(h, s, p, l.chain, l.spec);
      }
    }
  }

  /** What an untolerated bring-up line needs from the host, whatever ran before it. */
  predicate Possible(h: Caps, l: Line) {
    match l
    case Ipt(_, _, x, _) => x !in h.lacks
    case Ip(cmd, _) => cmd.ForwardSysctl? && h.sysctl
    case Guarded(_, _, _) => true
  }

  lemma {:induction false} UpSucceedsIff(h: Caps, s: HostState, ls: seq<Line>)
    requires forall l :: l in ls ==> !Deletes(l)
    requires forall l :: l in ls && l.Ip? && !l.tolerated ==> l.cmd.ForwardSysctl?
    ensures RunAll(h, s, ls).ok <==> forall l :: l in ls && !Tolerated(l) ==> Possible(h, l)
  {
    if ls != [] {
      var p, l := ls[..|ls| - 1], ls[|ls| - 1];
      assert ls == p + [l] && l in ls;
      UpSucceedsIff(h, s, p);
    }
  }

  // ---------------------------------------------------------------- the two lists against each other

  lemma {:induction false} ReachMatch(reach: seq<Prefix>, lan: string, c: Chain, x: Spec)
    ensures Added(ReachUp(reach, lan), c, x) == Deleted(ReachDown(reach, lan), c, x)
  {
    if reach != [] {
      var n := |reach| - 1;
      assert ReachUp(reach, lan)[..n] == ReachUp(reach[..n], lan);
      assert ReachDown(reach, lan)[..n] == ReachDown(reach[..n], lan);
      ReachMatch(reach[..n], lan, c, x);
    }
  }

  lemma OneMatches(k: Line, l: Line, c: Chain, x: Spec)
    requires Adds(k) && Deletes(l) && k.chain == l.chain && k.spec == l.spec
    ensures Added([k], c, x) == Deleted([l], c, x)
  {
  }

  /** Two rules deleted in the order they were added, or in the opposite one. */
  lemma TwoMatch(k0: Line, k1: Line, l0: Line, l1: Line, c: Chain, x: Spec)
    requires Adds(k0) && Deletes(l0) && k0.chain == l0.chain && k0.spec == l0.spec
    requires Adds(k1) && Deletes(l1) && k1.chain == l1.chain && k1.spec == l1.spec
    ensures Added([k0, k1], c, x) == Deleted([l0, l1], c, x)
    ensures Added([k0, k1], c, x) == Deleted([l1, l0], c, x)
  {
    assert [k0, k1] == [k0] + [k1] && [l0, l1] == [l0] + [l1] && [l1, l0] == [l1] + [l0];
    AddedConcat([k0], [k1], c, x);
    DeletedConcat([l0], [l1], c, x);
    DeletedConcat([l1], [l0], c, x);
    OneMatches(k0, l0, c, x);
    OneMatches(k1, l1, c, x);
  }

  lemma ManglePartsMatch(c: Chain, x: Spec)
    ensures Added(UP_EXIT_MANGLE, c, x) == Deleted(DOWN_EXIT_MANGLE, c, x)
  {
    var u, d := UP_EXIT_MANGLE, DOWN_EXIT_MANGLE;
    assert u == [u[0], u[1]] + [u[2]] && d == [d[0]] + [d[1], d[2]];
    AddedConcat([u[0], u[1]], [u[2]], c, x);
    DeletedConcat([d[0]], [d[1], d[2]], c, x);
    TwoMatch(u[0], u[1], d[2], d[1], c, x);
    OneMatches(u[2], d[0], c, x);
  }

  lemma LanPartsMatch(pool: Prefix, reach: seq<Prefix>, lan: string, c: Chain, x: Spec)
    ensures Added(UpLan(pool, reach, lan), c, x) == Deleted(DownLan(pool, reach, lan), c, x)
  {
    AddedConcat(UpPool(pool) + ReachUp(reach, lan) + UP_FORWARD + UP_INPUT, UP_CLAMP, c, x);
    AddedConcat(UpPool(pool) + ReachUp(reach, lan) + UP_FORWARD, UP_INPUT, c, x);
    AddedConcat(UpPool(pool) + ReachUp(reach, lan), UP_FORWARD, c, x);
    AddedConcat(UpPool(pool), ReachUp(reach, lan), c, x);
    DeletedConcat(DOWN_INPUT + DOWN_CLAMP + DownPool(pool) + ReachDown(reach, lan), DOWN_FORWARD, c, x);
    DeletedConcat(DOWN_INPUT + DOWN_CLAMP + DownPool(pool), ReachDown(reach, lan), c, x);
    DeletedConcat(DOWN_INPUT + DOWN_CLAMP, DownPool(pool), c, x);
    DeletedConcat(DOWN_INPUT, DOWN_CLAMP, c, x);
    OneMatches(UpPool(pool)[0], DownPool(pool)[0], c, x);
    ReachMatch(reach, lan, c, x);
    TwoMatch(UP_FORWARD[0], UP_FORWARD[1], DOWN_FORWARD[0], DOWN_FORWARD[1], c, x);
    OneMatches(UP_INPUT[0], DOWN_INPUT[0], c, x);
    TwoMatch(UP_CLAMP[0], UP_CLAMP[1], DOWN_CLAMP[0], DOWN_CLAMP[1], c, x);
  }

  lemma ExitPartsMatch(c: Chain, x: Spec)
    ensures Added(UpExit(), c, x) == Deleted(DownExit(), c, x)
  {
    AddedConcat(UP_EXIT_FORWARD, UP_EXIT_MANGLE, c, x);
    DeletedConcat(DOWN_EXIT_MANGLE, DOWN_EXIT_FORWARD, c, x);
    TwoMatch(UP_EXIT_FORWARD[0], UP_EXIT_FORWARD[1], DOWN_EXIT_FORWARD[0], DOWN_EXIT_FORWARD[1], c, x);
    ManglePartsMatch(c, x);
  }

  lemma {:induction false} IpLinesPlaceNothing(ls: seq<Line>, c: Chain, x: Spec)
    requires forall l :: l in ls ==> l.Ip?
    ensures Added(ls, c, x) == 0 == Deleted(ls, c, x)
  {
    if ls != [] {
      IpLinesPlaceNothing(ls[..|ls| - 1], c, x);
    }
  }

  lemma AddedByUp(pool: Prefix, reach: seq<Prefix>, lan: string, c: Chain, x: Spec)
    ensures Added(PostUp(pool, reach, lan), c, x) ==
            Added(UpLan(pool, reach, lan), c, x) + Added(UpExit(), c, x) + Added(UP_XKEEN, c, x)
  {
    var a := UpLan(pool, reach, lan);
    AddedConcat(UP_SYSCTL + a + UP_TUNNEL + UpExit() + UP_POLICY, UP_XKEEN, c, x);
    AddedConcat(UP_SYSCTL + a + UP_TUNNEL + UpExit(), UP_POLICY, c, x);
    AddedConcat(UP_SYSCTL + a + UP_TUNNEL, UpExit(), c, x);
    AddedConcat(UP_SYSCTL + a, UP_TUNNEL, c, x);
    AddedConcat(UP_SYSCTL, a, c, x);
    IpLinesPlaceNothing(UP_SYSCTL, c, x);
    IpLinesPlaceNothing(UP_TUNNEL, c, x);
    IpLinesPlaceNothing(UP_POLICY, c, x);
  }

  lemma DeletedByDown(pool: Prefix, reach: seq<Prefix>, lan: string, c: Chain, x: Spec)
    ensures Deleted(PostDown(pool, reach, lan), c, x) ==
            Deleted(DownLan(pool, reach, lan), c, x) + Deleted(DownExit(), c, x) + Deleted(DOWN_XKEEN, c, x)
  {
    var d := DownLan(pool, reach, lan);
    DeletedConcat(d + DOWN_POLICY + DownExit() + DOWN_TUNNEL, DOWN_XKEEN, c, x);
    DeletedConcat(d + DOWN_POLICY + DownExit(), DOWN_TUNNEL, c, x);
    DeletedConcat(d + DOWN_POLICY, DownExit(), c, x);
    DeletedConcat(d, DOWN_POLICY, c, x);
    IpLinesPlaceNothing(DOWN_POLICY, c, x);
    IpLinesPlaceNothing(DOWN_TUNNEL, c, x);
  }

  /** PostDown deletes exactly what PostUp adds, rule by rule and copy by copy. */
  lemma ListsMatch(pool: Prefix, reach: seq<Prefix>, lan: string, c: Chain, x: Spec)
    ensures Added(PostUp(pool, reach, lan), c, x) == Deleted(PostDown(pool, reach, lan), c, x)
  {
    AddedByUp(pool, reach, lan, c, x);
    DeletedByDown(pool, reach, lan, c, x);
    LanPartsMatch(pool, reach, lan, c, x);
    ExitPartsMatch(c, x);
    TwoMatch(UP_XKEEN[0], UP_XKEEN[1], DOWN_XKEEN[0], DOWN_XKEEN[1], c, x);
  }

  // ---------------------------------------------------------------- which lines may fail

  /** The rules plain LAN access needs; every other rule is best-effort. */
  predicate Mandatory(x: Spec) {
    x.PoolMasquerade? || x.ReachMasquerade? || x.FromTunnelAccept? || x.ToTunnelAccept? || x.InputAccept?
  }

  predicate UpShaped(l: Line) {
    && OwnLine(l) && !Deletes(l)
    && (l.Ip? && !l.tolerated ==> l.cmd.ForwardSysctl?)
    && (!l.Ip? ==> (Tolerated(l) <==> !Mandatory(l.spec)))
  }

  predicate DownShaped(l: Line) {
    && OwnLine(l) && !Adds(l)
    && (l.Ip? ==> l.tolerated)
    && (!l.Ip? ==> (Tolerated(l) <==> !Mandatory(l.spec)))
  }

  lemma UpIsShaped(pool: Prefix, reach: seq<Prefix>, lan: string)
    ensures forall l :: l in PostUp(pool, reach, lan) ==> UpShaped(l)
  {
    forall l | l in PostUp(pool, reach, lan) ensures UpShaped(l) {
      if l in ReachUp(reach, lan) {
      } else if l in UpLan(pool, reach, lan) {
      } else if l in UpExit() {
      } else if l in UP_XKEEN {
      }
    }
  }

  lemma DownIsShaped(pool: Prefix, reach: seq<Prefix>, lan: string)
    ensures forall l :: l in PostDown(pool, reach, lan) ==> DownShaped(l)
  {
  }

  /** What a host must be able to do for the tunnel to come up: enable forwarding and add the
      LAN rules. Every exit, clamp and XKeen command may fail. */
  ghost predicate CanServeLan(h: Caps, pool: Prefix, reach: seq<Prefix>, lan: string) {
    && h.sysctl
    && PoolMasquerade(pool) !in h.lacks
    && (forall r :: r in reach ==> ReachMasquerade(r, lan) !in h.lacks)
    && FromTunnelAccept !in h.lacks && ToTunnelAccept !in h.lacks && InputAccept !in h.lacks
  }

  lemma MandatoryLinesOfUp(pool: Prefix, reach: seq<Prefix>, lan: string)
    ensures var ls := PostUp(pool, reach, lan);
            && Ip(ForwardSysctl, false) in ls
            && Ipt(Append, Nat("POSTROUTING"), PoolMasquerade(pool), false) in ls
            && (forall r :: r in reach ==> Ipt(Append, Nat("POSTROUTING"), ReachMasquerade(r, lan), false) in ls)
            && Ipt(InsertHead, Filter("FORWARD"), FromTunnelAccept, false) in ls
            && Ipt(InsertHead, Filter("FORWARD"), ToTunnelAccept, false) in ls
            && Ipt(InsertHead, Filter("INPUT"), InputAccept, false) in ls
  {
    var ls := PostUp(pool, reach, lan);
    var a := UpLan(pool, reach, lan);
    assert forall l :: l in a ==> l in ls;
    assert UP_SYSCTL[0] in ls;
    assert UpPool(pool)[0] in a;
    assert UP_FORWARD[0] in a && UP_FORWARD[1] in a && UP_INPUT[0] in a;
    forall r | r in reach ensures Ipt(Append, Nat("POSTROUTING"), ReachMasquerade(r, lan), false) in ls {
      var i :| 0 <= i < |reach| && reach[i] == r;
      assert ReachUp(reach, lan)[i] in a;
    }
  }

  lemma UntoleratedLinesOfUp(h: Caps, pool: Prefix, reach: seq<Prefix>, lan: string, l: Line)
    requires l in PostUp(pool, reach, lan) && !Tolerated(l) && CanServeLan(h, pool, reach, lan)
    ensures Possible(h, l)
  {
  }

  /** Bring-up succeeds exactly on the hosts that can serve the LAN, from any prior state: no
      tolerated failure and no leftover aborts it. */
  lemma BringUpSucceedsIff(h: Caps, s: HostState, pool: Prefix, reach: seq<Prefix>, lan: string)
    ensures RunAll(h, s, PostUp(pool, reach, lan)).ok <==> CanServeLan(h, pool, reach, lan)
  {
    var ls := PostUp(pool, reach, lan);
    UpIsShaped(pool, reach, lan);
    UpSucceedsIff(h, s, ls);
    if CanServeLan(h, pool, reach, lan) {
      forall l | l in ls && !Tolerated(l) ensures Possible(h, l) {
        UntoleratedLinesOfUp(h, pool, reach, lan, l);
      }
    }
    if forall l :: l in ls && !Tolerated(l) ==> Possible(h, l) {
      MandatoryLinesOfUp(pool, reach, lan);
      assert Possible(h, Ip(ForwardSysctl, false));
      assert Possible(h, Ipt(Append, Nat("POSTROUTING"), PoolMasquerade(pool), false));
      forall r | r in reach ensures ReachMasquerade(r, lan) !in h.lacks {
        assert Possible(h, Ipt(Append, Nat("POSTROUTING"), ReachMasquerade(r, lan), false));
      }
      assert Possible(h, Ipt(InsertHead, Filter("FORWARD"), FromTunnelAccept, false));
      assert Possible(h, Ipt(InsertHead, Filter("FORWARD"), ToTunnelAccept, false));
      assert Possible(h, Ipt(InsertHead, Filter("INPUT"), InputAccept, false));
    }
  }

  // ---------------------------------------------------------------- the routing state

  /** Where bring-up can leave the policy rules and table 133. */
  ghost predicate Routed(h: Caps, s0: HostState, s: HostState) {
    && (s.ipRules == s0.ipRules || s.ipRules == s0.ipRules + [MARK_RULE])
    && (s.exitRoute ==> h.routes && s.tunnel.Some?)
  }

  ghost predicate UpIp(l: Line) {
    l.Ip? ==> UpCmd(l.cmd)
  }

  lemma UpRouteStep(h: Caps, s0: HostState, s: HostState, l: Line)
    requires MARK_RULE !in s0.ipRules && Routed(h, s0, s) && UpIp(l) && Exec(h, s, l).Some?
    ensures Routed(h, s0, Exec(h, s, l).value)
    ensures s.forwarding || l == Ip(ForwardSysctl, false) ==> Exec(h, s, l).value.forwarding
  {
  }

  lemma {:induction false} UpRoutes(h: Caps, s: HostState, ls: seq<Line>)
    requires MARK_RULE !in s.ipRules && !s.exitRoute
    requires forall l :: l in ls ==> UpIp(l)
    ensures Routed(h, s, RunAll(h, s, ls).state)
    ensures s.forwarding || (RunAll(h, s, ls).ok && Ip(ForwardSysctl, false) in ls) ==>
              RunAll(h, s, ls).state.forwarding
  {
    if ls != [] {
      var p, l := ls[..|ls| - 1], ls[|ls| - 1];
      assert ls == p + [l] && l in ls;
      UpRoutes(h, s, p);
      var o := RunAll(h, s, p);
      if o.ok && Exec(h, o.state, l).Some? {
        UpRouteStep(h, s, o.state, l);
      }
    }
  }

  predicate SameRouting(s: HostState, t: HostState) {
    s.tunnel == t.tunnel && s.ipRules == t.ipRules && s.exitRoute == t.exitRoute && s.forwarding == t.forwarding
  }

  lemma FilterLineKeepsRouting(h: Caps, s: HostState, l: Line)
    requires !l.Ip? && Exec(h, s, l).Some?
    ensures SameRouting(s, Exec(h, s, l).value)
  {
  }

  lemma {:induction false} FilterLinesKeepRouting(h: Caps, s: HostState, ls: seq<Line>)
    requires forall l :: l in ls ==> !l.Ip?
    ensures SameRouting(s, RunAll(h, s, ls).state)
  {
    if ls != [] {
      FilterLinesKeepRouting(h, s, ls[..|ls| - 1]);
      var o, l := RunAll(h, s, ls[..|ls| - 1]), ls[|ls| - 1];
      if o.ok && Exec(h, o.state, l).Some? {
        FilterLineKeepsRouting(h, o.state, l);
      }
    }
  }

  lemma {:induction false} RemoveAdded(q: seq<string>, x: string)
    requires x !in q
    ensures RemoveFirst(q + [x], x) == q
  {
    if q == [] {
      assert q + [x] == [x];
    } else {
      assert (q + [x])[1..] == q[1..] + [x];
      RemoveAdded(q[1..], x);
    }
  }

  lemma PolicyDown(h: Caps, s0: HostState, s: HostState)
    requires Routed(h, s0, s) && MARK_RULE !in s0.ipRules
    ensures var t := RunAll(h, s, DOWN_POLICY).state;
            RunAll(h, s, DOWN_POLICY).ok && t.ipRules == s0.ipRules && !t.exitRoute && t.forwarding == s.forwarding
  {
    var a, b := [Ip(ExitTableFlush, true)], [Ip(MarkRuleDel, true)];
    assert DOWN_POLICY == a + b && a[..0] == [] == b[..0];
    RunConcat(h, s, a, b);
    RemoveAdded(s0.ipRules, MARK_RULE);
  }

  lemma TunnelDown(h: Caps, s: HostState)
    ensures var t := RunAll(h, s, DOWN_TUNNEL).state;
            && RunAll(h, s, DOWN_TUNNEL).ok && t.tunnel.None? && t.ipRules == s.ipRules
            && (t.exitRoute ==> s.exitRoute) && t.forwarding == s.forwarding
  {
  }

  /** A tear-down that runs to its end leaves no tunnel, no policy rule and no exit route. */
  lemma DownRoutes(h: Caps, s0: HostState, s: HostState, pool: Prefix, reach: seq<Prefix>, lan: string)
    requires Routed(h, s0, s) && MARK_RULE !in s0.ipRules
    requires RunAll(h, s, PostDown(pool, reach, lan)).ok
    ensures var t := RunAll(h, s, PostDown(pool, reach, lan)).state;
            t.tunnel.None? && t.ipRules == s0.ipRules && !t.exitRoute && t.forwarding == s.forwarding
  {
    var d := DownLan(pool, reach, lan);
    RunConcat(h, s, d + DOWN_POLICY + DownExit() + DOWN_TUNNEL, DOWN_XKEEN);
    RunConcat(h, s, d + DOWN_POLICY + DownExit(), DOWN_TUNNEL);
    RunConcat(h, s, d + DOWN_POLICY, DownExit());
    RunConcat(h, s, d, DOWN_POLICY);
    var s1 := RunAll(h, s, d).state;
    var s2 := RunAll(h, s1, DOWN_POLICY).state;
    var s3 := RunAll(h, s2, DownExit()).state;
    var s4 := RunAll(h, s3, DOWN_TUNNEL).state;
    FilterLinesKeepRouting(h, s, d);
    PolicyDown(h, s0, s1);
    FilterLinesKeepRouting(h, s2, DownExit());
    TunnelDown(h, s3);
    FilterLinesKeepRouting(h, s4, DOWN_XKEEN);
  }

  // ---------------------------------------------------------------- up, then down

  /** A host holding none of the node's rules, tunnel or routes. */
  ghost predicate Clean(s: HostState) {
    && (forall c, x :: x in At(s, c) ==> x.Foreign?)
    && s.tunnel.None? && MARK_RULE !in s.ipRules && !s.exitRoute
  }

  /** No own rule left and every foreign rule in place: the chain is what it was. */
  lemma NothingLeftIsSame(q: seq<Spec>, q': seq<Spec>)
    requires forall x :: x in q ==> x.Foreign?
    requires forall x :: x in q' ==> x.Foreign?
    requires Others(q) == Others(q')
    ensures q == q'
  {
    OthersIsAll(q);
    OthersIsAll(q');
  }

  lemma TearDownRuns(h: Caps, s0: HostState, pool: Prefix, reach: seq<Prefix>, lan: string)
    requires Clean(s0) && CanServeLan(h, pool, reach, lan)
    ensures RunAll(h, RunAll(h, s0, PostUp(pool, reach, lan)).state, PostDown(pool, reach, lan)).ok
  {
    var up, down := PostUp(pool, reach, lan), PostDown(pool, reach, lan);
    var s := RunAll(h, s0, up).state;
    BringUpSucceedsIff(h, s0, pool, reach, lan);
    UpIsShaped(pool, reach, lan);
    DownIsShaped(pool, reach, lan);
    forall l | l in down && !l.Ip? && !Tolerated(l)
      ensures Deleted(down, l.chain, l.spec) <= Count(s, l.chain, l.spec)
    {
      ListsMatch(pool, reach, lan, l.chain, l.spec);
      UpCounts(h, s0, up, l.chain, l.spec);
    }
    DownNeverAborts(h, s, down);
  }

  lemma TearDownRestoresChain(h: Caps, s0: HostState, pool: Prefix, reach: seq<Prefix>, lan: string, c: Chain)
    requires Clean(s0) && CanServeLan(h, pool, reach, lan)
    ensures var s := RunAll(h, s0, PostUp(pool, reach, lan)).state;
            At(RunAll(h, s, PostDown(pool, reach, lan)).state, c) == At(s0, c)
  {
    var up, down := PostUp(pool, reach, lan), PostDown(pool, reach, lan);
    var s := RunAll(h, s0, up).state;
    var t := RunAll(h, s, down).state;
    BringUpSucceedsIff(h, s0, pool, reach, lan);
    TearDownRuns(h, s0, pool, reach, lan);
    UpIsShaped(pool, reach, lan);
    DownIsShaped(pool, reach, lan);
    RunKeepsOthers(h, s0, up, c);
    RunKeepsOthers(h, s, down, c);
    forall x | x in At(t, c) ensures x.Foreign? {
      ListsMatch(pool, reach, lan, c, x);
      UpCounts(h, s0, up, c, x);
      DownCounts(h, s, down, c, x);
      assert Count(t, c, x) > 0;
    }
    NothingLeftIsSame(At(t, c), At(s0, c));
  }

  lemma UpLinesAreUp(pool: Prefix, reach: seq<Prefix>, lan: string)
    ensures forall l :: l in PostUp(pool, reach, lan) ==> UpIp(l)
  {
  }

  /** Up then down is the identity on every chain, the policy rules, table 133 and the links,
      for any reach list and any set of commands the host cannot run; only the forwarding
      sysctl stays set. */
  lemma DownUndoesUp(h: Caps, s0: HostState, pool: Prefix, reach: seq<Prefix>, lan: string)
    requires Clean(s0) && CanServeLan(h, pool, reach, lan)
    ensures var up := RunAll(h, s0, PostUp(pool, reach, lan));
            var down := RunAll(h, up.state, PostDown(pool, reach, lan));
            && up.ok && down.ok
            && (forall c :: At(down.state, c) == At(s0, c))
            && down.state.tunnel == s0.tunnel && down.state.ipRules == s0.ipRules
            && down.state.exitRoute == s0.exitRoute && down.state.forwarding
  {
    var up := RunAll(h, s0, PostUp(pool, reach, lan));
    BringUpSucceedsIff(h, s0, pool, reach, lan);
    TearDownRuns(h, s0, pool, reach, lan);
    forall c ensures At(RunAll(h, up.state, PostDown(pool, reach, lan)).state, c) == At(s0, c) {
      TearDownRestoresChain(h, s0, pool, reach, lan, c);
    }
    UpLinesAreUp(pool, reach, lan);
    MandatoryLinesOfUp(pool, reach, lan);
    UpRoutes(h, s0, PostUp(pool, reach, lan));
    DownRoutes(h, s0, up.state, pool, reach, lan);
  }
}

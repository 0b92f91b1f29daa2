/** Planning the internet exits (internal/awg/apply.go, exitIndex to exitPlan): names and
    tables derived from a node's address, and the sorted plan. */
module ExitPlan {
  import opened Basics
  import opened Net

  // ---------------------------------------------------------------- decimal text

  function Digit(d: nat): char
    requires d < 10
  {
    "0123456789"[d]
  }

  function Itoa(n: nat): string {
    if n < 10 then [Digit(n)] else Itoa(n / 10) + [Digit(n % 10)]
  }

  lemma ItoaSize(n: nat)
    ensures if n < 10 then |Itoa(n)| == 1 else |Itoa(n)| >= 2
  {
  }

  lemma {:induction false} ItoaInjective(m: nat, n: nat)
    requires Itoa(m) == Itoa(n)
    ensures m == n
  {
    var s, t := Itoa(m), Itoa(n);
    ItoaSize(m);
    ItoaSize(n);
    assert s[|s| - 1] == t[|t| - 1];
    assert Digit(m % 10) == Digit(n % 10);
    if m >= 10 {
      assert s[..|s| - 1] == Itoa(m / 10) && t[..|t| - 1] == Itoa(n / 10);
      ItoaInjective(m / 10, n / 10);
    }
  }

  function Pow10(k: nat): nat {
    if k == 0 then 1 else 10 * Pow10(k - 1)
  }

  lemma {:induction false} ItoaLength(n: nat, k: nat, bound: nat)
    requires n < bound && k >= 1 && bound == Pow10(k)
    ensures 1 <= |Itoa(n)| <= k
  {
    if n >= 10 {
      ItoaLength(n / 10, k - 1, bound / 10);
    }
  }

  /** The number a text of decimal digits stands for. */
  function Value(s: string): int {
    if s == "" then 0 else Value(s[..|s| - 1]) * 10 + (s[|s| - 1] as int - '0' as int)
  }

  lemma {:induction false} ItoaIsDecimal(n: nat)
    ensures Value(Itoa(n)) == n
    ensures forall i :: 0 <= i < |Itoa(n)| ==> '0' <= Itoa(n)[i] <= '9'
  {
    var s := Itoa(n);
    assert forall d: nat :: d < 10 ==> Digit(d) as int == '0' as int + d;
    if n < 10 {
      assert s[..0] == "" && Value(s[..0]) == 0;
    } else {
      ItoaIsDecimal(n / 10);
      assert s[..|s| - 1] == Itoa(n / 10) && s[|s| - 1] == Digit(n % 10);
    }
  }

  // ---------------------------------------------------------------- names and tables

  const EXIT_DEV_PREFIX := "awgex"
  const EXIT_TABLE_BASE := 1000

  /** The last two bytes of the address. */
  function ExitIndex(node: Addr): (i: nat)
    ensures i < 0x1_0000
  {
    node / 0x100 % 0x100 * 0x100 + node % 0x100
  }

  function ExitDevName(node: Addr): string {
    EXIT_DEV_PREFIX + Itoa(ExitIndex(node))
  }

  function ExitTableFor(node: Addr): string {
    Itoa(EXIT_TABLE_BASE + ExitIndex(node))
  }

  /** Name and table are the node's last two bytes as one number, the table a thousand further on. */
  lemma NamesAreNumbers(node: Addr, b2: nat, b3: nat, rest: nat)
    requires b2 < 256 && b3 < 256 && node == rest * 0x1_0000 + b2 * 0x100 + b3
    ensures ExitDevName(node)[..5] == "awgex" && Value(ExitDevName(node)[5..]) == 256 * b2 + b3
    ensures Value(ExitTableFor(node)) == 1000 + 256 * b2 + b3
  {
    assert node / 0x100 == rest * 0x100 + b2 && node / 0x100 % 0x100 == b2 && node % 0x100 == b3;
    ItoaIsDecimal(ExitIndex(node));
    ItoaIsDecimal(EXIT_TABLE_BASE + ExitIndex(node));
    assert ExitDevName(node)[5..] == Itoa(ExitIndex(node));
  }

  /** Names carry the owned prefix, fit an interface name, and tables stay clear of the
      reserved ones and of the legacy table 51. */
  lemma NamesAreSane(node: Addr)
    ensures EXIT_DEV_PREFIX <= ExitDevName(node)
    ensures |ExitDevName(node)| <= 10
    ensures 1000 <= EXIT_TABLE_BASE + ExitIndex(node) <= 66535
    ensures ExitTableFor(node) != "51"
  {
    assert Pow10(5) == 100000 by {
      assert Pow10(2) == 100;
    }
    ItoaLength(ExitIndex(node), 5, 100000);
    if ExitTableFor(node) == "51" {
      assert Itoa(51) == Itoa(5) + ['1'] == "51";
      ItoaInjective(EXIT_TABLE_BASE + ExitIndex(node), 51);
    }
  }

  lemma SameNameSameIndex(a: Addr, b: Addr)
    ensures ExitDevName(a) == ExitDevName(b) <==> ExitIndex(a) == ExitIndex(b)
    ensures ExitTableFor(a) == ExitTableFor(b) <==> ExitIndex(a) == ExitIndex(b)
  {
    if ExitDevName(a) == ExitDevName(b) {
      var n := |EXIT_DEV_PREFIX|;
      assert ExitDevName(a)[n..] == Itoa(ExitIndex(a)) && ExitDevName(b)[n..] == Itoa(ExitIndex(b));
      ItoaInjective(ExitIndex(a), ExitIndex(b));
    }
    if ExitTableFor(a) == ExitTableFor(b) {
      ItoaInjective(EXIT_TABLE_BASE + ExitIndex(a), EXIT_TABLE_BASE + ExitIndex(b));
    }
  }

  /** Two nodes of a pool never share a device name or a table, whichever nodes they are. */
  ghost predicate NamesInjective(pool: Prefix) {
    forall a: Addr, b: Addr :: Contains(pool, a) && Contains(pool, b) && a != b ==>
      ExitDevName(a) != ExitDevName(b) && ExitTableFor(a) != ExitTableFor(b)
  }

  lemma IndexIsLow16(a: Addr)
    ensures ExitIndex(a) == a % 0x1_0000
  {
  }

  lemma ShiftKeepsIndex(a: Addr, b: Addr)
    requires b == a + 0x1_0000
    ensures ExitIndex(a) == ExitIndex(b)
  {
  }

  lemma CloseAddressesDiffer(a: int, b: int)
    requires a % 0x1_0000 == b % 0x1_0000 && a < b
    ensures b - a >= 0x1_0000
  {
  }

  lemma NarrowPoolsDiffer(pool: Prefix, a: Addr, b: Addr)
    requires pool.bits >= 16 && Contains(pool, a) && Contains(pool, b) && a < b
    ensures ExitDevName(a) != ExitDevName(b) && ExitTableFor(a) != ExitTableFor(b)
  {
    Pow2Values();
    Pow2Monotone(32 - pool.bits, 16);
    SameNameSameIndex(a, b);
    IndexIsLow16(a);
    IndexIsLow16(b);
    if a % 0x1_0000 == b % 0x1_0000 {
      CloseAddressesDiffer(a, b);
    }
  }

  lemma FarAddress(pool: Prefix) returns (b: Addr)
    requires pool.bits < 16
    ensures b == pool.addr + 0x1_0000 && Contains(pool, b)
  {
    Pow2Values();
    Pow2Monotone(17, 32 - pool.bits);
    assert Pow2(17) == 2 * Pow2(16);
    FitsIn32Bits(pool);
    b := pool.addr + 0x1_0000;
  }

  lemma WidePoolsCollide(pool: Prefix)
    requires pool.bits < 16
    ensures exists a: Addr, b: Addr :: Contains(pool, a) && Contains(pool, b) && a != b && ExitDevName(a) == ExitDevName(b)
  {
    var a := pool.addr;
    var b := FarAddress(pool);
    ShiftKeepsIndex(a, b);
    SameNameSameIndex(a, b);
    assert Contains(pool, a);
  }

  /** The address space of the names is 16 bits, so the scheme is collision-free for a
      pool exactly when the pool is a /16 or smaller. */
  lemma NamesInjectiveIff(pool: Prefix)
    ensures NamesInjective(pool) <==> pool.bits >= 16
  {
    if pool.bits >= 16 {
      forall a: Addr, b: Addr | Contains(pool, a) && Contains(pool, b) && a != b
        ensures ExitDevName(a) != ExitDevName(b) && ExitTableFor(a) != ExitTableFor(b)
      {
        if a < b {
          NarrowPoolsDiffer(pool, a, b);
        } else {
          NarrowPoolsDiffer(pool, b, a);
        }
      }
    } else {
      WidePoolsCollide(pool);
    }
  }

  /** In such a pool a name identifies its node. */
  lemma NameIdentifies(pool: Prefix, a: Addr, b: Addr)
    requires pool.bits >= 16 && Contains(pool, a) && Contains(pool, b) && ExitDevName(a) == ExitDevName(b)
    ensures a == b
  {
    NamesInjectiveIff(pool);
  }

  // ---------------------------------------------------------------- the plan

  datatype ExitRoute = ExitRoute(client: Addr, node: Addr)
  datatype ExitDevice = ExitDevice(name: string, remote: Addr, table: string)
  datatype ExitRule = ExitRule(client: Addr, table: string)

  function DeviceFor(node: Addr): ExitDevice {
    ExitDevice(ExitDevName(node), node, ExitTableFor(node))
  }

  function RuleFor(r: ExitRoute): ExitRule {
    ExitRule(r.client, ExitTableFor(r.node))
  }

  /** Go's string order. */
  predicate TextLeq(s: string, t: string) {
    s == "" || (t != "" && (s[0] < t[0] || (s[0] == t[0] && TextLeq(s[1..], t[1..]))))
  }

  predicate DevLeq(a: ExitDevice, b: ExitDevice) {
    a.remote <= b.remote
  }

  predicate RuleLeq(a: ExitRule, b: ExitRule) {
    if a.client != b.client then a.client < b.client else TextLeq(a.table, b.table)
  }

  lemma {:induction false} TextLeqOrder(s: string, t: string, u: string)
    ensures TextLeq(s, s)
    ensures TextLeq(s, t) || TextLeq(t, s)
    ensures TextLeq(s, t) && TextLeq(t, s) ==> s == t
    ensures TextLeq(s, t) && TextLeq(t, u) ==> TextLeq(s, u)
  {
    if s != "" && t != "" && u != "" {
      TextLeqOrder(s[1..], t[1..], u[1..]);
      assert s == [s[0]] + s[1..] && t == [t[0]] + t[1..];
    } else if s != "" && t != "" {
      TextLeqOrder(s[1..], t[1..], u);
      assert s == [s[0]] + s[1..] && t == [t[0]] + t[1..];
    } else if s != "" {
      TextLeqOrder(s[1..], t, u);
    }
  }

  predicate SortedDevs(s: seq<ExitDevice>) {
    forall i, j :: 0 <= i < j < |s| ==> DevLeq(s[i], s[j])
  }

  predicate SortedRules(s: seq<ExitRule>) {
    forall i, j :: 0 <= i < j < |s| ==> RuleLeq(s[i], s[j])
  }

  function InsertDev(s: seq<ExitDevice>, d: ExitDevice): seq<ExitDevice> {
    if s == [] then [d]
    else if DevLeq(d, s[0]) then [d] + s
    else [s[0]] + InsertDev(s[1..], d)
  }

  function SortDevs(s: seq<ExitDevice>): seq<ExitDevice> {
    if s == [] then [] else InsertDev(SortDevs(s[..|s| - 1]), s[|s| - 1])
  }

  function InsertRule(s: seq<ExitRule>, r: ExitRule): seq<ExitRule> {
    if s == [] then [r]
    else if RuleLeq(r, s[0]) then [r] + s
    else [s[0]] + InsertRule(s[1..], r)
  }

  function SortRules(s: seq<ExitRule>): seq<ExitRule> {
    if s == [] then [] else InsertRule(SortRules(s[..|s| - 1]), s[|s| - 1])
  }

  lemma {:induction false} InsertDevAdds(s: seq<ExitDevice>, d: ExitDevice)
    ensures multiset(InsertDev(s, d)) == multiset(s) + multiset{d}
    ensures forall x :: x in InsertDev(s, d) <==> x == d || x in s
  {
    if s != [] {
      assert s == [s[0]] + s[1..];
      InsertDevAdds(s[1..], d);
    }
  }

  lemma {:induction false} InsertDevSorts(s: seq<ExitDevice>, d: ExitDevice)
    requires SortedDevs(s)
    ensures SortedDevs(InsertDev(s, d))
  {
    if s != [] && !DevLeq(d, s[0]) {
      InsertDevSorts(s[1..], d);
      InsertDevAdds(s[1..], d);
      var t := InsertDev(s[1..], d);
      forall i | 0 <= i < |t| ensures DevLeq(s[0], t[i]) {
        assert t[i] in t;
      }
    }
  }

  lemma {:induction false} SortDevsSorts(s: seq<ExitDevice>)
    ensures SortedDevs(SortDevs(s))
    ensures multiset(SortDevs(s)) == multiset(s)
  {
    if s != [] {
      SortDevsSorts(s[..|s| - 1]);
      InsertDevSorts(SortDevs(s[..|s| - 1]), s[|s| - 1]);
      InsertDevAdds(SortDevs(s[..|s| - 1]), s[|s| - 1]);
      assert s == s[..|s| - 1] + [s[|s| - 1]];
    }
  }

  lemma {:induction false} InsertRuleAdds(s: seq<ExitRule>, r: ExitRule)
    ensures multiset(InsertRule(s, r)) == multiset(s) + multiset{r}
    ensures forall x :: x in InsertRule(s, r) <==> x == r || x in s
  {
    if s != [] {
      assert s == [s[0]] + s[1..];
      InsertRuleAdds(s[1..], r);
    }
  }

  lemma RuleLeqOrder(a: ExitRule, b: ExitRule, c: ExitRule)
    ensures RuleLeq(a, a)
    ensures RuleLeq(a, b) || RuleLeq(b, a)
    ensures RuleLeq(a, b) && RuleLeq(b, a) ==> a == b
    ensures RuleLeq(a, b) && RuleLeq(b, c) ==> RuleLeq(a, c)
  {
    TextLeqOrder(a.table, b.table, c.table);
  }

  lemma {:induction false} InsertRuleSorts(s: seq<ExitRule>, r: ExitRule)
    requires SortedRules(s)
    ensures SortedRules(InsertRule(s, r))
  {
    if s != [] {
      RuleLeqOrder(r, s[0], r);
      if RuleLeq(r, s[0]) {
        forall i | 0 <= i < |s| ensures RuleLeq(r, s[i]) {
          RuleLeqOrder(r, s[0], s[i]);
        }
      } else {
        InsertRuleSorts(s[1..], r);
        InsertRuleAdds(s[1..], r);
        var t := InsertRule(s[1..], r);
        forall i | 0 <= i < |t| ensures RuleLeq(s[0], t[i]) {
          assert t[i] in t;
        }
      }
    }
  }

  lemma {:induction false} SortRulesPermutes(s: seq<ExitRule>)
    ensures multiset(SortRules(s)) == multiset(s)
  {
    if s != [] {
      var init, last := s[..|s| - 1], s[|s| - 1];
      SortRulesPermutes(init);
      InsertRuleAdds(SortRules(init), last);
      assert s == init + [last];
    }
  }

  lemma {:induction false} SortRulesSorts(s: seq<ExitRule>)
    ensures SortedRules(SortRules(s))
    ensures multiset(SortRules(s)) == multiset(s)
  {
    SortRulesPermutes(s);
    if s != [] {
      SortRulesSorts(s[..|s| - 1]);
      InsertRuleSorts(SortRules(s[..|s| - 1]), s[|s| - 1]);
    }
  }

  /** First occurrences of the exit nodes, as devices. */
  function PlanDevs(routes: seq<ExitRoute>): seq<ExitDevice> {
    if routes == [] then []
    else
      var init := PlanDevs(routes[..|routes| - 1]);
      var d := DeviceFor(routes[|routes| - 1].node);
      if d in init then init else init + [d]
  }

  function PlanRules(routes: seq<ExitRoute>): seq<ExitRule> {
    seq(|routes|, i requires 0 <= i < |routes| => RuleFor(routes[i]))
  }

  lemma {:induction false} PlanDevsExact(routes: seq<ExitRoute>)
    ensures NoDup(PlanDevs(routes))
    ensures forall d :: d in PlanDevs(routes) <==> exists r :: r in routes && d == DeviceFor(r.node)
  {
    if routes != [] {
      var init, last := routes[..|routes| - 1], routes[|routes| - 1];
      PlanDevsExact(init);
      assert routes == init + [last];
      if DeviceFor(last.node) !in PlanDevs(init) {
        NoDupAppend(PlanDevs(init), DeviceFor(last.node));
      }
      forall d ensures d in PlanDevs(routes) <==> exists r :: r in routes && d == DeviceFor(r.node) {
        if d in PlanDevs(init) {
          var r :| r in init && d == DeviceFor(r.node);
          assert r in routes;
        } else if d in PlanDevs(routes) {
          assert last in routes;
        }
      }
    }
  }

  function ExitDevs(routes: seq<ExitRoute>): seq<ExitDevice> {
    SortDevs(PlanDevs(routes))
  }

  function ExitRules(routes: seq<ExitRoute>): seq<ExitRule> {
    SortRules(PlanRules(routes))
  }

  /** Remotes strictly increasing: no node appears twice. */
  predicate StrictDevs(devs: seq<ExitDevice>) {
    forall i, j :: 0 <= i < j < |devs| ==> devs[i].remote < devs[j].remote
  }

  lemma SameElements<T>(s: seq<T>, t: seq<T>)
    requires multiset(s) == multiset(t)
    ensures forall x :: x in s <==> x in t
  {
    forall x ensures x in s <==> x in t {
      assert x in s <==> x in multiset(s);
      assert x in t <==> x in multiset(t);
    }
  }

  lemma {:induction false} CountAtMostOne<T>(s: seq<T>)
    ensures NoDup(s) <==> forall x :: multiset(s)[x] <= 1
  {
    if s != [] {
      var init, last := s[..|s| - 1], s[|s| - 1];
      CountAtMostOne(init);
      assert s == init + [last];
      assert multiset(s) == multiset(init) + multiset{last};
      if NoDup(s) {
        assert last !in init;
        assert multiset(init)[last] == 0;
      } else if NoDup(init) {
        assert last in init;
        assert multiset(s)[last] >= 2;
      } else {
        var x :| multiset(init)[x] > 1;
        assert multiset(s)[x] > 1;
      }
    }
  }

  lemma NoDupByMultiset<T>(s: seq<T>, t: seq<T>)
    requires NoDup(s) && multiset(s) == multiset(t)
    ensures NoDup(t)
  {
    CountAtMostOne(s);
    CountAtMostOne(t);
  }

  /** Devices are exactly the distinct exit nodes in strictly increasing order. */
  lemma ExitDevsExact(routes: seq<ExitRoute>)
    ensures StrictDevs(ExitDevs(routes))
    ensures forall d :: d in ExitDevs(routes) <==> exists r :: r in routes && d == DeviceFor(r.node)
  {
    var plan, devs := PlanDevs(routes), ExitDevs(routes);
    PlanDevsExact(routes);
    SortDevsSorts(plan);
    SameElements(devs, plan);
    NoDupByMultiset(plan, devs);
    forall i, j | 0 <= i < j < |devs| ensures devs[i].remote < devs[j].remote {
      assert DevLeq(devs[i], devs[j]) && devs[i] != devs[j];
      assert devs[i] in devs && devs[j] in devs;
      assert devs[i] == DeviceFor(devs[i].remote) && devs[j] == DeviceFor(devs[j].remote);
    }
  }

  lemma PlanRulesExact(routes: seq<ExitRoute>, x: ExitRule)
    ensures x in PlanRules(routes) <==> exists r :: r in routes && x == RuleFor(r)
  {
    var plan := PlanRules(routes);
    if r :| r in routes && x == RuleFor(r) {
      var i :| 0 <= i < |routes| && routes[i] == r;
      assert plan[i] == x;
    }
  }

  /** Source rules are the routes' rules in order, and each looks up the table of one of
      the planned devices. */
  lemma ExitRulesExact(routes: seq<ExitRoute>)
    ensures SortedRules(ExitRules(routes))
    ensures multiset(ExitRules(routes)) == multiset(PlanRules(routes))
    ensures forall x :: x in ExitRules(routes) <==> exists r :: r in routes && x == RuleFor(r)
    ensures forall x :: x in ExitRules(routes) ==> exists d :: d in ExitDevs(routes) && d.table == x.table
  {
    var plan, rules := PlanRules(routes), ExitRules(routes);
    SortRulesSorts(plan);
    SameElements(rules, plan);
    forall x ensures x in rules <==> exists r :: r in routes && x == RuleFor(r) {
      PlanRulesExact(routes, x);
    }
    ExitDevsExact(routes);
    forall x | x in rules ensures exists d :: d in ExitDevs(routes) && d.table == x.table {
      var r :| r in routes && x == RuleFor(r);
      assert DeviceFor(r.node) in ExitDevs(routes);
    }
  }

  // ---------------------------------------------------------------- canonical form

  lemma HeadIsLeast(s: seq<ExitRule>, x: ExitRule)
    requires SortedRules(s) && x in s
    ensures RuleLeq(s[0], x)
  {
    RuleLeqOrder(x, x, x);
  }

  lemma SameHead(s: seq<ExitRule>, t: seq<ExitRule>)
    requires SortedRules(s) && SortedRules(t) && multiset(s) == multiset(t) && s != [] && t != []
    ensures s[0] == t[0]
  {
    SameElements(s, t);
    HeadIsLeast(s, t[0]);
    HeadIsLeast(t, s[0]);
    RuleLeqOrder(s[0], t[0], s[0]);
  }

  lemma TailsMatch<T>(s: seq<T>, t: seq<T>)
    requires s != [] && t != [] && s[0] == t[0] && multiset(s) == multiset(t)
    ensures multiset(s[1..]) == multiset(t[1..])
  {
    assert s == [s[0]] + s[1..] && t == [t[0]] + t[1..];
    assert multiset(s[1..]) == multiset(s) - multiset{s[0]};
    assert multiset(t[1..]) == multiset(t) - multiset{t[0]};
  }

  lemma {:induction false} SortedRulesUnique(s: seq<ExitRule>, t: seq<ExitRule>)
    requires SortedRules(s) && SortedRules(t) && multiset(s) == multiset(t)
    ensures s == t
  {
    assert |s| == |multiset(s)| == |multiset(t)| == |t|;
    if s != [] {
      SameHead(s, t);
      TailsMatch(s, t);
      SortedRulesUnique(s[1..], t[1..]);
      assert s == [s[0]] + s[1..] && t == [t[0]] + t[1..];
    }
  }

  lemma HeadIsElement<T>(t: seq<T>)
    ensures t != [] ==> t[0] in t
  {
  }

  lemma {:induction false} StrictDevsUnique(s: seq<ExitDevice>, t: seq<ExitDevice>)
    requires StrictDevs(s) && StrictDevs(t)
    requires forall d :: d in s <==> d in t
    ensures s == t
  {
    HeadIsElement(t);
    if s != [] {
      assert s[0] in t;
      var j :| 0 <= j < |t| && t[j] == s[0];
      assert t[0] in s;
      var i :| 0 <= i < |s| && s[i] == t[0];
      assert s[0] == t[0];
      assert s == [s[0]] + s[1..] && t == [t[0]] + t[1..];
      forall d ensures d in s[1..] <==> d in t[1..] {
        assert d in s <==> d in t;
        assert s[0] !in s[1..] && t[0] !in t[1..];
      }
      StrictDevsUnique(s[1..], t[1..]);
    }
  }

  lemma PlanRulesConcat(s: seq<ExitRoute>, t: seq<ExitRoute>)
    ensures PlanRules(s + t) == PlanRules(s) + PlanRules(t)
  {
  }

  /** Pulls one element to the front. */
  lemma PullOut<T>(s: seq<T>, x: T) returns (before: seq<T>, after: seq<T>)
    requires x in s
    ensures s == before + ([x] + after)
    ensures multiset(before + after) == multiset(s) - multiset{x}
  {
    var j :| 0 <= j < |s| && s[j] == x;
    before, after := s[..j], s[j + 1..];
    assert s == before + ([x] + after);
    assert multiset(s) == multiset(before) + (multiset{x} + multiset(after));
  }

  lemma {:induction false} PlanRulesPermute(routes: seq<ExitRoute>, others: seq<ExitRoute>)
    requires multiset(routes) == multiset(others)
    ensures multiset(PlanRules(routes)) == multiset(PlanRules(others))
    decreases |routes|
  {
    if routes == [] {
      assert |others| == |multiset(others)| == 0;
    } else {
      var r, tail := routes[0], routes[1..];
      assert routes == [r] + tail;
      assert r in multiset(others);
      var before, after := PullOut(others, r);
      assert multiset(tail) == multiset(routes) - multiset{r};
      PlanRulesPermute(tail, before + after);
      PlanRulesConcat([r], tail);
      PlanRulesConcat(before, [r] + after);
      PlanRulesConcat([r], after);
      PlanRulesConcat(before, after);
    }
  }

  /** The plan depends only on which routes are asked for and how often, not on the order
      in which the database listed them. */
  lemma PlanIsCanonical(routes: seq<ExitRoute>, others: seq<ExitRoute>)
    requires multiset(routes) == multiset(others)
    ensures ExitDevs(routes) == ExitDevs(others)
    ensures ExitRules(routes) == ExitRules(others)
  {
    SameElements(routes, others);
    ExitDevsExact(routes);
    ExitDevsExact(others);
    StrictDevsUnique(ExitDevs(routes), ExitDevs(others));
    ExitRulesExact(routes);
    ExitRulesExact(others);
    PlanRulesPermute(routes, others);
    SortedRulesUnique(ExitRules(routes), ExitRules(others));
  }

  method MakeExitPlan(routes: seq<ExitRoute>) returns (devs: seq<ExitDevice>, rules: seq<ExitRule>)
    ensures devs == ExitDevs(routes) && rules == ExitRules(routes)
    ensures StrictDevs(devs) && forall d :: d in devs <==> exists r :: r in routes && d == DeviceFor(r.node)
    ensures SortedRules(rules) && multiset(rules) == multiset(PlanRules(routes))
  {
    var seen: set<Addr> := {};
    devs, rules := [], [];
    for i := 0 to |routes|
      invariant devs == PlanDevs(routes[..i])
      invariant rules == PlanRules(routes[..i])
      invariant forall n :: n in seen <==> DeviceFor(n) in devs
    {
      assert routes[..i + 1][..i] == routes[..i];
      var r := routes[i];
      if r.node !in seen {
        seen := seen + {r.node};
        devs := devs + [ExitDevice(ExitDevName(r.node), r.node, ExitTableFor(r.node))];
      }
      rules := rules + [ExitRule(r.client, ExitTableFor(r.node))];
    }
    assert routes[..|routes|] == routes;
    devs := SortDevs(devs);
    rules := SortRules(rules);
    ExitDevsExact(routes);
    ExitRulesExact(routes);
  }
}

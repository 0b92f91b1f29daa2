/** The values the compiler works on (internal/awg/model.go), restricted to the
    fields that decide where a packet may go. */
module Model {
  import opened Basics
  import opened Net

  /** The relay.  `pool` is None for an invalid prefix, which the renderers test for. */
  datatype Hub = Hub(address: Addr, pool: Option<Prefix>, wanIface: string)

  /** What the hub's artefacts use of a node; its own scripts also take its LAN interface. */
  datatype Node = Node(address: Addr, subnets: seq<Prefix>, publicKey: string, isHub: bool)

  datatype Client = Client(address: Addr, publicKey: string)

  /** The protocol column of a rule; `Unset` is the empty string. */
  datatype Proto = Unset | Any | Tcp | Udp

  /** `portFrom` 0 means every port; `portTo` 0 means the single port `portFrom`. */
  datatype GrantRule = GrantRule(dest: Prefix, proto: Proto, portFrom: nat, portTo: nat)

  datatype Grant = Grant(
    clientAddr: Addr, nodeAddr: Addr, subnets: seq<Prefix>, rules: seq<GrantRule>, isExit: bool, nodeExit: bool)

  /** A directed site-to-site link. `srcAddr` is None for an invalid address. */
  datatype NodeLink = NodeLink(srcAddr: Option<Addr>, srcSubnets: seq<Prefix>, dstSubnets: seq<Prefix>)

  // ---------------------------------------------------------------- destinations of a grant

  /** First occurrences of the rules' destinations, in order. */
  function RuleDests(rules: seq<GrantRule>): seq<Prefix> {
    if rules == [] then []
    else
      var init := RuleDests(rules[..|rules| - 1]);
      var d := rules[|rules| - 1].dest;
      if d in init then init else init + [d]
  }

  function Dests(g: Grant): seq<Prefix> {
    if g.rules == [] then g.subnets else RuleDests(g.rules)
  }

  lemma {:induction false} RuleDestsExact(rules: seq<GrantRule>)
    ensures NoDup(RuleDests(rules))
    ensures forall d :: d in RuleDests(rules) <==> exists r :: r in rules && r.dest == d
  {
    if rules != [] {
      var n := |rules| - 1;
      RuleDestsExact(rules[..n]);
      assert rules == rules[..n] + [rules[n]];
      var init := RuleDests(rules[..n]);
      if rules[n].dest !in init {
        NoDupAppend(init, rules[n].dest);
      }
      forall d
        ensures d in RuleDests(rules) <==> exists r :: r in rules && r.dest == d
      {
        if d in RuleDests(rules) {
          if d in init {
            var r :| r in rules[..n] && r.dest == d;
            assert r in rules;
          } else {
            assert rules[n] in rules;
          }
        }
        if r :| r in rules && r.dest == d {
          assert r in rules[..n] || r == rules[n];
        }
      }
    }
  }

  /** The deduplicating loop: `seen` is consulted by the printed form of a prefix,
      which identifies a prefix. */
  method CollectDests(g: Grant) returns (out: seq<Prefix>)
    ensures out == Dests(g)
    ensures g.rules != [] ==> NoDup(out)
    ensures g.rules != [] ==> forall d :: d in out <==> exists r :: r in g.rules && r.dest == d
  {
    if |g.rules| == 0 {
      return g.subnets;
    }
    var seen: set<Prefix> := {};
    out := [];
    for i := 0 to |g.rules|
      invariant out == RuleDests(g.rules[..i])
      invariant seen == set d | d in out
    {
      assert g.rules[..i + 1][..i] == g.rules[..i];
      var d := g.rules[i].dest;
      if d !in seen {
        seen := seen + {d};
        out := out + [d];
      }
    }
    assert g.rules[..|g.rules|] == g.rules;
    RuleDestsExact(g.rules);
  }
}

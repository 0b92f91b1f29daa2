/** The part of the hub's network stack that the applier drives with `ip`: policy rules
    by preference, links, the default route of each table, and the main table. */
module Kernel {
  import opened Basics
  import opened Net

  datatype Selector = To(prefix: Prefix) | From(addr: Addr)
  datatype IpRule = IpRule(sel: Selector, table: string)

  datatype LinkKind = Ipip(local: Addr, remote: Addr) | OtherKind
  datatype Link = Link(kind: LinkKind, up: bool, addrs: set<Addr>)

  datatype KState = KState(
    rules: map<string, seq<IpRule>>,
    links: map<string, Link>,
    defaults: map<string, string>,
    main: map<Prefix, string>)

  /** The rules of one preference, in the order they were added. */
  function RulesAt(s: KState, pref: string): seq<IpRule> {
    if pref in s.rules then s.rules[pref] else []
  }

  /** Routes go through links that exist. */
  predicate Grounded(s: KState) {
    && (forall t :: t in s.defaults ==> s.defaults[t] in s.links)
    && (forall p :: p in s.main ==> s.main[p] in s.links)
  }

  predicate DefaultVia(s: KState, table: string, dev: string) {
    table in s.defaults && s.defaults[table] == dev
  }

  // ---------------------------------------------------------------- commands

  datatype Cmd =
    | RuleDel(pref: string)
    | RuleAdd(pref: string, rule: IpRule)
    | RouteDelDefault(dev: string, table: string)
    | RouteReplaceDefault(dev: string, table: string)
    | RouteReplaceMain(prefix: Prefix, dev: string)
    | QuickUp(name: string, onLink: Option<Prefix>)
    | LinkShow(name: string)
    | LinkAdd(name: string, local: Addr, remote: Addr)
    | LinkUp(name: string)
    | LinkDel(name: string)
    | AddrReplace(addr: Addr, dev: string)

  /** Effect of a command, or None when it is refused. A rule cannot be added twice, a
      route needs a link that is up, deleting a link takes its routes with it, and awg-quick
      gives the interface an address whose prefix the main table then reaches through it. */
  function Exec(s: KState, c: Cmd): Option<KState> {
    match c
    case RuleDel(pref) =>
      if RulesAt(s, pref) == [] then None else Some(s.(rules := s.rules[pref := RulesAt(s, pref)[1..]]))
    case RuleAdd(pref, rule) =>
      if rule in RulesAt(s, pref) then None else Some(s.(rules := s.rules[pref := RulesAt(s, pref) + [rule]]))
    case RouteDelDefault(dev, table) =>
      if DefaultVia(s, table, dev) then Some(s.(defaults := s.defaults - {table})) else None
    case RouteReplaceDefault(dev, table) =>
      if dev in s.links && s.links[dev].up then Some(s.(defaults := s.defaults[table := dev])) else None
    case RouteReplaceMain(prefix, dev) =>
      if dev in s.links && s.links[dev].up then Some(s.(main := s.main[prefix := dev])) else None
    case QuickUp(name, onLink) =>
      if name in s.links then None
      else Some(s.(
        links := s.links[name := Link(OtherKind, true, {})],
        main := if onLink.Some? then s.main[onLink.value := name] else s.main))
    case LinkShow(name) =>
      if name in s.links then Some(s) else None
    case LinkAdd(name, local, remote) =>
      if name in s.links then None else Some(s.(links := s.links[name := Link(Ipip(local, remote), false, {})]))
    case LinkUp(name) =>
      if name in s.links then Some(s.(links := s.links[name := s.links[name].(up := true)])) else None
    case LinkDel(name) =>
      if name !in s.links then None
      else Some(s.(
        links := s.links - {name},
        defaults := map t | t in s.defaults && s.defaults[t] != name :: s.defaults[t],
        main := map p | p in s.main && s.main[p] != name :: s.main[p]))
    case AddrReplace(addr, dev) =>
      if dev in s.links then Some(s.(links := s.links[dev := s.links[dev].(addrs := s.links[dev].addrs + {addr})])) else None
  }

  // ---------------------------------------------------------------- route lookup

  datatype Decision = MainTable | Through(dev: string)

  predicate Selects(sel: Selector, saddr: Addr, daddr: Addr) {
    match sel
    case To(p) => Contains(p, daddr)
    case From(a) => a == saddr
  }

  /** First rule that selects the packet and whose table has a route for it. */
  function WalkRules(s: KState, rs: seq<IpRule>, saddr: Addr, daddr: Addr): Option<Decision> {
    if rs == [] then None
    else if Selects(rs[0].sel, saddr, daddr) && rs[0].table == "main" then Some(MainTable)
    else if Selects(rs[0].sel, saddr, daddr) && rs[0].table in s.defaults then Some(Through(s.defaults[rs[0].table]))
    else WalkRules(s, rs[1..], saddr, daddr)
  }

  /** The routing decision when no other preference below the main table's is in use:
      the mesh rules, then the source rules, then the main table. */
  function PolicyRoute(s: KState, first: string, second: string, saddr: Addr, daddr: Addr): Decision {
    var r := WalkRules(s, RulesAt(s, first), saddr, daddr);
    if r.Some? then r.value
    else
      var q := WalkRules(s, RulesAt(s, second), saddr, daddr);
      if q.Some? then q.value else MainTable
  }

  /** The main table sends an address to a device: every longest matching route does. */
  ghost predicate MainSends(s: KState, a: Addr, dev: string) {
    && (exists p :: p in s.main && Contains(p, a))
    && forall p :: p in s.main && Contains(p, a) && (forall q :: q in s.main && Contains(q, a) ==> q.bits <= p.bits)
         ==> s.main[p] == dev
  }

  lemma ExecKeepsGrounded(s: KState, c: Cmd)
    requires Grounded(s)
    ensures Exec(s, c).Some? ==> Grounded(Exec(s, c).value)
  {
  }

  /** The kernel a process talks to. When `faulty` is set any command may also fail for
      reasons of its own; a process that dies in mid-run looks the same as one whose
      remaining commands all fail. */
  class Host {
    var state: KState
    const faulty: bool

    constructor (initial: KState, faulty: bool)
      requires Grounded(initial)
      ensures state == initial && this.faulty == faulty
    {
      state := initial;
      this.faulty := faulty;
    }

    /** runCmd and tryCmd: the exit status of one command. */
    method Run(c: Cmd) returns (ok: bool)
      requires Grounded(state)
      modifies this
      ensures Grounded(state)
      ensures ok ==> Exec(old(state), c) == Some(state)
      ensures !ok ==> state == old(state)
      ensures !faulty ==> (ok <==> Exec(old(state), c).Some?)
    {
      if faulty {
        var fails: bool := *;
        if fails {
          return false;
        }
      }
      ExecKeepsGrounded(state, c);
      var r := Exec(state, c);
      if r.Some? {
        state := r.value;
      }
      return r.Some?;
    }

    /** Names of the links with a prefix, in some order; nothing when listing fails. */
    method ListLinks(prefix: string) returns (names: seq<string>)
      ensures forall n :: n in names ==> n in state.links && prefix <= n
      ensures !faulty ==> forall n :: n in state.links && prefix <= n ==> n in names
    {
      names := [];
      if faulty {
        var fails: bool := *;
        if fails {
          return;
        }
      }
      var todo := state.links.Keys;
      while todo != {}
        invariant todo <= state.links.Keys
        invariant forall n :: n in names ==> n in state.links && prefix <= n
        invariant forall n :: n in state.links && prefix <= n ==> n in names || n in todo
        decreases |todo|
      {
        var n :| n in todo;
        todo := todo - {n};
        if prefix <= n {
          names := names + [n];
        }
      }
    }
  }
}

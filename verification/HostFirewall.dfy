/** What a node's bring-up does to packets (internal/awg/render.go, cmd/nodeagent): the rules' texts
    read as iptables reads them, the chains evaluated first match first, the connection mark carried
    from a flow to its reply, and the reply's route. */
module HostFirewall {
  import opened Basics
  import opened Net
  import opened NodeScripts
  import opened ScriptUndo
  import opened HookText

  /** A packet on a node. The marks are those of its connection and its own, as texts. */
  datatype HostPacket = HostPacket(
    iif: string, oif: string, saddr: Addr, tcpSyn: bool, connmark: string, mark: string)

  datatype Action =
    | Accept | Masquerade | SetConnmark(value: string) | RestoreMark | SetMark(value: string)
    | SetMss(size: string) | ClampToPmtu | SetDscp(value: string)

  const EXIT_MARK := "0x33"

  // ---------------------------------------------------------------- what each rule means

  /** The packets a rule of the node is for. */
  predicate SpecMatches(x: Spec, iface: string, pkt: HostPacket) {
    match x
    case PoolMasquerade(pool) => Contains(pool, pkt.saddr) && pkt.oif != iface
    case ReachMasquerade(reach, lan) => Contains(reach, pkt.saddr) && pkt.oif == lan
    case FromTunnelAccept => pkt.iif == iface && pkt.oif != iface
    case ToTunnelAccept => pkt.iif != iface && pkt.oif == iface
    case InputAccept => pkt.iif == iface
    case Clamp => pkt.oif == iface && pkt.tcpSyn
    case ExitInAccept => pkt.iif == "ipip-hub"
    case ExitOutAccept => pkt.oif == "ipip-hub"
    case ExitSetMark => pkt.iif == "ipip-hub"
    case ExitRestoreMark => pkt.iif != "ipip-hub"
    case ExitClamp => pkt.oif == "ipip-hub" && pkt.tcpSyn
    case XkeenDscp => pkt.iif == "ipip-hub"
    case XkeenMark => pkt.connmark == EXIT_MARK
    case Foreign(_) => false
  }

  function ActionOf(x: Spec): Action
    requires !x.Foreign?
  {
    match x
    case PoolMasquerade(_) => Masquerade
    case ReachMasquerade(_, _) => Masquerade
    case Clamp => SetMss("1280")
    case ExitSetMark => SetConnmark(EXIT_MARK)
    case ExitRestoreMark => RestoreMark
    case ExitClamp => ClampToPmtu
    case XkeenDscp => SetDscp("0x3f")
    case XkeenMark => SetMark(EXIT_MARK)
    case _ => Accept
  }

  // ---------------------------------------------------------------- reading the text

  /** Whether a packet meets every condition before -j. */
  predicate WordsMatch(ws: seq<Word>, pkt: HostPacket) {
    if |ws| < 2 then false
    else if ws[0] == T("-j") then true
    else if ws[0] == T("-i") then ws[1] == T(pkt.iif) && WordsMatch(ws[2..], pkt)
    else if ws[0] == T("-o") then ws[1] == T(pkt.oif) && WordsMatch(ws[2..], pkt)
    else if ws[0] == T("-s") then ws[1].P? && Contains(ws[1].prefix, pkt.saddr) && WordsMatch(ws[2..], pkt)
    else if |ws| < 4 then false
    else if ws[..2] == [T("!"), T("-i")] then ws[2] != T(pkt.iif) && WordsMatch(ws[3..], pkt)
    else if ws[..2] == [T("!"), T("-o")] then ws[2] != T(pkt.oif) && WordsMatch(ws[3..], pkt)
    else if ws[..3] == [T("-m"), T("connmark"), T("--mark")] then ws[3] == T(pkt.connmark) && WordsMatch(ws[4..], pkt)
    else if |ws| < 5 then false
    else if ws[..5] == [T("-p"), T("tcp"), T("--tcp-flags"), T("SYN,RST"), T("SYN")] then pkt.tcpSyn && WordsMatch(ws[5..], pkt)
    else false
  }

  /** The words after -j. */
  function TargetWords(ws: seq<Word>): seq<Word> {
    if ws == [] then []
    else if ws[0] == T("-j") then ws[1..]
    else TargetWords(ws[1..])
  }

  function ReadAction(ws: seq<Word>): Option<Action> {
    if ws == [T("ACCEPT")] then Some(Accept)
    else if ws == [T("MASQUERADE")] then Some(Masquerade)
    else if ws == [T("CONNMARK"), T("--restore-mark")] then Some(RestoreMark)
    else if ws == [T("TCPMSS"), T("--clamp-mss-to-pmtu")] then Some(ClampToPmtu)
    else if |ws| != 3 || ws[2].P? then None
    else if ws[..2] == [T("CONNMARK"), T("--set-mark")] then Some(SetConnmark(ws[2].text))
    else if ws[..2] == [T("MARK"), T("--set-mark")] then Some(SetMark(ws[2].text))
    else if ws[..2] == [T("TCPMSS"), T("--set-mss")] then Some(SetMss(ws[2].text))
    else if ws[..2] == [T("DSCP"), T("--set-dscp")] then Some(SetDscp(ws[2].text))
    else None
  }

  lemma OptionsDiffer()
    ensures T("-i") != T("-j") && T("-o") != T("-j") && T("-o") != T("-i") && T("-s") != T("-j") && T("-s") != T("-i") && T("-s") != T("-o")
    ensures T("!") != T("-j") && T("!") != T("-i") && T("!") != T("-o") && T("!") != T("-s")
    ensures T("-p") != T("-j") && T("-p") != T("-i") && T("-p") != T("-o") && T("-p") != T("-s") && T("-p") != T("!") && T("-p") != T("-m")
    ensures T("-m") != T("-j") && T("-m") != T("-i") && T("-m") != T("-o") && T("-m") != T("-s") && T("-m") != T("!")
  {
    assert "-i"[1] != "-j"[1] && "-o"[1] != "-j"[1] && "-o"[1] != "-i"[1] && "-s"[1] != "-j"[1] && "-s"[1] != "-i"[1];
    assert "-s"[1] != "-o"[1] && "!"[0] != '-';
  }

  /** One condition at a time. */
  lemma ReadIn(x: string, rest: seq<Word>, pkt: HostPacket)
    ensures WordsMatch([T("-i"), T(x)] + rest, pkt) <==> x == pkt.iif && WordsMatch(rest, pkt)
  {
    OptionsDiffer();
    assert ([T("-i"), T(x)] + rest)[2..] == rest;
  }

  lemma ReadOut(x: string, rest: seq<Word>, pkt: HostPacket)
    ensures WordsMatch([T("-o"), T(x)] + rest, pkt) <==> x == pkt.oif && WordsMatch(rest, pkt)
  {
    OptionsDiffer();
    assert ([T("-o"), T(x)] + rest)[2..] == rest;
  }

  lemma ReadSource(p: Prefix, rest: seq<Word>, pkt: HostPacket)
    ensures WordsMatch([T("-s"), P(p)] + rest, pkt) <==> Contains(p, pkt.saddr) && WordsMatch(rest, pkt)
  {
    OptionsDiffer();
    assert ([T("-s"), P(p)] + rest)[2..] == rest;
  }

  lemma ReadNotIn(x: string, rest: seq<Word>, pkt: HostPacket)
    requires rest != []
    ensures WordsMatch([T("!"), T("-i"), T(x)] + rest, pkt) <==> x != pkt.iif && WordsMatch(rest, pkt)
  {
    OptionsDiffer();
    var ws := [T("!"), T("-i"), T(x)] + rest;
    assert ws[..2] == [T("!"), T("-i")] && ws[3..] == rest;
  }

  lemma ReadNotOut(x: string, rest: seq<Word>, pkt: HostPacket)
    requires rest != []
    ensures WordsMatch([T("!"), T("-o"), T(x)] + rest, pkt) <==> x != pkt.oif && WordsMatch(rest, pkt)
  {
    OptionsDiffer();
    var ws := [T("!"), T("-o"), T(x)] + rest;
    assert ws[..2] == [T("!"), T("-o")] && ws[1] != T("-i") && ws[3..] == rest;
  }

  lemma ReadMark(x: string, rest: seq<Word>, pkt: HostPacket)
    ensures WordsMatch([T("-m"), T("connmark"), T("--mark"), T(x)] + rest, pkt) <==> x == pkt.connmark && WordsMatch(rest, pkt)
  {
    OptionsDiffer();
    var ws := [T("-m"), T("connmark"), T("--mark"), T(x)] + rest;
    assert ws[..3] == [T("-m"), T("connmark"), T("--mark")] && ws[..2][0] == T("-m") && ws[4..] == rest;
  }

  lemma ReadSyn(rest: seq<Word>, pkt: HostPacket)
    ensures WordsMatch([T("-p"), T("tcp"), T("--tcp-flags"), T("SYN,RST"), T("SYN")] + rest, pkt) <==> pkt.tcpSyn && WordsMatch(rest, pkt)
  {
    OptionsDiffer();
    var ws := [T("-p"), T("tcp"), T("--tcp-flags"), T("SYN,RST"), T("SYN")] + rest;
    assert ws[..5] == [T("-p"), T("tcp"), T("--tcp-flags"), T("SYN,RST"), T("SYN")] && ws[5..] == rest;
    assert ws[..2][0] == T("-p") && ws[..3][0] == T("-p");
  }

  lemma ReadJump(target: seq<Word>, pkt: HostPacket)
    requires target != []
    ensures WordsMatch([T("-j")] + target, pkt)
  {
  }

  lemma OneCondition(option: Word, x: string, target: seq<Word>, pkt: HostPacket)
    requires target != [] && (option == T("-i") || option == T("-o"))
    ensures WordsMatch([option, T(x)] + ([T("-j")] + target), pkt) <==> x == if option == T("-i") then pkt.iif else pkt.oif
  {
    OptionsDiffer();
    ReadJump(target, pkt);
    ReadIn(x, [T("-j")] + target, pkt);
    ReadOut(x, [T("-j")] + target, pkt);
  }

  lemma SynOut(dev: string, target: seq<Word>, pkt: HostPacket)
    requires target != []
    ensures WordsMatch([T("-o"), T(dev)] + ([T("-p"), T("tcp"), T("--tcp-flags"), T("SYN,RST"), T("SYN")] + ([T("-j")] + target)), pkt)
      <==> dev == pkt.oif && pkt.tcpSyn
  {
    ReadJump(target, pkt);
    ReadSyn([T("-j")] + target, pkt);
    ReadOut(dev, [T("-p"), T("tcp"), T("--tcp-flags"), T("SYN,RST"), T("SYN")] + ([T("-j")] + target), pkt);
  }

  lemma TextMatchesMangle(x: Spec, iface: string, pkt: HostPacket)
    requires x.Clamp? || x.ExitSetMark? || x.ExitRestoreMark? || x.ExitClamp? || x.XkeenDscp? || x.XkeenMark?
    ensures WordsMatch(SpecWords(x, iface), pkt) <==> SpecMatches(x, iface, pkt)
  {
    var ws := SpecWords(x, iface);
    var syn := [T("-p"), T("tcp"), T("--tcp-flags"), T("SYN,RST"), T("SYN")];
    match x
    case Clamp =>
      SynOut(iface, [T("TCPMSS"), T("--set-mss"), T("1280")], pkt);
      assert ws == [T("-o"), T(iface)] + (syn + ([T("-j")] + [T("TCPMSS"), T("--set-mss"), T("1280")]));
    case ExitClamp =>
      SynOut("ipip-hub", [T("TCPMSS"), T("--clamp-mss-to-pmtu")], pkt);
      assert ws == [T("-o"), T("ipip-hub")] + (syn + ([T("-j")] + [T("TCPMSS"), T("--clamp-mss-to-pmtu")]));
    case ExitSetMark =>
      OneCondition(T("-i"), "ipip-hub", [T("CONNMARK"), T("--set-mark"), T("0x33")], pkt);
      assert ws == [T("-i"), T("ipip-hub")] + ([T("-j")] + [T("CONNMARK"), T("--set-mark"), T("0x33")]);
    case ExitRestoreMark =>
      ReadJump([T("CONNMARK"), T("--restore-mark")], pkt);
      ReadNotIn("ipip-hub", [T("-j")] + [T("CONNMARK"), T("--restore-mark")], pkt);
      assert ws == [T("!"), T("-i"), T("ipip-hub")] + ([T("-j")] + [T("CONNMARK"), T("--restore-mark")]);
    case XkeenDscp =>
      OneCondition(T("-i"), "ipip-hub", [T("DSCP"), T("--set-dscp"), T("0x3f")], pkt);
      assert ws == [T("-i"), T("ipip-hub")] + ([T("-j")] + [T("DSCP"), T("--set-dscp"), T("0x3f")]);
    case XkeenMark =>
      ReadJump([T("MARK"), T("--set-mark"), T("0x33")], pkt);
      ReadMark("0x33", [T("-j")] + [T("MARK"), T("--set-mark"), T("0x33")], pkt);
      assert ws == [T("-m"), T("connmark"), T("--mark"), T("0x33")] + ([T("-j")] + [T("MARK"), T("--set-mark"), T("0x33")]);
  }

  /** What the words say of which packets is what the rule is for. */
  lemma TextMatches(x: Spec, iface: string, pkt: HostPacket)
    requires !x.Foreign?
    ensures WordsMatch(SpecWords(x, iface), pkt) <==> SpecMatches(x, iface, pkt)
  {
    var ws := SpecWords(x, iface);
    match x
    case PoolMasquerade(pool) =>
      var jump := [T("-j")] + [T("MASQUERADE")];
      ReadJump([T("MASQUERADE")], pkt);
      ReadNotOut(iface, jump, pkt);
      ReadSource(pool, [T("!"), T("-o"), T(iface)] + jump, pkt);
      assert ws == [T("-s"), P(pool)] + ([T("!"), T("-o"), T(iface)] + jump);
    case ReachMasquerade(reach, lan) =>
      var jump := [T("-j")] + [T("MASQUERADE")];
      ReadJump([T("MASQUERADE")], pkt);
      ReadOut(lan, jump, pkt);
      ReadSource(reach, [T("-o"), T(lan)] + jump, pkt);
      assert ws == [T("-s"), P(reach)] + ([T("-o"), T(lan)] + jump);
    case FromTunnelAccept =>
      var jump := [T("-j")] + [T("ACCEPT")];
      ReadJump([T("ACCEPT")], pkt);
      ReadNotOut(iface, jump, pkt);
      ReadIn(iface, [T("!"), T("-o"), T(iface)] + jump, pkt);
      assert ws == [T("-i"), T(iface)] + ([T("!"), T("-o"), T(iface)] + jump);
    case ToTunnelAccept =>
      var jump := [T("-j")] + [T("ACCEPT")];
      ReadJump([T("ACCEPT")], pkt);
      ReadOut(iface, jump, pkt);
      ReadNotIn(iface, [T("-o"), T(iface)] + jump, pkt);
      assert ws == [T("!"), T("-i"), T(iface)] + ([T("-o"), T(iface)] + jump);
    case InputAccept => OneCondition(T("-i"), iface, [T("ACCEPT")], pkt);
      assert ws == [T("-i"), T(iface)] + ([T("-j")] + [T("ACCEPT")]);
    case ExitInAccept => OneCondition(T("-i"), "ipip-hub", [T("ACCEPT")], pkt);
      assert ws == [T("-i"), T("ipip-hub")] + ([T("-j")] + [T("ACCEPT")]);
    case ExitOutAccept => OneCondition(T("-o"), "ipip-hub", [T("ACCEPT")], pkt);
      assert ws == [T("-o"), T("ipip-hub")] + ([T("-j")] + [T("ACCEPT")]);
    case _ => TextMatchesMangle(x, iface, pkt);
  }

  lemma {:induction false} TargetAfter(conds: seq<Word>, target: seq<Word>)
    requires T("-j") !in conds
    ensures TargetWords(conds + ([T("-j")] + target)) == target
  {
    var ws := conds + ([T("-j")] + target);
    if conds == [] {
      assert ws == [T("-j")] + target && ws[1..] == target;
    } else {
      assert ws[1..] == conds[1..] + ([T("-j")] + target);
      TargetAfter(conds[1..], target);
    }
  }

  /** The words after -j of each rule. */
  function Target(x: Spec): seq<Word>
    requires !x.Foreign?
  {
    match x
    case PoolMasquerade(_) => [T("MASQUERADE")]
    case ReachMasquerade(_, _) => [T("MASQUERADE")]
    case Clamp => [T("TCPMSS"), T("--set-mss"), T("1280")]
    case ExitSetMark => [T("CONNMARK"), T("--set-mark"), T("0x33")]
    case ExitRestoreMark => [T("CONNMARK"), T("--restore-mark")]
    case ExitClamp => [T("TCPMSS"), T("--clamp-mss-to-pmtu")]
    case XkeenDscp => [T("DSCP"), T("--set-dscp"), T("0x3f")]
    case XkeenMark => [T("MARK"), T("--set-mark"), T("0x33")]
    case _ => [T("ACCEPT")]
  }

  lemma ActionRead(x: Spec)
    requires !x.Foreign?
    ensures ReadAction(Target(x)) == Some(ActionOf(x))
  {
    assert "MASQUERADE"[0] != "ACCEPT"[0] && "CONNMARK"[0] != "MARK"[0] && "TCPMSS"[0] != "DSCP"[0];
    assert "TCPMSS"[0] != "MARK"[0] && "TCPMSS"[0] != "CONNMARK"[0] && "DSCP"[0] != "MARK"[0] && "DSCP"[0] != "CONNMARK"[0];
    var t := Target(x);
    if |t| == 3 {
      assert t[..2] == [t[0], t[1]];
    } else if |t| == 2 {
      assert t[0] == T("CONNMARK") || t[0] == T("TCPMSS");
    }
  }

  lemma NoJumpInLan(x: Spec, iface: string)
    requires x.PoolMasquerade? || x.ReachMasquerade? || x.FromTunnelAccept? || x.ToTunnelAccept? || x.InputAccept? || x.Clamp?
    requires iface != "-j" && (x.ReachMasquerade? ==> x.lan != "-j")
    ensures forall i :: 0 <= i < |SpecWords(x, iface)| - |Target(x)| - 1 ==> SpecWords(x, iface)[i] != T("-j")
  {
    OptionsDiffer();
    assert "tcp"[0] != '-' && "SYN,RST"[0] != '-' && "SYN"[0] != '-' && "--tcp-flags"[1] != 'j';
  }

  lemma NoJumpInExit(x: Spec, iface: string)
    requires x.ExitInAccept? || x.ExitOutAccept? || x.ExitSetMark? || x.ExitRestoreMark? || x.ExitClamp? || x.XkeenDscp? || x.XkeenMark?
    ensures forall i :: 0 <= i < |SpecWords(x, iface)| - |Target(x)| - 1 ==> SpecWords(x, iface)[i] != T("-j")
  {
    OptionsDiffer();
    assert "tcp"[0] != '-' && "SYN,RST"[0] != '-' && "SYN"[0] != '-' && "--tcp-flags"[1] != 'j';
    assert "ipip-hub"[0] != '-' && "connmark"[0] != '-' && "0x33"[0] != '-' && "--mark"[1] != 'j';
  }

  lemma TargetAtEnd(x: Spec, iface: string)
    requires !x.Foreign?
    ensures var ws, n := SpecWords(x, iface), |SpecWords(x, iface)| - |Target(x)| - 1;
      n >= 0 && ws == ws[..n] + ([T("-j")] + Target(x))
  {
  }

  /** And what they do with them is what the rule does. */
  lemma TextActs(x: Spec, iface: string)
    requires !x.Foreign? && iface != "-j" && (x.ReachMasquerade? ==> x.lan != "-j")
    ensures ReadAction(TargetWords(SpecWords(x, iface))) == Some(ActionOf(x))
  {
    var ws, n := SpecWords(x, iface), |SpecWords(x, iface)| - |Target(x)| - 1;
    if x.PoolMasquerade? || x.ReachMasquerade? || x.FromTunnelAccept? || x.ToTunnelAccept? || x.InputAccept? || x.Clamp? {
      NoJumpInLan(x, iface);
    } else {
      NoJumpInExit(x, iface);
    }
    TargetAtEnd(x, iface);
    TargetAfter(ws[..n], Target(x));
    ActionRead(x);
  }

  /** A whole command: the table after -t, the verb, the chain, and the rule. */
  datatype Command = Command(verb: Verb, chain: Chain, rule: seq<Word>)

  function ReadVerb(w: Word): Option<Verb> {
    if w == T("-A") then Some(Append) else if w == T("-I") then Some(InsertHead) else if w == T("-D") then Some(Delete) else None
  }

  function ReadCommand(ws: seq<Word>): Option<Command> {
    if |ws| < 3 || ws[0] != T("iptables") || ws[1].P? || ws[2].P? then None
    else if ws[1] != T("-t") then
      var v := ReadVerb(ws[1]);
      if v.None? then None else Some(Command(v.value, Filter(ws[2].text), ws[3..]))
    else if |ws| < 5 || ws[4].P? then None
    else
      var v := ReadVerb(ws[3]);
      if v.None? then None
      else if ws[2] == T("nat") then Some(Command(v.value, Nat(ws[4].text), ws[5..]))
      else if ws[2] == T("mangle") then Some(Command(v.value, Mangle(ws[4].text), ws[5..]))
      else None
  }

  lemma VerbRead(v: Verb)
    ensures ReadVerb(VerbWord(v)) == Some(v) && VerbWord(v) != T("-t")
  {
    assert "-A"[1] != "-I"[1] && "-A"[1] != "-D"[1] && "-I"[1] != "-D"[1] && "-t"[1] != "-A"[1] && "-t"[1] != "-I"[1] && "-t"[1] != "-D"[1];
  }

  /** A printed line is read back as its verb, table, chain and rule. */
  lemma LineRead(l: NodeScripts.Line, iface: string)
    requires l.Ipt?
    ensures ReadCommand(RuleWords(VerbWord(l.verb), l.chain, l.spec, iface)) == Some(Command(l.verb, l.chain, SpecWords(l.spec, iface)))
  {
    var ws := RuleWords(VerbWord(l.verb), l.chain, l.spec, iface);
    VerbRead(l.verb);
    assert "nat"[0] != "mangle"[0];
    match l.chain
    case Filter(name) => assert ws[1] == VerbWord(l.verb) && ws[2] == T(name) && ws[3..] == SpecWords(l.spec, iface);
    case Nat(name) => assert ws[1] == T("-t") && ws[2] == T("nat") && ws[3] == VerbWord(l.verb) && ws[4] == T(name) && ws[5..] == SpecWords(l.spec, iface);
    case Mangle(name) => assert ws[1] == T("-t") && ws[2] == T("mangle") && ws[3] == VerbWord(l.verb) && ws[4] == T(name) && ws[5..] == SpecWords(l.spec, iface);
  }

  /** The rest of a printed line: nothing, or the words that make the shell forget a failure. */
  lemma ToleranceRead(l: NodeScripts.Line, iface: string)
    requires l.Ipt?
    ensures var command := RuleWords(VerbWord(l.verb), l.chain, l.spec, iface);
      Printed(l, iface) == if l.tolerated then command + [T("||"), T("true")] else command + []
  {
  }

  /** A guarded line asks for XKeen's start script, then for the rule, and adds that same rule to that
      same chain if it is missing. */
  lemma GuardedRead(l: NodeScripts.Line, iface: string) returns (probe: seq<Word>, add: seq<Word>)
    requires l.Guarded?
    ensures Printed(l, iface) ==
      [T("["), T("-x"), T("/opt/etc/init.d/S05xkeen"), T("]"), T("&&"), T("{")] + probe + [T("||")] + add
      + [T(";"), T("}"), T("||"), T("true")]
    ensures ReadCommand(add) == Some(Command(l.verb, l.chain, SpecWords(l.spec, iface)))
    ensures probe == add[|add| - |SpecWords(l.spec, iface)| - 2 := T("-C")]
  {
    probe, add := RuleWords(T("-C"), l.chain, l.spec, iface), RuleWords(VerbWord(l.verb), l.chain, l.spec, iface);
    LineRead(Ipt(l.verb, l.chain, l.spec, true), iface);
  }

  // ---------------------------------------------------------------- first match

  /** What the host's own rules decide of a packet; None when such a rule does not match or goes on. */
  type HostRules = (string, HostPacket) -> Option<Action>

  /** First match first. Of the node's rules only those that accept or rewrite the source end up
      here; they all end the walk. */
  function Decide(q: seq<Spec>, iface: string, host: HostRules, pkt: HostPacket): Option<Action> {
    if q == [] then None
    else
      var d :=
        match q[0]
        case Foreign(text) => host(text, pkt)
        case x => if SpecMatches(x, iface, pkt) then Some(ActionOf(x)) else None;
      if d.Some? then d else Decide(q[1..], iface, host, pkt)
  }

  /** Rules that come first decide alike: any that matches accepts. */
  lemma {:induction false} FirstAccepts(heads: seq<Spec>, rest: seq<Spec>, iface: string, host: HostRules, pkt: HostPacket)
    requires forall x :: x in heads ==> !x.Foreign? && ActionOf(x) == Accept
    requires exists x :: x in heads && SpecMatches(x, iface, pkt)
    ensures Decide(heads + rest, iface, host, pkt) == Some(Accept)
  {
    var q := heads + rest;
    assert q[0] == heads[0] && q[1..] == heads[1..] + rest;
    if !SpecMatches(heads[0], iface, pkt) {
      FirstAccepts(heads[1..], rest, iface, host, pkt);
    }
  }

  /** What a list puts at the head of a chain, the last line's rule first, and at its end. */
  function Heads(h: Caps, ls: seq<NodeScripts.Line>, c: Chain): seq<Spec> {
    if ls == [] then []
    else
      var l := ls[|ls| - 1];
      (if l.Ipt? && l.verb.InsertHead? && l.chain == c && l.spec !in h.lacks then [l.spec] else []) + Heads(h, ls[..|ls| - 1], c)
  }

  function Tails(h: Caps, ls: seq<NodeScripts.Line>, c: Chain): seq<Spec> {
    if ls == [] then []
    else
      var l := ls[|ls| - 1];
      Tails(h, ls[..|ls| - 1], c) + if l.Ipt? && l.verb.Append? && l.chain == c && l.spec !in h.lacks then [l.spec] else []
  }

  /** Lines that only add to a chain, without probing. */
  predicate AddsPlainly(l: NodeScripts.Line, c: Chain) {
    !Deletes(l) && !(l.Guarded? && l.chain == c)
  }

  lemma Regroup(x: Spec, heads: seq<Spec>, q: seq<Spec>, tails: seq<Spec>)
    ensures [x] + (heads + q + tails) == ([x] + heads) + q + tails
    ensures (heads + q + tails) + [x] == heads + q + (tails + [x])
  {
  }

  lemma ChainAfterLine(h: Caps, s: HostState, l: NodeScripts.Line, c: Chain)
    requires AddsPlainly(l, c)
    ensures var q := At(s, c); var t := if Exec(h, s, l).Some? then At(Exec(h, s, l).value, c) else q;
      if l.Ipt? && l.chain == c && l.spec !in h.lacks then
        (if l.verb.InsertHead? then t == [l.spec] + q else t == q + [l.spec])
      else t == q
  {
  }

  /** The chain after a bring-up: what was inserted, what was there, what was appended. */
  lemma {:induction false} ChainAfterUp(h: Caps, s: HostState, ls: seq<NodeScripts.Line>, c: Chain)
    requires RunAll(h, s, ls).ok && forall l :: l in ls ==> AddsPlainly(l, c)
    ensures At(RunAll(h, s, ls).state, c) == Heads(h, ls, c) + At(s, c) + Tails(h, ls, c)
  {
    if ls != [] {
      var p, l := ls[..|ls| - 1], ls[|ls| - 1];
      assert ls == p + [l] && l in ls;
      ChainAfterUp(h, s, p, c);
      ChainAfterLine(h, RunAll(h, s, p).state, l, c);
      if !l.Ip? {
        Regroup(l.spec, Heads(h, p, c), At(s, c), Tails(h, p, c));
      }
      assert [] + Heads(h, p, c) == Heads(h, p, c) && Tails(h, p, c) + [] == Tails(h, p, c);
    }
  }

  lemma {:induction false} HeadIff(h: Caps, ls: seq<NodeScripts.Line>, c: Chain, x: Spec)
    ensures x in Heads(h, ls, c) <==>
      exists l :: l in ls && l.Ipt? && l.verb.InsertHead? && l.chain == c && l.spec == x && x !in h.lacks
  {
    if ls != [] {
      var p, l := ls[..|ls| - 1], ls[|ls| - 1];
      assert ls == p + [l];
      HeadIff(h, p, c, x);
      if k :| k in ls && k.Ipt? && k.verb.InsertHead? && k.chain == c && k.spec == x && x !in h.lacks {
        assert k in p || k == l;
      }
    }
  }

  lemma {:induction false} TailIff(h: Caps, ls: seq<NodeScripts.Line>, c: Chain, x: Spec)
    ensures x in Tails(h, ls, c) <==>
      exists l :: l in ls && l.Ipt? && l.verb.Append? && l.chain == c && l.spec == x && x !in h.lacks
  {
    if ls != [] {
      var p, l := ls[..|ls| - 1], ls[|ls| - 1];
      assert ls == p + [l];
      TailIff(h, p, c, x);
      if k :| k in ls && k.Ipt? && k.verb.Append? && k.chain == c && k.spec == x && x !in h.lacks {
        assert k in p || k == l;
      }
    }
  }

  // ---------------------------------------------------------------- what a bring-up lets through

  lemma UpAddsPlainly(pool: Prefix, reach: seq<Prefix>, lan: string, c: Chain)
    requires !c.Mangle?
    ensures forall l :: l in PostUp(pool, reach, lan) ==> AddsPlainly(l, c)
  {
    UpIsShaped(pool, reach, lan);
  }

  /** The node's lines on the two filter chains all accept, and all go to the head. */
  lemma FilterLinesOfUp(pool: Prefix, reach: seq<Prefix>, lan: string, l: NodeScripts.Line)
    requires l in PostUp(pool, reach, lan) && l.Ipt? && l.chain.Filter?
    ensures l.verb.InsertHead? && !l.spec.Foreign? && ActionOf(l.spec) == Accept
  {
    if l in ReachUp(reach, lan) {
    } else if l in UpLan(pool, reach, lan) {
    } else if l in UpExit() {
    }
  }

  lemma HeadsAccept(h: Caps, pool: Prefix, reach: seq<Prefix>, lan: string, name: string)
    ensures forall x :: x in Heads(h, PostUp(pool, reach, lan), Filter(name)) ==> !x.Foreign? && ActionOf(x) == Accept
  {
    var ls := PostUp(pool, reach, lan);
    forall x | x in Heads(h, ls, Filter(name)) ensures !x.Foreign? && ActionOf(x) == Accept {
      HeadIff(h, ls, Filter(name), x);
      var l :| l in ls && l.Ipt? && l.verb.InsertHead? && l.chain == Filter(name) && l.spec == x;
      FilterLinesOfUp(pool, reach, lan, l);
    }
  }

  lemma LineIsAtHead(h: Caps, pool: Prefix, reach: seq<Prefix>, lan: string, l: NodeScripts.Line)
    requires l in PostUp(pool, reach, lan) && l.Ipt? && l.chain.Filter? && l.spec !in h.lacks
    ensures l.spec in Heads(h, PostUp(pool, reach, lan), l.chain)
  {
    FilterLinesOfUp(pool, reach, lan, l);
    HeadIff(h, PostUp(pool, reach, lan), l.chain, l.spec);
  }

  lemma HeadsDecide(
    heads: seq<Spec>, q: seq<Spec>, tails: seq<Spec>, x: Spec, iface: string, host: HostRules, pkt: HostPacket)
    requires forall y :: y in heads ==> !y.Foreign? && ActionOf(y) == Accept
    requires x in heads && SpecMatches(x, iface, pkt)
    ensures Decide(heads + q + tails, iface, host, pkt) == Some(Accept)
  {
    FirstAccepts(heads, q + tails, iface, host, pkt);
    assert heads + q + tails == heads + (q + tails);
  }

  /** A rule the bring-up inserts decides before everything the chain held. */
  lemma InsertedRuleDecides(
    h: Caps, s: HostState, pool: Prefix, reach: seq<Prefix>, lan: string, iface: string, host: HostRules,
    l: NodeScripts.Line, pkt: HostPacket)
    requires RunAll(h, s, PostUp(pool, reach, lan)).ok
    requires l in PostUp(pool, reach, lan) && l.Ipt? && l.chain.Filter? && l.spec !in h.lacks
    requires SpecMatches(l.spec, iface, pkt)
    ensures Decide(At(RunAll(h, s, PostUp(pool, reach, lan)).state, l.chain), iface, host, pkt) == Some(Accept)
  {
    var ls, c := PostUp(pool, reach, lan), l.chain;
    UpAddsPlainly(pool, reach, lan, c);
    ChainAfterUp(h, s, ls, c);
    LineIsAtHead(h, pool, reach, lan, l);
    HeadsAccept(h, pool, reach, lan, c.name);
    HeadsDecide(Heads(h, ls, c), At(s, c), Tails(h, ls, c), l.spec, iface, host, pkt);
  }

  /** After a bring-up the host forwards everything between the tunnel and any other interface, and
      takes in everything that arrives by the tunnel, whatever rules it had before. */
  lemma TunnelPacketsPass(
    h: Caps, s: HostState, pool: Prefix, reach: seq<Prefix>, lan: string, iface: string, host: HostRules, pkt: HostPacket)
    requires RunAll(h, s, PostUp(pool, reach, lan)).ok
    ensures var t := RunAll(h, s, PostUp(pool, reach, lan)).state;
      && ((pkt.iif == iface) != (pkt.oif == iface) ==> Decide(At(t, Filter("FORWARD")), iface, host, pkt) == Some(Accept))
      && (pkt.iif == iface ==> Decide(At(t, Filter("INPUT")), iface, host, pkt) == Some(Accept))
  {
    BringUpSucceedsIff(h, s, pool, reach, lan);
    MandatoryLinesOfUp(pool, reach, lan);
    if pkt.iif == iface && pkt.oif != iface {
      InsertedRuleDecides(h, s, pool, reach, lan, iface, host, Ipt(InsertHead, Filter("FORWARD"), FromTunnelAccept, false), pkt);
    }
    if pkt.iif != iface && pkt.oif == iface {
      InsertedRuleDecides(h, s, pool, reach, lan, iface, host, Ipt(InsertHead, Filter("FORWARD"), ToTunnelAccept, false), pkt);
    }
    if pkt.iif == iface {
      InsertedRuleDecides(h, s, pool, reach, lan, iface, host, Ipt(InsertHead, Filter("INPUT"), InputAccept, false), pkt);
    }
  }

  lemma ExitLinesOfUp(pool: Prefix, reach: seq<Prefix>, lan: string)
    ensures var ls := PostUp(pool, reach, lan);
      && Ipt(InsertHead, Filter("FORWARD"), ExitInAccept, true) in ls
      && Ipt(InsertHead, Filter("FORWARD"), ExitOutAccept, true) in ls
      && Ipt(Append, Mangle("PREROUTING"), ExitSetMark, true) in ls
      && Ipt(Append, Mangle("PREROUTING"), ExitRestoreMark, true) in ls
  {
    var ls := PostUp(pool, reach, lan);
    assert forall l :: l in UpExit() ==> l in ls;
    assert UP_EXIT_FORWARD[0] in UpExit() && UP_EXIT_FORWARD[1] in UpExit();
    assert UP_EXIT_MANGLE[0] in UpExit() && UP_EXIT_MANGLE[1] in UpExit();
  }

  /** On a host that could add the exit rules, everything that arrives or leaves by the exit device is
      forwarded, whatever rules it had before. */
  lemma ExitPacketsPass(
    h: Caps, s: HostState, pool: Prefix, reach: seq<Prefix>, lan: string, iface: string, host: HostRules, pkt: HostPacket)
    requires RunAll(h, s, PostUp(pool, reach, lan)).ok && ExitInAccept !in h.lacks && ExitOutAccept !in h.lacks
    requires pkt.iif == "ipip-hub" || pkt.oif == "ipip-hub"
    ensures Decide(At(RunAll(h, s, PostUp(pool, reach, lan)).state, Filter("FORWARD")), iface, host, pkt) == Some(Accept)
  {
    ExitLinesOfUp(pool, reach, lan);
    if pkt.iif == "ipip-hub" {
      InsertedRuleDecides(h, s, pool, reach, lan, iface, host, Ipt(InsertHead, Filter("FORWARD"), ExitInAccept, true), pkt);
    } else {
      InsertedRuleDecides(h, s, pool, reach, lan, iface, host, Ipt(InsertHead, Filter("FORWARD"), ExitOutAccept, true), pkt);
    }
  }

  // ---------------------------------------------------------------- what a bring-up masquerades

  lemma {:induction false} DecideConcat(a: seq<Spec>, b: seq<Spec>, iface: string, host: HostRules, pkt: HostPacket)
    ensures Decide(a + b, iface, host, pkt) ==
      if Decide(a, iface, host, pkt).Some? then Decide(a, iface, host, pkt) else Decide(b, iface, host, pkt)
  {
    if a == [] {
      assert a + b == b;
    } else {
      assert (a + b)[0] == a[0] && (a + b)[1..] == a[1..] + b;
      DecideConcat(a[1..], b, iface, host, pkt);
    }
  }

  lemma {:induction false} OwnMasquerade(q: seq<Spec>, iface: string, host: HostRules, pkt: HostPacket)
    requires forall x :: x in q ==> !x.Foreign? && ActionOf(x) == Masquerade
    ensures Decide(q, iface, host, pkt) == if exists x :: x in q && SpecMatches(x, iface, pkt) then Some(Masquerade) else None
  {
    if q != [] {
      assert q[0] in q && forall x :: x in q[1..] ==> x in q;
      OwnMasquerade(q[1..], iface, host, pkt);
      assert forall x :: x in q ==> x == q[0] || x in q[1..];
    }
  }

  lemma NatLinesOfUp(pool: Prefix, reach: seq<Prefix>, lan: string, l: NodeScripts.Line)
    requires l in PostUp(pool, reach, lan) && l.Ipt? && l.chain.Nat?
    ensures l.verb.Append? && (l.spec == PoolMasquerade(pool) || exists r :: r in reach && l.spec == ReachMasquerade(r, lan))
  {
    if l in ReachUp(reach, lan) {
      var i :| 0 <= i < |reach| && l == ReachUp(reach, lan)[i];
      assert reach[i] in reach;
    } else if l in UpLan(pool, reach, lan) {
    } else if l in UpExit() {
    }
  }

  lemma NatLinesAppend(h: Caps, pool: Prefix, reach: seq<Prefix>, lan: string, x: Spec)
    requires x in Tails(h, PostUp(pool, reach, lan), Nat("POSTROUTING"))
    ensures x == PoolMasquerade(pool) || exists r :: r in reach && x == ReachMasquerade(r, lan)
  {
    var ls, c := PostUp(pool, reach, lan), Nat("POSTROUTING");
    TailIff(h, ls, c, x);
    var l :| l in ls && l.Ipt? && l.verb.Append? && l.chain == c && l.spec == x && x !in h.lacks;
    NatLinesOfUp(pool, reach, lan, l);
  }

  lemma NatLinesThere(h: Caps, pool: Prefix, reach: seq<Prefix>, lan: string, x: Spec)
    requires CanServeLan(h, pool, reach, lan)
    requires x == PoolMasquerade(pool) || exists r :: r in reach && x == ReachMasquerade(r, lan)
    ensures x in Tails(h, PostUp(pool, reach, lan), Nat("POSTROUTING"))
  {
    MandatoryLinesOfUp(pool, reach, lan);
    var l := Ipt(Append, Nat("POSTROUTING"), x, false);
    assert l in PostUp(pool, reach, lan) && l.verb.Append? && x !in h.lacks;
    TailIff(h, PostUp(pool, reach, lan), Nat("POSTROUTING"), x);
  }

  lemma NothingBeforeNat(h: Caps, pool: Prefix, reach: seq<Prefix>, lan: string)
    ensures Heads(h, PostUp(pool, reach, lan), Nat("POSTROUTING")) == []
  {
    var ls, c := PostUp(pool, reach, lan), Nat("POSTROUTING");
    if Heads(h, ls, c) != [] {
      var y := Heads(h, ls, c)[0];
      HeadIff(h, ls, c, y);
      var l :| l in ls && l.Ipt? && l.verb.InsertHead? && l.chain == c && l.spec == y && y !in h.lacks;
      NatLinesOfUp(pool, reach, lan, l);
    }
  }

  /** A list of the masquerade rules and nothing else. */
  ghost predicate MasqueradeRules(q: seq<Spec>, pool: Prefix, reach: seq<Prefix>, lan: string) {
    forall x :: x in q <==> x == PoolMasquerade(pool) || exists r :: r in reach && x == ReachMasquerade(r, lan)
  }

  lemma MasqueradeMatches(q: seq<Spec>, pool: Prefix, reach: seq<Prefix>, lan: string, iface: string, pkt: HostPacket)
    requires MasqueradeRules(q, pool, reach, lan)
    ensures forall x :: x in q ==> !x.Foreign? && ActionOf(x) == Masquerade
    ensures (exists x :: x in q && SpecMatches(x, iface, pkt)) <==>
      (Contains(pool, pkt.saddr) && pkt.oif != iface) || (Covers(reach, pkt.saddr) && pkt.oif == lan)
  {
    assert PoolMasquerade(pool) in q;
    if Covers(reach, pkt.saddr) && pkt.oif == lan {
      var r :| r in reach && Contains(r, pkt.saddr);
      assert ReachMasquerade(r, lan) in q;
    }
  }

  lemma UpMasquerades(h: Caps, pool: Prefix, reach: seq<Prefix>, lan: string)
    requires CanServeLan(h, pool, reach, lan)
    ensures MasqueradeRules(Tails(h, PostUp(pool, reach, lan), Nat("POSTROUTING")), pool, reach, lan)
  {
    var tails := Tails(h, PostUp(pool, reach, lan), Nat("POSTROUTING"));
    forall x ensures x in tails <==> x == PoolMasquerade(pool) || exists r :: r in reach && x == ReachMasquerade(r, lan) {
      if x in tails {
        NatLinesAppend(h, pool, reach, lan, x);
      }
      if x == PoolMasquerade(pool) || exists r :: r in reach && x == ReachMasquerade(r, lan) {
        NatLinesThere(h, pool, reach, lan, x);
      }
    }
  }

  /** Where no rule of the host's own decides, what is masqueraded after a bring-up is exactly the pool
      leaving by anything but the tunnel, and a linked LAN leaving by this node's own. */
  lemma MasqueradeIsExact(
    h: Caps, s: HostState, pool: Prefix, reach: seq<Prefix>, lan: string, iface: string, host: HostRules, pkt: HostPacket)
    requires RunAll(h, s, PostUp(pool, reach, lan)).ok
    requires Decide(At(s, Nat("POSTROUTING")), iface, host, pkt).None?
    ensures Decide(At(RunAll(h, s, PostUp(pool, reach, lan)).state, Nat("POSTROUTING")), iface, host, pkt) ==
      if (Contains(pool, pkt.saddr) && pkt.oif != iface) || (Covers(reach, pkt.saddr) && pkt.oif == lan) then Some(Masquerade) else None
  {
    var ls, c := PostUp(pool, reach, lan), Nat("POSTROUTING");
    BringUpSucceedsIff(h, s, pool, reach, lan);
    UpAddsPlainly(pool, reach, lan, c);
    ChainAfterUp(h, s, ls, c);
    NothingBeforeNat(h, pool, reach, lan);
    var tails := Tails(h, ls, c);
    assert At(RunAll(h, s, ls).state, c) == At(s, c) + tails;
    DecideConcat(At(s, c), tails, iface, host, pkt);
    UpMasquerades(h, pool, reach, lan);
    MasqueradeMatches(tails, pool, reach, lan, iface, pkt);
    OwnMasquerade(tails, iface, host, pkt);
  }

  // ---------------------------------------------------------------- the exit's return path

  /** What one rule does to the marks. */
  function MarkedBy(x: Spec, iface: string, pkt: HostPacket): HostPacket {
    if !SpecMatches(x, iface, pkt) then pkt
    else
      match ActionOf(x)
      case SetConnmark(value) => pkt.(connmark := value)
      case RestoreMark => pkt.(mark := pkt.connmark)
      case SetMark(value) => pkt.(mark := value)
      case _ => pkt
  }

  /** The marks after a walk of a mangle chain. The host's own rules there are taken to leave marks
      alone; none of the rules here ends the walk. */
  function Marked(q: seq<Spec>, iface: string, pkt: HostPacket): HostPacket {
    if q == [] then pkt else Marked(q[1..], iface, MarkedBy(q[0], iface, pkt))
  }

  /** A packet that arrives by the exit device marks its connection; any other takes the mark of its
      connection. */
  lemma {:induction false} MarksExact(q: seq<Spec>, iface: string, pkt: HostPacket)
    requires XkeenMark !in q
    ensures var m := Marked(q, iface, pkt);
      && m.iif == pkt.iif && m.oif == pkt.oif
      && (pkt.iif == "ipip-hub" ==>
            m.mark == pkt.mark && m.connmark == if ExitSetMark in q then EXIT_MARK else pkt.connmark)
      && (pkt.iif != "ipip-hub" ==>
            m.connmark == pkt.connmark && m.mark == if ExitRestoreMark in q then pkt.connmark else pkt.mark)
  {
    if q != [] {
      assert q == [q[0]] + q[1..];
      MarksExact(q[1..], iface, MarkedBy(q[0], iface, pkt));
    }
  }

  lemma LineKeepsRule(h: Caps, s: HostState, l: NodeScripts.Line, c: Chain, x: Spec)
    requires !Deletes(l) && x in At(s, c) && Exec(h, s, l).Some?
    ensures x in At(Exec(h, s, l).value, c)
  {
  }

  lemma LineAddsRule(h: Caps, s: HostState, l: NodeScripts.Line)
    requires !Deletes(l) && l.Ipt? && l.spec !in h.lacks
    ensures Exec(h, s, l).Some? && l.spec in At(Exec(h, s, l).value, l.chain)
  {
  }

  lemma {:induction false} AddedRuleIsThere(h: Caps, s: HostState, ls: seq<NodeScripts.Line>, l: NodeScripts.Line)
    requires RunAll(h, s, ls).ok && (forall k :: k in ls ==> !Deletes(k))
    requires l in ls && l.Ipt? && l.spec !in h.lacks
    ensures l.spec in At(RunAll(h, s, ls).state, l.chain)
  {
    var p, last := ls[..|ls| - 1], ls[|ls| - 1];
    assert ls == p + [last];
    var o := RunAll(h, s, p);
    if l in p {
      AddedRuleIsThere(h, s, p, l);
      assert last in ls && !Deletes(last);
      if Exec(h, o.state, last).Some? {
        LineKeepsRule(h, o.state, last, l.chain, l.spec);
      }
    } else {
      LineAddsRule(h, o.state, l);
    }
  }

  lemma OnlyAddedByLine(h: Caps, s: HostState, l: NodeScripts.Line, c: Chain, x: Spec)
    requires !Deletes(l) && x !in At(s, c) && (l.Ip? || l.chain != c || l.spec != x) && Exec(h, s, l).Some?
    ensures x !in At(Exec(h, s, l).value, c)
  {
  }

  lemma {:induction false} OnlyAddedRules(h: Caps, s: HostState, ls: seq<NodeScripts.Line>, c: Chain, x: Spec)
    requires forall l :: l in ls ==> !Deletes(l)
    requires x !in At(s, c) && forall l :: l in ls && !l.Ip? ==> l.chain != c || l.spec != x
    ensures x !in At(RunAll(h, s, ls).state, c)
  {
    if ls != [] {
      var p, l := ls[..|ls| - 1], ls[|ls| - 1];
      assert ls == p + [l] && l in ls;
      OnlyAddedRules(h, s, p, c, x);
      if Exec(h, RunAll(h, s, p).state, l).Some? {
        OnlyAddedByLine(h, RunAll(h, s, p).state, l, c, x);
      }
    }
  }

  /** Table 133 and the rule that sends marked packets to it. */
  predicate ExitRouted(s: HostState) {
    "fwmark 0x33 lookup 133 pref 1330" in s.ipRules && s.exitRoute && s.tunnel.Some? && s.tunnel.value.up
  }

  /** Where a packet leaves: a marked one by table 133, any other by the main route. */
  function LeavesBy(s: HostState, pkt: HostPacket, main: string): string {
    if ExitRouted(s) && pkt.mark == "0x33" then "ipip-hub" else main
  }

  /** A host on which nothing of the exit is refused. */
  predicate CanExit(h: Caps) {
    && h.tunnels && h.policyRules && h.routes
    && ExitInAccept !in h.lacks && ExitOutAccept !in h.lacks && ExitSetMark !in h.lacks && ExitRestoreMark !in h.lacks
  }

  lemma TunnelUpRuns(h: Caps, s: HostState)
    requires h.tunnels && s.tunnel.None?
    ensures var o := RunAll(h, s, UP_TUNNEL);
      && o.ok && o.state.tunnel.Some? && o.state.ipRules == s.ipRules
      && o.state.tunnel.value.up && o.state.tunnel.value.addressed && (h.rpFilter ==> o.state.tunnel.value.looseRp)
  {
    var a, b, c, d := [Ip(TunnelAdd, true)], [Ip(TunnelAddr, true)], [Ip(TunnelUp, true)], [Ip(TunnelRpFilter, true)];
    assert UP_TUNNEL == ((a + b) + c) + d && a[..0] == [] == b[..0] == c[..0] == d[..0];
    RunConcat(h, s, (a + b) + c, d);
    RunConcat(h, s, a + b, c);
    RunConcat(h, s, a, b);
  }

  lemma PolicyUpRuns(h: Caps, s: HostState)
    requires h.policyRules && h.routes && s.tunnel.Some? && s.tunnel.value.up && MARK_RULE !in s.ipRules
    ensures RunAll(h, s, UP_POLICY).ok && ExitRouted(RunAll(h, s, UP_POLICY).state)
    ensures RunAll(h, s, UP_POLICY).state.tunnel == s.tunnel
  {
    var a, b := [Ip(MarkRuleAdd, true)], [Ip(ExitRouteReplace, true)];
    assert UP_POLICY == a + b && a[..0] == [] == b[..0];
    RunConcat(h, s, a, b);
  }

  lemma SysctlKeepsRouting(h: Caps, s: HostState)
    ensures var t := RunAll(h, s, UP_SYSCTL).state; t.tunnel == s.tunnel && t.ipRules == s.ipRules
  {
  }

  /** A bring-up of a host without leftovers that can do everything ends with the exit routed, by a
      device that has an address and, where the host can set it, a loose reverse-path filter. */
  lemma BringUpRoutesTheExit(h: Caps, s: HostState, pool: Prefix, reach: seq<Prefix>, lan: string)
    requires RunAll(h, s, PostUp(pool, reach, lan)).ok && CanExit(h)
    requires s.tunnel.None? && MARK_RULE !in s.ipRules
    ensures var t := RunAll(h, s, PostUp(pool, reach, lan)).state;
      ExitRouted(t) && t.tunnel.value.addressed && (h.rpFilter ==> t.tunnel.value.looseRp)
  {
    var a := UpLan(pool, reach, lan);
    RunConcat(h, s, UP_SYSCTL + a + UP_TUNNEL + UpExit() + UP_POLICY, UP_XKEEN);
    RunConcat(h, s, UP_SYSCTL + a + UP_TUNNEL + UpExit(), UP_POLICY);
    RunConcat(h, s, UP_SYSCTL + a + UP_TUNNEL, UpExit());
    RunConcat(h, s, UP_SYSCTL + a, UP_TUNNEL);
    RunConcat(h, s, UP_SYSCTL, a);
    var s0 := RunAll(h, s, UP_SYSCTL).state;
    var s1 := RunAll(h, s0, a).state;
    var s2 := RunAll(h, s1, UP_TUNNEL).state;
    var s3 := RunAll(h, s2, UpExit()).state;
    var s4 := RunAll(h, s3, UP_POLICY).state;
    SysctlKeepsRouting(h, s);
    FilterLinesKeepRouting(h, s0, a);
    TunnelUpRuns(h, s1);
    FilterLinesKeepRouting(h, s2, UpExit());
    PolicyUpRuns(h, s3);
    FilterLinesKeepRouting(h, s4, UP_XKEEN);
  }

  lemma NoXkeenMarkBefore(pool: Prefix, reach: seq<Prefix>, lan: string)
    ensures forall l :: l in PostUp(pool, reach, lan) && !l.Ip? ==> l.chain != Mangle("PREROUTING") || l.spec != XkeenMark
  {
    assert "PREROUTING"[0] != "OUTPUT"[0];
    forall l | l in PostUp(pool, reach, lan) && !l.Ip? && l.spec == XkeenMark ensures l.chain != Mangle("PREROUTING") {
      if l in ReachUp(reach, lan) {
      } else if l in UpLan(pool, reach, lan) {
      } else if l in UpExit() {
      } else {
        assert l in UP_XKEEN;
      }
    }
  }

  /** A flow that came in by the exit device is answered through it: its first packet marks the
      connection, and every reply, from wherever it arrives, takes that mark and leaves by the exit
      device; the packets of other connections leave as the main table says. */
  lemma ExitReplyRetraces(
    h: Caps, s: HostState, pool: Prefix, reach: seq<Prefix>, lan: string, iface: string,
    first: HostPacket, reply: HostPacket, main: string)
    requires RunAll(h, s, PostUp(pool, reach, lan)).ok && CanExit(h)
    requires s.tunnel.None? && MARK_RULE !in s.ipRules && XkeenMark !in At(s, Mangle("PREROUTING"))
    requires first.iif == "ipip-hub" && reply.iif != "ipip-hub"
    ensures var t := RunAll(h, s, PostUp(pool, reach, lan)).state;
      var q := At(t, Mangle("PREROUTING"));
      && (reply.connmark == Marked(q, iface, first).connmark ==> LeavesBy(t, Marked(q, iface, reply), main) == "ipip-hub")
      && (reply.connmark == "" ==> LeavesBy(t, Marked(q, iface, reply), main) == main)
  {
    var ls := PostUp(pool, reach, lan);
    var q := At(RunAll(h, s, ls).state, Mangle("PREROUTING"));
    UpIsShaped(pool, reach, lan);
    ExitLinesOfUp(pool, reach, lan);
    AddedRuleIsThere(h, s, ls, Ipt(Append, Mangle("PREROUTING"), ExitSetMark, true));
    AddedRuleIsThere(h, s, ls, Ipt(Append, Mangle("PREROUTING"), ExitRestoreMark, true));
    NoXkeenMarkBefore(pool, reach, lan);
    OnlyAddedRules(h, s, ls, Mangle("PREROUTING"), XkeenMark);
    MarksExact(q, iface, first);
    MarksExact(q, iface, reply);
    BringUpRoutesTheExit(h, s, pool, reach, lan);
  }

  // ---------------------------------------------------------------- segment sizes and the proxy's rules

  lemma MangleLinesOfUp(pool: Prefix, reach: seq<Prefix>, lan: string)
    ensures var ls := PostUp(pool, reach, lan);
      && Ipt(Append, Mangle("FORWARD"), Clamp, true) in ls && Ipt(Append, Mangle("OUTPUT"), Clamp, true) in ls
      && Ipt(Append, Mangle("FORWARD"), ExitClamp, true) in ls
  {
    var ls := PostUp(pool, reach, lan);
    assert forall l :: l in UpExit() ==> l in ls;
    assert forall l :: l in UpLan(pool, reach, lan) ==> l in ls;
    assert UP_CLAMP[0] in UpLan(pool, reach, lan) && UP_CLAMP[1] in UpLan(pool, reach, lan);
    assert UP_EXIT_MANGLE[2] in UpExit();
  }

  /** Where the host can clamp, it does: connections through the tunnel, forwarded or its own, to 1280,
      and forwarded ones through the exit device to the path's size. */
  lemma ClampsAreThere(h: Caps, s: HostState, pool: Prefix, reach: seq<Prefix>, lan: string, iface: string, pkt: HostPacket)
    requires RunAll(h, s, PostUp(pool, reach, lan)).ok && Clamp !in h.lacks && ExitClamp !in h.lacks && pkt.tcpSyn
    ensures var t := RunAll(h, s, PostUp(pool, reach, lan)).state;
      && (pkt.oif == iface ==> forall c :: c in {Mangle("FORWARD"), Mangle("OUTPUT")} ==>
            exists x :: x in At(t, c) && SpecMatches(x, iface, pkt) && !x.Foreign? && ActionOf(x) == SetMss("1280"))
      && (pkt.oif == "ipip-hub" ==>
            exists x :: x in At(t, Mangle("FORWARD")) && SpecMatches(x, iface, pkt) && !x.Foreign? && ActionOf(x) == ClampToPmtu)
  {
    var ls := PostUp(pool, reach, lan);
    UpIsShaped(pool, reach, lan);
    MangleLinesOfUp(pool, reach, lan);
    AddedRuleIsThere(h, s, ls, Ipt(Append, Mangle("FORWARD"), Clamp, true));
    AddedRuleIsThere(h, s, ls, Ipt(Append, Mangle("OUTPUT"), Clamp, true));
    AddedRuleIsThere(h, s, ls, Ipt(Append, Mangle("FORWARD"), ExitClamp, true));
  }

  lemma XkeenLinesRun(h: Caps, s: HostState)
    requires h.xkeen && XkeenDscp !in h.lacks && XkeenMark !in h.lacks
    ensures var t := RunAll(h, s, UP_XKEEN).state;
      && XkeenDscp in At(t, Mangle("PREROUTING")) && XkeenMark in At(t, Mangle("OUTPUT"))
      && (XkeenDscp !in At(s, Mangle("PREROUTING")) ==> At(t, Mangle("PREROUTING"))[0] == XkeenDscp)
  {
    var a, b := [UP_XKEEN[0]], [UP_XKEEN[1]];
    assert UP_XKEEN == a + b && a[..0] == [] == b[..0];
    RunConcat(h, s, a, b);
    assert "PREROUTING"[0] != "OUTPUT"[0];
  }

  lemma NoXkeenBefore(pool: Prefix, reach: seq<Prefix>, lan: string)
    ensures forall l :: l in UP_SYSCTL + UpLan(pool, reach, lan) + UP_TUNNEL + UpExit() + UP_POLICY ==>
      !Deletes(l) && (!l.Ip? ==> l.spec != XkeenDscp)
  {
    forall l | l in UP_SYSCTL + UpLan(pool, reach, lan) + UP_TUNNEL + UpExit() + UP_POLICY
      ensures !Deletes(l) && (!l.Ip? ==> l.spec != XkeenDscp)
    {
      if l in ReachUp(reach, lan) {
      } else if l in UpLan(pool, reach, lan) {
      } else if l in UpExit() {
      }
    }
  }

  /** On a host with XKeen the tagging rule ends up first in PREROUTING, before whatever the firmware
      has there, unless it stood in the chain already, and the re-marking rule in OUTPUT. */
  lemma XkeenRulesAreThere(h: Caps, s: HostState, pool: Prefix, reach: seq<Prefix>, lan: string)
    requires RunAll(h, s, PostUp(pool, reach, lan)).ok && h.xkeen && XkeenDscp !in h.lacks && XkeenMark !in h.lacks
    ensures var t := RunAll(h, s, PostUp(pool, reach, lan)).state;
      && XkeenDscp in At(t, Mangle("PREROUTING")) && XkeenMark in At(t, Mangle("OUTPUT"))
      && (XkeenDscp !in At(s, Mangle("PREROUTING")) ==> At(t, Mangle("PREROUTING"))[0] == XkeenDscp)
  {
    var before := UP_SYSCTL + UpLan(pool, reach, lan) + UP_TUNNEL + UpExit() + UP_POLICY;
    RunConcat(h, s, before, UP_XKEEN);
    XkeenLinesRun(h, RunAll(h, s, before).state);
    NoXkeenBefore(pool, reach, lan);
    if XkeenDscp !in At(s, Mangle("PREROUTING")) {
      OnlyAddedRules(h, s, before, Mangle("PREROUTING"), XkeenDscp);
    }
  }
}

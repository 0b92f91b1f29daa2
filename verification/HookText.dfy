/** The text the replay hook works on (scripts/install.sh): it cuts a PostUp line at the first
    "||" and turns the first -I or -A into -C, and asks iptables the result. Here that rewrite is
    shown to ask exactly whether the line's own rule is present. Lines are lists of words; a
    printed prefix is one word that iptables reads back as the same prefix. */
module HookText {
  import opened Basics
  import opened Net
  import opened NodeScripts
  import opened ScriptUndo
  import opened Replay

  datatype Word = T(text: string) | P(prefix: Prefix)

  const EXIT_DEV := "ipip-hub"

  // ---------------------------------------------------------------- printing

  /** The words after the chain's name, on a node whose tunnel interface is `iface`. */
  function SpecWords(x: Spec, iface: string): seq<Word> {
    match x
    case PoolMasquerade(pool) => [T("-s"), P(pool), T("!"), T("-o"), T(iface), T("-j"), T("MASQUERADE")]
    case ReachMasquerade(reach, lan) => [T("-s"), P(reach), T("-o"), T(lan), T("-j"), T("MASQUERADE")]
    case FromTunnelAccept => [T("-i"), T(iface), T("!"), T("-o"), T(iface), T("-j"), T("ACCEPT")]
    case ToTunnelAccept => [T("!"), T("-i"), T(iface), T("-o"), T(iface), T("-j"), T("ACCEPT")]
    case InputAccept => [T("-i"), T(iface), T("-j"), T("ACCEPT")]
    case Clamp =>
      [T("-o"), T(iface), T("-p"), T("tcp"), T("--tcp-flags"), T("SYN,RST"), T("SYN"), T("-j"), T("TCPMSS"), T("--set-mss"), T("1280")]
    case ExitInAccept => [T("-i"), T(EXIT_DEV), T("-j"), T("ACCEPT")]
    case ExitOutAccept => [T("-o"), T(EXIT_DEV), T("-j"), T("ACCEPT")]
    case ExitSetMark => [T("-i"), T(EXIT_DEV), T("-j"), T("CONNMARK"), T("--set-mark"), T("0x33")]
    case ExitRestoreMark => [T("!"), T("-i"), T(EXIT_DEV), T("-j"), T("CONNMARK"), T("--restore-mark")]
    case ExitClamp =>
      [T("-o"), T(EXIT_DEV), T("-p"), T("tcp"), T("--tcp-flags"), T("SYN,RST"), T("SYN"), T("-j"), T("TCPMSS"), T("--clamp-mss-to-pmtu")]
    case XkeenDscp => [T("-i"), T(EXIT_DEV), T("-j"), T("DSCP"), T("--set-dscp"), T("0x3f")]
    case XkeenMark =>
      [T("-m"), T("connmark"), T("--mark"), T("0x33"), T("-j"), T("MARK"), T("--set-mark"), T("0x33")]
    case Foreign(text) => [T(text)]
  }

  function TableWords(c: Chain): seq<Word> {
    match c
    case Filter(_) => []
    case Nat(_) => [T("-t"), T("nat")]
    case Mangle(_) => [T("-t"), T("mangle")]
  }

  function VerbWord(v: Verb): Word {
    match v
    case Append => T("-A")
    case InsertHead => T("-I")
    case Delete => T("-D")
  }

  /** The words before the verb. */
  function Head(c: Chain): seq<Word> {
    [T("iptables")] + TableWords(c)
  }

  function RuleWords(verb: Word, c: Chain, x: Spec, iface: string): seq<Word> {
    Head(c) + [verb] + ([T(c.name)] + SpecWords(x, iface))
  }

  function IpWords(cmd: IpCmd): seq<Word> {
    match cmd
    case ForwardSysctl => [T("sysctl"), T("-w"), T("net.ipv4.ip_forward=1")]
    case TunnelRpFilter => [T("sysctl"), T("-w"), T("net.ipv4.conf.ipip-hub.rp_filter=2")]
    case _ => [T("ip")]
  }

  function Tail(tolerated: bool): seq<Word> {
    if tolerated then [T("||"), T("true")] else []
  }

  /** A line as the hook reads it; of a line that does not start with iptables only the start
      matters. */
  function Printed(l: Line, iface: string): seq<Word> {
    match l
    case Ipt(v, c, x, tolerated) => RuleWords(VerbWord(v), c, x, iface) + Tail(tolerated)
    case Guarded(v, c, x) =>
      [T("["), T("-x"), T("/opt/etc/init.d/S05xkeen"), T("]"), T("&&"), T("{")] + RuleWords(T("-C"), c, x, iface)
      + [T("||")] + RuleWords(VerbWord(v), c, x, iface) + [T(";"), T("}"), T("||"), T("true")]
    case Ip(cmd, tolerated) => IpWords(cmd) + Tail(tolerated)
  }

  // ---------------------------------------------------------------- rewriting

  /** sed's first expression: drop everything from the first "||" on. */
  function CutOr(ws: seq<Word>): seq<Word> {
    if ws == [] || ws[0] == T("||") then [] else [ws[0]] + CutOr(ws[1..])
  }

  /** sed's second expression: the first -I or -A that has a word on each side becomes -C.
      `first` says that nothing stands before the words yet. */
  function Probing(ws: seq<Word>, first: bool): seq<Word> {
    if |ws| <= 1 then ws
    else if !first && (ws[0] == T("-I") || ws[0] == T("-A")) then [T("-C")] + ws[1..]
    else [ws[0]] + Probing(ws[1..], false)
  }

  function Rewritten(ws: seq<Word>): seq<Word> {
    Probing(CutOr(ws), true)
  }

  /** What iptables answers to a -C line: some chain holds the rule the words describe. */
  ghost predicate Holds(s: HostState, ws: seq<Word>, iface: string) {
    exists c, x :: x in At(s, c) && ws == RuleWords(T("-C"), c, x, iface)
  }

  /** The hook's decision to skip a line. */
  ghost predicate TextProbe(s: HostState, ws: seq<Word>, iface: string) {
    && ws != [] && (ws[0] == T("iptables") || ws[0] == T("ip6tables"))
    && Rewritten(ws) != ws && Holds(s, Rewritten(ws), iface)
  }

  // ---------------------------------------------------------------- the rewrite is exact

  predicate NoOr(ws: seq<Word>) {
    T("||") !in ws
  }

  lemma {:induction false} CutAtTail(ws: seq<Word>, tolerated: bool)
    requires NoOr(ws)
    ensures CutOr(ws + Tail(tolerated)) == ws
  {
    if ws == [] {
      assert CutOr(Tail(tolerated)) == [];
      assert ws + Tail(tolerated) == Tail(tolerated);
    } else {
      assert (ws + Tail(tolerated))[1..] == ws[1..] + Tail(tolerated);
      CutAtTail(ws[1..], tolerated);
    }
  }

  predicate IsVerb(w: Word) {
    w == T("-I") || w == T("-A")
  }

  /** The first verb with a word on each side is the one replaced. */
  lemma {:induction false} FirstVerb(pre: seq<Word>, verb: Word, rest: seq<Word>, first: bool)
    requires IsVerb(verb) && rest != [] && (forall w :: w in pre ==> !IsVerb(w)) && (first ==> pre != [])
    ensures Probing(pre + ([verb] + rest), first) == pre + ([T("-C")] + rest)
  {
    if pre == [] {
      assert pre + ([verb] + rest) == [verb] + rest && ([verb] + rest)[1..] == rest;
    } else {
      var ws := pre + ([verb] + rest);
      assert ws[1..] == pre[1..] + ([verb] + rest);
      assert pre[0] in pre && ws[0] == pre[0];
      FirstVerb(pre[1..], verb, rest, false);
      assert pre + ([T("-C")] + rest) == [pre[0]] + (pre[1..] + ([T("-C")] + rest));
    }
  }

  /** The head of a rule holds no verb, so the rule's own verb is the one replaced. */
  lemma VerbIsFirst(verb: Word, c: Chain, rest: seq<Word>)
    requires IsVerb(verb) && rest != []
    ensures Probing(Head(c) + [verb] + rest, true) == Head(c) + [T("-C")] + rest
  {
    assert "iptables"[0] != '-' && "nat"[0] != '-' && "mangle"[0] != '-' && "-t"[1] != 'I' && "-t"[1] != 'A';
    FirstVerb(Head(c), verb, rest, true);
    assert Head(c) + [verb] + rest == Head(c) + ([verb] + rest);
    assert Head(c) + [T("-C")] + rest == Head(c) + ([T("-C")] + rest);
  }

  /** A line with nothing in it that the rewrite could mistake for the shell's "||". */
  predicate Plain(l: Line, iface: string) {
    l.Ipt? && T(l.chain.name) != T("||") && NoOr(SpecWords(l.spec, iface))
  }

  lemma RewriteAsksForTheRule(l: Line, iface: string)
    requires Plain(l, iface) && Adds(l)
    ensures Rewritten(Printed(l, iface)) == RuleWords(T("-C"), l.chain, l.spec, iface)
    ensures Printed(l, iface)[0] == T("iptables") && Rewritten(Printed(l, iface)) != Printed(l, iface)
  {
    var ws := RuleWords(VerbWord(l.verb), l.chain, l.spec, iface);
    var rest := [T(l.chain.name)] + SpecWords(l.spec, iface);
    CutAtTail(ws, l.tolerated);
    VerbIsFirst(VerbWord(l.verb), l.chain, rest);
    var n := |Head(l.chain)|;
    assert Printed(l, iface)[n] == VerbWord(l.verb) && RuleWords(T("-C"), l.chain, l.spec, iface)[n] == T("-C");
  }

  // ---------------------------------------------------------------- one rule per text

  /** Reads a specification back from its words. */
  function Decode(ws: seq<Word>, iface: string): Option<Spec> {
    if |ws| == 1 then (if ws[0].T? then Some(Foreign(ws[0].text)) else None)
    else if |ws| == 4 then
      if ws[0] == T("-o") then Some(ExitOutAccept)
      else if ws[1] == T(iface) then Some(InputAccept)
      else Some(ExitInAccept)
    else if |ws| == 6 then
      if ws[0] == T("-s") then (if ws[1].P? && ws[3].T? then Some(ReachMasquerade(ws[1].prefix, ws[3].text)) else None)
      else if ws[0] == T("!") then Some(ExitRestoreMark)
      else if ws[3] == T("DSCP") then Some(XkeenDscp)
      else Some(ExitSetMark)
    else if |ws| == 7 then
      if ws[0] == T("-s") then (if ws[1].P? then Some(PoolMasquerade(ws[1].prefix)) else None)
      else if ws[0] == T("!") then Some(ToTunnelAccept)
      else Some(FromTunnelAccept)
    else if |ws| == 8 then Some(XkeenMark)
    else if |ws| == 10 then Some(ExitClamp)
    else if |ws| == 11 then Some(Clamp)
    else None
  }

  lemma DecodeSpec(x: Spec, iface: string)
    requires iface != EXIT_DEV
    ensures Decode(SpecWords(x, iface), iface) == Some(x)
  {
    assert T("-o") != T("-i") && T("-s") != T("-i") && T("!") != T("-i") && T("-s") != T("!") && T("-o") != T("!");
    match x
    case ExitInAccept => assert T(EXIT_DEV) != T(iface);
    case ExitSetMark => assert T("CONNMARK") != T("DSCP");
    case _ =>
  }

  /** The words up to the verb tell the table. */
  lemma SameHead(c: Chain, d: Chain, rest: seq<Word>, others: seq<Word>)
    requires Head(c) + [T("-C")] + rest == Head(d) + [T("-C")] + others
    ensures Head(c) == Head(d) && rest == others
  {
    var ws, vs := Head(c) + [T("-C")] + rest, Head(d) + [T("-C")] + others;
    assert T("-t") != T("-C") && T("nat") != T("mangle");
    assert ws[1] == (if c.Filter? then T("-C") else T("-t"));
    assert vs[1] == (if d.Filter? then T("-C") else T("-t"));
    assert c.Filter? <==> d.Filter?;
    if !c.Filter? {
      assert ws[2] == TableWords(c)[1] && vs[2] == TableWords(d)[1];
    }
    assert ws[|Head(c)| + 1..] == rest && vs[|Head(d)| + 1..] == others;
  }

  lemma SameChain(c: Chain, d: Chain)
    requires Head(c) == Head(d) && c.name == d.name
    ensures c == d
  {
    assert T("nat") != T("mangle");
    if !c.Filter? {
      assert Head(c)[2] == TableWords(c)[1] && |Head(d)| == 3;
      assert Head(d)[2] == TableWords(d)[1];
    }
  }

  lemma SameSpec(x: Spec, y: Spec, iface: string)
    requires iface != EXIT_DEV && SpecWords(x, iface) == SpecWords(y, iface)
    ensures x == y
  {
    DecodeSpec(x, iface);
    DecodeSpec(y, iface);
  }

  /** Two rules with the same -C line are the same rule of the same chain. */
  lemma OneRulePerText(c: Chain, x: Spec, d: Chain, y: Spec, iface: string)
    requires iface != EXIT_DEV && RuleWords(T("-C"), c, x, iface) == RuleWords(T("-C"), d, y, iface)
    ensures c == d && x == y
  {
    var rest, others := [T(c.name)] + SpecWords(x, iface), [T(d.name)] + SpecWords(y, iface);
    SameHead(c, d, rest, others);
    assert rest[0] == others[0] && rest[1..] == SpecWords(x, iface) && others[1..] == SpecWords(y, iface);
    SameChain(c, d);
    SameSpec(x, y, iface);
  }

  // ---------------------------------------------------------------- the probe

  lemma SpecIsPlain(x: Spec, iface: string)
    requires !x.Foreign? && iface != "||" && (x.ReachMasquerade? ==> x.lan != "||")
    ensures NoOr(SpecWords(x, iface))
  {
    var ws := SpecWords(x, iface);
    forall i | 0 <= i < |ws| ensures ws[i] != T("||") {
      if ws[i].T? && ws[i].text != iface && !(x.ReachMasquerade? && i == 3) {
        assert ws[i].text[0] != '|';
      }
    }
  }

  lemma UpIsPlain(pool: Prefix, reach: seq<Prefix>, lan: string, iface: string, l: Line)
    requires l in PostUp(pool, reach, lan) && l.Ipt? && lan != "||" && iface != "||"
    ensures Plain(l, iface) && !l.spec.Foreign?
  {
    UpIsShaped(pool, reach, lan);
    if l in ReachUp(reach, lan) {
    } else if l in UpLan(pool, reach, lan) {
    } else if l in UpExit() {
    }
    assert l.chain.name[0] != '|';
    SpecIsPlain(l.spec, iface);
  }

  /** On every line of the rendered PostUp list the textual probe says exactly whether the line's
      rule is present; lines that are not plain iptables commands are never probed. The LAN
      interface's name is one the panel accepts, so it is not the shell's "||". */
  lemma ProbeIsExact(s: HostState, pool: Prefix, reach: seq<Prefix>, lan: string, iface: string, l: Line)
    requires l in PostUp(pool, reach, lan) && lan != "||" && iface != "||" && iface != EXIT_DEV
    ensures TextProbe(s, Printed(l, iface), iface) <==> ProbeFinds(s, l)
  {
    if l.Ipt? {
      UpIsShaped(pool, reach, lan);
      UpIsPlain(pool, reach, lan, iface, l);
      RewriteAsksForTheRule(l, iface);
      if Holds(s, Rewritten(Printed(l, iface)), iface) {
        var c, x :| x in At(s, c) && Rewritten(Printed(l, iface)) == RuleWords(T("-C"), c, x, iface);
        OneRulePerText(c, x, l.chain, l.spec, iface);
      }
    } else {
      assert T("[") != T("iptables") && T("[") != T("ip6tables");
      assert T("ip") != T("iptables") && T("ip") != T("ip6tables") && T("sysctl") != T("iptables") && T("sysctl") != T("ip6tables");
    }
  }
}

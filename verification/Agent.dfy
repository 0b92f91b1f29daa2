/** The node agent's configuration files and poll loop (cmd/nodeagent/main.go): what the config
    file holds after any sequence of pushes and edits, and what goes wrong when two of them run
    at once, since nothing serialises them. */
module Agent {
  import opened Basics

  // ---------------------------------------------------------------- what the agent owns

  /** The config file, its backup, and the config the interface runs, if it is up. */
  datatype Files = Files(conf: Option<string>, bak: Option<string>, live: Option<string>)

  /** What the host answers during one call: is awg-quick on PATH, does the interface go down, does
      the new config come up, and does the restored one. */
  datatype Host = Host(quick: bool, down: bool, up: bool, upAgain: bool)

  /** What one poll of the panel returns. */
  datatype Answer =
    | Gone
    | Failed
    | Report(status: string, config: string)

  datatype Event =
    | Poll(answer: Answer, host: Host)
    | Edit(text: string, host: Host)

  /** What still runs after awg-quick was asked to take the interface down; its failure is
      ignored. */
  function Downed(live: Option<string>, h: Host): Option<string> {
    if h.quick && h.down then None else live
  }

  /** One call of writeAndApply: back up, overwrite, down, up, and on failure restore. */
  function Applied(f: Files, config: string, h: Host): Files {
    var bak := if f.conf.Some? then f.conf else f.bak;
    if !h.quick then Files(Some(config), bak, f.live)
    else if h.up then Files(Some(config), bak, Some(config))
    else if bak.Some? then Files(bak, bak, if h.upAgain then bak else Downed(f.live, h))
    else Files(Some(config), bak, Downed(f.live, h))
  }

  datatype AgentState = AgentState(
    files: Files, panel: string, token: string, status: string, lastApplied: string, restarts: nat)

  predicate HasInterface(text: string) {
    exists i :: 0 <= i <= |text| && "[Interface]" <= text[i..]
  }

  function AfterApply(s: AgentState, config: string, h: Host): AgentState {
    s.(files := Applied(s.files, config, h), restarts := s.restarts + if h.quick then 1 else 0)
  }

  lemma HasInterfaceIff(text: string)
    ensures HasInterface(text) <==> exists before: string, after: string :: text == before + "[Interface]" + after
  {
    var tag := "[Interface]";
    if i :| 0 <= i <= |text| && tag <= text[i..] {
      assert text == text[..i] + tag + text[i..][|tag|..];
    }
    if before: string, after: string :| text == before + tag + after {
      assert text[|before|..] == tag + after;
    }
  }

  /** Whether a report makes the agent apply a config. */
  predicate Pushes(s: AgentState, a: Answer) {
    && s.panel != "" && s.token != ""
    && a.Report? && a.status == "active" && a.config != "" && a.config != s.lastApplied
  }

  function AfterPoll(s: AgentState, a: Answer, h: Host): AgentState {
    if s.panel == "" || s.token == "" then s
    else
      match a
      case Gone => AgentState(Files(None, None, Downed(s.files.live, h)), "", "", "", "", s.restarts + 1)
      case Failed => s
      case Report(status, config) =>
        var t := s.(status := status);
        if !Pushes(s, a) then t
        else AfterApply(t, config, h).(lastApplied := if h.quick && h.up then config else s.lastApplied)
  }

  function AfterEdit(s: AgentState, text: string, h: Host): AgentState {
    if HasInterface(text) then AfterApply(s, text, h) else s
  }

  class NodeAgent {
    var files: Files
    var panel: string
    var token: string
    var status: string
    var lastApplied: string
    /** How often awg-quick was asked to take the interface down. */
    var restarts: nat

    constructor (files: Files, panel: string, token: string)
      ensures this.files == files && this.panel == panel && this.token == token
      ensures status == "" && lastApplied == "" && restarts == 0
    {
      this.files, this.panel, this.token := files, panel, token;
      status, lastApplied, restarts := "", "", 0;
    }

    method WriteAndApply(config: string, h: Host) returns (ok: bool)
      modifies this`files, this`restarts
      ensures files == Applied(old(files), config, h)
      ensures ok <==> h.quick && h.up
      ensures restarts == old(restarts) + if h.quick then 1 else 0
    {
      if files.conf.Some? {
        files := files.(bak := files.conf);
      }
      files := files.(conf := Some(config));
      if !h.quick {
        return false;
      }
      files := files.(live := Downed(files.live, h));
      restarts := restarts + 1;
      if h.up {
        files := files.(live := Some(config));
        return true;
      }
      if files.bak.Some? {
        files := files.(conf := files.bak);
        if h.upAgain {
          files := files.(live := files.conf);
        }
      }
      return false;
    }

    /** Asks awg-quick to bring the interface down, whatever comes of it, and removes both files. */
    method Teardown(h: Host)
      modifies this`files, this`restarts
      ensures files == Files(None, None, Downed(old(files).live, h)) && restarts == old(restarts) + 1
    {
      files := files.(live := Downed(files.live, h));
      restarts := restarts + 1;
      files := files.(conf := None);
      files := files.(bak := None);
    }

    method Reset()
      modifies this`panel, this`token, this`status
      ensures panel == "" && token == "" && status == ""
    {
      panel, token, status := "", "", "";
    }

    ghost function Now(): AgentState
      reads this
    {
      AgentState(files, panel, token, status, lastApplied, restarts)
    }

    /** One turn of the poll loop. */
    method PollOnce(answer: Answer, h: Host)
      modifies this
      ensures Now() == AfterPoll(old(Now()), answer, h)
    {
      if panel == "" || token == "" {
        return;
      }
      match answer
      case Gone =>
        Teardown(h);
        Reset();
        lastApplied := "";
      case Failed =>
      case Report(s, config) =>
        status := s;
        if s == "active" && config != "" && config != lastApplied {
          var ok := WriteAndApply(config, h);
          if ok {
            lastApplied := config;
          }
        }
    }

    /** The web editor's save: refuses a text without an [Interface] section. */
    method ApplyEdit(text: string, h: Host) returns (ok: bool)
      modifies this
      ensures Now() == AfterEdit(old(Now()), text, h)
      ensures ok <==> HasInterface(text) && h.quick && h.up
    {
      if !HasInterface(text) {
        return false;
      }
      ok := WriteAndApply(text, h);
    }
  }

  // ---------------------------------------------------------------- the agent as a state machine

  function After(s: AgentState, e: Event): AgentState {
    match e
    case Poll(a, h) => AfterPoll(s, a, h)
    case Edit(text, h) => AfterEdit(s, text, h)
  }

  function Run(s: AgentState, es: seq<Event>): AgentState {
    if es == [] then s else After(Run(s, es[..|es| - 1]), es[|es| - 1])
  }

  // ---------------------------------------------------------------- last good config

  /** The config an event hands to writeAndApply, if any. */
  function Attempt(s: AgentState, e: Event): Option<string> {
    match e
    case Poll(a, _) => if Pushes(s, a) then Some(a.config) else None
    case Edit(text, _) => if HasInterface(text) then Some(text) else None
  }

  /** The config of the last attempt that came up, or `first` when none did. */
  function LastUp(s: AgentState, es: seq<Event>, first: string): string {
    if es == [] then first
    else
      var e := es[|es| - 1];
      var before := LastUp(s, es[..|es| - 1], first);
      var a := Attempt(Run(s, es[..|es| - 1]), e);
      if a.Some? && e.host.quick && e.host.up then a.value else before
  }

  /** The config of the last attempt that came up or was left behind without being run,
      because awg-quick was missing. */
  function LastKept(s: AgentState, es: seq<Event>, first: string): string {
    if es == [] then first
    else
      var e := es[|es| - 1];
      var before := LastKept(s, es[..|es| - 1], first);
      var a := Attempt(Run(s, es[..|es| - 1]), e);
      if a.Some? && (!e.host.quick || e.host.up) then a.value else before
  }

  predicate NeverGone(es: seq<Event>) {
    forall i :: 0 <= i < |es| ==> !(es[i].Poll? && es[i].answer.Gone?)
  }

  /** From a state with a config, and until a teardown, the config file holds exactly the last
      config that was not rolled back. */
  lemma {:induction false} FileHoldsLastKept(s: AgentState, es: seq<Event>, first: string)
    requires s.files.conf == Some(first) && NeverGone(es)
    ensures Run(s, es).files.conf == Some(LastKept(s, es, first))
  {
    if es != [] {
      FileHoldsLastKept(s, es[..|es| - 1], first);
    }
  }

  /** With awg-quick on PATH a failed attempt never costs the working config: the file holds the
      last config that came up. */
  lemma {:induction false} LastGoodIsRetained(s: AgentState, es: seq<Event>, first: string)
    requires s.files.conf == Some(first) && NeverGone(es)
    requires forall i :: 0 <= i < |es| ==> es[i].host.quick
    ensures Run(s, es).files.conf == Some(LastUp(s, es, first))
  {
    if es != [] {
      LastGoodIsRetained(s, es[..|es| - 1], first);
    }
  }

  /** An attempt without awg-quick that leaves a different text in the file. */
  predicate Overwrites(s: AgentState, e: Event) {
    var a := Attempt(s, e);
    a.Some? && !e.host.quick && a != s.files.conf
  }

  predicate Retained(s: AgentState, es: seq<Event>, first: string) {
    Run(s, es).files.conf == Some(LastUp(s, es, first))
  }

  ghost predicate AlwaysRetained(s: AgentState, es: seq<Event>, first: string) {
    forall n :: 0 <= n <= |es| ==> Retained(s, es[..n], first)
  }

  /** The n-th event overwrites the file. */
  predicate OverwritesAt(s: AgentState, es: seq<Event>, n: nat)
    requires n < |es|
  {
    Overwrites(Run(s, es[..n]), es[n])
  }

  ghost predicate NeverOverwritten(s: AgentState, es: seq<Event>) {
    forall n :: 0 <= n < |es| ==> !OverwritesAt(s, es, n)
  }

  lemma RetainedSnoc(s: AgentState, init: seq<Event>, e: Event, first: string)
    ensures AlwaysRetained(s, init + [e], first) <==> AlwaysRetained(s, init, first) && Retained(s, init + [e], first)
  {
    var es := init + [e];
    assert es[..|es|] == es;
    forall n | 0 <= n <= |init| ensures Retained(s, es[..n], first) <==> Retained(s, init[..n], first) {
      assert es[..n] == init[..n];
    }
  }

  lemma OverwrittenSnoc(s: AgentState, init: seq<Event>, e: Event)
    ensures NeverOverwritten(s, init + [e]) <==> NeverOverwritten(s, init) && !Overwrites(Run(s, init), e)
  {
    var es := init + [e];
    assert es[..|init|] == init;
    assert OverwritesAt(s, es, |init|) <==> Overwrites(Run(s, init), e);
    forall n | 0 <= n < |init| ensures OverwritesAt(s, es, n) <==> OverwritesAt(s, init, n) {
      assert es[..n] == init[..n];
    }
  }

  /** awg-quick on PATH is what retention rests on: the file holds the last config that came up
      throughout a run exactly when no attempt without awg-quick changes it. */
  lemma {:induction false} RetainedIff(s: AgentState, es: seq<Event>, first: string)
    requires s.files.conf == Some(first) && NeverGone(es)
    ensures AlwaysRetained(s, es, first) <==> NeverOverwritten(s, es)
  {
    if es != [] {
      var init, e := es[..|es| - 1], es[|es| - 1];
      assert es == init + [e];
      RetainedIff(s, init, first);
      RetainedSnoc(s, init, e, first);
      OverwrittenSnoc(s, init, e);
      FileHoldsLastKept(s, init, first);
      assert init[..|init|] == init;
      if AlwaysRetained(s, init, first) {
        assert Retained(s, init[..|init|], first);
      }
    }
  }

  /** One attempt loses the working config exactly when awg-quick is missing and the text is
      different. */
  lemma AttemptLosesIff(f: Files, config: string, h: Host)
    requires f.conf.Some?
    ensures var good := if h.quick && h.up then config else f.conf.value;
            Applied(f, config, h).conf != Some(good) <==> !h.quick && config != f.conf.value
  {
  }

  /** With no config to fall back to, a config that never came up stays in the file, and the
      next failure restores it. */
  lemma FirstFailureIsKept(config: string, next: string, h: Host, k: Host)
    requires h.quick && !h.up && k.quick && !k.up
    ensures Applied(Applied(Files(None, None, None), config, h), next, k).conf == Some(config)
  {
  }

  /** While awg-quick is on PATH and the restored config comes up again, the interface runs
      what the file says. */
  lemma {:induction false} InterfaceRunsTheFile(s: AgentState, es: seq<Event>)
    requires s.files.conf.Some? && s.files.live == s.files.conf && NeverGone(es)
    requires forall i :: 0 <= i < |es| ==> es[i].host.quick && es[i].host.upAgain
    ensures Run(s, es).files.conf.Some? && Run(s, es).files.live == Run(s, es).files.conf
  {
    if es != [] {
      InterfaceRunsTheFile(s, es[..|es| - 1]);
    }
  }

  // ---------------------------------------------------------------- pushes

  /** The number of events that run awg-quick. */
  function Attempts(s: AgentState, es: seq<Event>): nat {
    if es == [] then 0
    else
      var p := es[..|es| - 1];
      Attempts(s, p) + if Attempt(Run(s, p), es[|es| - 1]).Some? && es[|es| - 1].host.quick then 1 else 0
  }

  lemma {:induction false} RestartsAreAttempts(s: AgentState, es: seq<Event>)
    requires NeverGone(es)
    ensures Run(s, es).restarts == s.restarts + Attempts(s, es)
  {
    if es != [] {
      RestartsAreAttempts(s, es[..|es| - 1]);
    }
  }

  /** Once a pushed config came up, any number of reports of the same config, between failed
      polls, restarts nothing and leaves the files alone. */
  lemma {:induction false} RepeatedPushIsIdle(s: AgentState, config: string, es: seq<Event>)
    requires s.lastApplied == config
    requires forall i :: 0 <= i < |es| ==>
               es[i].Poll? && !es[i].answer.Gone? && (es[i].answer.Report? ==> es[i].answer.config == config)
    ensures var t := Run(s, es);
            t.files == s.files && t.restarts == s.restarts && t.lastApplied == config && t.token == s.token
  {
    if es != [] {
      RepeatedPushIsIdle(s, config, es[..|es| - 1]);
    }
  }

  /** A push that failed is tried again at the next report; one that came up is not. */
  lemma PushIsRetriedUntilUp(s: AgentState, config: string, h: Host, k: Host)
    requires s.panel != "" && s.token != "" && config != "" && config != s.lastApplied
    ensures var a := Report("active", config);
            Pushes(AfterPoll(s, a, h), a) <==> !(h.quick && h.up)
  {
  }

  /** After the panel forgot the node the agent holds no config and no token, and polls change
      nothing until it is connected again; then the very same config is applied anew. The
      interface is down exactly if awg-quick took it down. */
  lemma GoneForgetsEverything(s: AgentState, h: Host, a: Answer, k: Host, panel: string, token: string, config: string)
    requires s.panel != "" && s.token != "" && panel != "" && token != "" && config != ""
    ensures var t := AfterPoll(s, Gone, h);
            && t.files == Files(None, None, Downed(s.files.live, h)) && t.token == ""
            && AfterPoll(t, a, k) == t
            && Pushes(t.(panel := panel, token := token), Report("active", config))
  {
  }

  /** The interface of a node that is gone stops exactly when awg-quick is there and takes it down;
      otherwise it goes on running what it ran, with no file behind it. So does the interface after
      a failed config with nothing to fall back to. */
  lemma InterfaceStopsIff(s: AgentState, f: Files, config: string, h: Host)
    requires s.panel != "" && s.token != "" && s.files.live.Some?
    ensures var t := AfterPoll(s, Gone, h).files;
      && t.conf.None? && t.bak.None?
      && (t.live.None? <==> h.quick && h.down)
      && (t.live.Some? ==> t.live == s.files.live)
    ensures f.conf.None? && f.bak.None? && f.live.Some? && !h.up ==>
      var t := Applied(f, config, h);
      && (t.live.None? <==> h.quick && h.down)
      && (t.live.Some? ==> t.live == f.live)
  {
  }

  /** What the panel says reaches the files only as a new config of an active node, or as the news that
      the node is gone; every other answer leaves files, interface and restarts as they were, and a
      report is shown as the status either way. */
  lemma OtherAnswersAreIdle(s: AgentState, a: Answer, h: Host)
    requires a.Failed? || s.panel == "" || s.token == ""
      || (a.Report? && (a.status != "active" || a.config == "" || a.config == s.lastApplied))
    ensures var t := AfterPoll(s, a, h);
      && t.files == s.files && t.restarts == s.restarts && t.lastApplied == s.lastApplied
      && t.panel == s.panel && t.token == s.token
      && (a.Report? && s.panel != "" && s.token != "" ==> t.status == a.status)
  {
  }

  /** And a new config of an active node is the one applied. */
  lemma NewConfigIsApplied(s: AgentState, config: string, h: Host)
    requires s.panel != "" && s.token != "" && config != "" && config != s.lastApplied
    ensures var t := AfterPoll(s, Report("active", config), h);
      && (h.quick && h.up ==> t.files.conf == Some(config) && t.files.live == Some(config) && t.lastApplied == config)
      && (!(h.quick && h.up) ==> t.lastApplied == s.lastApplied)
      && (s.files.conf.Some? ==> t.files.bak == s.files.conf)
  {
  }

  /** The editor's text is applied exactly when it has an interface section somewhere in it. */
  lemma EditIsAppliedIff(s: AgentState, before: string, after: string, text: string, h: Host)
    ensures var t := AfterEdit(s, before + "[Interface]" + after, h);
      h.quick && h.up ==> t.files.conf == Some(before + "[Interface]" + after) && t.files.live == t.files.conf
    ensures !(exists a: string, b: string :: text == a + "[Interface]" + b) ==> AfterEdit(s, text, h) == s
  {
    HasInterfaceIff(before + "[Interface]" + after);
    HasInterfaceIff(text);
  }

  // ---------------------------------------------------------------- two calls at once

  /** Where a call of writeAndApply stands. Each step is one file or awg-quick operation. */
  datatype Pc = Begin | BackedUp | Written | Stopped | Rejected | Restored | Done

  /** One step of a call, on a host where exactly the configs of `works` come up. */
  function CallStep(works: set<string>, f: Files, config: string, pc: Pc): (Files, Pc) {
    match pc
    case Begin => (if f.conf.Some? then f.(bak := f.conf) else f, BackedUp)
    case BackedUp => (f.(conf := Some(config)), Written)
    case Written => (f.(live := None), Stopped)
    case Stopped =>
      if f.conf.Some? && f.conf.value in works then (f.(live := f.conf), Done) else (f, Rejected)
    case Rejected => if f.bak.Some? then (f.(conf := f.bak), Restored) else (f, Done)
    case Restored => (if f.conf.Some? && f.conf.value in works then f.(live := f.conf) else f, Done)
    case Done => (f, Done)
  }

  datatype Pair = Pair(f: Files, pcA: Pc, pcB: Pc)

  function PairStep(works: set<string>, q: Pair, a: string, b: string, pick: bool): Pair {
    if pick then
      var (f, pc) := CallStep(works, q.f, a, q.pcA);
      Pair(f, pc, q.pcB)
    else
      var (f, pc) := CallStep(works, q.f, b, q.pcB);
      Pair(f, q.pcA, pc)
  }

  /** A schedule picks, at each step, which of two calls moves. */
  function Interleave(works: set<string>, p: Pair, a: string, b: string, picks: seq<bool>): Pair {
    if picks == [] then p
    else PairStep(works, Interleave(works, p, a, b, picks[..|picks| - 1]), a, b, picks[|picks| - 1])
  }

  function CallFrom(works: set<string>, f: Files, config: string, pc: Pc, n: nat): (Files, Pc)
    decreases n
  {
    if n == 0 then (f, pc)
    else
      var (g, next) := CallStep(works, f, config, pc);
      CallFrom(works, g, config, next, n - 1)
  }

  /** A call that runs alone is the one-step form above. */
  lemma AloneIsApplied(works: set<string>, f: Files, config: string)
    ensures var bak := if f.conf.Some? then f.conf else f.bak;
            CallFrom(works, f, config, Begin, 6) ==
            (Applied(f, config, Host(true, true, config in works, bak.Some? && bak.value in works)), Done)
  {
  }

  lemma OneMore(works: set<string>, p: Pair, a: string, b: string, picks: seq<bool>, n: nat)
    requires 1 <= n <= |picks|
    ensures Interleave(works, p, a, b, picks[..n]) ==
            PairStep(works, Interleave(works, p, a, b, picks[..n - 1]), a, b, picks[n - 1])
  {
    assert picks[..n][..n - 1] == picks[..n - 1];
  }

  /** Three steps of a schedule at a time. */
  lemma Unroll(works: set<string>, p: Pair, a: string, b: string, picks: seq<bool>, n: nat)
    requires 3 <= n <= |picks|
    ensures Interleave(works, p, a, b, picks[..n]) ==
            PairStep(works, PairStep(works, PairStep(works, Interleave(works, p, a, b, picks[..n - 3]),
              a, b, picks[n - 3]), a, b, picks[n - 2]), a, b, picks[n - 1])
  {
    OneMore(works, p, a, b, picks, n - 2);
    OneMore(works, p, a, b, picks, n - 1);
    OneMore(works, p, a, b, picks, n);
  }

  /** The next step backs up a file that does not hold the working config. */
  predicate BacksUpOther(good: string, q: Pair, pick: bool) {
    (if pick then q.pcA else q.pcB) == Begin && q.f.conf != Some(good)
  }

  predicate Busy(pc: Pc) {
    pc.Written? || pc.Stopped? || pc.Rejected?
  }

  /** The backup, once made, is the working config, and so is the file unless a call will still put
      it back. */
  predicate Fine(good: string, a: string, b: string, q: Pair) {
    && (if q.pcA == Begin && q.pcB == Begin then q.f.conf == Some(good) else q.f.bak == Some(good))
    && (q.f.conf == Some(good) || ((Busy(q.pcA) || Busy(q.pcB)) && (q.f.conf == Some(a) || q.f.conf == Some(b))))
  }

  /** Neither the file nor the backup is the working config, and both backups are made. */
  predicate Lost(a: string, b: string, q: Pair) {
    && q.pcA != Begin && q.pcB != Begin
    && (q.f.conf == Some(a) || q.f.conf == Some(b))
    && (q.f.bak == Some(a) || q.f.bak == Some(b))
  }

  lemma StepOfTwoCalls(works: set<string>, good: string, a: string, b: string, q: Pair, pick: bool)
    requires good in works && a !in works && b !in works
    ensures Fine(good, a, b, q) && !BacksUpOther(good, q, pick) ==> Fine(good, a, b, PairStep(works, q, a, b, pick))
    ensures Fine(good, a, b, q) && BacksUpOther(good, q, pick) ==> Lost(a, b, PairStep(works, q, a, b, pick))
    ensures Lost(a, b, q) ==> Lost(a, b, PairStep(works, q, a, b, pick))
  {
  }

  /** Some step of the schedule is of a given kind. */
  ghost predicate SomeStep(
    kind: (Pair, bool) -> bool, works: set<string>, p: Pair, a: string, b: string, picks: seq<bool>)
  {
    exists n :: 0 <= n < |picks| && kind(Interleave(works, p, a, b, picks[..n]), picks[n])
  }

  lemma SomeStepSnoc(
    kind: (Pair, bool) -> bool, works: set<string>, p: Pair, a: string, b: string, init: seq<bool>, pick: bool)
    ensures SomeStep(kind, works, p, a, b, init + [pick]) <==>
            SomeStep(kind, works, p, a, b, init) || kind(Interleave(works, p, a, b, init), pick)
  {
    var picks := init + [pick];
    assert forall n :: 0 <= n <= |init| ==> picks[..n] == init[..n];
    assert init[..|init|] == init;
    if n :| 0 <= n < |init| && kind(Interleave(works, p, a, b, init[..n]), init[n]) {
      assert kind(Interleave(works, p, a, b, picks[..n]), picks[n]);
    }
    if kind(Interleave(works, p, a, b, init), pick) {
      assert kind(Interleave(works, p, a, b, picks[..|init|]), picks[|init|]);
    }
  }

  /** Some backup step of the schedule finds another file than the working config. */
  ghost predicate SomeBackupIsOther(works: set<string>, good: string, p: Pair, a: string, b: string, picks: seq<bool>) {
    SomeStep((q, pick) => BacksUpOther(good, q, pick), works, p, a, b, picks)
  }

  lemma {:induction false} TwoCallsSoFar(works: set<string>, good: string, a: string, b: string, p: Pair, picks: seq<bool>)
    requires good in works && a !in works && b !in works
    requires p.f.conf == Some(good) && p.pcA == Begin && p.pcB == Begin
    ensures var q := Interleave(works, p, a, b, picks);
            if SomeBackupIsOther(works, good, p, a, b, picks) then Lost(a, b, q) else Fine(good, a, b, q)
  {
    if picks != [] {
      var init, pick := picks[..|picks| - 1], picks[|picks| - 1];
      assert picks == init + [pick];
      TwoCallsSoFar(works, good, a, b, p, init);
      SomeStepSnoc((q, pick) => BacksUpOther(good, q, pick), works, p, a, b, init, pick);
      StepOfTwoCalls(works, good, a, b, Interleave(works, p, a, b, init), pick);
    }
  }

  /** Nothing serialises a push and an edit. Of two configs that do not come up, applied over one
      that does, in any interleaving of their steps that runs both to their end, the working
      config is kept exactly when neither call backs up while the file holds something else. */
  lemma TwoCallsRetainIff(works: set<string>, good: string, a: string, b: string, p: Pair, picks: seq<bool>)
    requires good in works && a !in works && b !in works
    requires p.f.conf == Some(good) && p.pcA == Begin && p.pcB == Begin
    requires var q := Interleave(works, p, a, b, picks); q.pcA == Done && q.pcB == Done
    ensures Interleave(works, p, a, b, picks).f.conf == Some(good) <==> !SomeBackupIsOther(works, good, p, a, b, picks)
  {
    TwoCallsSoFar(works, good, a, b, p, picks);
  }

  /** A schedule that loses it: the second call backs up after the first has overwritten the file,
      and the working config is nowhere. */
  lemma OverlappingCallsLoseTheConfig(good: string, a: string, b: string)
    requires a != good && b != good
    ensures var p := Pair(Files(Some(good), None, Some(good)), Begin, Begin);
            var picks := [true, true, false, false, true, true, false, true, false, true, false, false];
            var q := Interleave({good}, p, a, b, picks);
            && q.pcA == Done && q.pcB == Done
            && q.f.conf == Some(a) && q.f.bak == Some(a) && q.f.live.None?
  {
    var w := {good};
    var picks := [true, true, false, false, true, true, false, true, false, true, false, false];
    var p0 := Pair(Files(Some(good), None, Some(good)), Begin, Begin);
    Unroll(w, p0, a, b, picks, 3);
    assert Interleave(w, p0, a, b, picks[..3]) == Pair(Files(Some(a), Some(a), Some(good)), Written, BackedUp);
    Unroll(w, p0, a, b, picks, 6);
    assert Interleave(w, p0, a, b, picks[..6]) == Pair(Files(Some(b), Some(a), None), Rejected, Written);
    Unroll(w, p0, a, b, picks, 9);
    assert Interleave(w, p0, a, b, picks[..9]) == Pair(Files(Some(a), Some(a), None), Restored, Rejected);
    Unroll(w, p0, a, b, picks, 12);
    assert picks[..12] == picks;
  }

  // ---------------------------------------------------------------- one comes up, one does not

  /** The config that comes up is written over without a backup of it, or is written while the other
      call has failed and is about to put an older one back. */
  predicate Undercuts(a: string, q: Pair, pick: bool) {
    if pick then q.pcA == BackedUp && q.pcB == Rejected && q.f.bak.Some? && q.f.bak != Some(a)
    else q.pcB == BackedUp && q.f.conf == Some(a) && q.f.bak != Some(a)
  }

  /** A call that has not written yet. */
  predicate Early(pc: Pc) {
    pc.Begin? || pc.BackedUp?
  }

  /** `a` is in the file or will be: still to be written, or there and not about to be replaced, or
      in the backup of a call that will put it back. */
  predicate Kept(a: string, b: string, q: Pair) {
    if Early(q.pcA) then q.pcB == BackedUp && q.f.conf == Some(a) ==> q.f.bak == Some(a)
    else
      || (&& q.f.conf == Some(a)
          && (q.pcA == Rejected ==> q.f.bak == Some(a))
          && (q.pcB == Rejected ==> q.f.bak == Some(a) || q.f.bak.None?))
      || (q.f.conf == Some(b) && q.f.bak == Some(a) && Busy(q.pcB))
  }

  /** Both calls have written, and `a` is neither in the file, or will not stay, nor in the backup. */
  predicate Undercut(a: string, q: Pair) {
    && !Early(q.pcA) && !Early(q.pcB) && q.f.bak != Some(a)
    && (q.f.conf != Some(a) || (q.pcB == Rejected && q.f.bak.Some? && q.pcA != Rejected))
  }

  lemma StepOfMixedCalls(works: set<string>, a: string, b: string, q: Pair, pick: bool)
    requires a in works && b !in works
    ensures Kept(a, b, q) && !Undercuts(a, q, pick) ==> Kept(a, b, PairStep(works, q, a, b, pick))
    ensures Kept(a, b, q) && Undercuts(a, q, pick) ==> Undercut(a, PairStep(works, q, a, b, pick))
    ensures Undercut(a, q) ==> Undercut(a, PairStep(works, q, a, b, pick))
  {
  }

  lemma {:induction false} MixedCallsSoFar(works: set<string>, a: string, b: string, p: Pair, picks: seq<bool>)
    requires a in works && b !in works && p.pcA == Begin && p.pcB == Begin
    ensures var q := Interleave(works, p, a, b, picks);
            if SomeStep((q, pick) => Undercuts(a, q, pick), works, p, a, b, picks) then Undercut(a, q) else Kept(a, b, q)
  {
    if picks != [] {
      var init, pick := picks[..|picks| - 1], picks[|picks| - 1];
      assert picks == init + [pick];
      MixedCallsSoFar(works, a, b, p, init);
      SomeStepSnoc((q, pick) => Undercuts(a, q, pick), works, p, a, b, init, pick);
      StepOfMixedCalls(works, a, b, Interleave(works, p, a, b, init), pick);
    }
  }

  /** Of two overlapping calls of which one brings its config up, whatever the files held before, that
      config is the one in the file at the end exactly when the other call neither overwrites it
      without having backed it up, nor has it written between its failed start and its restore. */
  lemma MixedCallsRetainIff(works: set<string>, a: string, b: string, p: Pair, picks: seq<bool>)
    requires a in works && b !in works && p.pcA == Begin && p.pcB == Begin
    requires var q := Interleave(works, p, a, b, picks); q.pcA == Done && q.pcB == Done
    ensures Interleave(works, p, a, b, picks).f.conf == Some(a) <==>
            !SomeStep((q, pick) => Undercuts(a, q, pick), works, p, a, b, picks)
  {
    MixedCallsSoFar(works, a, b, p, picks);
  }

  /** A push that comes up between a failing edit's backup and its write: the push is done and
      recorded as applied, the edit then restores the older config, and the panel's next reports of
      the pushed one are taken for what is running. */
  lemma EditHidesThePush(good: string, a: string, b: string, s: AgentState)
    requires a != good && b != good && a != b
    ensures var works, p := {good, a}, Pair(Files(Some(good), None, Some(good)), Begin, Begin);
            var picks := [true, false, true, true, true, false, false, false, false, false];
            var pushed, q := Interleave(works, p, a, b, picks[..5]), Interleave(works, p, a, b, picks);
            && pushed.pcA == Done && pushed.f.live == Some(a)
            && q.pcB == Done && q.f.conf == Some(good) && q.f.live == Some(good)
            && !Pushes(s.(files := q.f, lastApplied := a), Report("active", a))
  {
    var works, p := {good, a}, Pair(Files(Some(good), None, Some(good)), Begin, Begin);
    var picks := [true, false, true, true, true, false, false, false, false, false];
    Unroll(works, p, a, b, picks, 3);
    assert Interleave(works, p, a, b, picks[..3]) == Pair(Files(Some(a), Some(good), Some(good)), Written, BackedUp);
    OneMore(works, p, a, b, picks, 4);
    OneMore(works, p, a, b, picks, 5);
    assert Interleave(works, p, a, b, picks[..5]) == Pair(Files(Some(a), Some(good), Some(a)), Done, BackedUp);
    Unroll(works, p, a, b, picks, 8);
    assert Interleave(works, p, a, b, picks[..8]) == Pair(Files(Some(b), Some(good), None), Done, Rejected);
    OneMore(works, p, a, b, picks, 9);
    OneMore(works, p, a, b, picks, 10);
    assert picks[..10] == picks;
  }

  // ---------------------------------------------------------------- both come up

  /** The file holds one of the two configs, and the interface runs it unless a call is still to
      start it. */
  predicate Agreeing(a: string, b: string, q: Pair) {
    && !q.pcA.Rejected? && !q.pcA.Restored? && !q.pcB.Rejected? && !q.pcB.Restored?
    && (!Early(q.pcA) || !Early(q.pcB) ==>
          && (q.f.conf == Some(a) || q.f.conf == Some(b))
          && (q.f.live == q.f.conf || q.pcA.Written? || q.pcA.Stopped? || q.pcB.Written? || q.pcB.Stopped?))
  }

  lemma {:induction false} WorkingCallsSoFar(works: set<string>, a: string, b: string, p: Pair, picks: seq<bool>)
    requires a in works && b in works && p.pcA == Begin && p.pcB == Begin
    ensures Agreeing(a, b, Interleave(works, p, a, b, picks))
  {
    if picks != [] {
      WorkingCallsSoFar(works, a, b, p, picks[..|picks| - 1]);
    }
  }

  /** Of two overlapping calls that both bring their config up, one wins the file and the interface
      alike, in any interleaving. */
  lemma WorkingCallsAgree(works: set<string>, a: string, b: string, p: Pair, picks: seq<bool>)
    requires a in works && b in works && p.pcA == Begin && p.pcB == Begin
    requires var q := Interleave(works, p, a, b, picks); q.pcA == Done && q.pcB == Done
    ensures var f := Interleave(works, p, a, b, picks).f; f.live == f.conf && (f.conf == Some(a) || f.conf == Some(b))
  {
    WorkingCallsSoFar(works, a, b, p, picks);
  }
}

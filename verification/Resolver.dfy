/** The split-horizon resolver's routing table (internal/resolver/resolver.go): which upstream a
    query goes to, whatever order the maps are walked in. */
module Resolver {
  import opened Basics
  import opened Text
  import opened Database

  // ---------------------------------------------------------------- names

  function Normal(s: string): string {
    Lower(TrimDot(s))
  }

  /** The test pick makes: the name itself, or anything that ends in a dot and the domain. */
  predicate Matches(name: string, domain: string) {
    name == domain || HasSuffix(name, "." + domain)
  }

  predicate Contains(s: string, c: char) {
    c in s
  }

  function WithPort(s: string): string {
    if s == "" then s
    else if Contains(s, ':') && !Contains(s, ']') then s
    else s + ":53"
  }

  // ---------------------------------------------------------------- the table

  datatype Routing = Routing(byDomain: map<string, string>, upstream: string)

  const DEFAULT_UPSTREAM := "1.1.1.1:53"

  ghost predicate IsLongest(rt: Routing, name: string, d: string) {
    && d in rt.byDomain && Matches(name, d)
    && forall e :: e in rt.byDomain && Matches(name, e) ==> |e| <= |d|
  }

  /** What pick may answer: the upstream of a longest matching domain, or the default when no
      domain matches. */
  ghost predicate IsPick(rt: Routing, qname: string, up: string) {
    var name := Normal(qname);
    if exists d :: d in rt.byDomain && Matches(name, d) then
      exists d :: IsLongest(rt, name, d) && up == rt.byDomain[d]
    else
      up == rt.upstream
  }

  /** The table after the keys were walked in the given order: each domain under its normal
      form with the port filled in, a later spelling replacing an earlier one. */
  function Walked(byDomain: map<string, string>, keys: seq<string>): map<string, string>
    requires forall d :: d in keys ==> d in byDomain
  {
    if keys == [] then map[]
    else
      var d := keys[|keys| - 1];
      Walked(byDomain, keys[..|keys| - 1])[Normal(d) := WithPort(byDomain[d])]
  }

  /** An order in which the language may walk the map. */
  predicate IsWalk(byDomain: map<string, string>, keys: seq<string>) {
    Lists(keys, byDomain.Keys)
  }

  function RoutingFrom(byDomain: map<string, string>, keys: seq<string>, defaultUpstream: string): Routing
    requires IsWalk(byDomain, keys)
  {
    assert forall d :: d in keys ==> d in byDomain.Keys;
    Routing(Walked(byDomain, keys), WithPort(if defaultUpstream == "" then DEFAULT_UPSTREAM else defaultUpstream))
  }

  /** The tables SetRoutes may store: one for every order of the walk. */
  ghost predicate IsTable(byDomain: map<string, string>, defaultUpstream: string, rt: Routing) {
    exists keys :: IsWalk(byDomain, keys) && rt == RoutingFrom(byDomain, keys, defaultUpstream)
  }

  class DnsRouter {
    var cur: Routing

    constructor ()
      ensures cur == Routing(map[], DEFAULT_UPSTREAM)
    {
      cur := Routing(map[], DEFAULT_UPSTREAM);
    }

    /** Builds the table, walking the map in any order, and swaps it in. */
    method SetRoutes(byDomain: map<string, string>, defaultUpstream: string)
      modifies this
      ensures IsTable(byDomain, defaultUpstream, cur)
    {
      var upstream := if defaultUpstream == "" then DEFAULT_UPSTREAM else defaultUpstream;
      var norm: map<string, string> := map[];
      var left := byDomain.Keys;
      ghost var keys: seq<string> := [];
      while left != {}
        invariant left <= byDomain.Keys && NoDup(keys)
        invariant forall d :: d in byDomain ==> (d in keys <==> d !in left)
        invariant forall d :: d in keys ==> d in byDomain
        invariant norm == Walked(byDomain, keys)
        decreases |left|
      {
        var d :| d in left;
        left := left - {d};
        norm := norm[Normal(d) := WithPort(byDomain[d])];
        NoDupAppend(keys, d);
        assert (keys + [d])[..|keys|] == keys;
        keys := keys + [d];
      }
      assert byDomain.Keys == set d | d in keys;
      assert IsWalk(byDomain, keys);
      cur := Routing(norm, WithPort(upstream));
    }

    /** Walks the table in any order, keeping the longest match seen. */
    method Pick(qname: string) returns (best: string)
      ensures IsPick(cur, qname, best)
    {
      var name := Normal(qname);
      var bestLen := -1;
      best := cur.upstream;
      var left := cur.byDomain.Keys;
      ghost var winner: Option<string> := None;
      while left != {}
        invariant left <= cur.byDomain.Keys
        invariant winner.None? ==> best == cur.upstream && bestLen == -1
        invariant winner.Some? ==> (
          && winner.value in cur.byDomain && Matches(name, winner.value)
          && best == cur.byDomain[winner.value] && bestLen == |winner.value|)
        invariant forall d :: d in cur.byDomain && d !in left && Matches(name, d) ==> |d| <= bestLen
        decreases |left|
      {
        var d :| d in left;
        left := left - {d};
        if Matches(name, d) {
          if |d| > bestLen {
            best, bestLen := cur.byDomain[d], |d|;
            winner := Some(d);
          }
        }
      }
      if winner.Some? {
        assert IsLongest(cur, name, winner.value);
      }
    }
  }

  // ---------------------------------------------------------------- one answer per query

  /** Two suffixes of a name of the same length are the same. */
  lemma SameLengthSame(name: string, d: string, e: string)
    requires Matches(name, d) && Matches(name, e) && |d| == |e|
    ensures d == e
  {
    if name != d && name != e {
      assert ("." + d)[1..] == d && ("." + e)[1..] == e;
    }
  }

  /** So the answer does not depend on the order the table is walked in. */
  lemma PickIsUnique(rt: Routing, qname: string, up: string, other: string)
    requires IsPick(rt, qname, up) && IsPick(rt, qname, other)
    ensures up == other
  {
    var name := Normal(qname);
    if exists d :: d in rt.byDomain && Matches(name, d) {
      var d :| IsLongest(rt, name, d) && up == rt.byDomain[d];
      var e :| IsLongest(rt, name, e) && other == rt.byDomain[e];
      SameLengthSame(name, d, e);
    }
  }

  /** Domains that do not collide once normalised, unless they agree. */
  ghost predicate Unambiguous(byDomain: map<string, string>) {
    forall d, e :: d in byDomain && e in byDomain && Normal(d) == Normal(e) ==> WithPort(byDomain[d]) == WithPort(byDomain[e])
  }

  lemma {:induction false} WalkedExact(byDomain: map<string, string>, keys: seq<string>)
    requires forall d :: d in keys ==> d in byDomain
    ensures forall d :: d in keys ==> Normal(d) in Walked(byDomain, keys)
    ensures forall n :: n in Walked(byDomain, keys) ==>
      exists d :: d in keys && Normal(d) == n && Walked(byDomain, keys)[n] == WithPort(byDomain[d])
  {
    if keys != [] {
      var init, last := keys[..|keys| - 1], keys[|keys| - 1];
      assert keys == init + [last];
      WalkedExact(byDomain, init);
    }
  }

  /** Whatever the order, the table holds every domain under its normal form and nothing else. */
  lemma TableExact(byDomain: map<string, string>, defaultUpstream: string, rt: Routing)
    requires IsTable(byDomain, defaultUpstream, rt)
    ensures rt.upstream == WithPort(if defaultUpstream == "" then DEFAULT_UPSTREAM else defaultUpstream)
    ensures forall d :: d in byDomain ==> Normal(d) in rt.byDomain
    ensures forall n :: n in rt.byDomain ==> exists d :: d in byDomain && Normal(d) == n && rt.byDomain[n] == WithPort(byDomain[d])
  {
    var keys :| IsWalk(byDomain, keys) && rt == RoutingFrom(byDomain, keys, defaultUpstream);
    assert forall d :: d in byDomain <==> d in keys by {
      assert forall d :: d in byDomain <==> d in byDomain.Keys;
    }
    WalkedExact(byDomain, keys);
  }

  lemma SameEntry(byDomain: map<string, string>, defaultUpstream: string, rt: Routing, other: Routing, n: string)
    requires Unambiguous(byDomain) && n in rt.byDomain
    requires IsTable(byDomain, defaultUpstream, rt) && IsTable(byDomain, defaultUpstream, other)
    ensures n in other.byDomain && rt.byDomain[n] == other.byDomain[n]
  {
    TableExact(byDomain, defaultUpstream, rt);
    TableExact(byDomain, defaultUpstream, other);
    var d :| d in byDomain && Normal(d) == n && rt.byDomain[n] == WithPort(byDomain[d]);
    var e :| e in byDomain && Normal(e) == n && other.byDomain[n] == WithPort(byDomain[e]);
  }

  lemma SameMap(m1: map<string, string>, m2: map<string, string>)
    requires forall n :: n in m1 ==> n in m2 && m1[n] == m2[n]
    requires forall n :: n in m2 ==> n in m1
    ensures m1 == m2
  {
  }

  lemma UnambiguousIsUnique(byDomain: map<string, string>, defaultUpstream: string, rt: Routing, other: Routing)
    requires Unambiguous(byDomain)
    requires IsTable(byDomain, defaultUpstream, rt) && IsTable(byDomain, defaultUpstream, other)
    ensures rt == other
  {
    forall n | n in rt.byDomain ensures n in other.byDomain && rt.byDomain[n] == other.byDomain[n] {
      SameEntry(byDomain, defaultUpstream, rt, other, n);
    }
    forall n | n in other.byDomain ensures n in rt.byDomain {
      SameEntry(byDomain, defaultUpstream, other, rt, n);
    }
    SameMap(rt.byDomain, other.byDomain);
    TableExact(byDomain, defaultUpstream, rt);
    TableExact(byDomain, defaultUpstream, other);
  }

  /** A walk that comes to a given spelling last, and so lets it win. */
  lemma SpellingWins(byDomain: map<string, string>, defaultUpstream: string, d: string) returns (keys: seq<string>)
    requires d in byDomain
    ensures IsWalk(byDomain, keys)
    ensures var m := RoutingFrom(byDomain, keys, defaultUpstream).byDomain;
      Normal(d) in m && m[Normal(d)] == WithPort(byDomain[d])
  {
    var init := SomeOrder(byDomain.Keys - {d});
    keys := ListsSnoc(init, byDomain.Keys - {d}, d);
    assert byDomain.Keys == (byDomain.Keys - {d}) + {d};
    assert keys[..|init|] == init;
  }

  /** The table does depend on the order in which its input is walked, exactly when two spellings
      of one domain carry different upstreams. */
  lemma TableIsUniqueIff(byDomain: map<string, string>, defaultUpstream: string)
    ensures (forall keys, others :: IsWalk(byDomain, keys) && IsWalk(byDomain, others) ==>
              RoutingFrom(byDomain, keys, defaultUpstream) == RoutingFrom(byDomain, others, defaultUpstream))
            <==> Unambiguous(byDomain)
  {
    if Unambiguous(byDomain) {
      forall keys, others | IsWalk(byDomain, keys) && IsWalk(byDomain, others)
        ensures RoutingFrom(byDomain, keys, defaultUpstream) == RoutingFrom(byDomain, others, defaultUpstream)
      {
        UnambiguousIsUnique(byDomain, defaultUpstream, RoutingFrom(byDomain, keys, defaultUpstream),
                            RoutingFrom(byDomain, others, defaultUpstream));
      }
    } else {
      var d, e :| d in byDomain && e in byDomain && Normal(d) == Normal(e) && WithPort(byDomain[d]) != WithPort(byDomain[e]);
      var keys := SpellingWins(byDomain, defaultUpstream, d);
      var others := SpellingWins(byDomain, defaultUpstream, e);
    }
  }

  lemma CleanedDot()
    ensures Cleaned("x. ") == "x." && Cleaned("x") == "x"
  {
    var d := "x. ";
    assert TrimDot(d) == d && d[..2] == "x.";
    assert TrimSpace("x.") == "x." && TrimSpace(d) == TrimSpace(d[..2]);
    assert Lower("x.") == "x.";
    assert TrimDot("x") == "x" && TrimSpace("x") == "x" && Lower("x") == "x";
  }

  /** An input the store can hand over: a stored domain may end in a dot, since the dot is
      trimmed before the white space. Two nodes that serve "x" and "x." make the table depend on
      the order. */
  lemma StoredDomainsCanCollide()
    ensures Cleaned("x. ") == "x." && Kept("x.") && Cleaned("x") == "x"
    ensures !Unambiguous(map["x" := "10.0.0.1", "x." := "10.0.0.2"])
  {
    CleanedDot();
    var m := map["x" := "10.0.0.1", "x." := "10.0.0.2"];
    assert Normal("x") == Normal("x.") by {
      assert TrimDot("x.") == "x" && TrimDot("x") == "x";
    }
    var a, b := "10.0.0.1", "10.0.0.2";
    assert (a + ":53")[7] != (b + ":53")[7];
    assert WithPort(m["x"]) == a + ":53" && WithPort(m["x."]) == b + ":53";
  }

  // ---------------------------------------------------------------- case

  /** One query spelt two ways: letter by letter the same, up to one final dot of each. */
  predicate SameQuery(a: string, b: string) {
    SameSpelling(TrimDot(a), TrimDot(b))
  }

  /** A final dot added to either of two spellings, or to both. */
  lemma DotsAside(a: string, b: string)
    requires SameSpelling(a, b) && (a == "" || a[|a| - 1] != '.')
    ensures SameQuery(a, b) && SameQuery(a + ".", b) && SameQuery(a, b + ".") && SameQuery(a + ".", b + ".")
  {
    assert TrimDot(a + ".") == a && TrimDot(b + ".") == b && TrimDot(a) == a && TrimDot(b) == b;
  }

  /** Spelling a query in other letter cases, or with a final dot, asks the same question. */
  lemma QueryCaseIsIgnored(rt: Routing, a: string, b: string, up: string)
    requires SameQuery(a, b)
    ensures IsPick(rt, a, up) <==> IsPick(rt, b, up)
  {
    LowerIffSameSpelling(TrimDot(a), TrimDot(b));
  }

  lemma EntryOf(byDomain: map<string, string>, defaultUpstream: string, rt: Routing, d: string)
    requires IsTable(byDomain, defaultUpstream, rt) && Unambiguous(byDomain) && d in byDomain
    ensures Normal(d) in rt.byDomain && rt.byDomain[Normal(d)] == WithPort(byDomain[d])
  {
    TableExact(byDomain, defaultUpstream, rt);
    var k :| k in byDomain && Normal(k) == Normal(d) && rt.byDomain[Normal(d)] == WithPort(byDomain[k]);
  }

  /** Every domain of the input answers for itself in any spelling, final dots aside. */
  lemma DomainAnswersForItself(byDomain: map<string, string>, defaultUpstream: string, rt: Routing, d: string, q: string, up: string)
    requires IsTable(byDomain, defaultUpstream, rt) && Unambiguous(byDomain)
    requires d in byDomain && SameQuery(q, d) && IsPick(rt, q, up)
    ensures up == WithPort(byDomain[d])
  {
    LowerIffSameSpelling(TrimDot(q), TrimDot(d));
    EntryOf(byDomain, defaultUpstream, rt, d);
    var name := Normal(q);
    assert Matches(name, name);
    var w :| IsLongest(rt, name, w) && up == rt.byDomain[w];
    SameLengthSame(name, w, name);
  }

  // ---------------------------------------------------------------- the answer, said on the input

  /** The query is the domain, or a name under it, in any spelling. */
  ghost predicate NameUnder(q: string, d: string) {
    SameQuery(q, d) || exists host: string :: SameSpelling(TrimDot(q), host + "." + TrimDot(d))
  }

  lemma LowerTail(a: string, n: nat)
    requires n <= |a|
    ensures Lower(a)[n..] == Lower(a[n..])
  {
  }

  lemma MatchHasHost(a: string, b: string)
    requires HasSuffix(Lower(a), "." + Lower(b))
    ensures exists host: string :: SameSpelling(a, host + "." + b)
  {
    var n := |a| - |b| - 1;
    LowerTail(a, n);
    assert Lower(a)[n] == '.' && Lower(a)[n + 1..] == Lower(b) by {
      assert Lower(a)[n..][0] == '.' && Lower(a)[n..][1..] == Lower(b);
    }
    LowerTail(a, n + 1);
    LowerIffSameSpelling(a[n + 1..], b);
    assert a[n] == '.';
    assert SameSpelling(a, a[..n] + "." + b);
  }

  lemma HostIsMatch(a: string, b: string, host: string)
    requires SameSpelling(a, host + "." + b)
    ensures HasSuffix(Lower(a), "." + Lower(b))
  {
    LowerIffSameSpelling(a, host + "." + b);
    assert Lower(host + "." + b) == Lower(host) + ("." + Lower(b));
  }

  lemma MatchesIffNameUnder(q: string, d: string)
    ensures Matches(Normal(q), Normal(d)) <==> NameUnder(q, d)
  {
    var a, b := TrimDot(q), TrimDot(d);
    LowerIffSameSpelling(a, b);
    if HasSuffix(Lower(a), "." + Lower(b)) {
      MatchHasHost(a, b);
    }
    if host: string :| SameSpelling(a, host + "." + b) {
      HostIsMatch(a, b, host);
    }
  }

  /** No configured domain above the name is longer. */
  ghost predicate IsClosest(byDomain: map<string, string>, q: string, d: string) {
    && d in byDomain && NameUnder(q, d)
    && forall e :: e in byDomain && NameUnder(q, e) ==> |TrimDot(e)| <= |TrimDot(d)|
  }

  lemma ClosestIsLongest(byDomain: map<string, string>, defaultUpstream: string, rt: Routing, q: string, d: string)
    requires IsTable(byDomain, defaultUpstream, rt) && IsClosest(byDomain, q, d)
    ensures IsLongest(rt, Normal(q), Normal(d))
  {
    TableExact(byDomain, defaultUpstream, rt);
    MatchesIffNameUnder(q, d);
    forall n | n in rt.byDomain && Matches(Normal(q), n) ensures |n| <= |Normal(d)| {
      var e :| e in byDomain && Normal(e) == n;
      MatchesIffNameUnder(q, e);
    }
  }

  /** What a query is answered, on the configured domains as they were given: the closest one above
      the name decides, in any spelling; without any it is the default upstream. */
  lemma AnswerIsClosest(byDomain: map<string, string>, defaultUpstream: string, rt: Routing, q: string, up: string)
    requires IsTable(byDomain, defaultUpstream, rt) && Unambiguous(byDomain) && IsPick(rt, q, up)
    ensures forall d :: IsClosest(byDomain, q, d) ==> up == WithPort(byDomain[d])
    ensures (forall d :: d in byDomain ==> !NameUnder(q, d)) ==>
      up == WithPort(if defaultUpstream == "" then "1.1.1.1:53" else defaultUpstream)
  {
    TableExact(byDomain, defaultUpstream, rt);
    forall d | IsClosest(byDomain, q, d) ensures up == WithPort(byDomain[d]) {
      ClosestIsLongest(byDomain, defaultUpstream, rt, q, d);
      EntryOf(byDomain, defaultUpstream, rt, d);
      var w :| IsLongest(rt, Normal(q), w) && up == rt.byDomain[w];
      SameLengthSame(Normal(q), w, Normal(d));
    }
    forall d | d in byDomain ensures Matches(Normal(q), Normal(d)) <==> NameUnder(q, d) {
      MatchesIffNameUnder(q, d);
    }
  }

  /** A server without a port is asked on port 53, one with a port as it is, an IPv6 address in
      brackets on port 53. */
  lemma PortsAreFilledIn(host: string, port: string)
    requires host != "" && ':' !in host && ']' !in host && ']' !in port
    ensures WithPort(host) == host + ":53" && WithPort(host + ":" + port) == host + ":" + port
    ensures WithPort("[" + host + "]") == "[" + host + "]:53"
  {
    var named := host + ":" + port;
    assert named[|host|] == ':';
    assert ("[" + host + "]")[|host| + 1] == ']';
  }

  /** The one form the test for a port gets wrong: a bracketed address that has one gets a second. */
  lemma BracketedPortIsDoubled(host: string, port: string)
    ensures WithPort("[" + host + "]:" + port) == "[" + host + "]:" + port + ":53"
  {
    assert ("[" + host + "]:" + port)[|host| + 1] == ']';
  }

  // ---------------------------------------------------------------- label by label

  /** A dot opens a new first label; any other character extends it. */
  function WithChar(c: char, rest: seq<string>): (r: seq<string>)
    requires rest != []
    ensures r != []
  {
    if c == '.' then [""] + rest else [[c] + rest[0]] + rest[1..]
  }

  /** The labels of a name, from the left. */
  function Labels(s: string): (r: seq<string>)
    ensures r != []
  {
    if s == "" then [""]
    else
      WithChar(s[0], Labels(s[1..]))
  }

  function Joined(labels: seq<string>): string
    requires labels != []
  {
    if |labels| == 1 then labels[0] else labels[0] + "." + Joined(labels[1..])
  }

  lemma JoinedWithChar(c: char, rest: seq<string>)
    requires rest != []
    ensures Joined(WithChar(c, rest)) == [c] + Joined(rest)
  {
  }

  lemma {:induction false} JoinedLabels(s: string)
    ensures Joined(Labels(s)) == s
  {
    if s != "" {
      JoinedLabels(s[1..]);
      JoinedWithChar(s[0], Labels(s[1..]));
    }
  }

  lemma WithCharConcat(c: char, x: seq<string>, y: seq<string>)
    requires x != []
    ensures WithChar(c, x + y) == WithChar(c, x) + y
  {
  }

  lemma {:induction false} LabelsOfDotted(a: string, b: string)
    ensures Labels(a + "." + b) == Labels(a) + Labels(b)
  {
    var s := a + "." + b;
    if a == "" {
      assert s[1..] == b;
    } else {
      assert s[1..] == a[1..] + "." + b;
      LabelsOfDotted(a[1..], b);
      WithCharConcat(a[0], Labels(a[1..]), Labels(b));
    }
  }

  lemma {:induction false} JoinedConcat(x: seq<string>, y: seq<string>)
    requires x != [] && y != []
    ensures Joined(x + y) == Joined(x) + "." + Joined(y)
  {
    assert (x + y)[1..] == x[1..] + y;
    if |x| == 1 {
      assert x[1..] + y == y;
    } else {
      JoinedConcat(x[1..], y);
    }
  }

  predicate Ends(n: seq<string>, d: seq<string>) {
    |d| <= |n| && n[|n| - |d|..] == d
  }

  /** The domain's labels end the name's labels. */
  predicate Under(name: string, domain: string) {
    Ends(Labels(name), Labels(domain))
  }

  lemma MatchIsUnder(name: string, domain: string)
    requires Matches(name, domain)
    ensures Under(name, domain)
  {
    if name != domain {
      var head := name[..|name| - |domain| - 1];
      assert name == head + "." + domain;
      LabelsOfDotted(head, domain);
    }
  }

  lemma DottedEnds(head: string, domain: string)
    ensures HasSuffix(head + "." + domain, "." + domain)
  {
  }

  lemma UnderIsMatch(name: string, domain: string)
    requires Under(name, domain)
    ensures Matches(name, domain)
  {
    var n, d := Labels(name), Labels(domain);
    JoinedLabels(name);
    JoinedLabels(domain);
    if |n| > |d| {
      var x := n[..|n| - |d|];
      assert n == x + d;
      JoinedConcat(x, d);
      DottedEnds(Joined(x), domain);
    } else {
      assert n == d;
    }
  }

  /** The string test is the label test: no domain matches in the middle of a label. */
  lemma MatchesIffUnder(name: string, domain: string)
    ensures Matches(name, domain) <==> Under(name, domain)
  {
    if Matches(name, domain) {
      MatchIsUnder(name, domain);
    }
    if Under(name, domain) {
      UnderIsMatch(name, domain);
    }
  }

  lemma ShorterTail(n: seq<string>, x: seq<string>, y: seq<string>)
    requires x != [] && |x| < |y| && Ends(n, x) && Ends(n, y)
    ensures |Joined(x)| < |Joined(y)|
  {
    var z := y[..|y| - |x|];
    assert y == z + x;
    JoinedConcat(z, x);
  }

  /** Among the domains above a name the longer text has the more labels. */
  lemma LongerHasMoreLabels(name: string, d: string, e: string)
    requires Under(name, d) && Under(name, e) && |d| <= |e|
    ensures |Labels(d)| <= |Labels(e)|
  {
    JoinedLabels(d);
    JoinedLabels(e);
    if |Labels(e)| < |Labels(d)| {
      ShorterTail(Labels(name), Labels(e), Labels(d));
    }
  }

  /** Pick returns the upstream of the domain that shares the most labels with the query. */
  lemma PickIsDeepest(rt: Routing, qname: string, up: string, d: string) returns (w: string)
    requires IsPick(rt, qname, up) && d in rt.byDomain && Under(Normal(qname), d)
    ensures w in rt.byDomain && Under(Normal(qname), w) && up == rt.byDomain[w]
    ensures forall e :: e in rt.byDomain && Under(Normal(qname), e) ==> |Labels(e)| <= |Labels(w)|
  {
    var name := Normal(qname);
    MatchesIffUnder(name, d);
    w :| IsLongest(rt, name, w) && up == rt.byDomain[w];
    MatchesIffUnder(name, w);
    forall e | e in rt.byDomain && Under(name, e) ensures |Labels(e)| <= |Labels(w)| {
      MatchesIffUnder(name, e);
      LongerHasMoreLabels(name, e, w);
    }
  }
}

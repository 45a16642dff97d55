/** The recursor's configuration (`internal/resolver/recursor/base.go`): merged upstreams and retry limits. */
module Upstreams {
  const LOCAL_IP := "127.0.0.1"

  function GetBigger(a: int, b: int): int {
    if a > b then a else b
  }

  predicate NeedSkip(bindLocalhost: bool, nameServer: string) {
    nameServer == LOCAL_IP && bindLocalhost
  }

  /** The servers that may be used at all, in order. */
  function Kept(bindLocalhost: bool, servers: seq<string>): seq<string> {
    if servers == [] then []
    else
      var front, last := Kept(bindLocalhost, servers[..|servers| - 1]), servers[|servers| - 1];
      if NeedSkip(bindLocalhost, last) then front else front + [last]
  }

  /** Stable deduplication: every element at its first occurrence only. */
  function FirstOccurrences(s: seq<string>): seq<string> {
    if s == [] then []
    else
      var front, last := s[..|s| - 1], s[|s| - 1];
      if last in front then FirstOccurrences(front) else FirstOccurrences(front) + [last]
  }

  function Members(s: seq<string>): set<string> {
    set x | x in s
  }

  function Endpoint(server: string): string {
    server + ":53"
  }

  function Endpoints(servers: seq<string>): seq<string> {
    seq(|servers|, i requires 0 <= i < |servers| => Endpoint(servers[i]))
  }

  lemma KeptSnoc(bindLocalhost: bool, servers: seq<string>, x: string)
    ensures Kept(bindLocalhost, servers + [x])
         == Kept(bindLocalhost, servers) + if NeedSkip(bindLocalhost, x) then [] else [x]
  {
    assert (servers + [x])[..|servers|] == servers;
  }

  lemma FirstOccurrencesSnoc(s: seq<string>, x: string)
    ensures FirstOccurrences(s + [x]) == FirstOccurrences(s) + if x in s then [] else [x]
  {
    assert (s + [x])[..|s|] == s;
  }

  lemma EndpointsSnoc(s: seq<string>, x: string)
    ensures Endpoints(s + [x]) == Endpoints(s) + [Endpoint(x)]
  {
  }

  /** The list of usable servers after merging the first `i` of `servers` into `base`. */
  function Offered(bindLocalhost: bool, base: seq<string>, servers: seq<string>, i: nat): seq<string>
    requires i <= |servers|
  {
    base + Kept(bindLocalhost, servers[..i])
  }

  /** What one more server does to the list and to the set of servers seen. */
  lemma OfferOne(bindLocalhost: bool, base: seq<string>, servers: seq<string>, i: nat)
    requires i < |servers|
    ensures var before, after := Offered(bindLocalhost, base, servers, i), Offered(bindLocalhost, base, servers, i + 1);
            var x := servers[i];
            var added := x !in Members(before) && !NeedSkip(bindLocalhost, x);
            && Endpoints(FirstOccurrences(after))
               == Endpoints(FirstOccurrences(before)) + (if added then [Endpoint(x)] else [])
            && Members(after) == Members(before) + (if added then {x} else {})
  {
    var before, x := Offered(bindLocalhost, base, servers, i), servers[i];
    assert servers[..i + 1] == servers[..i] + [x];
    KeptSnoc(bindLocalhost, servers[..i], x);
    if NeedSkip(bindLocalhost, x) {
      assert Offered(bindLocalhost, base, servers, i + 1) == before;
    } else {
      assert Offered(bindLocalhost, base, servers, i + 1) == before + [x];
      FirstOccurrencesSnoc(before, x);
      EndpointsSnoc(FirstOccurrences(before), x);
    }
  }

  lemma {:induction false} KeptConcat(bindLocalhost: bool, a: seq<string>, b: seq<string>)
    ensures Kept(bindLocalhost, a + b) == Kept(bindLocalhost, a) + Kept(bindLocalhost, b)
  {
    if b == [] {
      assert a + b == a;
    } else {
      var front, last := b[..|b| - 1], b[|b| - 1];
      assert a + b == (a + front) + [last] && b == front + [last];
      KeptSnoc(bindLocalhost, a + front, last);
      KeptSnoc(bindLocalhost, front, last);
      KeptConcat(bindLocalhost, a, front);
    }
  }

  /** The map that the merging calls share; `offered` is every usable server merged so far. */
  class NameServerMap {
    var seen: map<string, bool>
    ghost var offered: seq<string>

    constructor ()
      ensures seen == map[] && offered == []
    {
      seen, offered := map[], [];
    }
  }

  /** What `/etc/resolv.conf` yields. */
  datatype ResolvConf = ResolvConf(servers: seq<string>, search: seq<string>, ndots: int, timeout: int, attempts: int)

  datatype ResolvFile = Missing | Unparsable | Parsed(conf: ResolvConf)

  datatype Settings = Settings(ndots: int, search: seq<string>, timeout: int, attempts: int, upstream: seq<string>)

  /** The configuration the sidecar ends up with: one stable deduplication of both server lists. */
  function MergedSettings(bindLocalhost: bool, timeout: int, nameServers: seq<string>, conf: ResolvConf): Settings {
    var upstream := Endpoints(FirstOccurrences(Kept(bindLocalhost, nameServers + conf.servers)));
    Settings(if conf.ndots > 0 then conf.ndots else 1, conf.search, GetBigger(timeout, conf.timeout),
             GetBigger(conf.attempts, |upstream|), upstream)
  }

  class Config {
    var ndots: int
    var search: seq<string>
    var timeout: int
    var attempts: int
    var upstream: seq<string>

    constructor (timeout: int)
      ensures upstream == [] && this.timeout == timeout
    {
      ndots, search, this.timeout, attempts, upstream := 0, [], timeout, 0, [];
    }

    function Value(): Settings
      reads this
    {
      Settings(ndots, search, timeout, attempts, upstream)
    }

    /** The seen-map holds exactly the servers listed so far. */
    ghost predicate Lists(m: NameServerMap)
      reads this, m
    {
      && upstream == Endpoints(FirstOccurrences(m.offered))
      && m.seen.Keys == Members(m.offered)
    }

    method MergeUpstream(bindLocalhost: bool, nameServerMap: NameServerMap, nameServers: seq<string>)
      requires Lists(nameServerMap)
      modifies this`upstream, nameServerMap
      ensures Lists(nameServerMap)
      ensures nameServerMap.offered == old(nameServerMap.offered) + Kept(bindLocalhost, nameServers)
    {
      ghost var base := nameServerMap.offered;
      var i := 0;
      assert nameServerMap.offered == Offered(bindLocalhost, base, nameServers, 0);
      while i < |nameServers|
        invariant 0 <= i <= |nameServers|
        invariant Lists(nameServerMap)
        invariant nameServerMap.offered == Offered(bindLocalhost, base, nameServers, i)
      {
        var nameServer := nameServers[i];
        OfferOne(bindLocalhost, base, nameServers, i);
        if nameServer !in nameServerMap.seen && !NeedSkip(bindLocalhost, nameServer) {
          upstream := upstream + [Endpoint(nameServer)];
          nameServerMap.seen := nameServerMap.seen[nameServer := true];
        }
        i := i + 1;
        nameServerMap.offered := Offered(bindLocalhost, base, nameServers, i);
      }
      assert nameServers[..i] == nameServers;
    }

    method FillByResolvConfig(conf: ResolvConf)
      modifies this`ndots, this`search, this`attempts
      ensures ndots == if conf.ndots > 0 then conf.ndots else 1
      ensures search == conf.search && attempts == GetBigger(conf.attempts, |upstream|)
    {
      ndots := 1;
      if conf.ndots > 0 {
        ndots := conf.ndots;
      }
      search := conf.search;
      attempts := GetBigger(conf.attempts, |upstream|);
    }
  }

  /** A missing file yields no configuration and no error; an unreadable one yields an error. */
  method InitRecurseConfig(bindLocalhost: bool, timeout: int, nameServers: seq<string>, file: ResolvFile)
    returns (config: Config?, failed: bool)
    ensures failed <==> file.Unparsable?
    ensures config != null <==> file.Parsed?
    ensures config != null ==> fresh(config)
    ensures config != null ==> config.Value() == MergedSettings(bindLocalhost, timeout, nameServers, file.conf)
  {
    match file {
      case Missing => return null, false;
      case Unparsable => return null, true;
      case Parsed(conf) =>
        config := new Config(GetBigger(timeout, conf.timeout));
        failed := false;
        var nameServerMap := new NameServerMap();
        assert config.upstream == Endpoints(FirstOccurrences([]));
        config.MergeUpstream(bindLocalhost, nameServerMap, nameServers);
        config.MergeUpstream(bindLocalhost, nameServerMap, conf.servers);
        KeptConcat(bindLocalhost, nameServers, conf.servers);
        assert nameServerMap.offered == Kept(bindLocalhost, nameServers + conf.servers);
        config.FillByResolvConfig(conf);
    }
  }

  // ----- What the merged list is -----

  ghost predicate Distinct(s: seq<string>) {
    forall i, j :: 0 <= i < j < |s| ==> s[i] != s[j]
  }

  /** `a` occurs in `s` before `b` occurs at all. */
  ghost predicate FirstBefore(s: seq<string>, a: string, b: string) {
    exists i :: 0 <= i < |s| && s[i] == a && b !in s[..i + 1]
  }

  ghost predicate InFirstOrder(f: seq<string>, s: seq<string>) {
    forall i, j :: 0 <= i < j < |f| ==> FirstBefore(s, f[i], f[j])
  }

  lemma FirstBeforeExtends(s: seq<string>, x: string, a: string, b: string)
    requires FirstBefore(s, a, b)
    ensures FirstBefore(s + [x], a, b)
  {
    var i :| 0 <= i < |s| && s[i] == a && b !in s[..i + 1];
    assert (s + [x])[i] == a && (s + [x])[..i + 1] == s[..i + 1];
  }

  lemma {:induction false} FirstOccurrencesMeaning(s: seq<string>)
    ensures Distinct(FirstOccurrences(s))
    ensures forall x :: x in FirstOccurrences(s) <==> x in s
    ensures InFirstOrder(FirstOccurrences(s), s)
  {
    if s != [] {
      var front, last := s[..|s| - 1], s[|s| - 1];
      FirstOccurrencesMeaning(front);
      assert s == front + [last];
      var f, g := FirstOccurrences(s), FirstOccurrences(front);
      forall i, j | 0 <= i < j < |f| ensures FirstBefore(s, f[i], f[j]) {
        if j < |g| {
          assert FirstBefore(front, g[i], g[j]);
          FirstBeforeExtends(front, last, g[i], g[j]);
        } else {
          assert g[i] in front;
          var k :| 0 <= k < |front| && front[k] == g[i];
          assert s[..k + 1] == front[..k + 1] && s[k] == f[i];
        }
      }
    }
  }

  lemma {:induction false} KeptMeaning(bindLocalhost: bool, servers: seq<string>, x: string)
    ensures x in Kept(bindLocalhost, servers) <==> x in servers && !NeedSkip(bindLocalhost, x)
  {
    if servers != [] {
      var front, last := servers[..|servers| - 1], servers[|servers| - 1];
      assert servers == front + [last];
      KeptMeaning(bindLocalhost, front, x);
    }
  }

  lemma EndpointInjective(a: string, b: string)
    requires Endpoint(a) == Endpoint(b)
    ensures a == b
  {
    assert Endpoint(a)[..|a|] == a && Endpoint(b)[..|b|] == b;
  }

  lemma EndpointIn(names: seq<string>, x: string)
    ensures Endpoint(x) in Endpoints(names) <==> x in names
  {
    if Endpoint(x) in Endpoints(names) {
      var i :| 0 <= i < |names| && Endpoint(names[i]) == Endpoint(x);
      EndpointInjective(names[i], x);
    }
    if x in names {
      var i :| 0 <= i < |names| && names[i] == x;
      assert Endpoints(names)[i] == Endpoint(x);
    }
  }

  lemma EndpointsDistinct(names: seq<string>)
    requires Distinct(names)
    ensures Distinct(Endpoints(names))
  {
    forall i, j | 0 <= i < j < |names| ensures Endpoints(names)[i] != Endpoints(names)[j] {
      if Endpoint(names[i]) == Endpoint(names[j]) {
        EndpointInjective(names[i], names[j]);
      }
    }
  }

  lemma {:induction false} KeptFirstBefore(bindLocalhost: bool, servers: seq<string>, a: string, b: string)
    requires FirstBefore(Kept(bindLocalhost, servers), a, b) && !NeedSkip(bindLocalhost, b)
    ensures FirstBefore(servers, a, b)
  {
    var front, last := servers[..|servers| - 1], servers[|servers| - 1];
    var kept := Kept(bindLocalhost, front);
    assert servers == front + [last];
    var i :| 0 <= i < |Kept(bindLocalhost, servers)| && Kept(bindLocalhost, servers)[i] == a
             && b !in Kept(bindLocalhost, servers)[..i + 1];
    if i < |kept| {
      assert Kept(bindLocalhost, servers)[..i + 1] == kept[..i + 1];
      KeptFirstBefore(bindLocalhost, front, a, b);
      FirstBeforeExtends(front, last, a, b);
    } else {
      assert Kept(bindLocalhost, servers)[..i + 1] == kept + [a];
      assert b !in kept && b != a;
      KeptMeaning(bindLocalhost, front, b);
      assert servers[..|front| + 1] == servers;
    }
  }

  lemma KeptOrder(bindLocalhost: bool, servers: seq<string>, names: seq<string>)
    requires InFirstOrder(names, Kept(bindLocalhost, servers))
    requires forall x :: x in names ==> !NeedSkip(bindLocalhost, x)
    ensures InFirstOrder(names, servers)
  {
    forall i, j | 0 <= i < j < |names| ensures FirstBefore(servers, names[i], names[j]) {
      KeptFirstBefore(bindLocalhost, servers, names[i], names[j]);
    }
  }

  /** The server may be used: only the sidecar's own address is left out, and only when it is bound to localhost. */
  predicate Usable(bindLocalhost: bool, server: string) {
    !(bindLocalhost && server == "127.0.0.1")
  }

  /**
   The upstream list is that of `names`, each at port 53: all usable servers without duplicates, in the order of
   their first occurrence in the configured list followed by that of resolv.conf. `attempts` covers it.
   */
  lemma UpstreamsAreMerged(bindLocalhost: bool, timeout: int, nameServers: seq<string>, conf: ResolvConf)
    returns (names: seq<string>)
    ensures var r := MergedSettings(bindLocalhost, timeout, nameServers, conf);
            var all := nameServers + conf.servers;
            && |r.upstream| == |names|
            && (forall i :: 0 <= i < |names| ==> r.upstream[i] == names[i] + ":53")
            && Distinct(names) && Distinct(r.upstream)
            && (forall x :: x in names <==> x in all && Usable(bindLocalhost, x))
            && InFirstOrder(names, all)
            && (bindLocalhost ==> "127.0.0.1:53" !in r.upstream)
            && r.attempts >= |r.upstream|
  {
    var all := nameServers + conf.servers;
    names := FirstOccurrences(Kept(bindLocalhost, all));
    FirstOccurrencesMeaning(Kept(bindLocalhost, all));
    EndpointsDistinct(names);
    forall x ensures x in names <==> x in all && Usable(bindLocalhost, x) {
      KeptMeaning(bindLocalhost, all, x);
    }
    KeptOrder(bindLocalhost, all, names);
    assert Endpoint(LOCAL_IP) == "127.0.0.1:53";
    EndpointIn(names, LOCAL_IP);
  }

  /** The limits: at least one dot, the search list of the file, and the larger of each pair of limits. */
  lemma LimitsAreMerged(bindLocalhost: bool, timeout: int, nameServers: seq<string>, conf: ResolvConf)
    ensures var r := MergedSettings(bindLocalhost, timeout, nameServers, conf);
            && r.search == conf.search
            && r.ndots >= 1 && (conf.ndots >= 1 ==> r.ndots == conf.ndots) && (conf.ndots < 1 ==> r.ndots == 1)
            && r.timeout >= timeout && r.timeout >= conf.timeout && r.timeout in {timeout, conf.timeout}
            && r.attempts >= |r.upstream| && r.attempts >= conf.attempts && r.attempts in {|r.upstream|, conf.attempts}
  {
  }
}

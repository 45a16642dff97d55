/** Envoy's upstream delay histograms (`parseUpstreamDelay` in `internal/mesh/metrics/server.go`). */
module EnvoyStats {
  import opened Strings
  import opened Wrappers

  const SCOPE := "cluster"
  const SERIES := "upstream_rq_time"
  const PREFIX := SCOPE + "."
  const SUFFIX := "." + SERIES

  /** The statistic name that Envoy derives from a cluster name. */
  function StatName(cluster: string): string {
    PREFIX + cluster + SUFFIX
  }

  /** The regular expression `^cluster\..+\.upstream_rq_time$`; its dot does not match a newline. */
  predicate MatchesClusterRegex(name: string) {
    && |name| > |PREFIX| + |SUFFIX|
    && name[..|PREFIX|] == PREFIX
    && HasSuffix(name, SUFFIX)
    && '\n' !in name[|PREFIX|..|name| - |SUFFIX|]
  }

  /** The cluster a matching name is about: what lies between its first dot and its last dot. */
  function ClusterOf(name: string): Option<string> {
    if !MatchesClusterRegex(name) then None
    else
      var dot := Index(name, '.');
      if dot == -1 then None
      else
        var rest := name[dot + 1..];
        var last := LastIndex(rest, '.');
        if last == -1 then None else Some(rest[..last])
  }

  lemma FirstDot(cluster: string)
    ensures Index(StatName(cluster), '.') == |SCOPE|
    ensures StatName(cluster)[|PREFIX|..] == cluster + SUFFIX
  {
    var rest := cluster + SUFFIX;
    assert StatName(cluster) == SCOPE + "." + rest;
    assert '.' !in SCOPE;
    IndexAt(SCOPE, '.', rest);
  }

  lemma LastDotBeforeSeries(cluster: string, series: string)
    requires '.' !in series
    ensures LastIndex(cluster + ("." + series), '.') == |cluster|
    ensures (cluster + ("." + series))[..|cluster|] == cluster
  {
    assert cluster + ("." + series) == cluster + "." + series;
    LastIndexAt(cluster, '.', series);
  }

  lemma SeriesHasNoDot()
    ensures '.' !in SERIES
  {
  }

  lemma LastDot(cluster: string)
    ensures LastIndex(cluster + SUFFIX, '.') == |cluster|
    ensures (cluster + SUFFIX)[..|cluster|] == cluster
  {
    SeriesHasNoDot();
    LastDotBeforeSeries(cluster, SERIES);
  }

  lemma RegexAcceptsStatNames(name: string)
    ensures MatchesClusterRegex(name) <==>
              exists cluster :: name == StatName(cluster) && cluster != "" && '\n' !in cluster
  {
    if MatchesClusterRegex(name) {
      var middle := name[|PREFIX|..|name| - |SUFFIX|];
      assert name == StatName(middle);
    }
    forall cluster | name == StatName(cluster) && cluster != "" && '\n' !in cluster
      ensures MatchesClusterRegex(name)
    {
      assert name[..|PREFIX|] == PREFIX && name[|name| - |SUFFIX|..] == SUFFIX;
      assert name[|PREFIX|..|name| - |SUFFIX|] == cluster;
    }
  }

  /**
   The parser recovers every cluster name, dots included, from its statistic name, and takes no other
   name for one.
   */
  lemma ClusterOfIsInverse(name: string, cluster: string)
    ensures ClusterOf(name) == Some(cluster)
       <==> name == "cluster." + cluster + ".upstream_rq_time" && cluster != "" && '\n' !in cluster
  {
    assert StatName(cluster) == "cluster." + cluster + ".upstream_rq_time";
    ClusterOfStatName(name, cluster);
  }

  lemma ClusterOfStatName(name: string, cluster: string)
    ensures ClusterOf(name) == Some(cluster) <==> name == StatName(cluster) && cluster != "" && '\n' !in cluster
  {
    RegexAcceptsStatNames(name);
    if MatchesClusterRegex(name) {
      var middle :| name == StatName(middle) && middle != "" && '\n' !in middle;
      FirstDot(middle);
      LastDot(middle);
      assert ClusterOf(name) == Some(middle);
      if name == StatName(cluster) {
        FirstDot(cluster);
        LastDot(cluster);
      }
    }
  }

  // ----- The delay of each cluster -----

  /** A decoded JSON value. */
  datatype Json = Null | Float(r: real) | Integer(n: int) | OtherValue

  datatype Quantile = Quantile(name: string, values: seq<Json>)

  datatype Stat = Stat(histograms: Option<seq<Quantile>>)

  /** The third value, as a number. */
  function Median(q: Quantile): Option<real> {
    if |q.values| < 3 then None
    else
      match q.values[2]
      case Float(r) => Some(r)
      case Integer(n) => Some(n as real)
      case _ => None
  }

  function Quantiles(stats: seq<Stat>): seq<Quantile> {
    if stats == [] then []
    else
      var s := stats[|stats| - 1];
      Quantiles(stats[..|stats| - 1]) + if s.histograms.Some? then s.histograms.value else []
  }

  /** The delay that the last usable histogram of this cluster gives. */
  function LastDelay(quantiles: seq<Quantile>, cluster: string): Option<real> {
    if quantiles == [] then None
    else
      var q := quantiles[|quantiles| - 1];
      if q.name == StatName(cluster) && Median(q).Some? then Median(q)
      else LastDelay(quantiles[..|quantiles| - 1], cluster)
  }

  // ----- What the poll says about a cluster -----

  /** The histogram of the cluster's request time whose third value, a float or an integer, is `d`. */
  predicate GivesDelay(q: Quantile, cluster: string, d: real) {
    && q.name == "cluster." + cluster + ".upstream_rq_time"
    && |q.values| >= 3
    && (q.values[2] == Float(d) || (q.values[2].Integer? && q.values[2].n as real == d))
  }

  /** Histogram `k` of statistic `s` gives the cluster this delay. */
  predicate GivesAt(stats: seq<Stat>, s: nat, k: nat, cluster: string, d: real) {
    && s < |stats| && stats[s].histograms.Some? && k < |stats[s].histograms.value|
    && GivesDelay(stats[s].histograms.value[k], cluster, d)
  }

  predicate Later(s: nat, k: nat, s': nat, k': nat) {
    s' > s || (s' == s && k' > k)
  }

  ghost predicate LastGivenAt(stats: seq<Stat>, s: nat, k: nat, cluster: string, d: real) {
    && GivesAt(stats, s, k, cluster, d)
    && forall s': nat, k': nat, d' :: GivesAt(stats, s', k', cluster, d') ==> !Later(s, k, s', k')
  }

  /** `d` is the delay of the last histogram of the poll that gives this cluster one. */
  ghost predicate LastGiven(stats: seq<Stat>, cluster: string, d: real) {
    exists s: nat, k: nat :: LastGivenAt(stats, s, k, cluster, d)
  }

  lemma GivesDelayIff(q: Quantile, cluster: string, d: real)
    ensures GivesDelay(q, cluster, d) <==> q.name == StatName(cluster) && Median(q) == Some(d)
  {
    assert StatName(cluster) == "cluster." + cluster + ".upstream_rq_time";
  }

  lemma {:induction false} LastDelayConcat(a: seq<Quantile>, b: seq<Quantile>, cluster: string)
    ensures LastDelay(a + b, cluster) == if LastDelay(b, cluster).Some? then LastDelay(b, cluster)
                                         else LastDelay(a, cluster)
  {
    if b == [] {
      assert a + b == a;
    } else {
      assert (a + b)[..|a + b| - 1] == a + b[..|b| - 1];
      LastDelayConcat(a, b[..|b| - 1], cluster);
    }
  }

  lemma {:induction false} LastInHistograms(quantiles: seq<Quantile>, cluster: string) returns (k: nat)
    ensures var r := LastDelay(quantiles, cluster);
            if r.None? then forall j, d :: 0 <= j < |quantiles| ==> !GivesDelay(quantiles[j], cluster, d)
            else k < |quantiles| && GivesDelay(quantiles[k], cluster, r.value) &&
                 forall j, d :: k < j < |quantiles| ==> !GivesDelay(quantiles[j], cluster, d)
  {
    k := 0;
    if quantiles != [] {
      var last := |quantiles| - 1;
      var q := quantiles[last];
      forall d ensures GivesDelay(q, cluster, d) <==> q.name == StatName(cluster) && Median(q) == Some(d) {
        GivesDelayIff(q, cluster, d);
      }
      if q.name == StatName(cluster) && Median(q).Some? {
        k := last;
      } else {
        k := LastInHistograms(quantiles[..last], cluster);
        assert forall j :: 0 <= j < last ==> quantiles[..last][j] == quantiles[j];
      }
    }
  }

  ghost predicate NothingGiven(stats: seq<Stat>, cluster: string) {
    forall s: nat, k: nat, d :: !GivesAt(stats, s, k, cluster, d)
  }

  lemma GivesAtFront(stats: seq<Stat>, cluster: string)
    requires stats != []
    ensures forall s: nat, k: nat, d :: s < |stats| - 1 ==>
              (GivesAt(stats, s, k, cluster, d) <==> GivesAt(stats[..|stats| - 1], s, k, cluster, d))
  {
  }

  lemma {:induction false} LastInPoll(stats: seq<Stat>, cluster: string) returns (s: nat, k: nat)
    ensures var r := LastDelay(Quantiles(stats), cluster);
            if r.None? then NothingGiven(stats, cluster) else LastGivenAt(stats, s, k, cluster, r.value)
  {
    s, k := 0, 0;
    if stats != [] {
      var front, last := stats[..|stats| - 1], |stats| - 1;
      var own := if stats[last].histograms.Some? then stats[last].histograms.value else [];
      LastDelayConcat(Quantiles(front), own, cluster);
      GivesAtFront(stats, cluster);
      k := LastInHistograms(own, cluster);
      if LastDelay(own, cluster).Some? {
        s := last;
      } else {
        s, k := LastInPoll(front, cluster);
      }
    }
  }

  /** The delay found is that of the last histogram that gives one. */
  lemma LastDelayMeaning(stats: seq<Stat>, cluster: string, d: real)
    ensures LastDelay(Quantiles(stats), cluster) == Some(d) <==> LastGiven(stats, cluster, d)
  {
    var s, k := LastInPoll(stats, cluster);
    if LastGiven(stats, cluster, d) {
      var s', k' :| LastGivenAt(stats, s', k', cluster, d);
      assert GivesAt(stats, s', k', cluster, d);
    }
  }

  predicate ClusterName(cluster: string) {
    cluster != "" && '\n' !in cluster
  }

  ghost predicate Reflects(m: map<string, real>, quantiles: seq<Quantile>) {
    forall c :: (c in m <==> ClusterName(c) && LastDelay(quantiles, c).Some?) &&
                (c in m ==> m[c] == LastDelay(quantiles, c).value)
  }

  function AddQuantile(m: map<string, real>, q: Quantile): map<string, real> {
    var cluster := ClusterOf(q.name);
    if cluster.Some? && Median(q).Some? then m[cluster.value := Median(q).value] else m
  }

  lemma AddQuantileReflects(m: map<string, real>, quantiles: seq<Quantile>, q: Quantile)
    requires Reflects(m, quantiles)
    ensures Reflects(AddQuantile(m, q), quantiles + [q])
  {
    var all, m' := quantiles + [q], AddQuantile(m, q);
    assert all[..|all| - 1] == quantiles;
    forall c
      ensures (c in m' <==> ClusterName(c) && LastDelay(all, c).Some?) && (c in m' ==> m'[c] == LastDelay(all, c).value)
    {
      ClusterOfStatName(q.name, c);
    }
  }

  /**
   A missing answer and an empty one give no delays; otherwise each cluster that has a usable histogram
   gets the delay of the last one, and nothing else is a key.
   */
  method ParseUpstreamDelay(stats: Option<seq<Stat>>) returns (retValues: map<string, real>)
    ensures stats.None? ==> retValues == map[]
    ensures stats.Some? ==>
              forall c, d :: c in retValues && retValues[c] == d
                        <==> c != "" && '\n' !in c && LastGiven(stats.value, c, d)
  {
    retValues := map[];
    if stats.None? {
      return;
    }
    var all := stats.value;
    var i := 0;
    while i < |all|
      invariant 0 <= i <= |all|
      invariant Reflects(retValues, Quantiles(all[..i]))
    {
      var stat := all[i];
      ghost var before := Quantiles(all[..i]);
      assert all[..i + 1][..i] == all[..i];
      i := i + 1;
      if stat.histograms.None? {
        assert Quantiles(all[..i]) == before;
        continue;
      }
      retValues := AddHistogram(retValues, stat.histograms.value, before);
    }
    assert all[..i] == all;
    ReflectsMeaning(retValues, all);
  }

  lemma ReflectsMeaning(m: map<string, real>, stats: seq<Stat>)
    requires Reflects(m, Quantiles(stats))
    ensures forall c, d :: c in m && m[c] == d <==> c != "" && '\n' !in c && LastGiven(stats, c, d)
  {
    forall c, d ensures c in m && m[c] == d <==> c != "" && '\n' !in c && LastGiven(stats, c, d) {
      LastDelayMeaning(stats, c, d);
    }
  }

  /** The inner loop: the quantiles of one statistic, after those `before` it. */
  method AddHistogram(values: map<string, real>, quantiles: seq<Quantile>, ghost before: seq<Quantile>)
    returns (retValues: map<string, real>)
    requires Reflects(values, before)
    ensures Reflects(retValues, before + quantiles)
  {
    retValues := values;
    assert before + quantiles[..0] == before;
    var k := 0;
    while k < |quantiles|
      invariant 0 <= k <= |quantiles|
      invariant Reflects(retValues, before + quantiles[..k])
    {
      AddQuantileReflects(retValues, before + quantiles[..k], quantiles[k]);
      assert before + quantiles[..k] + [quantiles[k]] == before + quantiles[..k + 1];
      retValues := AddOne(retValues, quantiles[k]);
      k := k + 1;
    }
    assert quantiles[..k] == quantiles;
  }

  /** The body of the inner loop. */
  method AddOne(values: map<string, real>, q: Quantile) returns (retValues: map<string, real>)
    ensures retValues == AddQuantile(values, q)
  {
    retValues := values;
    var cluster := ClusterOf(q.name);
    if cluster.None? || |q.values| < 3 {
      return;
    }
    match q.values[2] {
      case Float(r) => retValues := retValues[cluster.value := r];
      case Integer(n) => retValues := retValues[cluster.value := n as real];
      case _ =>
    }
  }
}

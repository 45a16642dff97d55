/**
 The Envoy metrics reporter (`internal/mesh/metrics/server.go`): it reads cumulative counters on every
 tick, reports what they have grown by, one call per request, and forgets instances that fell silent.
 */
module EnvoyMetrics {
  import opened Wrappers

  type uint64 = x: int | 0 <= x < 0x1_0000_0000_0000_0000

  /** Times and durations in nanoseconds. */
  const SECOND := 1_000_000_000
  const TICK := 30 * SECOND
  const INACTIVE := 300 * SECOND
  const CLEAN_THRESHOLD := 10

  datatype Key = Key(cluster: string, host: string, port: nat)

  datatype Value = Value(rqSuccess: uint64, rqError: uint64, rqTotal: uint64, lastActive: int)

  /** One call of `reportStatus`. */
  datatype Report = Report(key: Key, success: bool, code: nat, delay: real)

  datatype Stat = Stat(name: string, value: uint64)

  /**
   A host whose address or socket address is nil has no `socket`. `readAt` is what the clock shows when the reporter
   comes to this host.
   */
  datatype HostStatus = HostStatus(socket: Option<Socket>, stats: seq<Stat>, readAt: int)

  datatype Socket = Socket(address: string, port: nat)

  datatype ClusterStatus = ClusterStatus(name: string, hosts: seq<HostStatus>)

  /** What one poll of Envoy yields; a failed poll yields none. */
  datatype Poll = Poll(clusters: seq<ClusterStatus>, delays: map<string, real>)

  // ----- What a poll observes -----

  datatype Obs = Obs(key: Key, rqSuccess: uint64, rqError: uint64, rqTotal: uint64, at: int)

  /** The last statistic of this name, or 0. */
  function StatValue(stats: seq<Stat>, name: string): uint64 {
    if stats == [] then 0
    else if stats[|stats| - 1].name == name then stats[|stats| - 1].value
    else StatValue(stats[..|stats| - 1], name)
  }

  function HostObs(cluster: string, host: HostStatus): seq<Obs> {
    if host.socket.None? then []
    else [Obs(Key(cluster, host.socket.value.address, host.socket.value.port),
              StatValue(host.stats, "rq_success"), StatValue(host.stats, "rq_error"),
              StatValue(host.stats, "rq_total"), host.readAt)]
  }

  function HostsObs(cluster: string, hosts: seq<HostStatus>): seq<Obs> {
    if hosts == [] then []
    else HostsObs(cluster, hosts[..|hosts| - 1]) + HostObs(cluster, hosts[|hosts| - 1])
  }

  function Observations(clusters: seq<ClusterStatus>): seq<Obs> {
    if clusters == [] then []
    else
      var c := clusters[|clusters| - 1];
      Observations(clusters[..|clusters| - 1]) + HostsObs(c.name, c.hosts)
  }

  // ----- The reporter as a state machine -----

  datatype Machine = Machine(values: map<Key, Value>, cleanCounter: nat, sent: seq<Report>)

  /** How much a counter has grown; a counter that went down has not grown. */
  function Increase(latest: uint64, counter: uint64): uint64 {
    if counter > latest then counter - latest else 0
  }

  /** The conversion `int(v)` of a 64-bit counter. */
  function AsInt(v: uint64): int {
    if v < 0x8000_0000_0000_0000 then v else v - 0x1_0000_0000_0000_0000
  }

  function Times(report: Report, n: int): seq<Report> {
    seq(if n < 0 then 0 else n, _ => report)
  }

  /** What the counters of a key have grown by. */
  datatype Rise = Rise(rqSuccess: uint64, rqError: uint64, rqTotal: uint64)

  /** The growth to report for an observation; a key without a stored value reports its whole counters. */
  function Growth(values: map<Key, Value>, o: Obs): Rise {
    if o.key !in values then Rise(o.rqSuccess, o.rqError, o.rqTotal)
    else
      var latest := values[o.key];
      Rise(Increase(latest.rqSuccess, o.rqSuccess), Increase(latest.rqError, o.rqError),
           Increase(latest.rqTotal, o.rqTotal))
  }

  function Calls(key: Key, growth: Rise, delay: real): seq<Report> {
    Times(Report(key, true, 200, delay), AsInt(growth.rqSuccess))
    + Times(Report(key, false, 500, delay), AsInt(growth.rqError))
  }

  function DelayOf(delays: map<string, real>, cluster: string): real {
    if cluster in delays then delays[cluster] else 0.0
  }

  function Observe(m: Machine, o: Obs, delays: map<string, real>): Machine {
    m.(values := m.values[o.key := Value(o.rqSuccess, o.rqError, o.rqTotal, o.at)],
       sent := m.sent + Calls(o.key, Growth(m.values, o), DelayOf(delays, o.key.cluster)))
  }

  function ObserveAll(m: Machine, os: seq<Obs>, delays: map<string, real>): Machine {
    if os == [] then m else Observe(ObserveAll(m, os[..|os| - 1], delays), os[|os| - 1], delays)
  }

  predicate Inactive(v: Value, now: int) {
    now - v.lastActive > INACTIVE
  }

  function Retained(values: map<Key, Value>, now: int): map<Key, Value> {
    map k | k in values && !Inactive(values[k], now) :: values[k]
  }

  /** The first half of a tick: count it, and on every tenth drop the inactive keys. */
  function Clean(m: Machine, now: int): Machine {
    if m.cleanCounter + 1 >= CLEAN_THRESHOLD
    then m.(cleanCounter := 0, values := Retained(m.values, now))
    else m.(cleanCounter := m.cleanCounter + 1)
  }

  function Tick(m: Machine, now: int, poll: Option<Poll>): Machine {
    var cleaned := Clean(m, now);
    if poll.None? then cleaned else ObserveAll(cleaned, Observations(poll.value.clusters), poll.value.delays)
  }

  // ----- The server -----

  class Server {
    var values: map<Key, Value>
    var cleanCounter: nat
    var sent: seq<Report>

    constructor ()
      ensures State() == Machine(map[], 0, [])
    {
      values, cleanCounter, sent := map[], 0, [];
    }

    function State(): Machine
      reads this
    {
      Machine(values, cleanCounter, sent)
    }

    method ReportMetrics(key: Key, growth: Rise, delay: real)
      modifies this`sent
      ensures sent == old(sent) + Calls(key, growth, delay)
    {
      var success, failure := Report(key, true, 200, delay), Report(key, false, 500, delay);
      var i := 0;
      while i < AsInt(growth.rqSuccess)
        invariant 0 <= i && (i == 0 || i <= AsInt(growth.rqSuccess))
        invariant sent == old(sent) + Times(success, i)
      {
        TimesSnoc(success, i);
        sent := sent + [success];
        i := i + 1;
      }
      ghost var middle := sent;
      i := 0;
      while i < AsInt(growth.rqError)
        invariant 0 <= i && (i == 0 || i <= AsInt(growth.rqError))
        invariant sent == middle + Times(failure, i)
      {
        TimesSnoc(failure, i);
        sent := sent + [failure];
        i := i + 1;
      }
    }

    method ReadStats(stats: seq<Stat>, now: int) returns (v: Value)
      ensures v == Value(StatValue(stats, "rq_success"), StatValue(stats, "rq_error"),
                         StatValue(stats, "rq_total"), now)
    {
      v := Value(0, 0, 0, now);
      var i := 0;
      while i < |stats|
        invariant 0 <= i <= |stats|
        invariant v == Value(StatValue(stats[..i], "rq_success"), StatValue(stats[..i], "rq_error"),
                             StatValue(stats[..i], "rq_total"), now)
      {
        var stat := stats[i];
        assert stats[..i + 1][..i] == stats[..i];
        if stat.name == "rq_total" {
          v := v.(rqTotal := stat.value);
        } else if stat.name == "rq_success" {
          v := v.(rqSuccess := stat.value);
        } else if stat.name == "rq_error" {
          v := v.(rqError := stat.value);
        }
        i := i + 1;
      }
      assert stats[..i] == stats;
    }

    method ReportHost(cluster: string, host: HostStatus, delays: map<string, real>)
      modifies this`values, this`sent
      ensures State() == ObserveAll(old(State()), HostObs(cluster, host), delays)
    {
      if host.socket.None? {
        return;
      }
      var metricKey := Key(cluster, host.socket.value.address, host.socket.value.port);
      var metricValue := ReadStats(host.stats, host.readAt);
      ghost var o := Obs(metricKey, metricValue.rqSuccess, metricValue.rqError, metricValue.rqTotal, host.readAt);
      ObserveOne(State(), o, delays);
      var growth := Rise(metricValue.rqSuccess, metricValue.rqError, metricValue.rqTotal);
      if metricKey in values {
        var latest := values[metricKey];
        growth := Rise(0, 0, 0);
        if metricValue.rqTotal > latest.rqTotal {
          growth := growth.(rqTotal := metricValue.rqTotal - latest.rqTotal);
        }
        if metricValue.rqSuccess > latest.rqSuccess {
          growth := growth.(rqSuccess := metricValue.rqSuccess - latest.rqSuccess);
        }
        if metricValue.rqError > latest.rqError {
          growth := growth.(rqError := metricValue.rqError - latest.rqError);
        }
      }
      values := values[metricKey := metricValue];
      ReportMetrics(metricKey, growth, DelayOf(delays, cluster));
    }

    /** The inner loop over the hosts of one cluster. */
    method ReportHosts(cluster: string, hosts: seq<HostStatus>, delays: map<string, real>)
      modifies this`values, this`sent
      ensures State() == ObserveAll(old(State()), HostsObs(cluster, hosts), delays)
    {
      ghost var m := State();
      var k := 0;
      while k < |hosts|
        invariant 0 <= k <= |hosts|
        invariant State() == ObserveAll(m, HostsObs(cluster, hosts[..k]), delays)
      {
        ObserveOneHost(m, cluster, hosts, k, delays);
        ReportHost(cluster, hosts[k], delays);
        k := k + 1;
      }
      assert hosts[..k] == hosts;
    }

    method ReportMetricByCluster(poll: Option<Poll>)
      modifies this`values, this`sent
      ensures State() == if poll.None? then old(State())
                         else ObserveAll(old(State()), Observations(poll.value.clusters), poll.value.delays)
    {
      if poll.None? {
        return;
      }
      var clusters, delays := poll.value.clusters, poll.value.delays;
      ghost var m := State();
      var i := 0;
      while i < |clusters|
        invariant 0 <= i <= |clusters|
        invariant State() == ObserveAll(m, Observations(clusters[..i]), delays)
      {
        var c := clusters[i];
        ObserveOneCluster(m, clusters, i, delays);
        ReportHosts(c.name, c.hosts, delays);
        i := i + 1;
      }
      assert clusters[..i] == clusters;
    }

    /** One round of the `Run` loop; `now` is the time it reads for cleaning, on every tenth tick. */
    method OnTick(now: int, poll: Option<Poll>)
      modifies this
      ensures State() == Tick(old(State()), now, poll)
    {
      cleanCounter := cleanCounter + 1;
      if cleanCounter >= CLEAN_THRESHOLD {
        cleanCounter := 0;
        var all, rest := values, values.Keys;
        while rest != {}
          invariant rest <= all.Keys
          invariant values == map k | k in all && (k in rest || !Inactive(all[k], now)) :: all[k]
          invariant cleanCounter == 0 && sent == old(sent)
          decreases rest
        {
          var k :| k in rest;
          rest := rest - {k};
          if now - all[k].lastActive > INACTIVE {
            values := values - {k};
          }
        }
        assert values == Retained(all, now);
      }
      assert State() == Clean(old(State()), now);
      ReportMetricByCluster(poll);
    }
  }

  lemma TimesSnoc(r: Report, n: nat)
    ensures Times(r, n + 1) == Times(r, n) + [r]
  {
  }

  lemma ObserveOne(m: Machine, o: Obs, delays: map<string, real>)
    ensures ObserveAll(m, [o], delays) == Observe(m, o, delays)
  {
    assert [o][..0] == [];
  }

  lemma {:induction false} ObserveAllConcat(m: Machine, a: seq<Obs>, b: seq<Obs>, delays: map<string, real>)
    ensures ObserveAll(m, a + b, delays) == ObserveAll(ObserveAll(m, a, delays), b, delays)
  {
    if b == [] {
      assert a + b == a;
    } else {
      assert (a + b)[..|a + b| - 1] == a + b[..|b| - 1];
      ObserveAllConcat(m, a, b[..|b| - 1], delays);
    }
  }

  lemma ObserveOneHost(m: Machine, cluster: string, hosts: seq<HostStatus>, k: nat, delays: map<string, real>)
    requires k < |hosts|
    ensures ObserveAll(m, HostsObs(cluster, hosts[..k + 1]), delays)
         == ObserveAll(ObserveAll(m, HostsObs(cluster, hosts[..k]), delays), HostObs(cluster, hosts[k]), delays)
  {
    assert hosts[..k + 1][..k] == hosts[..k];
    ObserveAllConcat(m, HostsObs(cluster, hosts[..k]), HostObs(cluster, hosts[k]), delays);
  }

  lemma ObserveOneCluster(m: Machine, clusters: seq<ClusterStatus>, i: nat, delays: map<string, real>)
    requires i < |clusters|
    ensures ObserveAll(m, Observations(clusters[..i + 1]), delays)
         == ObserveAll(ObserveAll(m, Observations(clusters[..i]), delays),
                       HostsObs(clusters[i].name, clusters[i].hosts), delays)
  {
    assert clusters[..i + 1][..i] == clusters[..i];
    ObserveAllConcat(m, Observations(clusters[..i]), HostsObs(clusters[i].name, clusters[i].hosts), delays);
  }

  // ----- What a poll observes and what it reports -----

  predicate NoneNamed(stats: seq<Stat>, name: string, start: nat) {
    forall j :: start <= j < |stats| ==> stats[j].name != name
  }

  predicate LastAt(stats: seq<Stat>, name: string, i: nat) {
    i < |stats| && stats[i].name == name && NoneNamed(stats, name, i + 1)
  }

  /** `v` is the value of the last statistic of this name, or 0 if there is none. */
  ghost predicate LastNamed(stats: seq<Stat>, name: string, v: uint64) {
    if NoneNamed(stats, name, 0) then v == 0 else exists i: nat :: LastAt(stats, name, i) && stats[i].value == v
  }

  lemma LastNamedUnique(stats: seq<Stat>, name: string, v: uint64, w: uint64)
    requires LastNamed(stats, name, v) && LastNamed(stats, name, w)
    ensures v == w
  {
    if !NoneNamed(stats, name, 0) {
      var i: nat :| LastAt(stats, name, i) && stats[i].value == v;
      var j: nat :| LastAt(stats, name, j) && stats[j].value == w;
      assert i == j;
    }
  }

  lemma {:induction false} StatValueMeaning(stats: seq<Stat>, name: string)
    ensures LastNamed(stats, name, StatValue(stats, name))
  {
    if stats != [] {
      var front, last := stats[..|stats| - 1], |stats| - 1;
      if stats[last].name == name {
        assert LastAt(stats, name, last);
      } else {
        StatValueMeaning(front, name);
        if !NoneNamed(front, name, 0) {
          var i: nat :| LastAt(front, name, i) && front[i].value == StatValue(front, name);
          assert LastAt(stats, name, i);
        }
      }
    }
  }

  /** The observation carries the host's address under its cluster, its three counters and the time read for it. */
  ghost predicate Carries(o: Obs, cluster: string, host: HostStatus) {
    && host.socket.Some?
    && o.key == Key(cluster, host.socket.value.address, host.socket.value.port)
    && LastNamed(host.stats, "rq_success", o.rqSuccess)
    && LastNamed(host.stats, "rq_error", o.rqError)
    && LastNamed(host.stats, "rq_total", o.rqTotal)
    && o.at == host.readAt
  }

  lemma HostObsMeaning(cluster: string, host: HostStatus)
    ensures host.socket.None? ==> HostObs(cluster, host) == []
    ensures host.socket.Some? ==> |HostObs(cluster, host)| == 1 && Carries(HostObs(cluster, host)[0], cluster, host)
  {
    StatValueMeaning(host.stats, "rq_success");
    StatValueMeaning(host.stats, "rq_error");
    StatValueMeaning(host.stats, "rq_total");
  }

  /** These hosts, in this order, are the ones with a socket, and each observation carries its host. */
  ghost predicate HostsInOrder(os: seq<Obs>, cluster: string, hosts: seq<HostStatus>, at: seq<nat>) {
    && |at| == |os|
    && (forall i, j :: 0 <= i < j < |at| ==> at[i] < at[j])
    && (forall i :: 0 <= i < |at| ==> at[i] < |hosts| && Carries(os[i], cluster, hosts[at[i]]))
    && (forall h: nat :: h < |hosts| && hosts[h].socket.Some? ==> h in at)
  }

  lemma HostsInOrderSnoc(os: seq<Obs>, cluster: string, hosts: seq<HostStatus>, at: seq<nat>, host: HostStatus)
    requires HostsInOrder(os, cluster, hosts, at)
    ensures HostsInOrder(os + HostObs(cluster, host), cluster, hosts + [host],
                         at + if host.socket.Some? then [|hosts|] else [])
  {
    HostObsMeaning(cluster, host);
    var all, os', at' := hosts + [host], os + HostObs(cluster, host), at + if host.socket.Some? then [|hosts|] else [];
    forall i | 0 <= i < |at'| ensures at'[i] < |all| && Carries(os'[i], cluster, all[at'[i]]) {
      assert i < |at| ==> at'[i] == at[i] && os'[i] == os[i];
    }
    forall h: nat | h < |all| && all[h].socket.Some? ensures h in at' {
      assert h < |hosts| ==> h in at;
      assert h == |hosts| ==> at'[|at|] == h;
    }
  }

  lemma {:induction false} HostsObsMeaning(cluster: string, hosts: seq<HostStatus>) returns (at: seq<nat>)
    ensures HostsInOrder(HostsObs(cluster, hosts), cluster, hosts, at)
  {
    if hosts == [] {
      at := [];
    } else {
      var front, host := hosts[..|hosts| - 1], hosts[|hosts| - 1];
      assert hosts == front + [host];
      at := HostsObsMeaning(cluster, front);
      HostsInOrderSnoc(HostsObs(cluster, front), cluster, front, at, host);
      at := at + if host.socket.Some? then [|front|] else [];
    }
  }

  /** A host of a poll: the position of its cluster and its position there. */
  datatype Place = Place(cluster: nat, host: nat)

  predicate Before(p: Place, q: Place) {
    p.cluster < q.cluster || (p.cluster == q.cluster && p.host < q.host)
  }

  predicate Exists(clusters: seq<ClusterStatus>, p: Place) {
    p.cluster < |clusters| && p.host < |clusters[p.cluster].hosts|
  }

  /** These hosts, in the order of the poll, are the ones with a socket, and each observation carries its host. */
  ghost predicate PollInOrder(os: seq<Obs>, clusters: seq<ClusterStatus>, at: seq<Place>) {
    && |at| == |os|
    && (forall i, j :: 0 <= i < j < |at| ==> Before(at[i], at[j]))
    && (forall i :: 0 <= i < |at| ==>
          && Exists(clusters, at[i])
          && Carries(os[i], clusters[at[i].cluster].name, clusters[at[i].cluster].hosts[at[i].host]))
    && (forall p :: Exists(clusters, p) && clusters[p.cluster].hosts[p.host].socket.Some? ==> p in at)
  }

  function Places(cluster: nat, hosts: seq<nat>): seq<Place> {
    seq(|hosts|, i requires 0 <= i < |hosts| => Place(cluster, hosts[i]))
  }

  lemma PollInOrderSnoc(os: seq<Obs>, clusters: seq<ClusterStatus>, at: seq<Place>,
                        c: ClusterStatus, more: seq<Obs>, hosts: seq<nat>)
    requires PollInOrder(os, clusters, at) && HostsInOrder(more, c.name, c.hosts, hosts)
    ensures PollInOrder(os + more, clusters + [c], at + Places(|clusters|, hosts))
  {
    var all, at' := clusters + [c], at + Places(|clusters|, hosts);
    forall i | 0 <= i < |at'|
      ensures && Exists(all, at'[i])
              && Carries((os + more)[i], all[at'[i].cluster].name, all[at'[i].cluster].hosts[at'[i].host])
    {
      if i < |at| {
        assert at'[i] == at[i] && Exists(clusters, at[i]);
      } else {
        assert at'[i] == Place(|clusters|, hosts[i - |at|]);
      }
    }
    forall i, j | 0 <= i < j < |at'| ensures Before(at'[i], at'[j]) {
      if i < |at| {
        assert Exists(clusters, at[i]);
      }
    }
    forall p | Exists(all, p) && all[p.cluster].hosts[p.host].socket.Some? ensures p in at' {
      if p.cluster < |clusters| {
        assert Exists(clusters, p);
      } else {
        var i :| 0 <= i < |hosts| && hosts[i] == p.host;
        assert at'[|at| + i] == p;
      }
    }
  }

  /**
   A poll observes every host with a socket, cluster by cluster and host by host in the order given, each with its
   own address, counters and time, and nothing else.
   */
  lemma {:induction false} ObservationsMeaning(clusters: seq<ClusterStatus>) returns (at: seq<Place>)
    ensures PollInOrder(Observations(clusters), clusters, at)
  {
    if clusters == [] {
      at := [];
    } else {
      var front, c := clusters[..|clusters| - 1], clusters[|clusters| - 1];
      assert clusters == front + [c];
      at := ObservationsMeaning(front);
      var hosts := HostsObsMeaning(c.name, c.hosts);
      PollInOrderSnoc(Observations(front), front, at, c, HostsObs(c.name, c.hosts), hosts);
      at := at + Places(|front|, hosts);
    }
  }

  /** The number of calls for a counter that was `latest` and is `c` now, in a loop over a signed 64-bit integer. */
  function CallsDue(latest: int, c: int): nat {
    if latest < c < latest + 0x8000_0000_0000_0000 then c - latest else 0
  }

  /**
   What one observation reports: so many successes with code 200, then so many failures with code 500, each with the
   delay of its cluster, or without delay; a key not stored counts from 0. Its counters and time are then stored.
   */
  lemma ObservationReported(m: Machine, o: Obs, delays: map<string, real>)
    ensures var known := o.key in m.values;
            var successes := CallsDue(if known then m.values[o.key].rqSuccess else 0, o.rqSuccess);
            var failures := CallsDue(if known then m.values[o.key].rqError else 0, o.rqError);
            var delay := if o.key.cluster in delays then delays[o.key.cluster] else 0.0;
            && Observe(m, o, delays).sent
               == m.sent + (seq(successes, _ => Report(o.key, true, 200, delay))
                            + seq(failures, _ => Report(o.key, false, 500, delay)))
            && Observe(m, o, delays).values
               == m.values[o.key := Value(o.rqSuccess, o.rqError, o.rqTotal, o.at)]
            && Growth(m.values, o).rqTotal
               == if !known then o.rqTotal
                  else if o.rqTotal > m.values[o.key].rqTotal then o.rqTotal - m.values[o.key].rqTotal
                  else 0
  {
  }

  /** A poll that shows one host, whose key is not stored, with `a` successes and `b` errors. */
  lemma FirstPollReported(m: Machine, now: int, cluster: string, host: HostStatus, delays: map<string, real>,
                          a: uint64, b: uint64)
    requires host.socket.Some?
    requires LastNamed(host.stats, "rq_success", a) && a < 0x8000_0000_0000_0000
    requires LastNamed(host.stats, "rq_error", b) && b < 0x8000_0000_0000_0000
    requires Key(cluster, host.socket.value.address, host.socket.value.port) !in m.values
    ensures var key := Key(cluster, host.socket.value.address, host.socket.value.port);
            var delay := if cluster in delays then delays[cluster] else 0.0;
            Tick(m, now, Some(Poll([ClusterStatus(cluster, [host])], delays))).sent
            == m.sent + (seq(a, _ => Report(key, true, 200, delay)) + seq(b, _ => Report(key, false, 500, delay)))
  {
    HostObsMeaning(cluster, host);
    LastNamedUnique(host.stats, "rq_success", a, HostObs(cluster, host)[0].rqSuccess);
    LastNamedUnique(host.stats, "rq_error", b, HostObs(cluster, host)[0].rqError);
    var clusters, o := [ClusterStatus(cluster, [host])], HostObs(cluster, host)[0];
    assert HostsObs(cluster, [host][..0]) == [] && Observations(clusters[..0]) == [];
    assert Observations(clusters) == [o];
    ObserveOne(Clean(m, now), o, delays);
    ObservationReported(Clean(m, now), o, delays);
  }
}

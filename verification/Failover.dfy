/**
 How much interleaving the failover loop of `internal/resolver/recursor/proxy.go` tolerates: with `n`
 upstreams, every upstream is asked for every name despite up to `bound` calls of other requests between
 a name's attempts exactly when there are at least `n + bound * (n - 1)` attempts.
 */
module Failover {
  import opened Dns
  import opened Recursor
  import opened Rotation
  import opened Upstreams
  import opened Wrappers

  /** Every successful exchange carries a response. */
  ghost predicate AnswersWhenOk(net: Network) {
    forall j, name, upstream :: net(j, name, upstream).failed || net(j, name, upstream).resp.Some?
  }

  /** The calls of other requests that come between attempt `j` and attempt `j + k`. */
  function Foreign(others: nat -> nat, j: nat, k: nat): nat {
    if k == 0 then 0 else Foreign(others, j, k - 1) + others(j + k)
  }

  /** The attempt that name `d` starts with. */
  function Start(names: seq<string>, attempts: int, d: nat): nat
    requires d <= |names|
  {
    |Attempts(names[..d], attempts)|
  }

  /** The calls of other requests between the first and the last attempt for name `d`. */
  function Between(others: nat -> nat, names: seq<string>, attempts: int, d: nat): nat
    requires d < |names|
  {
    if attempts <= 0 then 0 else Foreign(others, Start(names, attempts, d), attempts - 1)
  }

  ghost predicate Bounded(others: nat -> nat, names: seq<string>, attempts: int, bound: nat) {
    forall d :: 0 <= d < |names| ==> Between(others, names, attempts, d) <= bound
  }

  predicate AllTried(made: seq<Exchange>, names: seq<string>, servers: seq<string>) {
    forall d, s :: d in names && s in servers ==> Exchange(d, s) in made
  }

  /** A request that ends without a response, although every exchange that succeeds brings one. */
  ghost predicate Unanswered(made: seq<Exchange>, net: Network, names: seq<string>, attempts: int,
                             servers: seq<string>, i: nat, others: nat -> nat)
  {
    i < |servers| && AnswersWhenOk(net) && Handled(None, made, net, names, attempts, servers, i, others)
  }

  /** Whatever the network does and wherever the index starts, no upstream is left out. */
  ghost predicate CoversWithin(names: seq<string>, attempts: int, servers: seq<string>, bound: nat) {
    forall made, net, i, others ::
      Unanswered(made, net, names, attempts, servers, i, others) && Bounded(others, names, attempts, bound) ==>
        AllTried(made, names, servers)
  }

  /** The same under every interleaving, however many other requests come between. */
  ghost predicate AlwaysCovers(names: seq<string>, attempts: int, servers: seq<string>) {
    forall made, net, i, others ::
      Unanswered(made, net, names, attempts, servers, i, others) ==> AllTried(made, names, servers)
  }

  // ----- Enough attempts reach every upstream -----

  predicate Passed(i: nat, n: nat, others: nat -> nat, j: nat, k: nat, p: nat)
    requires n > 0
  {
    forall t :: j <= t <= j + k ==> Turn(i, n, others, t) != p
  }

  /**
   While position `p` is not hit, each attempt brings the turn one step closer to it or some foreign call
   has set it back, by one lap at the most.
   */
  lemma {:induction false} Waiting(i: nat, n: nat, others: nat -> nat, j: nat, k: nat, p: nat)
    requires i < n && p < n && Passed(i, n, others, j, k, p)
    ensures Turn(i, n, others, j + k) < n
    ensures k + Offset(Turn(i, n, others, j + k), n, p) <= (n - 1) * (Foreign(others, j, k) + 1)
  {
    TurnInRange(i, n, others, j + k);
    if k > 0 {
      Waiting(i, n, others, j, k - 1, p);
      var x, m := Turn(i, n, others, j + k - 1), others(j + k);
      assert x != p;
      StepWraps(x, n);
      LapsLeft(n, Foreign(others, j, k - 1), m);
    }
  }

  lemma LapsLeft(n: nat, f: nat, m: nat)
    requires n > 0
    ensures m > 0 ==> (n - 1) * (f + 1) + (n - 1) <= (n - 1) * (f + m + 1)
  {
    if m > 0 {
      assert (n - 1) * (f + m + 1) == (n - 1) * (f + 1) + (n - 1) + (n - 1) * (m - 1);
    }
  }

  lemma SomeTurnHits(i: nat, n: nat, others: nat -> nat, j: nat, k: nat, p: nat)
    requires i < n && p < n
    requires n + Foreign(others, j, k) * (n - 1) <= k + 1
    ensures !Passed(i, n, others, j, k, p)
  {
    var f := Foreign(others, j, k);
    assert (n - 1) * (f + 1) == n - 1 + f * (n - 1);
    if Passed(i, n, others, j, k, p) {
      var last := j + k;
      assert Turn(i, n, others, last) != p;
      Waiting(i, n, others, j, k, p);
    }
  }

  lemma NameReachesServer(made: seq<Exchange>, net: Network, names: seq<string>, attempts: nat, servers: seq<string>,
                          i: nat, others: nat -> nat, d: nat, p: nat)
    requires Unanswered(made, net, names, attempts, servers, i, others)
    requires d < |names| && p < |servers|
    requires |servers| + Between(others, names, attempts, d) * (|servers| - 1) <= attempts
    ensures Exchange(names[d], servers[p]) in made
  {
    var n, start := |servers|, Start(names, attempts, d);
    EnoughAttempts(n, Between(others, names, attempts, d), attempts);
    SomeTurnHits(i, n, others, start, attempts - 1, p);
    var t :| start <= t <= start + (attempts - 1) && Turn(i, n, others, t) == p;
    AttemptsBlock(names, attempts, d, t - start);
    UnansweredIsFull(made, net, names, attempts, servers, i, others);
    assert Planned(made[t], t, names, attempts, servers, i, others);
    assert made[t] == Exchange(names[d], servers[p]);
  }

  lemma EnoughAttempts(n: nat, f: nat, attempts: int)
    requires n > 0 && n + f * (n - 1) <= attempts
    ensures attempts > 0
  {
    assert f * (n - 1) >= 0;
  }

  lemma UnansweredIsFull(made: seq<Exchange>, net: Network, names: seq<string>, attempts: int, servers: seq<string>,
                         i: nat, others: nat -> nat)
    requires Unanswered(made, net, names, attempts, servers, i, others)
    ensures |made| == |Attempts(names, attempts)| && Follows(made, net, names, attempts, servers, i, others)
  {
  }

  // ----- Fewer attempts do not -----

  /**
   The position that other requests steer attempt `j` to, out of `n`: from the first attempt for a name on they
   let it go round all positions but the last.
   */
  function Aim(n: nat, attempts: nat, j: nat): nat
    requires n >= 2 && attempts > 0
  {
    After(0, n - 1, After(0, attempts, j))
  }

  lemma AimMissesLast(n: nat, attempts: nat, j: nat)
    requires n >= 2 && attempts > 0
    ensures Aim(n, attempts, j) < n - 1
  {
    AfterInRange(0, n - 1, After(0, attempts, j));
  }

  /** The index before attempt `j` of a steered request. */
  function SteeredIndex(i: nat, n: nat, attempts: nat, j: nat): nat
    requires n >= 2 && attempts > 0
  {
    if j == 0 then i else Step(Aim(n, attempts, j - 1), n)
  }

  /** The calls of other requests that steer attempt `j` to its aim. */
  function Steering(i: nat, n: nat, attempts: nat, j: nat): nat
    requires i < n && n >= 2 && attempts > 0
  {
    AimMissesLast(n, attempts, j);
    Offset(SteeredIndex(i, n, attempts, j), n, Aim(n, attempts, j))
  }

  lemma OffsetLeadsThere(i: nat, n: nat, p: nat)
    requires i < n && p < n
    ensures After(i, n, Offset(i, n, p)) == p
  {
    Usage(i, n, Offset(i, n, p), p);
    FirstLap(n, Offset(i, n, p));
  }

  ghost predicate Steers(others: nat -> nat, i: nat, n: nat, attempts: nat)
    requires i < n && n >= 2 && attempts > 0
  {
    forall j :: others(j) == Steering(i, n, attempts, j)
  }

  lemma {:induction false} SteeredTurn(i: nat, n: nat, attempts: nat, others: nat -> nat, j: nat)
    requires i < n && n >= 2 && attempts > 0 && Steers(others, i, n, attempts)
    ensures Turn(i, n, others, j) == Aim(n, attempts, j)
  {
    if j > 0 {
      SteeredTurn(i, n, attempts, others, j - 1);
    }
    AimMissesLast(n, attempts, j);
    assert others(j) == Steering(i, n, attempts, j);
    OffsetLeadsThere(SteeredIndex(i, n, attempts, j), n, Aim(n, attempts, j));
  }

  /** Attempt `k` for a name is `k` calls into a lap. */
  lemma {:induction false} LapPosition(d: nat, attempts: nat, k: nat)
    requires k < attempts
    ensures Laps(attempts, d * attempts + k) == (d, k)
    decreases d, k
  {
    if k > 0 {
      LapPosition(d, attempts, k - 1);
    } else if d > 0 {
      LapPosition(d - 1, attempts, attempts - 1);
      assert (d - 1) * attempts + (attempts - 1) + 1 == d * attempts;
    } else {
      assert d * attempts + k == 0;
    }
  }

  lemma LapIsProduct(n: nat, m: nat)
    requires n > 0
    ensures var (laps, rest) := Laps(n, m); m == laps * n + rest && rest < n && After(0, n, m) == rest
  {
    LapsExact(n, m);
    Usage(0, n, m, 0);
  }

  lemma {:induction false} LapsExact(n: nat, m: nat)
    requires n > 0
    ensures var (laps, rest) := Laps(n, m); m == laps * n + rest
  {
    if m > 0 {
      LapsExact(n, m - 1);
      var laps := Laps(n, m - 1).0;
      assert (laps + 1) * n == laps * n + n;
    }
  }

  lemma AimInBlock(n: nat, attempts: nat, d: nat, k: nat)
    requires n >= 2 && k < attempts
    ensures Aim(n, attempts, d * attempts + k) == Laps(n - 1, k).1 < n - 1
  {
    LapPosition(d, attempts, k);
    LapIsProduct(attempts, d * attempts + k);
    LapIsProduct(n - 1, k);
  }

  /** Within the attempts for one name, one foreign call skips the last position; otherwise none is needed. */
  lemma SteeringStep(i: nat, n: nat, attempts: nat, d: nat, k: nat)
    requires i < n && n >= 2 && 0 < k < attempts
    ensures Steering(i, n, attempts, d * attempts + k) == if Laps(n - 1, k - 1).1 + 1 == n - 1 then 1 else 0
  {
    var before := Laps(n - 1, k - 1).1;
    AimInBlock(n, attempts, d, k - 1);
    AimInBlock(n, attempts, d, k);
    assert d * attempts + k - 1 == d * attempts + (k - 1);
    StepWraps(before, n);
  }

  /** Between the attempts for one name, steering takes one foreign call for each lap round the first `n - 1`. */
  lemma {:induction false} SteeringIsCheap(i: nat, n: nat, attempts: nat, others: nat -> nat, d: nat, k: nat)
    requires i < n && n >= 2 && k < attempts && Steers(others, i, n, attempts)
    ensures Foreign(others, d * attempts, k) == Laps(n - 1, k).0
  {
    if k > 0 {
      SteeringIsCheap(i, n, attempts, others, d, k - 1);
      SteeringStep(i, n, attempts, d, k);
      assert others(d * attempts + k) == Steering(i, n, attempts, d * attempts + k);
    }
  }

  lemma QuotientIsBounded(w: nat, laps: nat, rest: nat, bound: nat)
    requires laps * w + rest < (bound + 1) * w
    ensures laps <= bound
  {
    if laps > bound {
      ProductGrows(bound + 1, laps, w);
    }
  }

  lemma ProductGrows(a: nat, b: nat, w: nat)
    requires a <= b
    ensures a * w <= b * w
  {
    assert b * w == a * w + (b - a) * w;
  }

  lemma FewLaps(n: nat, attempts: nat, bound: nat)
    requires n >= 2 && 0 < attempts < n + bound * (n - 1)
    ensures Laps(n - 1, attempts - 1).0 <= bound
  {
    var w := n - 1;
    LapsExact(w, attempts - 1);
    var (laps, rest) := Laps(w, attempts - 1);
    OneMoreBlock(bound, w);
    QuotientIsBounded(w, laps, rest, bound);
  }

  lemma SteeringIsBounded(i: nat, n: nat, names: seq<string>, attempts: nat, others: nat -> nat, bound: nat)
    requires i < n && n >= 2 && attempts > 0 && Steers(others, i, n, attempts)
    requires attempts < n + bound * (n - 1)
    ensures Bounded(others, names, attempts, bound)
  {
    FewLaps(n, attempts, bound);
    forall d | 0 <= d < |names| ensures Between(others, names, attempts, d) <= bound {
      AttemptsLength(names[..d], attempts);
      SteeringIsCheap(i, n, attempts, others, d, attempts - 1);
    }
  }

  /** The exchanges of a request that runs through its whole plan. */
  function FullPlan(names: seq<string>, attempts: int, servers: seq<string>, i: nat, others: nat -> nat): seq<Exchange>
    requires i < |servers|
  {
    seq(|Attempts(names, attempts)|, j requires 0 <= j < |Attempts(names, attempts)| =>
      TurnInRange(i, |servers|, others, j);
      Exchange(Attempts(names, attempts)[j], servers[Turn(i, |servers|, others, j)]))
  }

  /** A network in which every exchange fails. */
  function Dead(): Network {
    (j, name, upstream) => Outcome(None, true)
  }

  lemma DeadNetworkRunsFullPlan(names: seq<string>, attempts: int, servers: seq<string>, i: nat, others: nat -> nat)
    requires i < |servers|
    ensures Unanswered(FullPlan(names, attempts, servers, i, others), Dead(), names, attempts, servers, i, others)
  {
    var made := FullPlan(names, attempts, servers, i, others);
    forall j | 0 <= j < |made| ensures Planned(made[j], j, names, attempts, servers, i, others) {
      TurnInRange(i, |servers|, others, j);
    }
  }

  lemma {:induction false} NoAttempts(names: seq<string>, attempts: int)
    requires attempts <= 0
    ensures Attempts(names, attempts) == []
  {
    if names != [] {
      NoAttempts(names[..|names| - 1], attempts);
    }
  }

  /**
   With too few attempts, for every start of the index, no more than `bound` foreign calls between the attempts for
   each name make a request end without a response and without ever asking the last upstream.
   */
  lemma UpstreamCanBeSkipped(names: seq<string>, attempts: int, servers: seq<string>, bound: nat, i: nat)
    returns (made: seq<Exchange>, others: nat -> nat)
    requires Distinct(servers) && i < |servers|
    requires attempts < |servers| + bound * (|servers| - 1)
    requires |servers| >= 2 || attempts <= 0
    ensures Unanswered(made, Dead(), names, attempts, servers, i, others)
    ensures Bounded(others, names, attempts, bound)
    ensures forall e :: e in made ==> e.upstream != servers[|servers| - 1]
  {
    var n := |servers|;
    if attempts <= 0 {
      NoAttempts(names, attempts);
      others := (j: nat) => 0;
      made := FullPlan(names, attempts, servers, i, others);
    } else {
      others := (j: nat) => Steering(i, n, attempts, j);
      made := FullPlan(names, attempts, servers, i, others);
      SteeringIsBounded(i, n, names, attempts, others, bound);
      forall j | 0 <= j < |made| ensures made[j].upstream != servers[n - 1] {
        SteeredTurn(i, n, attempts, others, j);
        AimMissesLast(n, attempts, j);
      }
    }
    DeadNetworkRunsFullPlan(names, attempts, servers, i, others);
  }

  // ----- The exact tolerance -----

  lemma EnoughAttemptsCover(names: seq<string>, attempts: int, servers: seq<string>, bound: nat)
    requires servers != [] && |servers| + bound * (|servers| - 1) <= attempts
    ensures CoversWithin(names, attempts, servers, bound)
  {
    forall made, net, i, others |
      Unanswered(made, net, names, attempts, servers, i, others) && Bounded(others, names, attempts, bound)
      ensures AllTried(made, names, servers)
    {
      forall d, p | 0 <= d < |names| && 0 <= p < |servers| ensures Exchange(names[d], servers[p]) in made {
        EnoughAttempts(|servers|, bound, attempts);
        ProductGrows(Between(others, names, attempts, d), bound, |servers| - 1);
        NameReachesServer(made, net, names, attempts, servers, i, others, d, p);
      }
    }
  }

  /**
   The failover guarantee, exactly: every upstream is asked for every name before a request is left without a
   response, whatever the network does, wherever the index starts and despite up to `bound` calls of other
   requests between the attempts for a name, if and only if there are at least `n + bound * (n - 1)` attempts.
   */
  lemma ToleratedInterleaving(names: seq<string>, attempts: int, servers: seq<string>, bound: nat)
    requires names != [] && servers != [] && Distinct(servers)
    ensures CoversWithin(names, attempts, servers, bound)
       <==> |servers| + bound * (|servers| - 1) <= attempts
  {
    if |servers| + bound * (|servers| - 1) <= attempts {
      EnoughAttemptsCover(names, attempts, servers, bound);
    } else {
      if |servers| == 1 {
        assert attempts <= 0;
      }
      var made, others := UpstreamCanBeSkipped(names, attempts, servers, bound, 0);
      SkippedIsNotTried(made, names, servers);
    }
  }

  lemma SkippedIsNotTried(made: seq<Exchange>, names: seq<string>, servers: seq<string>)
    requires names != [] && servers != []
    requires forall e :: e in made ==> e.upstream != servers[|servers| - 1]
    ensures !AllTried(made, names, servers)
  {
    var name, server := names[0], servers[|servers| - 1];
    assert name in names && server in servers && Exchange(name, server) !in made;
  }

  /** With no bound on the interleaving, all upstreams are sure to be asked only if there is just one. */
  lemma AnyInterleaving(names: seq<string>, attempts: int, servers: seq<string>)
    requires names != [] && servers != [] && Distinct(servers) && |servers| <= attempts
    ensures AlwaysCovers(names, attempts, servers) <==> |servers| == 1
  {
    if |servers| == 1 {
      forall made, net, i, others | Unanswered(made, net, names, attempts, servers, i, others)
        ensures AllTried(made, names, servers)
      {
        forall d | 0 <= d < |names| ensures Exchange(names[d], servers[0]) in made {
          NameReachesServer(made, net, names, attempts, servers, i, others, d, 0);
        }
      }
    } else {
      assert attempts * (|servers| - 1) >= attempts;
      var made, others := UpstreamCanBeSkipped(names, attempts, servers, attempts, 0);
      SkippedIsNotTried(made, names, servers);
    }
  }

  lemma {:induction false} UndisturbedHasNoForeign(others: nat -> nat, j: nat, k: nat)
    requires forall t :: others(t) == 0
    ensures Foreign(others, j, k) == 0
  {
    if k > 0 {
      UndisturbedHasNoForeign(others, j, k - 1);
    }
  }

  lemma UndisturbedIsBounded(others: nat -> nat, names: seq<string>, attempts: int)
    requires forall t :: others(t) == 0
    ensures Bounded(others, names, attempts, 0)
  {
    forall d | 0 <= d < |names| ensures Between(others, names, attempts, d) <= 0 {
      if attempts > 0 {
        UndisturbedHasNoForeign(others, Start(names, attempts, d), attempts - 1);
      }
    }
  }

  /**
   For a recursor configured from the merged settings, which allow at least as many attempts as there are upstreams:
   a request makes at most one exchange per name and attempt, and one that nothing disturbs is left without a
   response only after every upstream was asked for every expanded name.
   */
  lemma NilOnlyAfterAllTried(resp: Option<Msg>, made: seq<Exchange>, net: Network, name: string, i: nat,
                             others: nat -> nat, bindLocalhost: bool, timeout: int, nameServers: seq<string>,
                             conf: ResolvConf)
    requires i < |MergedSettings(bindLocalhost, timeout, nameServers, conf).upstream|
    requires var settings := MergedSettings(bindLocalhost, timeout, nameServers, conf);
             Handled(resp, made, net, Expanded(settings, name), settings.attempts, settings.upstream, i, others)
    ensures var settings := MergedSettings(bindLocalhost, timeout, nameServers, conf);
            && |made| <= |Expanded(settings, name)| * settings.attempts
            && (resp.None? && AnswersWhenOk(net) && (forall k :: others(k) == 0) ==>
                 AllTried(made, Expanded(settings, name), settings.upstream))
  {
    var settings := MergedSettings(bindLocalhost, timeout, nameServers, conf);
    var names := Expanded(settings, name);
    AttemptsLength(names, settings.attempts);
    if resp.None? && AnswersWhenOk(net) && forall k :: others(k) == 0 {
      UndisturbedIsBounded(others, names, settings.attempts);
      EnoughAttemptsCover(names, settings.attempts, settings.upstream, 0);
      assert Unanswered(made, net, names, settings.attempts, settings.upstream, i, others);
    }
  }

  /** The exact tolerance of a recursor configured from the merged settings, for every name it expands. */
  lemma MergedTolerance(name: string, bound: nat, bindLocalhost: bool, timeout: int, nameServers: seq<string>,
                        conf: ResolvConf)
    requires var settings := MergedSettings(bindLocalhost, timeout, nameServers, conf);
             settings.upstream != [] && Expanded(settings, name) != []
    ensures var settings := MergedSettings(bindLocalhost, timeout, nameServers, conf);
            var n := |settings.upstream|;
            && (CoversWithin(Expanded(settings, name), settings.attempts, settings.upstream, bound)
                <==> n + bound * (n - 1) <= settings.attempts)
            && (AlwaysCovers(Expanded(settings, name), settings.attempts, settings.upstream) <==> n == 1)
  {
    var settings := MergedSettings(bindLocalhost, timeout, nameServers, conf);
    var _ := UpstreamsAreMerged(bindLocalhost, timeout, nameServers, conf);
    ToleratedInterleaving(Expanded(settings, name), settings.attempts, settings.upstream, bound);
    AnyInterleaving(Expanded(settings, name), settings.attempts, settings.upstream);
  }
}

/**
 The fallback recursor (`internal/resolver/recursor/proxy.go`): search expansion and the failover loop
 over every expanded name and attempt. The network is an arbitrary function from the number of the
 exchange, the name asked and the upstream asked to an outcome.
 */
module Recursor {
  import opened Dns
  import opened Names
  import opened Rotation
  import opened Strings
  import opened Upstreams
  import opened Wrappers

  // ----- Search expansion -----

  function Expanded(settings: Settings, name: string): seq<string> {
    if Count(name, '.') < settings.ndots
    then seq(|settings.search|, i requires 0 <= i < |settings.search| => AddQuota(name + settings.search[i]))
    else [name]
  }

  // ----- The failover plan -----

  datatype Outcome = Outcome(resp: Option<Msg>, failed: bool)

  type Network = (nat, string, string) -> Outcome

  /** Whether the loop stops at this outcome; any other outcome moves on to the next attempt. */
  predicate Acceptable(o: Outcome) {
    && (o.resp.Some? ==> o.resp.value.rcode == RCODE_SUCCESS || o.resp.value.rcode == RCODE_NAME_ERROR)
    && (!o.failed || (o.resp.Some? && o.resp.value.truncated))
  }

  datatype Exchange = Exchange(name: string, upstream: string)

  /** The name that each attempt asks for: every name `attempts` times, in order. */
  function Attempts(names: seq<string>, attempts: int): seq<string> {
    if names == [] then []
    else Attempts(names[..|names| - 1], attempts) + Repeated(names[|names| - 1], attempts)
  }

  function Repeated(name: string, attempts: int): seq<string> {
    seq(if attempts < 0 then 0 else attempts, _ => name)
  }

  /**
   The index once the first `j` attempts of a request are done, when it is `i` at its start and
   `others(k)` calls of other requests come just before attempt `k`.
   */
  function IndexAfter(i: nat, n: nat, others: nat -> nat, j: nat): nat
    requires n > 0
    decreases j, 0
  {
    if j == 0 then i else Step(Turn(i, n, others, j - 1), n)
  }

  /** The position that attempt `j` gets. */
  function Turn(i: nat, n: nat, others: nat -> nat, j: nat): nat
    requires n > 0
    decreases j, 1
  {
    After(IndexAfter(i, n, others, j), n, others(j))
  }

  lemma {:induction false} TurnInRange(i: nat, n: nat, others: nat -> nat, j: nat)
    requires i < n
    ensures Turn(i, n, others, j) < n
  {
    if j > 0 {
      TurnInRange(i, n, others, j - 1);
    }
    AfterInRange(IndexAfter(i, n, others, j), n, others(j));
  }

  /** Whether attempt `j` asks the j-th planned name of the upstream whose turn it is. */
  ghost predicate Planned(e: Exchange, j: nat, names: seq<string>, attempts: int,
                          servers: seq<string>, i: nat, others: nat -> nat)
    requires i < |servers|
  {
    && j < |Attempts(names, attempts)|
    && e.name == Attempts(names, attempts)[j]
    && Turn(i, |servers|, others, j) < |servers|
    && e.upstream == servers[Turn(i, |servers|, others, j)]
  }

  /** The exchanges made so far follow the plan, and none but possibly the last was acceptable. */
  ghost predicate Follows(made: seq<Exchange>, net: Network, names: seq<string>, attempts: int,
                          servers: seq<string>, i: nat, others: nat -> nat)
    requires i < |servers|
  {
    && |made| <= |Attempts(names, attempts)|
    && (forall j :: 0 <= j < |made| ==> Planned(made[j], j, names, attempts, servers, i, others))
    && (forall j :: 0 <= j < |made| - 1 ==> !Acceptable(net(j, made[j].name, made[j].upstream)))
  }

  ghost predicate LastAccepted(made: seq<Exchange>, net: Network) {
    made != [] &&
    var last := |made| - 1;
    Acceptable(net(last, made[last].name, made[last].upstream))
  }

  /** A request that has made these exchanges and goes on, with the index where they leave it. */
  ghost predicate InProgress(made: seq<Exchange>, net: Network, names: seq<string>, attempts: int,
                             servers: seq<string>, i: nat, others: nat -> nat, index: nat)
    requires i < |servers|
  {
    && Follows(made, net, names, attempts, servers, i, others)
    && !LastAccepted(made, net)
    && index == IndexAfter(i, |servers|, others, |made|)
  }

  lemma FollowsSnoc(made: seq<Exchange>, e: Exchange, net: Network, names: seq<string>, attempts: int,
                    servers: seq<string>, i: nat, others: nat -> nat)
    requires i < |servers|
    requires Follows(made, net, names, attempts, servers, i, others) && !LastAccepted(made, net)
    requires Planned(e, |made|, names, attempts, servers, i, others)
    ensures Follows(made + [e], net, names, attempts, servers, i, others)
    ensures LastAccepted(made + [e], net) <==> Acceptable(net(|made|, e.name, e.upstream))
  {
    var all := made + [e];
    forall j | 0 <= j < |all| ensures Planned(all[j], j, names, attempts, servers, i, others) {
      assert j < |made| ==> all[j] == made[j];
    }
  }

  /**
   What a request comes to: the response of the first acceptable exchange, with no exchange after it,
   or nil at the end of the plan.
   */
  ghost predicate Handled(resp: Option<Msg>, made: seq<Exchange>, net: Network, names: seq<string>, attempts: int,
                          servers: seq<string>, i: nat, others: nat -> nat)
    requires i < |servers|
  {
    && Follows(made, net, names, attempts, servers, i, others)
    && (LastAccepted(made, net) ==> resp == net(|made| - 1, made[|made| - 1].name, made[|made| - 1].upstream).resp)
    && (!LastAccepted(made, net) ==> resp == None && |made| == |Attempts(names, attempts)|)
  }

  /** One more exchange either ends the request or leaves it in progress. */
  lemma OneMoreExchange(made: seq<Exchange>, e: Exchange, net: Network, names: seq<string>, attempts: int,
                        servers: seq<string>, i: nat, others: nat -> nat, index: nat)
    requires i < |servers|
    requires InProgress(made, net, names, attempts, servers, i, others, index)
    requires Planned(e, |made|, names, attempts, servers, i, others)
    ensures var o := net(|made|, e.name, e.upstream);
            if Acceptable(o) then Handled(o.resp, made + [e], net, names, attempts, servers, i, others)
            else InProgress(made + [e], net, names, attempts, servers, i, others,
                            Step(Turn(i, |servers|, others, |made|), |servers|))
    ensures IndexAfter(i, |servers|, others, |made + [e]|) == Step(Turn(i, |servers|, others, |made|), |servers|)
  {
    FollowsSnoc(made, e, net, names, attempts, servers, i, others);
  }

  lemma {:induction false} AttemptsPrefix(names: seq<string>, attempts: int, d: nat)
    requires d <= |names|
    ensures Attempts(names[..d], attempts) <= Attempts(names, attempts)
  {
    if d == |names| {
      assert names[..d] == names;
    } else {
      assert names[..|names| - 1][..d] == names[..d];
      AttemptsPrefix(names[..|names| - 1], attempts, d);
    }
  }

  /** At most one exchange for each pair of a name and an attempt. */
  lemma {:induction false} AttemptsLength(names: seq<string>, attempts: nat)
    ensures |Attempts(names, attempts)| == |names| * attempts
  {
    if names != [] {
      AttemptsLength(names[..|names| - 1], attempts);
      OneMoreBlock(|names| - 1, attempts);
    }
  }

  lemma OneMoreBlock(n: nat, attempts: nat)
    ensures n * attempts + attempts == (n + 1) * attempts
  {
  }

  /** Name `d` fills the block of attempts that starts where the attempts for the names before it end. */
  lemma AttemptsBlock(names: seq<string>, attempts: nat, d: nat, k: nat)
    requires d < |names| && k < attempts
    ensures var j := |Attempts(names[..d], attempts)| + k;
            j < |Attempts(names, attempts)| && Attempts(names, attempts)[j] == names[d]
  {
    var upTo := names[..d + 1];
    assert upTo[..d] == names[..d] && upTo[|upTo| - 1] == names[d];
    AttemptsPrefix(names, attempts, d + 1);
    assert Attempts(upTo, attempts)[|Attempts(names[..d], attempts)| + k] == names[d];
  }

  /** The plan asks for name `d` in its attempts d * attempts to (d + 1) * attempts - 1, and for nothing else. */
  lemma PlanOfAttempts(names: seq<string>, attempts: nat, d: nat, k: nat)
    ensures |Attempts(names, attempts)| == |names| * attempts
    ensures d < |names| && k < attempts ==>
              var j := d * attempts + k;
              j < |names| * attempts && Attempts(names, attempts)[j] == names[d]
  {
    AttemptsLength(names, attempts);
    if d < |names| && k < attempts {
      AttemptsLength(names[..d], attempts);
      AttemptsBlock(names, attempts, d, k);
    }
  }

  /**
   Which outcome of exchange `j` ends a request: a response with code 0 or 3 that is either without an error or
   truncated ends it with that response, and success without a response ends it with nil. After any other outcome
   the request goes on as long as the plan does, and comes to nil or to the response of a later exchange.
   */
  lemma OutcomesThatEnd(resp: Option<Msg>, made: seq<Exchange>, net: Network, names: seq<string>, attempts: int,
                        servers: seq<string>, i: nat, others: nat -> nat, j: nat)
    requires i < |servers| && Handled(resp, made, net, names, attempts, servers, i, others) && j < |made|
    ensures var o := net(j, made[j].name, made[j].upstream);
            if (o.resp.Some? && o.resp.value.rcode in {0, 3} && (!o.failed || o.resp.value.truncated))
               || (o.resp.None? && !o.failed)
            then |made| == j + 1 && resp == o.resp
            else
              && (j + 1 < |Attempts(names, attempts)| ==> j + 1 < |made|)
              && (resp.Some? ==>
                   && j + 1 < |made|
                   && resp == net(|made| - 1, made[|made| - 1].name, made[|made| - 1].upstream).resp)
  {
    var o := net(j, made[j].name, made[j].upstream);
    assert Acceptable(o) <==> (o.resp.Some? && o.resp.value.rcode in {0, 3} && (!o.failed || o.resp.value.truncated))
                              || (o.resp.None? && !o.failed);
  }

  // ----- The objects -----

  class RotatingUpstream {
    const servers: seq<string>
    var index: nat

    constructor (servers: seq<string>)
      ensures this.servers == servers && index == 0
    {
      this.servers, index := servers, 0;
    }

    ghost predicate Valid()
      reads this
    {
      index < |servers|
    }

    method Next() returns (server: string)
      requires Valid()
      modifies this`index
      ensures Valid()
      ensures server == servers[old(index)] && index == Step(old(index), |servers|)
    {
      server := servers[index];
      index := (index + 1) % |servers|;
    }

    /** `calls` calls of `Next` made by other requests. */
    method ServeOthers(calls: nat)
      requires Valid()
      modifies this`index
      ensures Valid()
      ensures index == After(old(index), |servers|, calls)
    {
      var k := 0;
      while k < calls
        invariant 0 <= k <= calls
        invariant Valid()
        invariant index == After(old(index), |servers|, k)
      {
        var _ := Next();
        k := k + 1;
      }
    }
  }

  class Proxy {
    const config: Settings
    const rotate: RotatingUpstream

    constructor (settings: Settings)
      ensures config == settings && fresh(rotate) && rotate.servers == settings.upstream && rotate.index == 0
    {
      config := settings;
      rotate := new RotatingUpstream(settings.upstream);
    }

    method ExpandQuery(name: string) returns (expanded: seq<string>)
      ensures expanded == Expanded(config, name)
    {
      var ndots, search := config.ndots, config.search;
      if Count(name, '.') < ndots {
        expanded := [];
        var i := 0;
        while i < |search|
          invariant 0 <= i <= |search|
          invariant expanded == seq(i, k requires 0 <= k < i => AddQuota(name + search[k]))
        {
          expanded := expanded + [AddQuota(name + search[i])];
          i := i + 1;
        }
        return;
      }
      return [name];
    }

    /** The inner loop: the attempts for one expanded name, added to the exchanges `made` so far. */
    method TryName(d: nat, names: seq<string>, net: Network, others: nat -> nat, made: seq<Exchange>, ghost start: nat)
      returns (all: seq<Exchange>, done: bool, resp: Option<Msg>)
      requires rotate.Valid() && start < |rotate.servers| && d < |names|
      requires |made| == |Attempts(names[..d], config.attempts)|
      requires InProgress(made, net, names, config.attempts, rotate.servers, start, others, rotate.index)
      modifies rotate
      ensures rotate.Valid() && rotate.index == IndexAfter(start, |rotate.servers|, others, |all|)
      ensures done ==> Handled(resp, all, net, names, config.attempts, rotate.servers, start, others)
      ensures !done ==>
                && |all| == |Attempts(names[..d + 1], config.attempts)|
                && InProgress(all, net, names, config.attempts, rotate.servers, start, others, rotate.index)
    {
      var servers, attempts := rotate.servers, config.attempts;
      assert names[..d + 1][..d] == names[..d];
      all, done, resp := made, false, None;
      var i := 0;
      while i < attempts
        invariant 0 <= i && (i == 0 || i <= attempts)
        invariant rotate.Valid() && |all| == |made| + i
        invariant InProgress(all, net, names, attempts, servers, start, others, rotate.index)
      {
        var j := |all|;
        AttemptsBlock(names, attempts, d, i);
        TurnInRange(start, |servers|, others, j);
        ghost var before := rotate.index;
        rotate.ServeOthers(others(j));
        var upstream := rotate.Next();
        var outcome := net(j, names[d], upstream);
        OneMoreExchange(all, Exchange(names[d], upstream), net, names, attempts, servers, start, others, before);
        all := all + [Exchange(names[d], upstream)];
        if outcome.resp.Some? &&
           !(outcome.resp.value.rcode == RCODE_SUCCESS || outcome.resp.value.rcode == RCODE_NAME_ERROR) {
          // the upstream answered with an error code: try the next one
        } else if !outcome.failed || (outcome.resp.Some? && outcome.resp.value.truncated) {
          return all, true, outcome.resp;
        }
        i := i + 1;
      }
    }

    /**
     `others(j)` calls of `Next` by other requests come just before exchange `j`. A name that expands to nothing is
     answered by nil without an exchange, and so without an upstream.
     */
    method HandleDNS(name: string, net: Network, others: nat -> nat)
      returns (resp: Option<Msg>, made: seq<Exchange>)
      requires Expanded(config, name) != [] ==> rotate.Valid()
      modifies rotate
      ensures Expanded(config, name) == [] ==> resp == None && made == [] && rotate.index == old(rotate.index)
      ensures Expanded(config, name) != [] ==>
                && rotate.Valid()
                && Handled(resp, made, net, Expanded(config, name), config.attempts,
                           rotate.servers, old(rotate.index), others)
                && rotate.index == IndexAfter(old(rotate.index), |rotate.servers|, others, |made|)
    {
      var domains := ExpandQuery(name);
      ghost var start := rotate.index;
      made := [];
      var d := 0;
      while d < |domains|
        invariant 0 <= d <= |domains|
        invariant domains == [] ==> made == [] && rotate.index == start
        invariant domains != [] ==>
                    && rotate.Valid()
                    && |made| == |Attempts(domains[..d], config.attempts)|
                    && InProgress(made, net, domains, config.attempts, rotate.servers, start, others, rotate.index)
      {
        var done: bool;
        made, done, resp := TryName(d, domains, net, others, made, start);
        if done {
          return;
        }
        d := d + 1;
      }
      assert domains[..d] == domains;
      resp := None;
    }
  }
}

/**
 The round-robin rule of `RotatingUpstream.Next` and the mutex that guards it: which positions a
 sequence of calls visits, and that concurrent callers visit them in exactly that sequence.
 */
module Rotation {
  import opened Wrappers

  /** The index that one call leaves behind. */
  function Step(i: nat, n: nat): nat
    requires n > 0
  {
    (i + 1) % n
  }

  lemma StepWraps(i: nat, n: nat)
    requires i < n
    ensures Step(i, n) == if i + 1 == n then 0 else i + 1
  {
  }

  /** The index after `m` calls that start at index `i`. */
  function After(i: nat, n: nat, m: nat): nat
    requires n > 0
  {
    if m == 0 then i else Step(After(i, n, m - 1), n)
  }

  /** The positions that `m` calls starting at index `i` return, in order. */
  function Visits(i: nat, n: nat, m: nat): seq<nat>
    requires n > 0
  {
    if m == 0 then [] else Visits(i, n, m - 1) + [After(i, n, m - 1)]
  }

  lemma {:induction false} AfterInRange(i: nat, n: nat, m: nat)
    requires i < n
    ensures After(i, n, m) < n
  {
    if m > 0 {
      AfterInRange(i, n, m - 1);
    }
  }

  lemma {:induction false} AfterAdds(i: nat, n: nat, a: nat, b: nat)
    requires n > 0
    ensures After(i, n, a + b) == After(After(i, n, a), n, b)
  {
    if b > 0 {
      AfterAdds(i, n, a, b - 1);
    }
  }

  lemma {:induction false} VisitsLength(i: nat, n: nat, m: nat)
    requires n > 0
    ensures |Visits(i, n, m)| == m
    ensures forall k :: 0 <= k < m ==> Visits(i, n, m)[k] == After(i, n, k)
  {
    if m > 0 {
      VisitsLength(i, n, m - 1);
    }
  }

  /** Any run of calls splits anywhere: what follows is a run of its own from the index reached. */
  lemma {:induction false} VisitsSplit(i: nat, n: nat, a: nat, b: nat)
    requires n > 0
    ensures Visits(i, n, a + b) == Visits(i, n, a) + Visits(After(i, n, a), n, b)
  {
    if b > 0 {
      VisitsSplit(i, n, a, b - 1);
      AfterAdds(i, n, a, b - 1);
    }
  }

  /** Full laps made and calls into the current lap, after `m` calls. */
  function Laps(n: nat, m: nat): (nat, nat)
    requires n > 0
  {
    if m == 0 then (0, 0)
    else
      var (laps, rest) := Laps(n, m - 1);
      if rest + 1 == n then (laps + 1, 0) else (laps, rest + 1)
  }

  /** How many calls into a lap that starts at index `i` position `p` comes up. */
  function Offset(i: nat, n: nat, p: nat): nat
    requires i < n && p < n
  {
    if p >= i then p - i else p + n - i
  }

  lemma {:induction false} LapIndex(i: nat, n: nat, m: nat)
    requires i < n
    ensures var rest := Laps(n, m).1;
            rest < n && After(i, n, m) == if i + rest < n then i + rest else i + rest - n
  {
    if m > 0 {
      LapIndex(i, n, m - 1);
      StepWraps(After(i, n, m - 1), n);
    }
  }

  /** One more call, `rest` calls into a lap, of a run that starts at index `i`. */
  lemma LapCountStep(run: seq<nat>, x: nat, i: nat, n: nat, p: nat, laps: nat, rest: nat)
    requires i < n && p < n && rest < n && x == if i + rest < n then i + rest else i + rest - n
    requires multiset(run)[p] == laps + if Offset(i, n, p) < rest then 1 else 0
    ensures multiset(run + [x])[p]
         == if rest + 1 == n then laps + 1 else laps + if Offset(i, n, p) < rest + 1 then 1 else 0
  {
    CountSnoc(run, x, p);
  }

  lemma CountSnoc(s: seq<nat>, x: nat, p: nat)
    ensures multiset(s + [x])[p] == multiset(s)[p] + if x == p then 1 else 0
  {
  }

  lemma {:induction false} LapCount(i: nat, n: nat, m: nat, p: nat)
    requires i < n && p < n
    ensures multiset(Visits(i, n, m))[p] == Laps(n, m).0 + if Offset(i, n, p) < Laps(n, m).1 then 1 else 0
  {
    if m > 0 {
      LapCount(i, n, m - 1, p);
      LapIndex(i, n, m - 1);
      var run, x, laps, rest := Visits(i, n, m - 1), After(i, n, m - 1), Laps(n, m - 1).0, Laps(n, m - 1).1;
      LapCountStep(run, x, i, n, p, laps, rest);
    }
  }

  /** The exact usage of every position: one per full lap, and one more if this lap has reached it. */
  lemma Usage(i: nat, n: nat, m: nat, p: nat)
    requires i < n && p < n
    ensures var (laps, rest) := Laps(n, m);
            rest < n
            && After(i, n, m) == (if i + rest < n then i + rest else i + rest - n)
            && multiset(Visits(i, n, m))[p] == laps + if Offset(i, n, p) < rest then 1 else 0
  {
    LapIndex(i, n, m);
    LapCount(i, n, m, p);
  }

  lemma {:induction false} FirstLap(n: nat, m: nat)
    requires m <= n && n > 0
    ensures Laps(n, m) == if m == n then (1, 0) else (0, m)
  {
    if m > 0 {
      FirstLap(n, m - 1);
    }
  }

  /** Any `n` consecutive calls visit each of the `n` positions exactly once. */
  lemma EachWindowVisitsAllOnce(i: nat, n: nat, before: nat, p: nat)
    requires i < n && p < n
    ensures var run := Visits(i, n, before + n);
            |run| == before + n && multiset(run[before..])[p] == 1
  {
    var j := After(i, n, before);
    AfterInRange(i, n, before);
    VisitsLength(i, n, before);
    VisitsLength(j, n, n);
    VisitsSplit(i, n, before, n);
    assert Visits(i, n, before + n)[before..] == Visits(j, n, n);
    FirstLap(n, n);
    Usage(j, n, n, p);
  }

  /** After any number of calls the usage counts of two positions differ by at most one. */
  lemma UsageIsFair(i: nat, n: nat, m: nat, p: nat, q: nat)
    requires i < n && p < n && q < n
    ensures multiset(Visits(i, n, m))[p] <= multiset(Visits(i, n, m))[q] + 1
  {
    Usage(i, n, m, p);
    Usage(i, n, m, q);
  }

  // ----- Concurrent callers -----

  type Caller = nat

  /** Where a caller is inside `Next`; a caller in no map entry is outside. */
  datatype Phase =
    | Locked             // holds the mutex, has not read the index
    | Read(at: nat)      // has read servers[at], has not advanced the index
    | Advanced(at: nat)  // has advanced the index, has not released the mutex

  datatype Served = Served(caller: Caller, at: nat)

  /** `served` records the completed reads in the order they happened. */
  datatype Shared = Shared(holder: Option<Caller>, inside: map<Caller, Phase>, index: nat, served: seq<Served>)

  datatype Event = Lock(who: Caller) | ReadServer(who: Caller) | AdvanceIndex(who: Caller) | Unlock(who: Caller)

  predicate Enabled(s: Shared, e: Event) {
    match e
    case Lock(c) => s.holder == None && c !in s.inside
    case ReadServer(c) => c in s.inside && s.inside[c].Locked?
    case AdvanceIndex(c) => c in s.inside && s.inside[c].Read?
    case Unlock(c) => c in s.inside && s.inside[c].Advanced?
  }

  function Apply(s: Shared, e: Event, n: nat): Shared
    requires n > 0 && Enabled(s, e)
  {
    match e
    case Lock(c) => s.(holder := Some(c), inside := s.inside[c := Locked])
    case ReadServer(c) => s.(inside := s.inside[c := Read(s.index)], served := s.served + [Served(c, s.index)])
    case AdvanceIndex(c) =>
      s.(inside := s.inside[c := Advanced(s.inside[c].at)], index := Step(s.index, n))
    case Unlock(c) => s.(holder := None, inside := s.inside - {c})
  }

  function Initial(): Shared {
    Shared(None, map[], 0, [])
  }

  /** The state an interleaving of callers reaches, if each of its events was enabled in its turn. */
  function Run(events: seq<Event>, n: nat): Option<Shared>
    requires n > 0
  {
    if events == [] then Some(Initial())
    else
      var before := Run(events[..|events| - 1], n);
      var e := events[|events| - 1];
      if before.Some? && Enabled(before.value, e) then Some(Apply(before.value, e, n)) else None
  }

  function Positions(served: seq<Served>): seq<nat> {
    seq(|served|, k requires 0 <= k < |served| => served[k].at)
  }

  /** Reads made whose advance has happened too. */
  function Advances(s: Shared): int {
    |s.served| - if s.holder.Some? && s.holder.value in s.inside && s.inside[s.holder.value].Read? then 1 else 0
  }

  ghost predicate Invariant(s: Shared, n: nat)
    requires n > 0
  {
    && s.inside.Keys == (if s.holder.Some? then {s.holder.value} else {})
    && Advances(s) >= 0
    && s.index == After(0, n, Advances(s))
    && (s.holder.Some? && s.inside[s.holder.value].Read? ==> s.inside[s.holder.value].at == s.index)
    && Positions(s.served) == Visits(0, n, |s.served|)
  }

  lemma StepKeepsInvariant(s: Shared, e: Event, n: nat)
    requires n > 0 && Invariant(s, n) && Enabled(s, e)
    ensures Invariant(Apply(s, e, n), n)
  {
    var t := Apply(s, e, n);
    assert e.who in t.inside || e.Unlock?;
    if e.ReadServer? {
      assert Positions(t.served) == Positions(s.served) + [s.index];
    }
  }

  /**
   In every interleaving of callers the mutex admits one at a time, the index stays in range, and the
   k-th call to read overall gets the position a single caller's k-th call would get.
   */
  lemma {:induction false} InterleavingsAreSequential(events: seq<Event>, n: nat, s: Shared)
    requires n > 0 && Run(events, n) == Some(s)
    ensures Invariant(s, n)
    ensures |s.inside| <= 1 && s.index < n
    ensures Positions(s.served) == Visits(0, n, |s.served|)
  {
    if events == [] {
      assert Positions([]) == [];
    } else {
      var front := events[..|events| - 1];
      InterleavingsAreSequential(front, n, Run(front, n).value);
      StepKeepsInvariant(Run(front, n).value, events[|events| - 1], n);
    }
    AfterInRange(0, n, Advances(s));
    assert |s.inside| == |s.inside.Keys|;
  }

  /** So fairness holds for the calls of all concurrent callers taken together. */
  lemma ConcurrentUsageIsFair(events: seq<Event>, n: nat, s: Shared, p: nat, q: nat)
    requires n > 0 && Run(events, n) == Some(s)
    requires p < n && q < n
    ensures multiset(Positions(s.served))[p] <= multiset(Positions(s.served))[q] + 1
  {
    InterleavingsAreSequential(events, n, s);
    UsageIsFair(0, n, |s.served|, p, q);
  }

  lemma VisitsWindow(n: nat, total: nat, before: nat)
    requires n > 0 && before + n <= total
    ensures |Visits(0, n, total)| == total
    ensures |Visits(0, n, before + n)| == before + n
    ensures Visits(0, n, total)[before..before + n] == Visits(0, n, before + n)[before..]
  {
    VisitsLength(0, n, total);
    VisitsLength(0, n, before + n);
  }

  /** And so does the window property: any `n` consecutive reads, whoever makes them, visit all positions once. */
  lemma ConcurrentWindow(events: seq<Event>, n: nat, s: Shared, before: nat, p: nat)
    requires n > 0 && Run(events, n) == Some(s)
    requires before + n <= |s.served| && p < n
    ensures multiset(Positions(s.served)[before..before + n])[p] == 1
  {
    InterleavingsAreSequential(events, n, s);
    VisitsWindow(n, |s.served|, before);
    EachWindowVisitsAllOnce(0, n, before, p);
  }

  lemma RunSnoc(events: seq<Event>, e: Event, n: nat)
    requires n > 0
    ensures var before := Run(events, n);
            Run(events + [e], n)
            == if before.Some? && Enabled(before.value, e) then Some(Apply(before.value, e, n)) else None
  {
    assert (events + [e])[..|events|] == events;
  }

  lemma RunFourMore(events: seq<Event>, a: Event, b: Event, c: Event, d: Event, n: nat,
                    s: Shared, s1: Shared, s2: Shared, s3: Shared)
    requires n > 0 && Run(events, n) == Some(s)
    requires Enabled(s, a) && s1 == Apply(s, a, n)
    requires Enabled(s1, b) && s2 == Apply(s1, b, n)
    requires Enabled(s2, c) && s3 == Apply(s2, c, n)
    requires Enabled(s3, d)
    ensures Run(events + [a] + [b] + [c] + [d], n) == Some(Apply(s3, d, n))
  {
    RunSnoc(events, a, n);
    RunSnoc(events + [a], b, n);
    RunSnoc(events + [a] + [b], c, n);
    RunSnoc(events + [a] + [b] + [c], d, n);
  }

  lemma CallSteps(s: Shared, c: Caller, n: nat) returns (s1: Shared, s2: Shared, s3: Shared)
    requires n > 0 && s.holder == None && s.inside == map[]
    ensures Enabled(s, Lock(c)) && s1 == Apply(s, Lock(c), n)
    ensures Enabled(s1, ReadServer(c)) && s2 == Apply(s1, ReadServer(c), n)
    ensures Enabled(s2, AdvanceIndex(c)) && s3 == Apply(s2, AdvanceIndex(c), n)
    ensures Enabled(s3, Unlock(c))
    ensures Apply(s3, Unlock(c), n) == Shared(None, map[], Step(s.index, n), s.served + [Served(c, s.index)])
  {
    s1 := Shared(Some(c), map[c := Locked], s.index, s.served);
    s2 := Shared(Some(c), map[c := Read(s.index)], s.index, s.served + [Served(c, s.index)]);
    s3 := Shared(Some(c), map[c := Advanced(s.index)], Step(s.index, n), s.served + [Served(c, s.index)]);
    assert s3.inside - {c} == map[];
  }

  /**
   A call never gets stuck: once the mutex is free, in any run, a caller can take it, read, advance and release it,
   which serves the position at the index, leaves the next index and frees the mutex again.
   */
  lemma CallCompletes(events: seq<Event>, n: nat, s: Shared, c: Caller)
    requires n > 0 && Run(events, n) == Some(s) && s.holder == None
    ensures Run(events + [Lock(c)] + [ReadServer(c)] + [AdvanceIndex(c)] + [Unlock(c)], n)
         == Some(Shared(None, map[], if s.index + 1 < n then s.index + 1 else 0, s.served + [Served(c, s.index)]))
  {
    FreeMutexIsEmpty(events, n, s);
    StepWraps(s.index, n);
    var s1, s2, s3 := CallSteps(s, c, n);
    RunFourMore(events, Lock(c), ReadServer(c), AdvanceIndex(c), Unlock(c), n, s, s1, s2, s3);
  }

  lemma FreeMutexIsEmpty(events: seq<Event>, n: nat, s: Shared)
    requires n > 0 && Run(events, n) == Some(s) && s.holder == None
    ensures s.inside == map[] && s.index < n
  {
    InterleavingsAreSequential(events, n, s);
  }
}

/** What whole runs of the metrics reporter add up to, for each key and each of its two counters. */
module MetricsRuns {
  import opened EnvoyMetrics
  import opened Wrappers

  datatype TickInput = TickInput(now: int, poll: Option<Poll>)

  function Initial(): Machine {
    Machine(map[], 0, [])
  }

  function Run(m: Machine, ticks: seq<TickInput>): Machine {
    if ticks == [] then m
    else
      var last := ticks[|ticks| - 1];
      Tick(Run(m, ticks[..|ticks| - 1]), last.now, last.poll)
  }

  function Seen(t: TickInput): seq<Obs> {
    if t.poll.None? then [] else Observations(t.poll.value.clusters)
  }

  // ----- The history of one counter of one key -----

  datatype KeyEvent = Counter(c: uint64) | Evicted

  function SuccessOrError(o: Obs, ok: bool): uint64 {
    if ok then o.rqSuccess else o.rqError
  }

  function CountersOf(os: seq<Obs>, k: Key, ok: bool): seq<KeyEvent> {
    if os == [] then []
    else
      var o := os[|os| - 1];
      CountersOf(os[..|os| - 1], k, ok) + if o.key == k then [Counter(SuccessOrError(o, ok))] else []
  }

  predicate EvictedAt(m: Machine, now: int, k: Key) {
    k in m.values && k !in Clean(m, now).values
  }

  /** The counter values observed for the key, with a mark where the key was forgotten. */
  function History(m: Machine, ticks: seq<TickInput>, k: Key, ok: bool): seq<KeyEvent> {
    if ticks == [] then []
    else
      var front, last := ticks[..|ticks| - 1], ticks[|ticks| - 1];
      History(m, front, k, ok)
      + (if EvictedAt(Run(m, front), last.now, k) then [Evicted] else [])
      + CountersOf(Seen(last), k, ok)
  }

  /** The growth that observing `c` after `h` amounts to. */
  function GrowthAfter(h: seq<KeyEvent>, c: uint64): uint64 {
    if h == [] || h[|h| - 1].Evicted? then c else Increase(h[|h| - 1].c, c)
  }

  /** All growth over a history. */
  function TotalGrowth(h: seq<KeyEvent>): nat {
    if h == [] then 0
    else
      var front := h[..|h| - 1];
      match h[|h| - 1]
      case Evicted => TotalGrowth(front)
      case Counter(c) => TotalGrowth(front) + GrowthAfter(front, c)
  }

  /** The number of calls the reporter's loops make for it. */
  function CallsFor(h: seq<KeyEvent>): nat {
    if h == [] then 0
    else
      var front := h[..|h| - 1];
      match h[|h| - 1]
      case Evicted => CallsFor(front)
      case Counter(c) => CallsFor(front) + LoopCount(GrowthAfter(front, c))
  }

  function LoopCount(v: uint64): nat {
    if AsInt(v) < 0 then 0 else AsInt(v)
  }

  function Count(sent: seq<Report>, k: Key, ok: bool): nat {
    if sent == [] then 0
    else
      var last := sent[|sent| - 1];
      Count(sent[..|sent| - 1], k, ok) + if last.key == k && last.success == ok then 1 else 0
  }

  lemma {:induction false} CountConcat(a: seq<Report>, b: seq<Report>, k: Key, ok: bool)
    ensures Count(a + b, k, ok) == Count(a, k, ok) + Count(b, k, ok)
  {
    if b == [] {
      assert a + b == a;
    } else {
      assert (a + b)[..|a + b| - 1] == a + b[..|b| - 1];
      CountConcat(a, b[..|b| - 1], k, ok);
    }
  }

  lemma {:induction false} CountTimes(r: Report, n: nat, k: Key, ok: bool)
    ensures Count(Times(r, n), k, ok) == if r.key == k && r.success == ok then n else 0
  {
    if n > 0 {
      TimesSnoc(r, n - 1);
      assert Times(r, n)[..n - 1] == Times(r, n - 1);
      CountTimes(r, n - 1, k, ok);
    }
  }

  lemma CountCalls(key: Key, growth: Rise, delay: real, k: Key, ok: bool)
    ensures Count(Calls(key, growth, delay), k, ok)
         == if key == k then LoopCount(if ok then growth.rqSuccess else growth.rqError) else 0
  {
    var success, failure := Report(key, true, 200, delay), Report(key, false, 500, delay);
    CountTimes(success, LoopCount(growth.rqSuccess), k, ok);
    CountTimes(failure, LoopCount(growth.rqError), k, ok);
    assert Times(success, AsInt(growth.rqSuccess)) == Times(success, LoopCount(growth.rqSuccess));
    assert Times(failure, AsInt(growth.rqError)) == Times(failure, LoopCount(growth.rqError));
    CountConcat(Times(success, AsInt(growth.rqSuccess)), Times(failure, AsInt(growth.rqError)), k, ok);
  }

  /** The machine has seen exactly this history of the key. */
  ghost predicate Tracks(m: Machine, h: seq<KeyEvent>, k: Key, ok: bool) {
    && (k in m.values <==> h != [] && h[|h| - 1].Counter?)
    && (k in m.values ==>
          (if ok then m.values[k].rqSuccess else m.values[k].rqError) == h[|h| - 1].c)
    && Count(m.sent, k, ok) == CallsFor(h)
  }

  lemma CallsForSnoc(h: seq<KeyEvent>, e: KeyEvent)
    ensures CallsFor(h + [e]) == CallsFor(h) + match e case Evicted => 0 case Counter(c) => LoopCount(GrowthAfter(h, c))
  {
    assert (h + [e])[..|h|] == h;
  }

  lemma ObserveTracks(m: Machine, h: seq<KeyEvent>, o: Obs, delays: map<string, real>, k: Key, ok: bool)
    requires Tracks(m, h, k, ok)
    ensures Tracks(Observe(m, o, delays),
                   h + if o.key == k then [Counter(SuccessOrError(o, ok))] else [], k, ok)
  {
    var growth, delay := Growth(m.values, o), DelayOf(delays, o.key.cluster);
    CountCalls(o.key, growth, delay, k, ok);
    CountConcat(m.sent, Calls(o.key, growth, delay), k, ok);
    if o.key == k {
      CallsForSnoc(h, Counter(SuccessOrError(o, ok)));
    } else {
      assert h + [] == h;
    }
  }

  lemma CountersOfLast(h: seq<KeyEvent>, os: seq<Obs>, k: Key, ok: bool)
    requires os != []
    ensures var o := os[|os| - 1];
            h + CountersOf(os, k, ok)
            == (h + CountersOf(os[..|os| - 1], k, ok)) + if o.key == k then [Counter(SuccessOrError(o, ok))] else []
  {
  }

  lemma {:induction false} ObserveAllTracks(m: Machine, h: seq<KeyEvent>, os: seq<Obs>,
                                            delays: map<string, real>, k: Key, ok: bool)
    requires Tracks(m, h, k, ok)
    ensures Tracks(ObserveAll(m, os, delays), h + CountersOf(os, k, ok), k, ok)
  {
    if os == [] {
      assert h + [] == h;
    } else {
      var front, o := os[..|os| - 1], os[|os| - 1];
      ObserveAllTracks(m, h, front, delays, k, ok);
      CountersOfLast(h, os, k, ok);
      ObserveTracks(ObserveAll(m, front, delays), h + CountersOf(front, k, ok), o, delays, k, ok);
    }
  }

  lemma CleanTracks(m: Machine, h: seq<KeyEvent>, now: int, k: Key, ok: bool)
    requires Tracks(m, h, k, ok)
    ensures Tracks(Clean(m, now), h + if EvictedAt(m, now, k) then [Evicted] else [], k, ok)
  {
    CallsForSnoc(h, Evicted);
    assert h + [] == h;
  }

  /**
   Over every run from the start, whatever other keys do in between and however often the key is
   forgotten, the calls made for a key are those of its own history.
   */
  lemma {:induction false} CallsFollowHistory(ticks: seq<TickInput>, k: Key, ok: bool)
    ensures Tracks(Run(Initial(), ticks), History(Initial(), ticks, k, ok), k, ok)
    ensures Count(Run(Initial(), ticks).sent, k, ok) == CallsFor(History(Initial(), ticks, k, ok))
  {
    if ticks != [] {
      var front, last := ticks[..|ticks| - 1], ticks[|ticks| - 1];
      CallsFollowHistory(front, k, ok);
      var m, h := Run(Initial(), front), History(Initial(), front, k, ok);
      CleanTracks(m, h, last.now, k, ok);
      var h' := h + if EvictedAt(m, last.now, k) then [Evicted] else [];
      if last.poll.Some? {
        ObserveAllTracks(Clean(m, last.now), h', Seen(last), last.poll.value.delays, k, ok);
      } else {
        assert h' + [] == h';
      }
    }
  }

  // ----- What a history adds up to -----

  /** No single growth exceeds the range of a signed 64-bit integer. */
  ghost predicate GrowthsFit(h: seq<KeyEvent>) {
    forall i :: 0 <= i < |h| && h[i].Counter? ==> Fits(h, i)
  }

  predicate Fits(h: seq<KeyEvent>, i: nat)
    requires i < |h| && h[i].Counter?
  {
    GrowthAfter(h[..i], h[i].c) < 0x8000_0000_0000_0000
  }

  lemma GrowthsFitSnoc(h: seq<KeyEvent>)
    requires h != []
    ensures GrowthsFit(h) <==> GrowthsFit(h[..|h| - 1]) && (h[|h| - 1].Counter? ==> Fits(h, |h| - 1))
  {
    var front := h[..|h| - 1];
    forall i | 0 <= i < |front| && h[i].Counter? ensures Fits(h, i) <==> Fits(front, i) {
      assert h[..i] == front[..i];
    }
    if GrowthsFit(h) {
      forall i | 0 <= i < |front| && front[i].Counter? ensures Fits(front, i) {
        assert Fits(h, i);
      }
    }
    if GrowthsFit(front) && (h[|h| - 1].Counter? ==> Fits(h, |h| - 1)) {
      forall i | 0 <= i < |h| && h[i].Counter? ensures Fits(h, i) {
        assert i < |front| ==> Fits(front, i);
      }
    }
  }

  /** The calls made equal the growth exactly when no single growth overflows the loop counter. */
  lemma {:induction false} CallsEqualGrowthIff(h: seq<KeyEvent>)
    ensures CallsFor(h) <= TotalGrowth(h)
    ensures CallsFor(h) == TotalGrowth(h) <==> GrowthsFit(h)
  {
    if h != [] {
      CallsEqualGrowthIff(h[..|h| - 1]);
      GrowthsFitSnoc(h);
    }
  }

  predicate Unbroken(h: seq<KeyEvent>) {
    forall i :: 0 <= i < |h| ==> h[i].Counter?
  }

  /** The sum of all rises between neighbours. */
  function Rises(h: seq<KeyEvent>): nat
    requires Unbroken(h)
  {
    if |h| <= 1 then 0 else Rises(h[..|h| - 1]) + Increase(h[|h| - 2].c, h[|h| - 1].c)
  }

  /** The sum of all falls between neighbours. */
  function Falls(h: seq<KeyEvent>): nat
    requires Unbroken(h)
  {
    if |h| <= 1 then 0 else Falls(h[..|h| - 1]) + Increase(h[|h| - 1].c, h[|h| - 2].c)
  }

  lemma {:induction false} GrowthTelescopes(h: seq<KeyEvent>)
    requires h != [] && Unbroken(h)
    ensures TotalGrowth(h) == h[0].c + Rises(h) == h[|h| - 1].c + Falls(h)
    ensures forall i :: 0 <= i < |h| ==> h[i].c <= TotalGrowth(h)
  {
    if |h| > 1 {
      var front := h[..|h| - 1];
      GrowthTelescopes(front);
      forall i | 0 <= i < |h| ensures h[i].c <= TotalGrowth(h) {
        assert i < |front| ==> front[i] == h[i];
      }
    } else {
      assert TotalGrowth(h[..0]) == 0;
    }
  }

  predicate NeverFalls(h: seq<KeyEvent>)
    requires Unbroken(h)
  {
    forall i :: 0 < i < |h| ==> h[i - 1].c <= h[i].c
  }

  lemma {:induction false} NoFallsIff(h: seq<KeyEvent>)
    requires Unbroken(h)
    ensures Falls(h) == 0 <==> NeverFalls(h)
  {
    if |h| > 1 {
      var front, n := h[..|h| - 1], |h| - 1;
      NoFallsIff(front);
      assert front[n - 1] == h[n - 1];
      if NeverFalls(front) && h[n - 1].c <= h[n].c {
        forall i | 0 < i < |h| ensures h[i - 1].c <= h[i].c {
          assert i < n ==> front[i - 1].c <= front[i].c;
        }
      }
      if NeverFalls(h) {
        forall i | 0 < i < |front| ensures front[i - 1].c <= front[i].c {
          assert h[i - 1].c <= h[i].c;
        }
      }
    }
  }

  ghost predicate SmallCounters(h: seq<KeyEvent>) {
    forall i :: 0 <= i < |h| && h[i].Counter? ==> h[i].c < 0x8000_0000_0000_0000
  }

  /** Counters below 2^63 always fit. */
  lemma SmallCountersFit(h: seq<KeyEvent>)
    requires SmallCounters(h)
    ensures GrowthsFit(h)
  {
  }

  lemma CallsForUnbroken(h: seq<KeyEvent>)
    requires h != [] && Unbroken(h) && GrowthsFit(h)
    ensures CallsFor(h) == h[0].c + Rises(h)
    ensures forall i :: 0 <= i < |h| ==> h[i].c <= CallsFor(h)
    ensures CallsFor(h) == h[|h| - 1].c <==> NeverFalls(h)
  {
    CallsEqualGrowthIff(h);
    GrowthTelescopes(h);
    NoFallsIff(h);
  }

  /**
   For a key that is never forgotten and whose growths fit, the number of calls is the first counter plus
   every rise; it is at least every counter seen, and it is the last counter exactly when the counter
   never went down.
   */
  lemma CallsTelescope(ticks: seq<TickInput>, k: Key, ok: bool, h: seq<KeyEvent>)
    requires h == History(Initial(), ticks, k, ok)
    requires h != [] && Unbroken(h) && GrowthsFit(h)
    ensures var calls := Count(Run(Initial(), ticks).sent, k, ok);
            && calls == h[0].c + Rises(h)
            && (forall i :: 0 <= i < |h| ==> h[i].c <= calls)
            && (calls == h[|h| - 1].c <==> NeverFalls(h))
  {
    CallsFollowHistory(ticks, k, ok);
    CallsForUnbroken(h);
  }

  // ----- Eviction -----

  predicate ObservedIn(t: TickInput, k: Key) {
    exists i :: 0 <= i < |Seen(t)| && Seen(t)[i].key == k
  }

  function TimeOf(base: int, i: nat): int {
    base + i * TICK
  }

  /** A clock reading made in tick `i`. */
  predicate During(base: int, i: nat, at: int) {
    TimeOf(base, i) <= at < TimeOf(base, i + 1)
  }

  /** The ticks come every 30 seconds, and each is through with its clock readings before the next one. */
  ghost predicate Spaced(ticks: seq<TickInput>, base: int) {
    forall i :: 0 <= i < |ticks| ==>
      During(base, i, ticks[i].now) && forall o :: o in Seen(ticks[i]) ==> During(base, i, o.at)
  }

  /** Each tick reads the time for cleaning at its very start. */
  ghost predicate Punctual(ticks: seq<TickInput>, base: int) {
    forall i :: 0 <= i < |ticks| ==> ticks[i].now == TimeOf(base, i)
  }

  lemma {:induction false} ObserveAllOnKey(m: Machine, os: seq<Obs>, delays: map<string, real>, k: Key)
    ensures var r := ObserveAll(m, os, delays);
            && r.cleanCounter == m.cleanCounter
            && if exists i :: 0 <= i < |os| && os[i].key == k
               then k in r.values && exists o :: o in os && o.at == r.values[k].lastActive
               else (k in r.values <==> k in m.values) && (k in m.values ==> r.values[k] == m.values[k])
  {
    if os != [] {
      var front, n := os[..|os| - 1], |os| - 1;
      ObserveAllOnKey(m, front, delays, k);
      assert forall i :: 0 <= i < n ==> os[i] == front[i];
      assert os[n] in os;
    }
  }

  lemma TickOnKey(m: Machine, t: TickInput, k: Key)
    ensures var r := Tick(m, t.now, t.poll);
            var cleaned := Clean(m, t.now);
            && r.cleanCounter == cleaned.cleanCounter
            && if ObservedIn(t, k)
               then k in r.values && exists o :: o in Seen(t) && o.at == r.values[k].lastActive
               else (k in r.values <==> k in cleaned.values)
                    && (k in cleaned.values ==> r.values[k] == cleaned.values[k])
  {
    if t.poll.Some? {
      ObserveAllOnKey(Clean(m, t.now), Seen(t), t.poll.value.delays, k);
    }
  }

  lemma {:induction false} CounterBelowThreshold(m: Machine, ticks: seq<TickInput>)
    requires m.cleanCounter < CLEAN_THRESHOLD
    ensures Run(m, ticks).cleanCounter < CLEAN_THRESHOLD
  {
    if ticks != [] {
      var last := ticks[|ticks| - 1];
      CounterBelowThreshold(m, ticks[..|ticks| - 1]);
      TickOnKey(Run(m, ticks[..|ticks| - 1]), last, Key("", "", 0));
    }
  }

  lemma CounterAfterTick(m: Machine, t: TickInput, i: nat)
    requires m.cleanCounter == i % 10
    ensures Tick(m, t.now, t.poll).cleanCounter == (i + 1) % 10
  {
    TickOnKey(m, t, Key("", "", 0));
  }

  lemma {:induction false} CounterFollowsTicks(ticks: seq<TickInput>)
    ensures Run(Initial(), ticks).cleanCounter == |ticks| % 10
  {
    if ticks != [] {
      var front, t := ticks[..|ticks| - 1], ticks[|ticks| - 1];
      CounterFollowsTicks(front);
      CounterAfterTick(Run(Initial(), front), t, |front|);
    }
  }

  lemma EvictedIff(m: Machine, now: int, k: Key)
    requires m.cleanCounter < 10
    ensures EvictedAt(m, now, k)
       <==> m.cleanCounter == 9 && k in m.values && now - m.values[k].lastActive > 300_000_000_000
  {
  }

  lemma TenthAfterNine(i: nat)
    ensures (i + 1) % 10 == 0 <==> i % 10 == 9
  {
  }

  /** From the start, every tenth tick cleans, and forgets just the keys that were silent for over five minutes. */
  lemma EveryTenthTickCleans(ticks: seq<TickInput>, m: Machine, now: int, k: Key)
    requires m == Run(Initial(), ticks)
    ensures EvictedAt(m, now, k)
       <==> (|ticks| + 1) % 10 == 0 && k in m.values && now - m.values[k].lastActive > 300_000_000_000
  {
    CounterFollowsTicks(ticks);
    TenthAfterNine(|ticks|);
    EvictedIff(m, now, k);
  }

  /** The clean counter `d` ticks after it was `c`, for up to two rounds. */
  function CounterAfter(c: nat, d: nat): int {
    if c + d < CLEAN_THRESHOLD then c + d
    else if c + d < 2 * CLEAN_THRESHOLD then c + d - CLEAN_THRESHOLD
    else c + d - 2 * CLEAN_THRESHOLD
  }

  /**
   How many ticks a key stays stored after its last observation, when the clean counter was then `c`. The first
   cleaning comes too early to forget it, except one exactly ten ticks later that reads the clock late in its tick.
   */
  function Lifetime(c: nat, late: bool): int {
    if late then 10 else 20 - c
  }

  /** Whether the cleaning ten ticks after an observation at `seenAt`, in tick `t`, already finds the key inactive. */
  predicate LateCleaning(ticks: seq<TickInput>, t: nat, seenAt: int, c: nat) {
    c == 0 && t + 10 < |ticks| && ticks[t + 10].now - seenAt > 300_000_000_000
  }

  ghost predicate StoredAsDue(m: Machine, k: Key, seenAt: int, c: nat, d: nat, late: bool) {
    && (k in m.values <==> d < Lifetime(c, late))
    && (k in m.values ==> m.values[k].lastActive == seenAt)
    && (d < 20 - c ==> m.cleanCounter == CounterAfter(c, d))
  }

  /** One tick without an observation of the key, the `d`-th since the last one. */
  lemma SilentTick(before: Machine, t: TickInput, k: Key, seenAt: int, c: nat, d: nat, late: bool)
    requires c < CLEAN_THRESHOLD && d > 0 && !ObservedIn(t, k)
    requires (d - 1) * TICK < t.now - seenAt < (d + 1) * TICK
    requires late ==> c == 0
    requires c == 0 && d == 10 ==> (late <==> t.now - seenAt > INACTIVE)
    requires StoredAsDue(before, k, seenAt, c, d - 1, late)
    ensures StoredAsDue(Tick(before, t.now, t.poll), k, seenAt, c, d, late)
  {
    TickOnKey(before, t, k);
  }

  lemma RunOneMore(m: Machine, ticks: seq<TickInput>, u: nat)
    requires u < |ticks|
    ensures Run(m, ticks[..u + 1]) == Tick(Run(m, ticks[..u]), ticks[u].now, ticks[u].poll)
  {
    assert ticks[..u + 1][..u] == ticks[..u];
  }

  lemma TicksApart(base: int, t: nat, u: nat, seenAt: int, now: int)
    requires t < u && During(base, t, seenAt) && During(base, u, now)
    ensures (u - t - 1) * TICK < now - seenAt < (u - t + 1) * TICK
  {
  }

  /** An observed key is stored with a clock reading of that tick. */
  lemma ObservedIsStored(m: Machine, ticks: seq<TickInput>, base: int, t: nat, k: Key) returns (seenAt: int)
    requires Spaced(ticks, base) && t < |ticks| && ObservedIn(ticks[t], k)
    ensures k in Run(m, ticks[..t + 1]).values && Run(m, ticks[..t + 1]).values[k].lastActive == seenAt
    ensures During(base, t, seenAt)
  {
    RunOneMore(m, ticks, t);
    TickOnKey(Run(m, ticks[..t]), ticks[t], k);
    seenAt := Run(m, ticks[..t + 1]).values[k].lastActive;
  }

  /** `seenAt` and `c` are the stored time and the clean counter after tick `t`. */
  ghost predicate SeenAs(m: Machine, ticks: seq<TickInput>, base: int, t: nat, k: Key, seenAt: int, c: nat)
    requires t < |ticks|
  {
    var r := Run(m, ticks[..t + 1]);
    && r.cleanCounter == c < CLEAN_THRESHOLD
    && k in r.values && r.values[k].lastActive == seenAt
    && During(base, t, seenAt)
  }

  lemma JustObserved(m: Machine, ticks: seq<TickInput>, base: int, t: nat, k: Key) returns (seenAt: int, c: nat)
    requires m.cleanCounter < CLEAN_THRESHOLD && Spaced(ticks, base)
    requires t < |ticks| && ObservedIn(ticks[t], k)
    ensures SeenAs(m, ticks, base, t, k, seenAt, c)
  {
    c := Run(m, ticks[..t + 1]).cleanCounter;
    CounterBelowThreshold(m, ticks[..t + 1]);
    seenAt := ObservedIsStored(m, ticks, base, t, k);
  }

  lemma StoredOneMore(m: Machine, ticks: seq<TickInput>, base: int, t: nat, u: nat, k: Key, seenAt: int, c: nat)
    requires Spaced(ticks, base) && c < CLEAN_THRESHOLD
    requires t < u < |ticks| && !ObservedIn(ticks[u], k) && During(base, t, seenAt)
    requires StoredAsDue(Run(m, ticks[..u]), k, seenAt, c, u - t - 1, LateCleaning(ticks, t, seenAt, c))
    ensures StoredAsDue(Run(m, ticks[..u + 1]), k, seenAt, c, u - t, LateCleaning(ticks, t, seenAt, c))
  {
    RunOneMore(m, ticks, u);
    TicksApart(base, t, u, seenAt, ticks[u].now);
    SilentTick(Run(m, ticks[..u]), ticks[u], k, seenAt, c, u - t, LateCleaning(ticks, t, seenAt, c));
  }

  lemma {:induction false} StoredFrom(m: Machine, ticks: seq<TickInput>, base: int, t: nat, u: nat, k: Key,
                                      seenAt: int, c: nat)
    requires Spaced(ticks, base) && t <= u < |ticks| && SeenAs(m, ticks, base, t, k, seenAt, c)
    requires forall i :: t < i <= u ==> !ObservedIn(ticks[i], k)
    ensures StoredAsDue(Run(m, ticks[..u + 1]), k, seenAt, c, u - t, LateCleaning(ticks, t, seenAt, c))
  {
    if t < u {
      StoredFrom(m, ticks, base, t, u - 1, k, seenAt, c);
      StoredOneMore(m, ticks, base, t, u, k, seenAt, c);
    }
  }

  /** A key stays stored for exactly its lifetime after the tick that last observed it. */
  lemma StoredUntil(m: Machine, ticks: seq<TickInput>, base: int, t: nat, u: nat, k: Key)
    returns (seenAt: int, c: nat)
    requires m.cleanCounter < CLEAN_THRESHOLD && Spaced(ticks, base)
    requires t <= u < |ticks| && ObservedIn(ticks[t], k)
    requires forall i :: t < i <= u ==> !ObservedIn(ticks[i], k)
    ensures SeenAs(m, ticks, base, t, k, seenAt, c)
    ensures StoredAsDue(Run(m, ticks[..u + 1]), k, seenAt, c, u - t, LateCleaning(ticks, t, seenAt, c))
  {
    seenAt, c := JustObserved(m, ticks, base, t, k);
    StoredFrom(m, ticks, base, t, u, k, seenAt, c);
  }

  /**
   A key that is never observed again stays stored through the nine ticks after its last observation, ten if each
   tick cleans at its start, and is gone by the twentieth, whatever the phase of the clean counter.
   */
  lemma EvictionIsBounded(m: Machine, ticks: seq<TickInput>, base: int, t: nat, u: nat, k: Key)
    requires m.cleanCounter < CLEAN_THRESHOLD && Spaced(ticks, base)
    requires t <= u < |ticks| && ObservedIn(ticks[t], k)
    requires forall i :: t < i <= u ==> !ObservedIn(ticks[i], k)
    ensures u < t + 10 ==> k in Run(m, ticks[..u + 1]).values
    ensures u < t + 11 && Punctual(ticks, base) ==> k in Run(m, ticks[..u + 1]).values
    ensures u >= t + 20 ==> k !in Run(m, ticks[..u + 1]).values
  {
    var seenAt, c := StoredUntil(m, ticks, base, t, u, k);
    if Punctual(ticks, base) && t + 10 < |ticks| {
      assert ticks[t + 10].now == TimeOf(base, t) + INACTIVE;
    }
  }

  // ----- A key that is seen often enough -----

  /** All counter values observed for the key. */
  function CountersSeen(ticks: seq<TickInput>, k: Key, ok: bool): seq<KeyEvent> {
    if ticks == [] then []
    else CountersSeen(ticks[..|ticks| - 1], k, ok) + CountersOf(Seen(ticks[|ticks| - 1]), k, ok)
  }

  /** Once it has been observed, the key is observed again within every `gap` ticks. */
  ghost predicate Steady(ticks: seq<TickInput>, k: Key, gap: nat) {
    forall t, u :: 0 <= t < u < |ticks| && ObservedIn(ticks[t], k) ==> SeenShortlyBefore(ticks, k, gap, u)
  }

  ghost predicate SeenShortlyBefore(ticks: seq<TickInput>, k: Key, gap: nat, u: nat)
    requires u < |ticks|
  {
    exists t :: u - gap <= t < u && 0 <= t && ObservedIn(ticks[t], k)
  }

  lemma {:induction false} StoredWasObserved(ticks: seq<TickInput>, u: nat, k: Key)
    requires u <= |ticks| && k in Run(Initial(), ticks[..u]).values
    ensures exists t :: 0 <= t < u && ObservedIn(ticks[t], k)
  {
    if u > 0 {
      RunOneMore(Initial(), ticks, u - 1);
      TickOnKey(Run(Initial(), ticks[..u - 1]), ticks[u - 1], k);
      if !ObservedIn(ticks[u - 1], k) {
        StoredWasObserved(ticks, u - 1, k);
      }
    }
  }

  predicate Fresh(m: Machine, k: Key, since: int) {
    k in m.values ==> m.values[k].lastActive >= since
  }

  lemma TickKeepsFresh(m: Machine, t: TickInput, k: Key, since: int)
    requires Fresh(m, k, since) || ObservedIn(t, k)
    requires forall o :: o in Seen(t) ==> o.at >= since
    ensures Fresh(Tick(m, t.now, t.poll), k, since)
  {
    TickOnKey(m, t, k);
  }

  lemma ReadingsAreLater(ticks: seq<TickInput>, base: int, t: nat, u: nat)
    requires Spaced(ticks, base) && t <= u < |ticks|
    ensures forall o :: o in Seen(ticks[u]) ==> o.at >= TimeOf(base, t)
  {
    assert TimeOf(base, u) >= TimeOf(base, t);
  }

  /** A stored time is no older than any tick that observed the key. */
  lemma {:induction false} StoredIsFresh(m: Machine, ticks: seq<TickInput>, base: int, t: nat, u: nat, k: Key)
    requires Spaced(ticks, base) && t < u <= |ticks| && ObservedIn(ticks[t], k)
    ensures Fresh(Run(m, ticks[..u]), k, TimeOf(base, t))
  {
    var last := u - 1;
    if t < last {
      StoredIsFresh(m, ticks, base, t, last, k);
    }
    ReadingsAreLater(ticks, base, t, last);
    RunOneMore(m, ticks, last);
    TickKeepsFresh(Run(m, ticks[..last]), ticks[last], k, TimeOf(base, t));
  }

  lemma FreshIsKept(m: Machine, k: Key, base: int, t: nat, u: nat, now: int)
    requires Fresh(m, k, TimeOf(base, t)) && t <= u && During(base, u, now)
    requires u - t < 10 || (u - t == 10 && now == TimeOf(base, u))
    ensures !EvictedAt(m, now, k)
  {
    assert TimeOf(base, t) + INACTIVE == TimeOf(base, t + 10);
  }

  lemma SteadyKeyIsKept(ticks: seq<TickInput>, base: int, k: Key, gap: nat, u: nat)
    requires Spaced(ticks, base) && Steady(ticks, k, gap)
    requires gap < 10 || (gap == 10 && Punctual(ticks, base))
    requires u < |ticks|
    ensures !EvictedAt(Run(Initial(), ticks[..u]), ticks[u].now, k)
  {
    if k in Run(Initial(), ticks[..u]).values {
      StoredWasObserved(ticks, u, k);
      assert SeenShortlyBefore(ticks, k, gap, u);
      var t :| u - gap <= t < u && 0 <= t && ObservedIn(ticks[t], k);
      StoredIsFresh(Initial(), ticks, base, t, u, k);
      FreshIsKept(Run(Initial(), ticks[..u]), k, base, t, u, ticks[u].now);
    }
  }

  lemma HistoryOneMore(ticks: seq<TickInput>, u: nat, k: Key, ok: bool)
    requires u < |ticks| && !EvictedAt(Run(Initial(), ticks[..u]), ticks[u].now, k)
    ensures History(Initial(), ticks[..u + 1], k, ok)
         == History(Initial(), ticks[..u], k, ok) + CountersOf(Seen(ticks[u]), k, ok)
  {
    assert ticks[..u + 1][..u] == ticks[..u];
    assert History(Initial(), ticks[..u], k, ok) + [] == History(Initial(), ticks[..u], k, ok);
  }

  lemma CountersSeenOneMore(ticks: seq<TickInput>, u: nat, k: Key, ok: bool)
    requires u < |ticks|
    ensures CountersSeen(ticks[..u + 1], k, ok) == CountersSeen(ticks[..u], k, ok) + CountersOf(Seen(ticks[u]), k, ok)
  {
    assert ticks[..u + 1][..u] == ticks[..u];
  }

  /** A key seen often enough is never forgotten, so its history is just what was observed. */
  lemma {:induction false} SteadyHistory(ticks: seq<TickInput>, base: int, k: Key, ok: bool, gap: nat, u: nat)
    requires Spaced(ticks, base) && Steady(ticks, k, gap)
    requires gap < 10 || (gap == 10 && Punctual(ticks, base))
    requires u <= |ticks|
    ensures History(Initial(), ticks[..u], k, ok) == CountersSeen(ticks[..u], k, ok)
  {
    if u > 0 {
      SteadyHistory(ticks, base, k, ok, gap, u - 1);
      SteadyKeyIsKept(ticks, base, k, gap, u - 1);
      HistoryOneMore(ticks, u - 1, k, ok);
      CountersSeenOneMore(ticks, u - 1, k, ok);
    }
  }

  lemma {:induction false} CountersOfUnbroken(os: seq<Obs>, k: Key, ok: bool)
    ensures Unbroken(CountersOf(os, k, ok))
  {
    if os != [] {
      CountersOfUnbroken(os[..|os| - 1], k, ok);
    }
  }

  lemma {:induction false} CountersSeenUnbroken(ticks: seq<TickInput>, k: Key, ok: bool)
    ensures Unbroken(CountersSeen(ticks, k, ok))
  {
    if ticks != [] {
      CountersSeenUnbroken(ticks[..|ticks| - 1], k, ok);
      CountersOfUnbroken(Seen(ticks[|ticks| - 1]), k, ok);
    }
  }

  /**
   From end to end: a key that Envoy shows at least every nine ticks, or every ten if each tick cleans at its start,
   with counters below 2^63, gets calls for its first counter and for every rise. That is the last counter exactly
   when the counter never fell.
   */
  lemma SteadyCallsTelescope(ticks: seq<TickInput>, base: int, k: Key, ok: bool, gap: nat, h: seq<KeyEvent>)
    requires Spaced(ticks, base) && Steady(ticks, k, gap)
    requires gap < 10 || (gap == 10 && Punctual(ticks, base))
    requires h == CountersSeen(ticks, k, ok) && h != [] && SmallCounters(h)
    ensures Unbroken(h)
    ensures var calls := Count(Run(Initial(), ticks).sent, k, ok);
            && calls == h[0].c + Rises(h)
            && (forall i :: 0 <= i < |h| ==> h[i].c <= calls)
            && (calls == h[|h| - 1].c <==> NeverFalls(h))
  {
    SteadyHistory(ticks, base, k, ok, gap, |ticks|);
    assert ticks[..|ticks|] == ticks;
    CountersSeenUnbroken(ticks, k, ok);
    SmallCountersFit(h);
    CallsTelescope(ticks, k, ok, h);
  }

  // ----- A key that is forgotten and returns -----

  /** The history without the marks of forgetting. */
  function Flat(h: seq<KeyEvent>): seq<KeyEvent> {
    if h == [] then []
    else
      var front := Flat(h[..|h| - 1]);
      if h[|h| - 1].Evicted? then front else front + [h[|h| - 1]]
  }

  /** The last counter of a history, or 0. */
  function LastCounter(h: seq<KeyEvent>): uint64 {
    if h == [] then 0
    else
      match h[|h| - 1]
      case Evicted => LastCounter(h[..|h| - 1])
      case Counter(c) => c
  }

  /** What is reported twice: at every return after forgetting, the smaller of the last and the new counter. */
  function ReportedTwice(h: seq<KeyEvent>): nat {
    if h == [] then 0
    else
      var front := h[..|h| - 1];
      match h[|h| - 1]
      case Evicted => ReportedTwice(front)
      case Counter(c) =>
        ReportedTwice(front)
        + if front != [] && front[|front| - 1].Evicted?
          then var last := LastCounter(front); if last < c then last else c
          else 0
  }

  lemma {:induction false} FlatShape(h: seq<KeyEvent>)
    ensures Unbroken(Flat(h))
    ensures if Flat(h) == [] then LastCounter(h) == 0 else Flat(h)[|Flat(h)| - 1] == Counter(LastCounter(h))
    ensures SmallCounters(Flat(h)) ==> SmallCounters(h)
  {
    if h != [] {
      var front := h[..|h| - 1];
      FlatShape(front);
      if SmallCounters(Flat(h)) {
        assert h[|h| - 1].Counter? ==> Flat(h)[|Flat(h)| - 1] == h[|h| - 1];
        assert forall i :: 0 <= i < |Flat(front)| ==> Flat(front)[i] == Flat(h)[i];
        forall i | 0 <= i < |h| && h[i].Counter? ensures h[i].c < 0x8000_0000_0000_0000 {
          assert i < |front| ==> front[i] == h[i];
        }
      }
    }
  }

  lemma TotalGrowthSnoc(h: seq<KeyEvent>, c: uint64)
    ensures TotalGrowth(h + [Counter(c)]) == TotalGrowth(h) + GrowthAfter(h, c)
  {
    assert (h + [Counter(c)])[..|h|] == h;
  }

  lemma {:induction false} GrowthWithReturns(h: seq<KeyEvent>)
    ensures TotalGrowth(h) == TotalGrowth(Flat(h)) + ReportedTwice(h)
  {
    if h != [] {
      var front := h[..|h| - 1];
      GrowthWithReturns(front);
      FlatShape(front);
      if h[|h| - 1].Counter? {
        TotalGrowthSnoc(Flat(front), h[|h| - 1].c);
      }
    }
  }

  lemma {:induction false} FlatConcat(a: seq<KeyEvent>, b: seq<KeyEvent>)
    ensures Flat(a + b) == Flat(a) + Flat(b)
  {
    if b == [] {
      assert a + b == a;
    } else {
      assert (a + b)[..|a + b| - 1] == a + b[..|b| - 1];
      FlatConcat(a, b[..|b| - 1]);
    }
  }

  lemma {:induction false} FlatUnbroken(h: seq<KeyEvent>)
    requires Unbroken(h)
    ensures Flat(h) == h
  {
    if h != [] {
      FlatUnbroken(h[..|h| - 1]);
    }
  }

  lemma FlatOneMore(h: seq<KeyEvent>, mark: seq<KeyEvent>, counters: seq<KeyEvent>)
    requires Flat(mark) == [] && Unbroken(counters)
    ensures Flat(h + mark + counters) == Flat(h) + counters
  {
    FlatConcat(h + mark, counters);
    FlatConcat(h, mark);
    FlatUnbroken(counters);
    assert Flat(h) + [] == Flat(h);
  }

  /** Apart from the marks, the history is just what was observed. */
  lemma {:induction false} FlatHistory(ticks: seq<TickInput>, k: Key, ok: bool)
    ensures Flat(History(Initial(), ticks, k, ok)) == CountersSeen(ticks, k, ok)
  {
    if ticks != [] {
      var front, last := ticks[..|ticks| - 1], ticks[|ticks| - 1];
      var mark := if EvictedAt(Run(Initial(), front), last.now, k) then [Evicted] else [];
      FlatHistory(front, k, ok);
      CountersOfUnbroken(Seen(last), k, ok);
      FlatOneMore(History(Initial(), front, k, ok), mark, CountersOf(Seen(last), k, ok));
    }
  }

  /**
   What forgetting costs, over every run: the calls for a key are its first counter and all rises, and once more the
   smaller of the last and the new counter at every return after it was forgotten. So they telescope exactly when no
   such return has anything to repeat.
   */
  lemma CallsWithReturns(ticks: seq<TickInput>, k: Key, ok: bool, seen: seq<KeyEvent>)
    requires seen == CountersSeen(ticks, k, ok) && seen != [] && SmallCounters(seen)
    ensures Unbroken(seen)
    ensures Count(Run(Initial(), ticks).sent, k, ok)
         == seen[0].c + Rises(seen) + ReportedTwice(History(Initial(), ticks, k, ok))
  {
    var h := History(Initial(), ticks, k, ok);
    CallsFollowHistory(ticks, k, ok);
    FlatHistory(ticks, k, ok);
    FlatShape(h);
    SmallCountersFit(h);
    CallsEqualGrowthIff(h);
    GrowthWithReturns(h);
    GrowthTelescopes(seen);
  }

  /** A key that returns with the counter it had is reported in full a second time. */
  lemma ReturningKeyIsReportedTwice(c: uint64)
    requires c < 0x8000_0000_0000_0000
    ensures CallsFor([Counter(c), Evicted, Counter(c)]) == 2 * c
  {
    CallsForSnoc([], Counter(c));
    CallsForSnoc([Counter(c)], Evicted);
    CallsForSnoc([Counter(c), Evicted], Counter(c));
    assert [] + [Counter(c)] == [Counter(c)];
    assert [Counter(c)] + [Evicted] == [Counter(c), Evicted];
    assert [Counter(c), Evicted] + [Counter(c)] == [Counter(c), Evicted, Counter(c)];
  }
}

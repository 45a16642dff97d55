/**
 The shutdown protocol of the bootstrap (`internal/bootstrap/agent.go` and `entry.go`): the component
 goroutines report errors on one buffered channel, whose single receiver stops after one error or signal.
 Every interleaving of the goroutines is a sequence of the steps below.
 */
module Shutdown {
  import opened Wrappers

  /** Which components are configured. */
  datatype Agent = Agent(debugServer: bool, dnsResolver: bool, mtlsAgent: bool, metricServer: bool, rlsSvr: bool)

  /** The capacity counts every send that can happen, except the second one of the mTLS agent. */
  predicate Sized(agent: Agent, capacity: nat) {
    capacity + Extra(agent) == Sum(Start(agent, 0))
  }

  method GetErrorChannel(agent: Agent) returns (capacity: nat)
    ensures Sized(agent, capacity)
  {
    var componentCount := 0;
    if agent.debugServer {
      componentCount := componentCount + 1;
    }
    if agent.dnsResolver {
      componentCount := componentCount + 2;
    }
    if agent.mtlsAgent {
      componentCount := componentCount + 1;
    }
    if agent.metricServer {
      componentCount := componentCount + 1;
    }
    if agent.rlsSvr {
      componentCount := componentCount + 1;
    }
    SendsAtStart(agent);
    return componentCount;
  }

  lemma SendsAtStart(agent: Agent)
    ensures Sum(Start(agent, 0)) ==
              (if agent.debugServer then 1 else 0) + (if agent.dnsResolver then 2 else 0)
              + (if agent.mtlsAgent then 2 else 0) + (if agent.metricServer then 1 else 0)
              + (if agent.rlsSvr then 1 else 0)
  {
    assert Budget(Present(agent.debugServer), 1, 0) == if agent.debugServer then 1 else 0;
    assert Budget(Present(agent.dnsResolver), 2, 0) == if agent.dnsResolver then 2 else 0;
    assert Budget(Present(agent.mtlsAgent), 1, 1) == if agent.mtlsAgent then 2 else 0;
    assert Budget(Present(agent.metricServer), 1, 0) == if agent.metricServer then 1 else 0;
    assert Budget(Present(agent.rlsSvr), 1, 0) == if agent.rlsSvr then 1 else 0;
  }

  /** Where a component's own goroutine is. */
  datatype Pc =
    | Absent      // not configured
    | Configured  // not started yet
    | Running     // started: has neither failed nor reached its waiting point
    | Rotating    // the mTLS agent after its listener is up, inside the rotator
    | Failing     // about to send the error of its own that ends it
    | Finished    // waiting for cancellation, or returned: sends nothing any more

  /** Where a server goroutine started by a component is. */
  datatype ServePc =
    | NotStarted
    | Serving
    | Returning   // its Serve call has returned and its result is about to be sent
    | Sent

  datatype MainPc =
    | Starting(next: nat)  // inside runServices, about to start component `next`
    | Looping              // inside the select of runMainLoop
    | StoppedOnError       // has received one error and cancelled
    | StoppedOnSignal      // has caught a signal and cancelled

  /** `buffered` errors lie in the channel; `sent` counts all sends completed. */
  datatype State = State(
    debug: Pc, debugServe: ServePc,
    dns: Pc, dnsUdp: ServePc, dnsTcp: ServePc,
    mtls: Pc, mtlsServe: ServePc,
    metrics: Pc,
    rls: Pc, rlsServe: ServePc,
    main: MainPc, capacity: nat, buffered: nat, sent: nat)

  function Cancelled(s: State): bool {
    s.main.StoppedOnError? || s.main.StoppedOnSignal?
  }

  function Present(configured: bool): Pc {
    if configured then Configured else Absent
  }

  function Start(agent: Agent, capacity: nat): State {
    State(Present(agent.debugServer), NotStarted,
          Present(agent.dnsResolver), NotStarted, NotStarted,
          Present(agent.mtlsAgent), NotStarted,
          Present(agent.metricServer),
          Present(agent.rlsSvr), NotStarted,
          Starting(0), capacity, 0, 0)
  }

  // ----- Steps -----

  datatype Component = Debug | Dns | Mtls | Metrics | Rls

  datatype Server = DebugServe | DnsUdp | DnsTcp | MtlsServe | RlsServe

  datatype Step =
    | StartComponent             // main starts the next component, if it is configured
    | Fail(c: Component)         // the component meets an error before it serves
    | Serve(c: Component)        // the component is up and starts its server goroutines
    | RotatorReturns             // the mTLS rotator returns its error, which only cancellation causes
    | ServerReturns(v: Server)   // a server's Serve call returns
    | SendFailure(c: Component)  // a component's own send completes
    | SendResult(v: Server)      // a server goroutine's send completes
    | ReceiveError               // main takes an error from the channel, cancels and returns
    | CatchSignal                // main catches a signal, cancels and returns

  function PcOf(s: State, c: Component): Pc {
    match c
    case Debug => s.debug
    case Dns => s.dns
    case Mtls => s.mtls
    case Metrics => s.metrics
    case Rls => s.rls
  }

  function SetPc(s: State, c: Component, pc: Pc): State {
    match c
    case Debug => s.(debug := pc)
    case Dns => s.(dns := pc)
    case Mtls => s.(mtls := pc)
    case Metrics => s.(metrics := pc)
    case Rls => s.(rls := pc)
  }

  function ServeOf(s: State, v: Server): ServePc {
    match v
    case DebugServe => s.debugServe
    case DnsUdp => s.dnsUdp
    case DnsTcp => s.dnsTcp
    case MtlsServe => s.mtlsServe
    case RlsServe => s.rlsServe
  }

  function SetServe(s: State, v: Server, pc: ServePc): State {
    match v
    case DebugServe => s.(debugServe := pc)
    case DnsUdp => s.(dnsUdp := pc)
    case DnsTcp => s.(dnsTcp := pc)
    case MtlsServe => s.(mtlsServe := pc)
    case RlsServe => s.(rlsServe := pc)
  }

  /** The order in which runServices starts the components. */
  function Nth(i: nat): Component
    requires i < 5
  {
    if i == 0 then Debug else if i == 1 then Dns else if i == 2 then Mtls else if i == 3 then Metrics else Rls
  }

  /** The DNS resolver has no error path of its own before it serves. */
  predicate CanFail(c: Component) {
    c != Dns
  }

  predicate Enabled(s: State, e: Step) {
    match e
    case StartComponent => s.main.Starting?
    case Fail(c) => PcOf(s, c).Running? && CanFail(c)
    case Serve(c) => PcOf(s, c).Running?
    case RotatorReturns => s.mtls.Rotating? && Cancelled(s)
    case ServerReturns(v) => ServeOf(s, v).Serving?
    case SendFailure(c) => PcOf(s, c).Failing? && s.buffered < s.capacity
    case SendResult(v) => ServeOf(s, v).Returning? && s.buffered < s.capacity
    case ReceiveError => s.main.Looping? && s.buffered > 0
    case CatchSignal => s.main.Looping?
  }

  function Served(s: State, c: Component): State {
    match c
    case Debug => s.(debug := Finished, debugServe := Serving)
    case Dns => s.(dns := Finished, dnsUdp := Serving, dnsTcp := Serving)
    case Mtls => s.(mtls := Rotating, mtlsServe := Serving)
    case Metrics => s.(metrics := Finished)
    case Rls => s.(rls := Finished, rlsServe := Serving)
  }

  function Apply(s: State, e: Step): State
    requires Enabled(s, e)
  {
    match e
    case StartComponent =>
      if s.main.next >= 5 then s.(main := Looping)
      else
        var c := Nth(s.main.next);
        var started := if PcOf(s, c).Configured? then SetPc(s, c, Running) else s;
        started.(main := Starting(s.main.next + 1))
    case Fail(c) => SetPc(s, c, Failing)
    case Serve(c) => Served(s, c)
    case RotatorReturns => s.(mtls := Failing)
    case ServerReturns(v) => SetServe(s, v, Returning)
    case SendFailure(c) => SetPc(s, c, Finished).(buffered := s.buffered + 1, sent := s.sent + 1)
    case SendResult(v) => SetServe(s, v, Sent).(buffered := s.buffered + 1, sent := s.sent + 1)
    case ReceiveError => s.(main := StoppedOnError, buffered := s.buffered - 1)
    case CatchSignal => s.(main := StoppedOnSignal)
  }

  /** The state that these steps lead to from `s`, if each of them is enabled in its turn. */
  function RunFrom(s: State, steps: seq<Step>): Option<State> {
    if steps == [] then Some(s)
    else
      var before := RunFrom(s, steps[..|steps| - 1]);
      var e := steps[|steps| - 1];
      if before.Some? && Enabled(before.value, e) then Some(Apply(before.value, e)) else None
  }

  function Run(agent: Agent, capacity: nat, steps: seq<Step>): Option<State> {
    RunFrom(Start(agent, capacity), steps)
  }

  // ----- How many sends are still to come -----

  /** The sends a component and its server goroutines can still make, `serves` of them by the servers. */
  function Budget(pc: Pc, serves: nat, rotates: nat): nat {
    match pc
    case Absent => 0
    case Configured => serves + rotates
    case Running => serves + rotates
    case Rotating => rotates
    case Failing => 1
    case Finished => 0
  }

  function ServeBudget(pc: ServePc): nat {
    if pc.Serving? || pc.Returning? then 1 else 0
  }

  function Sum(s: State): nat {
    Budget(s.debug, 1, 0) + ServeBudget(s.debugServe)
    + Budget(s.dns, 2, 0) + ServeBudget(s.dnsUdp) + ServeBudget(s.dnsTcp)
    + Budget(s.mtls, 1, 1) + ServeBudget(s.mtlsServe)
    + Budget(s.metrics, 1, 0)
    + Budget(s.rls, 1, 0) + ServeBudget(s.rlsServe)
  }

  /** Only the mTLS agent can send twice: its server's result and its rotator's error. */
  function Extra(agent: Agent): nat {
    if agent.mtlsAgent then 1 else 0
  }

  /** Of the mTLS agent's sends, one can come only after cancellation. */
  function Held(s: State): nat {
    if s.mtls.Configured? || s.mtls.Running? || s.mtls.Rotating? then 1 else 0
  }

  function Received(s: State): nat {
    if s.main.StoppedOnError? then 1 else 0
  }

  ghost predicate Invariant(s: State, agent: Agent) {
    && s.buffered <= s.capacity
    && s.sent == s.buffered + Received(s)
    && s.sent + Sum(s) <= s.capacity + Extra(agent)
    && (!Cancelled(s) ==> s.sent + Sum(s) <= s.capacity + Held(s))
    && (s.mtls.Absent? <==> !agent.mtlsAgent)
  }

  function BudgetOf(c: Component, pc: Pc): nat {
    match c
    case Dns => Budget(pc, 2, 0)
    case Mtls => Budget(pc, 1, 1)
    case _ => Budget(pc, 1, 0)
  }

  lemma SumAfterSetPc(s: State, c: Component, pc: Pc)
    ensures Sum(SetPc(s, c, pc)) + BudgetOf(c, PcOf(s, c)) == Sum(s) + BudgetOf(c, pc)
  {
  }

  lemma SumAfterSetServe(s: State, v: Server, pc: ServePc)
    ensures Sum(SetServe(s, v, pc)) + ServeBudget(ServeOf(s, v)) == Sum(s) + ServeBudget(pc)
  {
  }

  lemma SumAfterServed(s: State, c: Component)
    requires PcOf(s, c).Running?
    ensures Sum(Served(s, c)) <= Sum(s)
  {
  }

  lemma SetRunningKeeps(s: State, c: Component, agent: Agent)
    requires Invariant(s, agent) && PcOf(s, c).Configured?
    ensures Invariant(SetPc(s, c, Running), agent)
  {
    SumAfterSetPc(s, c, Running);
  }

  lemma NewMainKeeps(s: State, main: MainPc, agent: Agent)
    requires Invariant(s, agent) && !Cancelled(s) && (main.Starting? || main.Looping?)
    ensures Invariant(s.(main := main), agent)
  {
    assert Sum(s.(main := main)) == Sum(s);
  }

  lemma StartKeeps(s: State, agent: Agent)
    requires Invariant(s, agent) && Enabled(s, StartComponent)
    ensures Invariant(Apply(s, StartComponent), agent)
  {
    if s.main.next < 5 && PcOf(s, Nth(s.main.next)).Configured? {
      var c := Nth(s.main.next);
      SetRunningKeeps(s, c, agent);
      NewMainKeeps(SetPc(s, c, Running), Starting(s.main.next + 1), agent);
    } else {
      NewMainKeeps(s, Apply(s, StartComponent).main, agent);
    }
  }

  lemma FailKeeps(s: State, c: Component, agent: Agent)
    requires Invariant(s, agent) && Enabled(s, Fail(c))
    ensures Invariant(Apply(s, Fail(c)), agent)
  {
    SumAfterSetPc(s, c, Failing);
  }

  lemma ServeKeeps(s: State, c: Component, agent: Agent)
    requires Invariant(s, agent) && Enabled(s, Serve(c))
    ensures Invariant(Apply(s, Serve(c)), agent)
  {
    SumAfterServed(s, c);
  }

  lemma RotatorKeeps(s: State, agent: Agent)
    requires Invariant(s, agent) && Enabled(s, RotatorReturns)
    ensures Invariant(Apply(s, RotatorReturns), agent)
  {
    SumAfterSetPc(s, Mtls, Failing);
  }

  lemma ServerReturnsKeeps(s: State, v: Server, agent: Agent)
    requires Invariant(s, agent) && Enabled(s, ServerReturns(v))
    ensures Invariant(Apply(s, ServerReturns(v)), agent)
  {
    SumAfterSetServe(s, v, Returning);
  }

  lemma SendFailureKeeps(s: State, c: Component, agent: Agent)
    requires Invariant(s, agent) && Enabled(s, SendFailure(c))
    ensures Invariant(Apply(s, SendFailure(c)), agent)
  {
    SumAfterSetPc(s, c, Finished);
  }

  lemma SendResultKeeps(s: State, v: Server, agent: Agent)
    requires Invariant(s, agent) && Enabled(s, SendResult(v))
    ensures Invariant(Apply(s, SendResult(v)), agent)
  {
    SumAfterSetServe(s, v, Sent);
  }

  lemma MainKeeps(s: State, e: Step, agent: Agent)
    requires e == ReceiveError || e == CatchSignal
    requires Invariant(s, agent) && Enabled(s, e)
    ensures Invariant(Apply(s, e), agent)
  {
    assert Sum(Apply(s, e)) == Sum(s);
  }

  lemma CapacityIsFixed(s: State, e: Step)
    requires Enabled(s, e)
    ensures Apply(s, e).capacity == s.capacity
  {
  }

  lemma StepKeepsInvariant(s: State, e: Step, agent: Agent)
    requires Invariant(s, agent) && Enabled(s, e)
    ensures Invariant(Apply(s, e), agent)
  {
    match e
    case StartComponent => StartKeeps(s, agent);
    case Fail(c) => FailKeeps(s, c, agent);
    case Serve(c) => ServeKeeps(s, c, agent);
    case RotatorReturns => RotatorKeeps(s, agent);
    case ServerReturns(v) => ServerReturnsKeeps(s, v, agent);
    case SendFailure(c) => SendFailureKeeps(s, c, agent);
    case SendResult(v) => SendResultKeeps(s, v, agent);
    case ReceiveError => MainKeeps(s, e, agent);
    case CatchSignal => MainKeeps(s, e, agent);
  }

  lemma StartInvariant(agent: Agent, capacity: nat)
    requires Sized(agent, capacity)
    ensures Invariant(Start(agent, capacity), agent)
  {
  }

  lemma RunLast(s: State, steps: seq<Step>) returns (before: State)
    requires steps != [] && RunFrom(s, steps).Some?
    ensures RunFrom(s, steps[..|steps| - 1]) == Some(before)
    ensures Enabled(before, steps[|steps| - 1])
    ensures RunFrom(s, steps).value == Apply(before, steps[|steps| - 1])
  {
    before := RunFrom(s, steps[..|steps| - 1]).value;
  }

  lemma {:induction false} RunKeepsInvariant(agent: Agent, capacity: nat, steps: seq<Step>)
    requires Sized(agent, capacity)
    requires Run(agent, capacity, steps).Some?
    ensures Invariant(Run(agent, capacity, steps).value, agent)
    ensures Run(agent, capacity, steps).value.capacity == capacity
  {
    if steps == [] {
      StartInvariant(agent, capacity);
    } else {
      var before := RunLast(Start(agent, capacity), steps);
      RunKeepsInvariant(agent, capacity, steps[..|steps| - 1]);
      StepKeepsInvariant(before, steps[|steps| - 1], agent);
      CapacityIsFixed(before, steps[|steps| - 1]);
    }
  }

  // ----- Blocked senders -----

  /** A goroutine that may be about to send: a component itself or one of the servers. */
  datatype Sender = Own(c: Component) | Result(v: Server)

  predicate Sending(s: State, x: Sender) {
    match x
    case Own(c) => PcOf(s, c).Failing?
    case Result(v) => ServeOf(s, v).Returning?
  }

  function SendOf(x: Sender): Step {
    match x
    case Own(c) => SendFailure(c)
    case Result(v) => SendResult(v)
  }

  /** A sender whose send cannot complete, because the buffer is full. */
  predicate Blocked(s: State, x: Sender) {
    Sending(s, x) && !Enabled(s, SendOf(x))
  }

  lemma SendersAreBudgeted(s: State, x: Sender)
    requires Sending(s, x)
    ensures Sum(s) >= 1 + if x == Own(Mtls) then 0 else Held(s)
  {
  }

  /** The state once this sender is taken out of the picture. */
  function Without(s: State, x: Sender): State {
    match x
    case Own(c) => SetPc(s, c, Finished)
    case Result(v) => SetServe(s, v, Sent)
  }

  lemma WithoutFailure(s: State, c: Component)
    requires Sending(s, Own(c))
    ensures Sum(SetPc(s, c, Finished)) + 1 == Sum(s)
  {
    SumAfterSetPc(s, c, Finished);
  }

  lemma WithoutResult(s: State, v: Server)
    requires Sending(s, Result(v))
    ensures Sum(SetServe(s, v, Sent)) + 1 == Sum(s)
  {
    SumAfterSetServe(s, v, Sent);
  }

  lemma WithoutOneSender(s: State, x: Sender)
    requires Sending(s, x)
    ensures Sum(Without(s, x)) + 1 == Sum(s)
  {
    match x
    case Own(c) => WithoutFailure(s, c);
    case Result(v) => WithoutResult(s, v);
  }

  lemma OtherStillSending(s: State, x: Sender, y: Sender)
    requires Sending(s, y) && x != y
    ensures Sending(Without(s, x), y)
  {
  }

  lemma TwoSendersAreBudgeted(s: State, x: Sender, y: Sender)
    requires Sending(s, x) && Sending(s, y) && x != y
    ensures Sum(s) >= 2
  {
    WithoutOneSender(s, x);
    OtherStillSending(s, x, y);
    WithoutOneSender(Without(s, x), y);
  }

  /** Over every run no more errors are sent than the channel holds, but for the mTLS agent's second one. */
  lemma SendsAreBounded(agent: Agent, capacity: nat, steps: seq<Step>)
    requires Sized(agent, capacity) && Run(agent, capacity, steps).Some?
    ensures Run(agent, capacity, steps).value.sent <= capacity + Extra(agent)
  {
    RunKeepsInvariant(agent, capacity, steps);
  }

  lemma BlockedMeans(s: State, agent: Agent, x: Sender)
    requires Invariant(s, agent) && Blocked(s, x)
    ensures agent.mtlsAgent && s.main.StoppedOnSignal? && Sum(s) <= 1
  {
    SendersAreBudgeted(s, x);
  }

  /**
   In every run, no sender is ever blocked before main stops or after it has stopped on an error. After a
   signal at most one sender is, and none without the mTLS agent.
   */
  lemma SendersDoNotBlock(agent: Agent, capacity: nat, steps: seq<Step>, x: Sender)
    requires Sized(agent, capacity) && Run(agent, capacity, steps).Some?
    ensures var s := Run(agent, capacity, steps).value;
            Blocked(s, x) ==>
              agent.mtlsAgent && s.main.StoppedOnSignal? && forall y :: Blocked(s, y) ==> y == x
  {
    RunKeepsInvariant(agent, capacity, steps);
    var s := Run(agent, capacity, steps).value;
    if Blocked(s, x) {
      BlockedMeans(s, agent, x);
      forall y | Blocked(s, y) ensures y == x {
        if y != x {
          TwoSendersAreBudgeted(s, x, y);
        }
      }
    }
  }

  predicate Unserved(pc: Pc) {
    pc.Absent? || pc.Configured? || pc.Running?
  }

  /** A component's server goroutines do not exist before the component serves. */
  predicate WellFormed(s: State) {
    && (Unserved(s.debug) ==> s.debugServe.NotStarted?)
    && (Unserved(s.dns) ==> s.dnsUdp.NotStarted? && s.dnsTcp.NotStarted?)
    && (Unserved(s.mtls) ==> s.mtlsServe.NotStarted?)
    && (Unserved(s.rls) ==> s.rlsServe.NotStarted?)
  }

  lemma ServeKeepsWellFormed(s: State, c: Component)
    requires WellFormed(s) && PcOf(s, c).Running?
    ensures WellFormed(Served(s, c))
  {
  }

  lemma StartKeepsWellFormed(s: State)
    requires WellFormed(s) && s.main.Starting?
    ensures WellFormed(Apply(s, StartComponent))
  {
  }

  lemma StepKeepsWellFormed(s: State, e: Step)
    requires WellFormed(s) && Enabled(s, e)
    ensures WellFormed(Apply(s, e))
  {
    match e
    case Serve(c) => ServeKeepsWellFormed(s, c);
    case StartComponent => StartKeepsWellFormed(s);
    case _ =>
  }

  lemma {:induction false} RunKeepsWellFormed(s: State, steps: seq<Step>)
    requires WellFormed(s) && RunFrom(s, steps).Some?
    ensures WellFormed(RunFrom(s, steps).value)
  {
    if steps != [] {
      var before := RunLast(s, steps);
      RunKeepsWellFormed(s, steps[..|steps| - 1]);
      StepKeepsWellFormed(before, steps[|steps| - 1]);
    }
  }

  lemma StepKeepsBlocked(s: State, e: Step, x: Sender)
    requires WellFormed(s)
    requires s.main.StoppedOnSignal? && Blocked(s, x) && Enabled(s, e)
    ensures Apply(s, e).main.StoppedOnSignal? && Blocked(Apply(s, e), x)
  {
  }

  lemma {:induction false} ContinuationKeepsBlocked(s: State, more: seq<Step>, x: Sender)
    requires WellFormed(s) && s.main.StoppedOnSignal? && Blocked(s, x)
    requires RunFrom(s, more).Some?
    ensures Blocked(RunFrom(s, more).value, x) && RunFrom(s, more).value.main.StoppedOnSignal?
  {
    if more != [] {
      var before := RunLast(s, more);
      ContinuationKeepsBlocked(s, more[..|more| - 1], x);
      RunKeepsWellFormed(s, more[..|more| - 1]);
      StepKeepsBlocked(before, more[|more| - 1], x);
    }
  }

  /** A sender blocked after a signal stays blocked in every continuation: nothing receives any more. */
  lemma BlockedAfterSignalForever(agent: Agent, capacity: nat, steps: seq<Step>, more: seq<Step>, x: Sender)
    requires Run(agent, capacity, steps).Some?
    requires Run(agent, capacity, steps).value.main.StoppedOnSignal? && Blocked(Run(agent, capacity, steps).value, x)
    requires RunFrom(Run(agent, capacity, steps).value, more).Some?
    ensures Blocked(RunFrom(Run(agent, capacity, steps).value, more).value, x)
  {
    RunKeepsWellFormed(Start(agent, capacity), steps);
    ContinuationKeepsBlocked(Run(agent, capacity, steps).value, more, x);
  }

  lemma RunSnoc(agent: Agent, capacity: nat, steps: seq<Step>, e: Step)
    ensures var before := Run(agent, capacity, steps);
            Run(agent, capacity, steps + [e])
            == if before.Some? && Enabled(before.value, e) then Some(Apply(before.value, e)) else None
  {
    assert (steps + [e])[..|steps|] == steps;
  }

  // ----- The mTLS agent's second send can always be stranded -----

  function Up(configured: bool): Pc {
    if configured then Running else Absent
  }

  /** Main has started the first `i` components. */
  function FirstStarted(agent: Agent, capacity: nat, i: nat): State {
    Start(agent, capacity).(
      debug := if i > 0 then Up(agent.debugServer) else Present(agent.debugServer),
      dns := if i > 1 then Up(agent.dnsResolver) else Present(agent.dnsResolver),
      mtls := if i > 2 then Up(agent.mtlsAgent) else Present(agent.mtlsAgent),
      metrics := if i > 3 then Up(agent.metricServer) else Present(agent.metricServer),
      rls := if i > 4 then Up(agent.rlsSvr) else Present(agent.rlsSvr),
      main := if i > 5 then Looping else Starting(i))
  }

  lemma AllStart(agent: Agent, capacity: nat) returns (steps: seq<Step>)
    ensures Run(agent, capacity, steps) == Some(FirstStarted(agent, capacity, 6))
  {
    steps := [];
    var i := 0;
    while i < 6
      invariant 0 <= i <= 6
      invariant Run(agent, capacity, steps) == Some(FirstStarted(agent, capacity, i))
    {
      RunSnoc(agent, capacity, steps, StartComponent);
      steps, i := steps + [StartComponent], i + 1;
    }
  }

  /** The component, if it is configured, has failed and its error lies in the channel. */
  function Failed(s: State, c: Component, configured: bool): State {
    if configured then SetPc(s, c, Finished).(buffered := s.buffered + 1, sent := s.sent + 1) else s
  }

  lemma ComponentFails(agent: Agent, capacity: nat, before: seq<Step>, s: State, c: Component, configured: bool)
    returns (steps: seq<Step>)
    requires Run(agent, capacity, before) == Some(s)
    requires CanFail(c) && PcOf(s, c) == Up(configured)
    requires configured ==> s.buffered < s.capacity
    ensures Run(agent, capacity, steps) == Some(Failed(s, c, configured))
  {
    steps := before;
    if configured {
      RunSnoc(agent, capacity, steps, Fail(c));
      steps := steps + [Fail(c)];
      RunSnoc(agent, capacity, steps, SendFailure(c));
      steps := steps + [SendFailure(c)];
    }
  }

  lemma ServerEnds(agent: Agent, capacity: nat, before: seq<Step>, s: State, v: Server) returns (steps: seq<Step>)
    requires Run(agent, capacity, before) == Some(s)
    requires ServeOf(s, v).Serving? && s.buffered < s.capacity
    ensures Run(agent, capacity, steps)
         == Some(SetServe(s, v, Sent).(buffered := s.buffered + 1, sent := s.sent + 1))
  {
    RunSnoc(agent, capacity, before, ServerReturns(v));
    steps := before + [ServerReturns(v)];
    RunSnoc(agent, capacity, steps, SendResult(v));
    steps := steps + [SendResult(v)];
  }

  /** The DNS resolver, if it is configured, has served and the results of both servers lie in the channel. */
  function DnsEnded(s: State, configured: bool): State {
    if configured
    then s.(dns := Finished, dnsUdp := Sent, dnsTcp := Sent, buffered := s.buffered + 2, sent := s.sent + 2)
    else s
  }

  lemma DnsServesAndEnds(agent: Agent, capacity: nat, before: seq<Step>, s: State, configured: bool)
    returns (steps: seq<Step>)
    requires Run(agent, capacity, before) == Some(s)
    requires s.dns == Up(configured)
    requires configured ==> s.buffered + 1 < s.capacity
    ensures Run(agent, capacity, steps) == Some(DnsEnded(s, configured))
  {
    steps := before;
    if configured {
      RunSnoc(agent, capacity, steps, Serve(Dns));
      steps := steps + [Serve(Dns)];
      var t := Served(s, Dns);
      steps := ServerEnds(agent, capacity, steps, t, DnsUdp);
      t := SetServe(t, DnsUdp, Sent).(buffered := s.buffered + 1, sent := s.sent + 1);
      steps := ServerEnds(agent, capacity, steps, t, DnsTcp);
    }
  }

  /** Every other component has sent all it can, and the mTLS agent runs. */
  function OthersDone(agent: Agent, capacity: nat): State {
    var s := Failed(FirstStarted(agent, capacity, 6), Debug, agent.debugServer);
    DnsEnded(Failed(Failed(s, Metrics, agent.metricServer), Rls, agent.rlsSvr), agent.dnsResolver)
  }

  /** One place in the channel is left for the two sends of the mTLS agent. */
  lemma OnePlaceLeft(agent: Agent, capacity: nat)
    requires agent.mtlsAgent && Sized(agent, capacity)
    ensures OthersDone(agent, capacity).buffered + 1 == capacity
  {
    SendsAtStart(agent);
  }

  lemma OthersSend(agent: Agent, capacity: nat) returns (steps: seq<Step>)
    requires agent.mtlsAgent && Sized(agent, capacity)
    ensures Run(agent, capacity, steps) == Some(OthersDone(agent, capacity))
  {
    OnePlaceLeft(agent, capacity);
    steps := AllStart(agent, capacity);
    var s := FirstStarted(agent, capacity, 6);
    steps := ComponentFails(agent, capacity, steps, s, Debug, agent.debugServer);
    s := Failed(s, Debug, agent.debugServer);
    steps := ComponentFails(agent, capacity, steps, s, Metrics, agent.metricServer);
    s := Failed(s, Metrics, agent.metricServer);
    steps := ComponentFails(agent, capacity, steps, s, Rls, agent.rlsSvr);
    s := Failed(s, Rls, agent.rlsSvr);
    steps := DnsServesAndEnds(agent, capacity, steps, s, agent.dnsResolver);
  }

  /** With one place left, the agent's server takes it, and after a signal the rotator finds none. */
  lemma RotatorIsStranded(agent: Agent, capacity: nat, before: seq<Step>, s: State) returns (steps: seq<Step>)
    requires Run(agent, capacity, before) == Some(s)
    requires s.mtls.Running? && s.main.Looping? && s.buffered + 1 == s.capacity
    ensures Strands(agent, capacity, steps, Own(Mtls))
    ensures Run(agent, capacity, steps).value.main.StoppedOnSignal?
  {
    RunSnoc(agent, capacity, before, Serve(Mtls));
    steps := ServerEnds(agent, capacity, before + [Serve(Mtls)], Served(s, Mtls), MtlsServe);
    RunSnoc(agent, capacity, steps, CatchSignal);
    steps := steps + [CatchSignal];
    RunSnoc(agent, capacity, steps, RotatorReturns);
    steps := steps + [RotatorReturns];
  }

  /** A run that ends with this sender blocked. */
  ghost predicate Strands(agent: Agent, capacity: nat, steps: seq<Step>, x: Sender) {
    Run(agent, capacity, steps).Some? && Blocked(Run(agent, capacity, steps).value, x)
  }

  /**
   The exception happens in every configuration with the mTLS agent: the other components and the agent's own server
   fill the channel, a signal arrives, and the rotator's error is never received.
   */
  lemma SignalCanStrandTheRotator(agent: Agent, capacity: nat) returns (steps: seq<Step>)
    requires agent.mtlsAgent && Sized(agent, capacity)
    ensures Strands(agent, capacity, steps, Own(Mtls))
    ensures Run(agent, capacity, steps).value.main.StoppedOnSignal?
  {
    OnePlaceLeft(agent, capacity);
    steps := OthersSend(agent, capacity);
    steps := RotatorIsStranded(agent, capacity, steps, OthersDone(agent, capacity));
  }

  /** Some run leaves a sender blocked exactly when the mTLS agent is configured. */
  lemma StrandsIffMtls(agent: Agent, capacity: nat)
    requires Sized(agent, capacity)
    ensures (exists steps, x :: Strands(agent, capacity, steps, x)) <==> agent.mtlsAgent
  {
    forall steps, x | Strands(agent, capacity, steps, x) ensures agent.mtlsAgent {
      SendersDoNotBlock(agent, capacity, steps, x);
    }
    if agent.mtlsAgent {
      var steps := SignalCanStrandTheRotator(agent, capacity);
    }
  }

  // ----- Errors and signals stop main -----

  /**
   Main is stopped by the first error, in every run: while it loops, whoever is about to send can complete the send,
   and once an error lies in the channel main can take it, which cancels and ends the loop. A signal always can.
   */
  lemma FirstErrorStopsMain(agent: Agent, capacity: nat, steps: seq<Step>, x: Sender)
    requires Sized(agent, capacity) && Run(agent, capacity, steps).Some?
    requires Run(agent, capacity, steps).value.main.Looping?
    ensures var s := Run(agent, capacity, steps).value;
            && (Sending(s, x) ==>
                 && Run(agent, capacity, steps + [SendOf(x)] + [ReceiveError]).Some?
                 && Run(agent, capacity, steps + [SendOf(x)] + [ReceiveError]).value.main == StoppedOnError)
            && (s.buffered > 0 ==>
                 && Run(agent, capacity, steps + [ReceiveError]).Some?
                 && Run(agent, capacity, steps + [ReceiveError]).value
                    == s.(main := StoppedOnError, buffered := s.buffered - 1))
            && Run(agent, capacity, steps + [CatchSignal]) == Some(s.(main := StoppedOnSignal))
  {
    SendersDoNotBlock(agent, capacity, steps, x);
    RunSnoc(agent, capacity, steps, SendOf(x));
    RunSnoc(agent, capacity, steps + [SendOf(x)], ReceiveError);
    RunSnoc(agent, capacity, steps, ReceiveError);
    RunSnoc(agent, capacity, steps, CatchSignal);
  }

  // ----- Every send has its cause -----

  /** The component that starts this server. */
  function OwnerOf(v: Server): Component {
    match v
    case DebugServe => Debug
    case DnsUdp => Dns
    case DnsTcp => Dns
    case MtlsServe => Mtls
    case RlsServe => Rls
  }

  /** What the places of a component tell about the steps taken so far. */
  predicate ComponentCaused(s: State, steps: seq<Step>, c: Component) {
    && (PcOf(s, c) in {Absent, Configured, Running} ==>
         Serve(c) !in steps && Fail(c) !in steps && SendFailure(c) !in steps)
    && (PcOf(s, c).Failing? ==> FailureCaused(steps, c))
    && (PcOf(s, c).Rotating? ==> c == Mtls && Serve(c) in steps && Fail(c) !in steps && SendFailure(c) !in steps)
    && (SendFailure(c) in steps ==> PcOf(s, c).Finished? && FailureCaused(steps, c))
    && (Serve(c) in steps && c != Mtls ==> PcOf(s, c).Finished? && Fail(c) !in steps && SendFailure(c) !in steps)
  }

  /** A component fails before it serves, which the DNS resolver cannot; after it serves only the rotator can end. */
  predicate FailureCaused(steps: seq<Step>, c: Component) {
    (c != Dns && Fail(c) in steps) || (c == Mtls && RotatorReturns in steps)
  }

  predicate ServerCaused(s: State, steps: seq<Step>, v: Server) {
    && (ServeOf(s, v) != NotStarted ==> Serve(OwnerOf(v)) in steps)
    && (ServeOf(s, v) in {Returning, Sent} ==> ServerReturns(v) in steps)
    && (SendResult(v) in steps ==> ServeOf(s, v) == Sent)
  }

  predicate MainCaused(s: State, steps: seq<Step>) {
    && (Cancelled(s) <==> ReceiveError in steps || CatchSignal in steps)
    && (RotatorReturns in steps ==> Cancelled(s) && Serve(Mtls) in steps)
  }

  lemma StepKeepsComponentCaused(s: State, steps: seq<Step>, e: Step, c: Component)
    requires ComponentCaused(s, steps, c) && Enabled(s, e)
    ensures ComponentCaused(Apply(s, e), steps + [e], c)
  {
  }

  lemma StepKeepsServerCaused(s: State, steps: seq<Step>, e: Step, v: Server)
    requires ServerCaused(s, steps, v) && Enabled(s, e)
    requires WellFormed(s)
    ensures ServerCaused(Apply(s, e), steps + [e], v)
  {
    match e
    case Serve(c) => ServeKeepsServerCaused(s, steps, c, v);
    case StartComponent => assert ServeOf(Apply(s, e), v) == ServeOf(s, v);
    case _ =>
  }

  lemma ServeKeepsServerCaused(s: State, steps: seq<Step>, c: Component, v: Server)
    requires ServerCaused(s, steps, v) && WellFormed(s) && PcOf(s, c).Running?
    ensures ServerCaused(Served(s, c), steps + [Serve(c)], v)
  {
    if OwnerOf(v) == c {
      assert ServeOf(s, v) == NotStarted;
    } else {
      assert ServeOf(Served(s, c), v) == ServeOf(s, v);
    }
  }

  lemma StepKeepsMainCaused(s: State, steps: seq<Step>, e: Step)
    requires MainCaused(s, steps) && ComponentCaused(s, steps, Mtls) && Enabled(s, e)
    ensures MainCaused(Apply(s, e), steps + [e])
  {
  }

  lemma {:induction false} RunIsCaused(agent: Agent, capacity: nat, steps: seq<Step>, c: Component, v: Server)
    requires Run(agent, capacity, steps).Some?
    ensures var s := Run(agent, capacity, steps).value;
            ComponentCaused(s, steps, c) && ServerCaused(s, steps, v) && MainCaused(s, steps)
  {
    if steps != [] {
      var front, e := steps[..|steps| - 1], steps[|steps| - 1];
      var before := RunLast(Start(agent, capacity), steps);
      RunIsCaused(agent, capacity, front, c, v);
      RunIsCaused(agent, capacity, front, Mtls, v);
      RunKeepsWellFormed(Start(agent, capacity), front);
      assert steps == front + [e];
      StepKeepsComponentCaused(before, front, e, c);
      StepKeepsServerCaused(before, front, e, v);
      StepKeepsMainCaused(before, front, e);
    }
  }

  /**
   In every run a server's result is sent only after its component served and the server returned. An error of a
   component's own is sent only if the component failed before serving, which the DNS resolver never does, or, for the
   mTLS agent, after its rotator ended, which takes the end of main. Otherwise a component that serves sends none.
   */
  lemma SendsHaveCauses(agent: Agent, capacity: nat, steps: seq<Step>, c: Component, v: Server)
    requires Run(agent, capacity, steps).Some?
    ensures SendResult(v) in steps ==> ServerReturns(v) in steps && Serve(OwnerOf(v)) in steps
    ensures SendFailure(c) in steps ==> (c != Dns && Fail(c) in steps) || (c == Mtls && RotatorReturns in steps)
    ensures RotatorReturns in steps ==> Serve(Mtls) in steps && (ReceiveError in steps || CatchSignal in steps)
    ensures Serve(c) in steps && c != Mtls ==> Fail(c) !in steps && SendFailure(c) !in steps
    ensures Fail(Dns) !in steps
  {
    RunIsCaused(agent, capacity, steps, c, v);
    DnsNeverFails(agent, capacity, steps);
  }

  lemma {:induction false} DnsNeverFails(agent: Agent, capacity: nat, steps: seq<Step>)
    requires Run(agent, capacity, steps).Some?
    ensures Fail(Dns) !in steps
  {
    if steps != [] {
      var _ := RunLast(Start(agent, capacity), steps);
      DnsNeverFails(agent, capacity, steps[..|steps| - 1]);
      assert steps == steps[..|steps| - 1] + [steps[|steps| - 1]];
    }
  }

  /** A component that is up can always serve, and then all its servers run. */
  lemma ServersStart(agent: Agent, capacity: nat, steps: seq<Step>, v: Server)
    requires Run(agent, capacity, steps).Some?
    requires PcOf(Run(agent, capacity, steps).value, OwnerOf(v)).Running?
    ensures Run(agent, capacity, steps + [Serve(OwnerOf(v))] + [ServerReturns(v)]).Some?
    ensures Sending(Run(agent, capacity, steps + [Serve(OwnerOf(v))] + [ServerReturns(v)]).value, Result(v))
  {
    RunSnoc(agent, capacity, steps, Serve(OwnerOf(v)));
    RunSnoc(agent, capacity, steps + [Serve(OwnerOf(v))], ServerReturns(v));
  }
}

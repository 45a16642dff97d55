/**
 The mesh resolver (`internal/resolver/meshproxy/plugin.go`): a lookup table that is rebuilt only when
 the registry's service list changes, and a lookup in two stages.
 */
module MeshProxy {
  import opened Dns
  import opened MeshTable
  import opened Names
  import opened Strings
  import opened Wrappers

  /** What one request to the registry yields. A nil service map is the empty set. */
  datatype Outcome = Failed | Services(names: set<string>)

  /** The list of the last request that did not fail; the empty list before any. */
  function LastGood(outcomes: seq<Outcome>): set<string> {
    if outcomes == [] then {}
    else
      match outcomes[|outcomes| - 1]
      case Services(names) => names
      case Failed => LastGood(outcomes[..|outcomes| - 1])
  }

  /** The stored table is the one of this service list; no table is as good as that of the empty list. */
  ghost predicate Synced(stored: Option<Table>, services: set<string>, ip: IP, dnsTtl: int) {
    if stored.None? then services == {} else stored.value == TableFor(services, ip, dnsTtl)
  }

  /** Every lookup behaves as if the table had just been built from this service list. */
  ghost predicate AnswersAs(stored: Option<Table>, services: set<string>, ip: IP, dnsTtl: int) {
    forall question, qname ::
      LookupStored(stored, question, qname) == Lookup(TableFor(services, ip, dnsTtl), question, qname)
  }

  lemma SyncedAnswers(stored: Option<Table>, services: set<string>, ip: IP, dnsTtl: int)
    requires Synced(stored, services, ip, dnsTtl)
    ensures AnswersAs(stored, services, ip, dnsTtl)
  {
    if stored.None? {
      TableShape({}, ip, dnsTtl);
    }
  }

  /** Compares sizes and one inclusion only, which is enough. */
  method IfServiceListChanged(currentServices: set<string>, newNsServices: set<string>) returns (changed: bool)
    ensures changed <==> currentServices != newNsServices
  {
    if |currentServices| != |newNsServices| {
      return true;
    }
    if |currentServices| == 0 {
      return false;
    }
    var rest := currentServices;
    while rest != {}
      invariant rest <= currentServices
      invariant currentServices - rest <= newNsServices
      decreases rest
    {
      var svc :| svc in rest;
      if svc !in newNsServices {
        return true;
      }
      rest := rest - {svc};
    }
    assert |newNsServices - currentServices| == |newNsServices| - |currentServices|;
    return false;
  }

  /** The two-stage lookup: the name itself, then the name as a service of the configured namespace. */
  function TwoStage(stored: Option<Table>, suffix: string, namespace: string, question: Question, qname: string)
    : Option<Msg>
  {
    if !MatchSuffix(qname, suffix).1 then None
    else
      var direct := LookupStored(stored, question, qname);
      if direct.Some? then direct
      else LookupStored(stored, question, Qualified(qname, namespace))
  }

  function Qualified(qname: string, namespace: string): string {
    RemoveQuota(qname) + "." + namespace + "."
  }

  class ResolverMesh {
    const localDNSServer: LocalDNSServer
    const namespace: string
    const dnsAnswerIp: IP
    const suffix: string

    constructor (namespace: string, dnsAnswerIp: IP, suffix: string, dnsTtl: int)
      ensures this.namespace == namespace && this.dnsAnswerIp == dnsAnswerIp && this.suffix == suffix
      ensures fresh(localDNSServer) && localDNSServer.Stored() == None && localDNSServer.dnsTtl == dnsTtl
    {
      this.namespace, this.dnsAnswerIp, this.suffix := namespace, dnsAnswerIp, suffix;
      localDNSServer := new LocalDNSServer(dnsTtl);
    }

    method ServeDNS(question: Question, qname: string) returns (ret: Option<Msg>)
      ensures ret == TwoStage(localDNSServer.Stored(), suffix, namespace, question, qname)
    {
      var (_, matched) := MatchSuffix(qname, suffix);
      if !matched {
        return None;
      }
      ret := localDNSServer.ServeDNS(question, qname);
      if ret.Some? {
        return;
      }
      var name := RemoveQuota(qname);
      name := name + "." + namespace + ".";
      ret := localDNSServer.ServeDNS(question, name);
    }

    /** Rebuilds the table exactly when the registry returned a list that differs from the current one. */
    method DoReload(currentServices: set<string>, outcome: Outcome) returns (services: set<string>, changed: bool)
      modifies localDNSServer`lookupTable
      ensures changed <==> outcome.Services? && outcome.names != currentServices
      ensures changed ==> services == outcome.names
      ensures changed ==>
                localDNSServer.Stored() == Some(TableFor(outcome.names, dnsAnswerIp, localDNSServer.dnsTtl))
      ensures changed ==> fresh(localDNSServer.lookupTable)
      ensures !changed ==> localDNSServer.lookupTable == old(localDNSServer.lookupTable)
    {
      services := {};
      match outcome {
        case Failed =>
          return {}, false;
        case Services(names) =>
          changed := IfServiceListChanged(currentServices, names);
          if changed {
            localDNSServer.UpdateLookupTable(names, dnsAnswerIp);
            services := names;
          }
      }
    }

    /**
     The reload goroutine: one reload at once and one on every tick until it is cancelled, with these
     outcomes. Afterwards every lookup agrees with the last list the registry returned.
     */
    method Start(outcomes: seq<Outcome>)
      requires |outcomes| > 0 && localDNSServer.lookupTable == null
      modifies localDNSServer`lookupTable
      ensures AnswersAs(localDNSServer.Stored(), LastGood(outcomes), dnsAnswerIp, localDNSServer.dnsTtl)
    {
      var currentServices: set<string> := {};
      var nextServices, changed := DoReload(currentServices, outcomes[0]);
      if changed {
        currentServices := nextServices;
      }
      var i := 1;
      assert outcomes[..1] == [outcomes[0]] && outcomes[..1][..0] == [];
      while i < |outcomes|
        invariant 1 <= i <= |outcomes|
        invariant currentServices == LastGood(outcomes[..i])
        invariant Synced(localDNSServer.Stored(), currentServices, dnsAnswerIp, localDNSServer.dnsTtl)
        invariant localDNSServer.lookupTable == null || fresh(localDNSServer.lookupTable)
      {
        assert outcomes[..i + 1][..i] == outcomes[..i];
        nextServices, changed := DoReload(currentServices, outcomes[i]);
        if changed {
          currentServices := nextServices;
        }
        i := i + 1;
      }
      assert outcomes[..i] == outcomes;
      SyncedAnswers(localDNSServer.Stored(), currentServices, dnsAnswerIp, localDNSServer.dnsTtl);
    }
  }

  // ----- Reloads interleaved with lookups -----

  /** Where the reload goroutine is inside one reload. */
  datatype Phase =
    | Idle
    | Storing(next: set<string>)    // has seen a changed list, has not stored its table
    | Assigning(next: set<string>)  // has stored the table, has not updated its own list

  datatype State = State(current: set<string>, stored: Option<Table>, phase: Phase)

  datatype Event = Fetch(outcome: Outcome) | Store | Assign | Ask(question: Question, qname: string)

  predicate Enabled(s: State, e: Event) {
    match e
    case Fetch(_) => s.phase.Idle?
    case Store => s.phase.Storing?
    case Assign => s.phase.Assigning?
    case Ask(_, _) => true
  }

  function Apply(s: State, e: Event, ip: IP, dnsTtl: int): State
    requires Enabled(s, e)
  {
    match e
    case Fetch(Failed) => s
    case Fetch(Services(names)) => if names == s.current then s else s.(phase := Storing(names))
    case Store => s.(stored := Some(TableFor(s.phase.next, ip, dnsTtl)), phase := Assigning(s.phase.next))
    case Assign => s.(current := s.phase.next, phase := Idle)
    case Ask(_, _) => s
  }

  /** The state an interleaving reaches, if each of its events was enabled in its turn. */
  function Run(events: seq<Event>, ip: IP, dnsTtl: int): Option<State> {
    if events == [] then Some(State({}, None, Idle))
    else
      var before := Run(events[..|events| - 1], ip, dnsTtl);
      var e := events[|events| - 1];
      if before.Some? && Enabled(before.value, e) then Some(Apply(before.value, e, ip, dnsTtl)) else None
  }

  /** The outcomes of the registry requests so far. */
  function Fetched(events: seq<Event>): seq<Outcome> {
    if events == [] then []
    else
      var e := events[|events| - 1];
      Fetched(events[..|events| - 1]) + if e.Fetch? then [e.outcome] else []
  }

  /** The last list that was fetched and whose table, if it needed a new one, has been stored. */
  function LatestProcessed(events: seq<Event>, s: State): set<string> {
    var outcomes := Fetched(events);
    if s.phase.Storing? && outcomes != [] then LastGood(outcomes[..|outcomes| - 1]) else LastGood(outcomes)
  }

  ghost predicate Invariant(s: State, outcomes: seq<Outcome>, ip: IP, dnsTtl: int) {
    match s.phase
    case Idle => s.current == LastGood(outcomes) && Synced(s.stored, s.current, ip, dnsTtl)
    case Assigning(next) => next == LastGood(outcomes) && Synced(s.stored, next, ip, dnsTtl)
    case Storing(next) =>
      && outcomes != [] && outcomes[|outcomes| - 1] == Services(next)
      && s.current == LastGood(outcomes[..|outcomes| - 1]) && Synced(s.stored, s.current, ip, dnsTtl)
  }

  lemma {:induction false} RunKeepsInvariant(events: seq<Event>, ip: IP, dnsTtl: int, s: State)
    requires Run(events, ip, dnsTtl) == Some(s)
    ensures Invariant(s, Fetched(events), ip, dnsTtl)
  {
    if events != [] {
      var front, e := events[..|events| - 1], events[|events| - 1];
      RunKeepsInvariant(front, ip, dnsTtl, Run(front, ip, dnsTtl).value);
      if e.Fetch? {
        assert Fetched(events)[..|Fetched(events)| - 1] == Fetched(front);
      } else {
        assert Fetched(events) == Fetched(front);
      }
    }
  }

  /**
   In every interleaving of reload steps with lookups, each lookup is answered as if the table had been
   rebuilt from the last list processed: skipped rebuilds, failures and the missing first table never show.
   */
  lemma LookupsAgreeWithRegistry(events: seq<Event>, ip: IP, dnsTtl: int, s: State)
    requires Run(events, ip, dnsTtl) == Some(s)
    ensures AnswersAs(s.stored, LatestProcessed(events, s), ip, dnsTtl)
  {
    RunKeepsInvariant(events, ip, dnsTtl, s);
    SyncedAnswers(s.stored, LatestProcessed(events, s), ip, dnsTtl);
  }

  lemma RunSnoc(events: seq<Event>, e: Event, ip: IP, dnsTtl: int)
    ensures var before := Run(events, ip, dnsTtl);
            Run(events + [e], ip, dnsTtl)
            == if before.Some? && Enabled(before.value, e) then Some(Apply(before.value, e, ip, dnsTtl)) else None
  {
    assert (events + [e])[..|events|] == events;
  }

  /**
   No reload gets stuck or disturbs lookups: at any time a lookup can come and changes nothing, a failed request or an
   unchanged list changes nothing, and a changed list can be stored and assigned, which ends the reload with it.
   */
  lemma ReloadCompletes(events: seq<Event>, ip: IP, dnsTtl: int, s: State, names: set<string>,
                        question: Question, qname: string)
    requires Run(events, ip, dnsTtl) == Some(s)
    ensures Run(events + [Ask(question, qname)], ip, dnsTtl) == Some(s)
    ensures s.phase.Idle? ==> Run(events + [Fetch(Failed)], ip, dnsTtl) == Some(s)
    ensures s.phase.Idle? && names == s.current ==> Run(events + [Fetch(Services(names))], ip, dnsTtl) == Some(s)
    ensures s.phase.Idle? && names != s.current ==>
              Run(events + [Fetch(Services(names))] + [Store] + [Assign], ip, dnsTtl)
              == Some(State(names, Some(TableFor(names, ip, dnsTtl)), Idle))
  {
    RunSnoc(events, Ask(question, qname), ip, dnsTtl);
    RunSnoc(events, Fetch(Failed), ip, dnsTtl);
    var fetched := events + [Fetch(Services(names))];
    RunSnoc(events, Fetch(Services(names)), ip, dnsTtl);
    RunSnoc(fetched, Store, ip, dnsTtl);
    RunSnoc(fetched + [Store], Assign, ip, dnsTtl);
  }

  // ----- The two stages against a service list -----

  /**
   With a table in step with the services, a query whose name carries the suffix gets a reply exactly
   when the name, or the name as a service of the configured namespace, is registered in any letter case.
   */
  lemma TwoStageMeaning(stored: Option<Table>, services: set<string>, ip: IP, dnsTtl: int,
                        suffix: string, namespace: string, question: Question, qname: string)
    requires AnswersAs(stored, services, ip, dnsTtl)
    ensures TwoStage(stored, suffix, namespace, question, qname)
         == if MatchSuffix(qname, suffix).1 &&
               (Registered(services, qname) || Registered(services, RemoveQuota(qname) + "." + namespace + "."))
            then Some(Msg(0, false,
                          if question.qtype == TypeA then [A(question.name, dnsTtl, ip)] else []))
            else None
  {
    LookupMeaning(services, ip, dnsTtl, question, qname);
    LookupMeaning(services, ip, dnsTtl, question, Qualified(qname, namespace));
  }

  /** A query name for a bare service: the service in any letter case, with the final dot or without. */
  predicate Bare(qname: string, service: string) {
    || SameUpToCase(qname, service + ".")
    || (SameUpToCase(qname, service) && (qname == "" || qname[|qname| - 1] != '.'))
  }

  lemma BareWithoutDot(qname: string, service: string)
    requires Bare(qname, service)
    ensures SameUpToCase(service, RemoveQuota(qname))
  {
    if SameUpToCase(qname, service + ".") {
      assert SameLetter(qname[|service|], (service + ".")[|service|]);
      assert qname == RemoveQuota(qname) + ".";
      SameUpToCaseFront(RemoveQuota(qname), service, ".");
    }
  }

  lemma QualifiedIsRegistered(services: set<string>, namespace: string, qname: string, service: string)
    requires service + "." + namespace in services && Bare(qname, service)
    ensures Registered(services, RemoveQuota(qname) + "." + namespace + ".")
  {
    BareWithoutDot(qname, service);
    SameUpToCaseConcat(service, RemoveQuota(qname), ".");
    SameUpToCaseConcat(service + ".", RemoveQuota(qname) + ".", namespace);
    SameUpToCaseConcat(service + "." + namespace, RemoveQuota(qname) + "." + namespace, ".");
  }

  /**
   A service registered in the configured namespace resolves from its bare name, in any letter case, with
   or without the final dot.
   */
  lemma BareNameResolves(stored: Option<Table>, services: set<string>, ip: IP, dnsTtl: int,
                         suffix: string, namespace: string, question: Question, qname: string, service: string)
    requires AnswersAs(stored, services, ip, dnsTtl)
    requires service + "." + namespace in services
    requires Bare(qname, service) && MatchSuffix(qname, suffix).1
    ensures TwoStage(stored, suffix, namespace, question, qname)
         == Some(Msg(0, false, if question.qtype == TypeA then [A(question.name, dnsTtl, ip)] else []))
  {
    QualifiedIsRegistered(services, namespace, qname, service);
    TwoStageMeaning(stored, services, ip, dnsTtl, suffix, namespace, question, qname);
  }
}

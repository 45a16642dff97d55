/**
 The lookup table of the mesh resolver (`internal/resolver/meshproxy/dns.go`): how a set of services
 becomes a table, whatever order the set is walked in, and what the table answers.
 */
module MeshTable {
  import opened Dns
  import opened Strings
  import opened Wrappers

  /** The value of a lookup table. */
  datatype Table = Table(allHosts: set<string>, name4: map<string, seq<IP>>, name6: map<string, seq<IP>>, dnsTtl: int)

  function EmptyTable(dnsTtl: int): Table {
    Table({}, map[], map[], dnsTtl)
  }

  function Lowered(hosts: set<string>): set<string> {
    set h | h in hosts :: ToLower(h)
  }

  function Addressed(hosts: set<string>, ips: seq<IP>): map<string, seq<IP>> {
    map h | h in Lowered(hosts) && |ips| > 0 :: ips
  }

  /** The table after `hosts` are added with these addresses. */
  function WithHosts(t: Table, hosts: set<string>, ipv4: seq<IP>, ipv6: seq<IP>): Table {
    Table(t.allHosts + Lowered(hosts), t.name4 + Addressed(hosts, ipv4), t.name6 + Addressed(hosts, ipv6), t.dnsTtl)
  }

  /** The name a service is looked up by. */
  function HostOf(service: string): string {
    service + "."
  }

  function HostsOf(services: set<string>): set<string> {
    set s | s in services :: HostOf(s)
  }

  /** The table of a service list: one address, the configured one, for every service. */
  function TableFor(services: set<string>, ip: IP, dnsTtl: int): Table {
    WithHosts(EmptyTable(dnsTtl), HostsOf(services), [ip], [])
  }

  function AddressRecords(question: Question, ips: seq<IP>, dnsTtl: int): seq<RR> {
    seq(|ips|, i requires 0 <= i < |ips| =>
      if question.qtype == TypeA then A(question.name, dnsTtl, ips[i]) else AAAA(question.name, dnsTtl, ips[i]))
  }

  function Get(m: map<string, seq<IP>>, host: string): seq<IP> {
    if host in m then m[host] else []
  }

  function HostRecords(t: Table, question: Question, host: string): seq<RR> {
    match question.qtype
    case TypeA => AddressRecords(question, Get(t.name4, host), t.dnsTtl)
    case TypeAAAA => AddressRecords(question, Get(t.name6, host), t.dnsTtl)
    case _ => []
  }

  /** What a table answers: nothing for an unknown host, a reply, perhaps without records, for a known one. */
  function Lookup(t: Table, question: Question, qname: string): Option<Msg> {
    var host := ToLower(qname);
    if host !in t.allHosts then None else Some(Msg(RCODE_SUCCESS, false, HostRecords(t, question, host)))
  }

  /** What the server answers; it has no table before the first one is stored. */
  function LookupStored(stored: Option<Table>, question: Question, qname: string): Option<Msg> {
    if stored.None? then None else Lookup(stored.value, question, qname)
  }

  // ----- The objects -----

  class LookupTable {
    var allHosts: set<string>
    var name4: map<string, seq<IP>>
    var name6: map<string, seq<IP>>
    const dnsTtl: int

    constructor (dnsTtl: int)
      ensures View() == EmptyTable(dnsTtl)
    {
      allHosts, name4, name6, this.dnsTtl := {}, map[], map[], dnsTtl;
    }

    function View(): Table
      reads this
    {
      Table(allHosts, name4, name6, dnsTtl)
    }

    method BuildDNSAnswers(altHosts: set<string>, ipv4: seq<IP>, ipv6: seq<IP>)
      modifies this
      ensures View() == WithHosts(old(View()), altHosts, ipv4, ipv6)
    {
      ghost var t := View();
      var rest := altHosts;
      WithNoHosts(t, ipv4, ipv6);
      while rest != {}
        invariant rest <= altHosts
        invariant View() == WithHosts(t, altHosts - rest, ipv4, ipv6)
        decreases rest
      {
        var host :| host in rest;
        WithHostsUnion(t, altHosts - rest, {host}, ipv4, ipv6);
        WithOneHost(View(), host, ipv4, ipv6);
        assert altHosts - (rest - {host}) == (altHosts - rest) + {host};
        rest := rest - {host};
        var h := ToLower(host);
        allHosts := allHosts + {h};
        if |ipv4| > 0 {
          name4 := name4[h := ipv4];
        }
        if |ipv6| > 0 {
          name6 := name6[h := ipv6];
        }
      }
      assert altHosts - {} == altHosts;
    }

    method LookupHost(qtype: QType, questionHost: string, hostname: string) returns (out: seq<RR>, hostFound: bool)
      ensures hostFound <==> hostname in allHosts
      ensures out == if hostFound then HostRecords(View(), Question(questionHost, qtype), hostname) else []
    {
      if hostname !in allHosts {
        return [], false;
      }
      out, hostFound := [], true;
      match qtype {
        case TypeA =>
          var answers := AnswersA(questionHost, Get(name4, hostname), dnsTtl);
          out := answers[..];
        case TypeAAAA =>
          var answers := AnswersAAAA(questionHost, Get(name6, hostname), dnsTtl);
          out := answers[..];
        case _ =>
      }
    }
  }

  lemma LoweredUnion(a: set<string>, b: set<string>)
    ensures Lowered(a + b) == Lowered(a) + Lowered(b)
  {
  }

  lemma AddressedUnion(m: map<string, seq<IP>>, a: set<string>, b: set<string>, ips: seq<IP>)
    ensures m + Addressed(a + b, ips) == (m + Addressed(a, ips)) + Addressed(b, ips)
  {
    LoweredUnion(a, b);
  }

  /** Adding two sets of hosts one after the other adds their union. */
  lemma WithHostsUnion(t: Table, a: set<string>, b: set<string>, ipv4: seq<IP>, ipv6: seq<IP>)
    ensures WithHosts(t, a + b, ipv4, ipv6) == WithHosts(WithHosts(t, a, ipv4, ipv6), b, ipv4, ipv6)
  {
    LoweredUnion(a, b);
    AddressedUnion(t.name4, a, b, ipv4);
    AddressedUnion(t.name6, a, b, ipv6);
  }

  lemma WithNoHosts(t: Table, ipv4: seq<IP>, ipv6: seq<IP>)
    ensures WithHosts(t, {}, ipv4, ipv6) == t
  {
    assert Lowered({}) == {};
    assert t.name4 + Addressed({}, ipv4) == t.name4 && t.name6 + Addressed({}, ipv6) == t.name6;
  }

  lemma AddressedOne(m: map<string, seq<IP>>, host: string, ips: seq<IP>)
    ensures m + Addressed({host}, ips) == if |ips| > 0 then m[ToLower(host) := ips] else m
  {
    assert Lowered({host}) == {ToLower(host)};
  }

  lemma WithOneHost(t: Table, host: string, ipv4: seq<IP>, ipv6: seq<IP>)
    ensures WithHosts(t, {host}, ipv4, ipv6)
         == Table(t.allHosts + {ToLower(host)},
                  if |ipv4| > 0 then t.name4[ToLower(host) := ipv4] else t.name4,
                  if |ipv6| > 0 then t.name6[ToLower(host) := ipv6] else t.name6,
                  t.dnsTtl)
  {
    assert Lowered({host}) == {ToLower(host)};
    AddressedOne(t.name4, host, ipv4);
    AddressedOne(t.name6, host, ipv6);
  }

  /** One A record for each address. */
  method AnswersA(host: string, ips: seq<IP>, ttl: int) returns (answers: array<RR>)
    ensures fresh(answers)
    ensures answers[..] == AddressRecords(Question(host, TypeA), ips, ttl)
  {
    answers := new RR[|ips|];
    var i := 0;
    while i < |ips|
      invariant 0 <= i <= |ips|
      invariant answers[..i] == AddressRecords(Question(host, TypeA), ips, ttl)[..i]
    {
      answers[i] := A(host, ttl, ips[i]);
      i := i + 1;
    }
  }

  /** One AAAA record for each address. */
  method AnswersAAAA(host: string, ips: seq<IP>, ttl: int) returns (answers: array<RR>)
    ensures fresh(answers)
    ensures answers[..] == AddressRecords(Question(host, TypeAAAA), ips, ttl)
  {
    answers := new RR[|ips|];
    var i := 0;
    while i < |ips|
      invariant 0 <= i <= |ips|
      invariant answers[..i] == AddressRecords(Question(host, TypeAAAA), ips, ttl)[..i]
    {
      answers[i] := AAAA(host, ttl, ips[i]);
      i := i + 1;
    }
  }

  class LocalDNSServer {
    var lookupTable: LookupTable?
    const dnsTtl: int

    constructor (dnsTtl: int)
      ensures Stored() == None && this.dnsTtl == dnsTtl
    {
      lookupTable, this.dnsTtl := null, dnsTtl;
    }

    function Stored(): Option<Table>
      reads this, lookupTable
    {
      if lookupTable == null then None else Some(lookupTable.View())
    }

    /** Builds a new table, walking the service set in any order, and stores it. */
    method UpdateLookupTable(polarisServices: set<string>, dnsResponseIp: IP)
      modifies this`lookupTable
      ensures Stored() == Some(TableFor(polarisServices, dnsResponseIp, dnsTtl))
      ensures fresh(lookupTable)
    {
      var table := new LookupTable(dnsTtl);
      var rest := polarisServices;
      WithNoHosts(EmptyTable(dnsTtl), [dnsResponseIp], []);
      assert HostsOf({}) == {};
      while rest != {}
        invariant rest <= polarisServices
        invariant fresh(table)
        invariant table.View() == TableFor(polarisServices - rest, dnsResponseIp, dnsTtl)
        decreases rest
      {
        var service :| service in rest;
        TableForOneMore(polarisServices - rest, service, dnsResponseIp, dnsTtl);
        assert polarisServices - (rest - {service}) == (polarisServices - rest) + {service};
        rest := rest - {service};
        var altHosts := {HostOf(service)};
        table.BuildDNSAnswers(altHosts, [dnsResponseIp], []);
      }
      assert polarisServices - {} == polarisServices;
      lookupTable := table;
    }

    method ServeDNS(question: Question, qname: string) returns (response: Option<Msg>)
      ensures response == LookupStored(Stored(), question, qname)
    {
      if lookupTable == null {
        return None;
      }
      var hostname := ToLower(qname);
      var answers, hostFound := lookupTable.LookupHost(question.qtype, question.name, hostname);
      if hostFound {
        return Some(Msg(RCODE_SUCCESS, false, answers));
      }
      return None;
    }
  }

  lemma TableForOneMore(services: set<string>, service: string, ip: IP, dnsTtl: int)
    ensures TableFor(services + {service}, ip, dnsTtl)
         == WithHosts(TableFor(services, ip, dnsTtl), {HostOf(service)}, [ip], [])
  {
    assert HostsOf(services + {service}) == HostsOf(services) + {HostOf(service)};
    WithHostsUnion(EmptyTable(dnsTtl), HostsOf(services), {HostOf(service)}, [ip], []);
  }

  // ----- What the table of a service list answers -----

  /** A host is known when it is, up to letter case, the dotted name of some service. */
  ghost predicate Registered(services: set<string>, qname: string) {
    exists s :: s in services && SameUpToCase(s + ".", qname)
  }

  /** The table's shape: its A keys are exactly its hosts, with one address each, and no AAAA key exists. */
  lemma TableShape(services: set<string>, ip: IP, dnsTtl: int)
    ensures var t := TableFor(services, ip, dnsTtl);
            && t.allHosts == (set s | s in services :: ToLower(s + "."))
            && t.name4 == (map h | h in t.allHosts :: [ip])
            && t.name6 == map[]
  {
    var hosts := HostsOf(services);
    forall s | s in services ensures HostOf(s) in hosts { }
    assert Lowered(hosts) == set s | s in services :: ToLower(s + ".");
  }

  /**
   A query gets a reply exactly when its name is a registered service's in any letter case; an A query
   then gets the one configured address under the question's own name, any other query no record.
   */
  lemma LookupMeaning(services: set<string>, ip: IP, dnsTtl: int, question: Question, qname: string)
    ensures Lookup(TableFor(services, ip, dnsTtl), question, qname)
         == if !Registered(services, qname) then None
            else if question.qtype == TypeA
            then Some(Msg(0, false, [A(question.name, dnsTtl, ip)]))
            else Some(Msg(0, false, []))
  {
    var t, host := TableFor(services, ip, dnsTtl), ToLower(qname);
    TableShape(services, ip, dnsTtl);
    forall s ensures ToLower(s + ".") == host <==> SameUpToCase(s + ".", qname) {
      LoweredEqualIff(s + ".", qname);
    }
    assert host in t.allHosts <==> Registered(services, qname);
    if host in t.allHosts {
      assert Get(t.name4, host) == [ip] && Get(t.name6, host) == [];
      assert question.qtype == TypeA ==> AddressRecords(question, [ip], dnsTtl) == [A(question.name, dnsTtl, ip)];
      assert AddressRecords(question, [], dnsTtl) == [];
    }
  }

  /**
   A host just added is answered, in any letter case, with one record per address of the kind asked for, in order,
   under the question's name; a question for another type gets a reply without records.
   */
  lemma AddedHostAnswered(t: Table, hosts: set<string>, ipv4: seq<IP>, ipv6: seq<IP>, h: string,
                          question: Question, qname: string)
    requires h in hosts && SameUpToCase(h, qname)
    ensures var reply := Lookup(WithHosts(t, hosts, ipv4, ipv6), question, qname);
            && reply.Some? && reply.value.rcode == 0 && !reply.value.truncated
            && (question.qtype == TypeA && ipv4 != [] ==>
                 && |reply.value.answer| == |ipv4|
                 && forall i :: 0 <= i < |ipv4| ==> reply.value.answer[i] == A(question.name, t.dnsTtl, ipv4[i]))
            && (question.qtype == TypeAAAA && ipv6 != [] ==>
                 && |reply.value.answer| == |ipv6|
                 && forall i :: 0 <= i < |ipv6| ==> reply.value.answer[i] == AAAA(question.name, t.dnsTtl, ipv6[i]))
            && (question.qtype !in {TypeA, TypeAAAA} ==> reply.value.answer == [])
  {
    LoweredEqualIff(h, qname);
    assert ToLower(qname) in Lowered(hosts);
  }
}

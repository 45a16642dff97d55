/**
 The discovery resolver (`internal/resolver/dnsagent/plugin.go`). An SRV reply names each instance by a
 target that carries the instance's address as a hexadecimal label; the follow-up address query for that
 target is answered from the name alone.
 */
module DnsAgent {
  import opened Dns
  import opened Names
  import opened SearchNames
  import opened Strings
  import opened Wrappers

  const ADDR_LABEL := "_addr"

  // ----- Base 16, section 8 of RFC 4648, in the lower-case form -----

  function HexDigit(d: int): char
    requires 0 <= d < 16
  {
    if d < 10 then ('0' as int + d) as char else ('a' as int + (d - 10)) as char
  }

  /** The value of a digit of either case, or -1. */
  function HexValue(c: char): int {
    if '0' <= c <= '9' then c as int - '0' as int
    else if 'a' <= c <= 'f' then c as int - 'a' as int + 10
    else if 'A' <= c <= 'F' then c as int - 'A' as int + 10
    else -1
  }

  function HexEncode(bytes: IP): string {
    if bytes == [] then ""
    else [HexDigit(bytes[0] as int / 16), HexDigit(bytes[0] as int % 16)] + HexEncode(bytes[1..])
  }

  function HexDecode(s: string): Option<IP> {
    if s == "" then Some([])
    else if |s| == 1 || HexValue(s[0]) < 0 || HexValue(s[1]) < 0 then None
    else
      var rest := HexDecode(s[2..]);
      if rest.None? then None else Some([(HexValue(s[0]) * 16 + HexValue(s[1])) as byte] + rest.value)
  }

  lemma HexDigitValue(d: int)
    requires 0 <= d < 16
    ensures HexValue(HexDigit(d)) == d
    ensures HexDigit(d) != '.' && HexDigit(d) != '_'
  {
  }

  lemma HexDecodeCons(b: int, rest: string)
    requires 0 <= b < 256 && HexDecode(rest).Some?
    ensures HexDecode([HexDigit(b / 16), HexDigit(b % 16)] + rest) == Some([b as byte] + HexDecode(rest).value)
  {
    HexDigitValue(b / 16);
    HexDigitValue(b % 16);
    assert ([HexDigit(b / 16), HexDigit(b % 16)] + rest)[2..] == rest;
  }

  lemma {:induction false} HexRoundTrip(bytes: IP)
    ensures HexDecode(HexEncode(bytes)) == Some(bytes)
    ensures '.' !in HexEncode(bytes) && '_' !in HexEncode(bytes)
  {
    if bytes != [] {
      var b := bytes[0] as int;
      HexDigitValue(b / 16);
      HexDigitValue(b % 16);
      HexRoundTrip(bytes[1..]);
      HexDecodeCons(b, HexEncode(bytes[1..]));
      assert bytes == [bytes[0]] + bytes[1..];
    }
  }

  /** Decoding accepts exactly the encodings, in either letter case. */
  lemma {:induction false} HexDecodeIsInverse(s: string, bytes: IP)
    ensures HexDecode(s) == Some(bytes) <==> ToLower(s) == HexEncode(bytes)
  {
    if s == "" {
    } else if |s| == 1 || bytes == [] {
      if bytes != [] {
        assert |HexEncode(bytes)| >= 2;
      }
    } else {
      HexDecodeIsInverse(s[2..], bytes[1..]);
      var hi, lo := bytes[0] as int / 16, bytes[0] as int % 16;
      assert ToLower(s) == [LowerChar(s[0]), LowerChar(s[1])] + ToLower(s[2..]);
      HexDigitCase(s[0], hi);
      HexDigitCase(s[1], lo);
      var e := HexEncode(bytes);
      assert e[0] == HexDigit(hi) && e[1] == HexDigit(lo) && e[2..] == HexEncode(bytes[1..]);
      assert ToLower(s)[2..] == ToLower(s[2..]);
      assert bytes == [bytes[0]] + bytes[1..];
    }
  }

  lemma HexDigitCase(c: char, d: int)
    requires 0 <= d < 16
    ensures HexValue(c) == d <==> LowerChar(c) == HexDigit(d)
  {
  }

  // ----- Names as labels -----

  /** `dns.Fqdn` and `dns.SplitDomainName` on names without escapes. */
  predicate EscapeFree(name: string) {
    '\\' !in name
  }

  function Fqdn(name: string): string
    requires EscapeFree(name)
  {
    AddQuota(name)
  }

  function SplitDomainName(name: string): (labels: seq<string>)
    requires EscapeFree(name)
    ensures labels == [] <==> name == "" || name == "."
  {
    if name == "" || name == "." then [] else Split(RemoveQuota(name), '.')
  }

  function EncodeIPAsFqdn(ip: IP, key: ServiceKey): string
    requires EscapeFree(key.service) && EscapeFree(key.namespace)
  {
    var name := HexEncode(ip) + "." + ADDR_LABEL + "." + key.service + "." + key.namespace;
    HexHasNoEscape(ip);
    Fqdn(name)
  }

  lemma {:induction false} HexHasNoEscape(ip: IP)
    ensures EscapeFree(HexEncode(ip))
  {
    if ip != [] {
      HexHasNoEscape(ip[1..]);
    }
  }

  /** What the labels of a query name say about an address. */
  datatype Hidden = NoAddress | BadHex | Address(ip: IP) | Panics

  function HiddenFrom(labels: seq<string>, start: nat): Hidden
    requires start <= |labels|
    decreases |labels| - start
  {
    if start == |labels| then NoAddress
    else if labels[start] != ADDR_LABEL then HiddenFrom(labels, start + 1)
    else if start == 0 then Panics
    else
      var ip := HexDecode(labels[start - 1]);
      if ip.None? then BadHex else Address(ip.value)
  }

  function HiddenIn(qname: string): Hidden
    requires EscapeFree(qname)
  {
    HiddenFrom(SplitDomainName(qname), 0)
  }

  // ----- Replies -----

  datatype Instance = Instance(address: IP, priority: nat, weight: nat, port: nat, key: ServiceKey)

  /** The registry: the instances of a service, or an error. */
  type Registry = ServiceKey -> Option<seq<Instance>>

  function MarkRecord(dnsTtl: int, question: Question, address: IP, ins: Option<Instance>): RR
    requires ins.Some? ==> EscapeFree(ins.value.key.service) && EscapeFree(ins.value.key.namespace)
  {
    var ttl := dnsTtl % 0x1_0000_0000;
    match question.qtype
    case TypeA => A(question.name, ttl, address)
    case TypeSRV =>
      if ins.None? then NilRecord
      else
        var i := ins.value;
        SRV(question.name, ttl, i.priority % 0x1_0000, i.weight % 0x1_0000, i.port % 0x1_0000,
            EncodeIPAsFqdn(address, i.key))
    case TypeAAAA => AAAA(question.name, ttl, address)
    case OtherType(_) => NilRecord
  }

  predicate EscapeFreeInstances(instances: seq<Instance>) {
    forall i :: 0 <= i < |instances| ==>
      EscapeFree(instances[i].key.service) && EscapeFree(instances[i].key.namespace)
  }

  ghost predicate EscapeFreeRegistry(registry: Registry) {
    forall key :: registry(key).Some? ==> EscapeFreeInstances(registry(key).value)
  }

  function InstanceRecords(dnsTtl: int, question: Question, instances: seq<Instance>): seq<RR>
    requires EscapeFreeInstances(instances)
  {
    seq(|instances|, i requires 0 <= i < |instances| =>
      MarkRecord(dnsTtl, question, instances[i].address, Some(instances[i])))
  }

  datatype AgentConfig = AgentConfig(suffix: string, dnsTtl: int, namespace: string, serverNs: string)

  /**
   A name with an address label is answered by that address alone; otherwise the reply has one record
   for each instance of the service the name parses to, and there is no reply without instances.
   */
  function Answered(c: AgentConfig, question: Question, qname: string, registry: Registry): Option<Msg>
    requires EscapeFree(qname)
    requires forall key :: registry(key).Some? ==> EscapeFreeInstances(registry(key).value)
  {
    match HiddenIn(qname)
    case Address(ip) => Some(Msg(RCODE_SUCCESS, false, [MarkRecord(c.dnsTtl, question, ip, None)]))
    case NoAddress =>
      var key := ParseQname(qname, c.suffix, c.namespace, c.serverNs);
      if key.None? || registry(key.value).None? || registry(key.value).value == [] then None
      else Some(Msg(RCODE_SUCCESS, false, InstanceRecords(c.dnsTtl, question, registry(key.value).value)))
    case _ => None
  }

  class ResolverDiscovery {
    const config: AgentConfig

    constructor (suffix: string, dnsTtl: int, namespace: string, serverNs: string)
      ensures config == AgentConfig(AddQuota(suffix), dnsTtl, namespace, serverNs)
    {
      config := AgentConfig(AddQuota(suffix), dnsTtl, namespace, serverNs);
    }

    method LookupFromPolaris(qname: string, registry: Registry) returns (instances: Option<seq<Instance>>)
      ensures instances ==
                var key := ParseQname(qname, config.suffix, config.namespace, config.serverNs);
                if key.None? then Some([]) else registry(key.value)
    {
      var key := ParseQname(qname, config.suffix, config.namespace, config.serverNs);
      if key.None? {
        return Some([]);
      }
      instances := registry(key.value);
    }

    method ServeDNS(question: Question, qname: string, registry: Registry) returns (reply: Option<Msg>)
      requires EscapeFree(qname) && EscapeFreeRegistry(registry)
      requires !HiddenIn(qname).Panics?
      ensures reply == Answered(config, question, qname, registry)
    {
      var dnsTtl := config.dnsTtl;
      var labels := SplitDomainName(qname);
      var i := 0;
      while i < |labels|
        invariant 0 <= i <= |labels|
        invariant HiddenIn(qname) == HiddenFrom(labels, i)
        invariant i > 0 ==> labels[0] != ADDR_LABEL
      {
        if labels[i] == ADDR_LABEL {
          var ret := HexDecode(labels[i - 1]);
          if ret.None? {
            return None;
          }
          var rr := MarkRecord(dnsTtl, question, ret.value, None);
          return Some(Msg(RCODE_SUCCESS, false, [rr]));
        }
        i := i + 1;
      }
      var instances := LookupFromPolaris(qname, registry);
      if instances.None? || |instances.value| == 0 {
        return None;
      }
      var answer := MarkRecords(question, instances.value);
      reply := Some(Msg(RCODE_SUCCESS, false, answer));
    }

    method MarkRecords(question: Question, instances: seq<Instance>) returns (answer: seq<RR>)
      requires EscapeFreeInstances(instances)
      ensures answer == InstanceRecords(config.dnsTtl, question, instances)
    {
      answer := [];
      var i := 0;
      while i < |instances|
        invariant 0 <= i <= |instances|
        invariant answer == InstanceRecords(config.dnsTtl, question, instances)[..i]
      {
        var ins := instances[i];
        answer := answer + [MarkRecord(config.dnsTtl, question, ins.address, Some(ins))];
        i := i + 1;
      }
    }
  }

  // ----- The address survives in the name -----

  /** A target is the hidden address, the address label, and the dotted service and namespace. */
  lemma TargetShape(ip: IP, key: ServiceKey)
    requires EscapeFree(key.service) && EscapeFree(key.namespace)
    ensures var tail := AddQuota(key.service + "." + key.namespace);
            EncodeIPAsFqdn(ip, key) == HexEncode(ip) + "." + ADDR_LABEL + "." + tail
    ensures EscapeFree(EncodeIPAsFqdn(ip, key))
  {
    var head := HexEncode(ip) + "." + ADDR_LABEL + ".";
    var body := key.service + "." + key.namespace;
    var name := HexEncode(ip) + "." + ADDR_LABEL + "." + key.service + "." + key.namespace;
    assert name == head + body;
    assert name[|name| - 1] == body[|body| - 1];
    HexHasNoEscape(ip);
    assert EscapeFree(head) by {
      assert EscapeFree("." + ADDR_LABEL + ".");
    }
    assert AddQuota(name) == head + AddQuota(body);
  }

  lemma HiddenWithAddrSecond(qname: string, hex: string, labels: seq<string>)
    requires EscapeFree(qname)
    requires SplitDomainName(qname) == [hex] + ([ADDR_LABEL] + labels)
    requires '_' !in hex
    ensures HiddenIn(qname) == if HexDecode(hex).None? then BadHex else Address(HexDecode(hex).value)
  {
    var all := SplitDomainName(qname);
    assert all[0] == hex && all[1] == ADDR_LABEL;
    assert ADDR_LABEL[0] == '_';
    assert HiddenFrom(all, 0) == HiddenFrom(all, 1);
  }

  lemma AddrWithoutMore(hex: string, rest: string)
    requires '.' !in hex && EscapeFree(hex)
    requires rest == "" || rest == "."
    ensures var qname := hex + "." + ADDR_LABEL + rest;
            EscapeFree(qname) && SplitDomainName(qname) == [hex, ADDR_LABEL]
  {
    var name := hex + "." + ADDR_LABEL;
    assert EscapeFree("." + ADDR_LABEL) && !EndsInDot(ADDR_LABEL) && '.' !in ADDR_LABEL;
    RemoveQuotaConcat(hex + ".", ADDR_LABEL);
    assert RemoveQuota(name + rest) == name;
    SplitCons(hex, '.', ADDR_LABEL);
    assert Split(ADDR_LABEL, '.') == [ADDR_LABEL];
  }

  lemma AddrWithMore(hex: string, more: string)
    requires '.' !in hex && EscapeFree(hex) && more != "" && EscapeFree(more)
    ensures var qname := hex + "." + (ADDR_LABEL + "." + more);
            EscapeFree(qname) && SplitDomainName(qname) == [hex] + ([ADDR_LABEL] + Split(RemoveQuota(more), '.'))
  {
    var tail, rest := ADDR_LABEL + "." + more, RemoveQuota(more);
    assert EscapeFree(".") && EscapeFree(ADDR_LABEL + ".") && '.' !in ADDR_LABEL;
    RemoveQuotaConcat(hex + ".", tail);
    RemoveQuotaConcat(ADDR_LABEL + ".", more);
    SplitCons(hex, '.', ADDR_LABEL + "." + rest);
    SplitCons(ADDR_LABEL, '.', rest);
  }

  lemma LongPrefixKeepsAddress(ip: IP, rest: string)
    requires EscapeFree(rest)
    requires rest == "" || rest[0] == '.'
    ensures var qname := HexEncode(ip) + "." + ADDR_LABEL + rest;
            EscapeFree(qname) && HiddenIn(qname) == Address(ip)
  {
    var hex := HexEncode(ip);
    HexRoundTrip(ip);
    HexHasNoEscape(ip);
    var qname := hex + "." + ADDR_LABEL + rest;
    if rest == "" || rest == "." {
      AddrWithoutMore(hex, rest);
      assert [hex, ADDR_LABEL] == [hex] + ([ADDR_LABEL] + []);
      HiddenWithAddrSecond(qname, hex, []);
    } else {
      var more := rest[1..];
      assert qname == hex + "." + (ADDR_LABEL + "." + more);
      AddrWithMore(hex, more);
      HiddenWithAddrSecond(qname, hex, Split(RemoveQuota(more), '.'));
    }
  }

  lemma {:induction false} NothingHidden(labels: seq<string>, start: nat)
    requires start <= |labels| && ADDR_LABEL !in labels
    ensures HiddenFrom(labels, start) == NoAddress
    decreases |labels| - start
  {
    if start < |labels| {
      NothingHidden(labels, start + 1);
    }
  }

  lemma HexAloneHidesNothing(hex: string, k: nat)
    requires '.' !in hex && '_' !in hex && EscapeFree(hex) && k <= |hex| + 1
    ensures var p := (hex + ".")[..k];
            EscapeFree(p) && HiddenIn(p) == NoAddress
  {
    var p := (hex + ".")[..k];
    var only := hex[..if k <= |hex| then k else |hex|];
    assert RemoveQuota(p) == only;
    assert Split(only, '.') == [only];
    assert ADDR_LABEL[0] == '_';
    NothingHidden(SplitDomainName(p), 0);
  }

  lemma PartialAddrHidesNothing(hex: string, m: nat)
    requires '.' !in hex && '_' !in hex && EscapeFree(hex) && 0 < m < 5
    ensures var p := hex + "." + ADDR_LABEL[..m];
            EscapeFree(p) && HiddenIn(p) == NoAddress
  {
    var part := ADDR_LABEL[..m];
    assert '.' !in ADDR_LABEL && EscapeFree(ADDR_LABEL);
    assert '.' !in part && EscapeFree(part);
    var p := hex + "." + part;
    assert part[m - 1] in part && RemoveQuota(part) == part;
    RemoveQuotaConcat(hex + ".", part);
    assert RemoveQuota(p) == p;
    SplitCons(hex, '.', part);
    assert Split(part, '.') == [part];
    assert SplitDomainName(p) == [hex, part];
    assert |part| < |ADDR_LABEL| && ADDR_LABEL[0] == '_';
    NothingHidden([hex, part], 0);
  }

  lemma ShortPrefixLosesAddress(ip: IP, k: nat)
    requires k < |HexEncode(ip)| + 6
    ensures var p := (HexEncode(ip) + "." + ADDR_LABEL)[..k];
            EscapeFree(p) && HiddenIn(p) == NoAddress
  {
    var hex := HexEncode(ip);
    HexRoundTrip(ip);
    HexHasNoEscape(ip);
    var p := (hex + "." + ADDR_LABEL)[..k];
    if k <= |hex| + 1 {
      assert p == (hex + ".")[..k];
      HexAloneHidesNothing(hex, k);
    } else {
      assert p == hex + "." + ADDR_LABEL[..k - |hex| - 1];
      PartialAddrHidesNothing(hex, k - |hex| - 1);
    }
  }

  /**
   A query for a target, or for any prefix of it, reaches the address branch and decodes to the very
   bytes that were printed exactly when the prefix still holds the whole address label.
   */
  lemma PrefixKeepsAddressIff(ip: IP, key: ServiceKey, k: nat)
    requires EscapeFree(key.service) && EscapeFree(key.namespace)
    requires k <= |EncodeIPAsFqdn(ip, key)|
    ensures var p := EncodeIPAsFqdn(ip, key)[..k];
            EscapeFree(p) && (HiddenIn(p) == Address(ip) <==> k >= |HexEncode(ip)| + 6)
  {
    var target := EncodeIPAsFqdn(ip, key);
    TargetShape(ip, key);
    var head := HexEncode(ip) + "." + ADDR_LABEL;
    var tail := "." + AddQuota(key.service + "." + key.namespace);
    assert target == head + tail && |head| == |HexEncode(ip)| + 6;
    if k < |head| {
      assert target[..k] == head[..k];
      ShortPrefixLosesAddress(ip, k);
    } else {
      var rest := tail[..k - |head|];
      assert target[..k] == head + rest;
      LongPrefixKeepsAddress(ip, rest);
    }
  }

  /** In particular the whole target decodes to the address, for every address, service and namespace. */
  lemma TargetDecodes(ip: IP, key: ServiceKey)
    requires EscapeFree(key.service) && EscapeFree(key.namespace)
    ensures EscapeFree(EncodeIPAsFqdn(ip, key)) && HiddenIn(EncodeIPAsFqdn(ip, key)) == Address(ip)
  {
    var target := EncodeIPAsFqdn(ip, key);
    TargetShape(ip, key);
    PrefixKeepsAddressIff(ip, key, |target|);
    assert target[..|target|] == target;
  }

  /**
   The address survives the stripping of a search suffix exactly when no search entry ends the target, or the first
   one that does is the whole target, or it takes no more than the dotted service and namespace with the dot before
   them.
   */
  lemma TargetSurvivesStripping(ip: IP, key: ServiceKey, search: seq<string>)
    requires EscapeFree(key.service) && EscapeFree(key.namespace)
    ensures var target := EncodeIPAsFqdn(ip, key);
            var k := FirstMatch(search, target);
            && EscapeFree(Stripped(search, target))
            && (HiddenIn(Stripped(search, target)) == Address(ip)
                <==> k == |search| || AddQuota(search[k]) == target
                     || |AddQuota(search[k])| <= |AddQuota(key.service + "." + key.namespace)| + 1)
  {
    var target := EncodeIPAsFqdn(ip, key);
    TargetShape(ip, key);
    StrippedIsPrefix(search, target);
    var r := Stripped(search, target);
    assert r == target[..|r|];
    PrefixKeepsAddressIff(ip, key, |r|);
    StrippedLength(search, target);
  }

  /**
   The two-step discovery is consistent: record `i` of an SRV reply carries the question's name and the
   low 16 bits of instance i's port, priority and weight, and an A query for its target yields exactly one
   record, with that instance's address.
   */
  lemma SrvTargetResolves(c: AgentConfig, question: Question, qname: string, registry: Registry, i: nat)
    requires EscapeFree(qname) && EscapeFreeRegistry(registry)
    requires question.qtype == TypeSRV && HiddenIn(qname).NoAddress?
    requires var reply := Answered(c, question, qname, registry);
             reply.Some? && i < |reply.value.answer|
    ensures var key := ParseQname(qname, c.suffix, c.namespace, c.serverNs);
            var record := Answered(c, question, qname, registry).value.answer[i];
            && key.Some? && registry(key.value).Some? && i < |registry(key.value).value|
            && |Answered(c, question, qname, registry).value.answer| == |registry(key.value).value|
            && record.SRV? && EscapeFree(record.target) && record.name == question.name
            && record.port == registry(key.value).value[i].port % 0x1_0000
            && record.priority == registry(key.value).value[i].priority % 0x1_0000
            && record.weight == registry(key.value).value[i].weight % 0x1_0000
            && Answered(c, Question(record.target, TypeA), record.target, registry)
               == Some(Msg(RCODE_SUCCESS, false,
                           [A(record.target, c.dnsTtl % 0x1_0000_0000, registry(key.value).value[i].address)]))
  {
    var key := ParseQname(qname, c.suffix, c.namespace, c.serverNs);
    var ins := registry(key.value).value[i];
    TargetDecodes(ins.address, ins.key);
  }

  // ----- Direct replies -----

  lemma {:induction false} HiddenFromMeaning(labels: seq<string>, start: nat)
    requires start <= |labels|
    ensures HiddenFrom(labels, start) == NoAddress <==> "_addr" !in labels[start..]
    ensures forall k: nat :: start <= k < |labels| && labels[k] == "_addr" && "_addr" !in labels[start..k] ==>
              HiddenFrom(labels, start) == if k == 0 then Panics
                                           else if HexDecode(labels[k - 1]).None? then BadHex
                                           else Address(HexDecode(labels[k - 1]).value)
    decreases |labels| - start
  {
    if start < |labels| && labels[start] != ADDR_LABEL {
      HiddenFromMeaning(labels, start + 1);
      assert labels[start..] == [labels[start]] + labels[start + 1..];
      forall k: nat | start < k <= |labels|
        ensures labels[start..k] == [labels[start]] + labels[start + 1..k]
      {
      }
    }
  }

  /** Only the first label `_addr` of a name counts, and the address is in the label before it. */
  lemma HiddenMeaning(qname: string, k: nat)
    requires EscapeFree(qname)
    ensures var labels := SplitDomainName(qname);
            && (HiddenIn(qname) == NoAddress <==> "_addr" !in labels)
            && (k < |labels| && labels[k] == "_addr" && "_addr" !in labels[..k] ==>
                  HiddenIn(qname) == if k == 0 then Panics
                                     else if HexDecode(labels[k - 1]).None? then BadHex
                                     else Address(HexDecode(labels[k - 1]).value))
  {
    var labels := SplitDomainName(qname);
    HiddenFromMeaning(labels, 0);
    assert labels[0..] == labels;
    assert k <= |labels| ==> labels[0..k] == labels[..k];
  }

  /** A name without a hidden address has no reply exactly when it does not parse or its service has no instances. */
  lemma NoReplyIff(c: AgentConfig, question: Question, qname: string, registry: Registry)
    requires EscapeFree(qname) && EscapeFreeRegistry(registry) && HiddenIn(qname).NoAddress?
    ensures var key := ParseQname(qname, c.suffix, c.namespace, c.serverNs);
            Answered(c, question, qname, registry) == None
            <==> key == None || registry(key.value) == None || registry(key.value) == Some([])
  {
  }

  /** An address question for a service gets one record of its type for each instance, in order. */
  lemma InstancesAnswered(c: AgentConfig, question: Question, qname: string, registry: Registry,
                          key: ServiceKey, instances: seq<Instance>, i: nat)
    requires EscapeFree(qname) && EscapeFreeRegistry(registry) && HiddenIn(qname).NoAddress?
    requires ParseQname(qname, c.suffix, c.namespace, c.serverNs) == Some(key)
    requires registry(key) == Some(instances) && i < |instances|
    ensures var reply := Answered(c, question, qname, registry);
            && reply.Some? && reply.value.rcode == 0 && !reply.value.truncated
            && |reply.value.answer| == |instances|
            && (question.qtype == TypeA ==>
                 reply.value.answer[i] == A(question.name, c.dnsTtl % 0x1_0000_0000, instances[i].address))
            && (question.qtype == TypeAAAA ==>
                 reply.value.answer[i] == AAAA(question.name, c.dnsTtl % 0x1_0000_0000, instances[i].address))
  {
  }

  /** A question for a target is answered by the hidden bytes alone, as one record of the type asked for. */
  lemma TargetAnswered(c: AgentConfig, question: Question, ip: IP, key: ServiceKey, registry: Registry)
    requires EscapeFree(key.service) && EscapeFree(key.namespace) && EscapeFreeRegistry(registry)
    ensures EscapeFree(EncodeIPAsFqdn(ip, key))
    ensures Answered(c, question, EncodeIPAsFqdn(ip, key), registry)
         == Some(Msg(0, false,
                     match question.qtype
                     case TypeA => [A(question.name, c.dnsTtl % 0x1_0000_0000, ip)]
                     case TypeAAAA => [AAAA(question.name, c.dnsTtl % 0x1_0000_0000, ip)]
                     case _ => [NilRecord]))
  {
    TargetDecodes(ip, key);
  }
}

/**
 The DNS handler (`internal/resolver/handler.go`): preprocessing, the chain of naming resolvers, and the
 fallback to the recursor.
 */
module Handler {
  import opened Dns
  import opened MeshProxy
  import opened MeshTable
  import opened Names
  import opened Recursor
  import opened SearchNames
  import opened Strings
  import opened Upstreams
  import opened Wrappers

  const RCODE_SERVER_FAILURE: nat := 2
  const RCODE_REFUSED: nat := 5

  /** A naming resolver as the handler sees it: a reply, or nil, for a question and a preprocessed name. */
  type Resolver = (Question, string) -> Option<Msg>

  datatype Written = Code(rcode: nat) | Response(msg: Msg)

  predicate CanDoResolve(qtype: QType) {
    qtype.TypeA? || qtype.TypeAAAA? || qtype.TypeSRV?
  }

  /** Resolver `m` replies to the question and name, and none before it does. */
  ghost predicate FirstToReply(resolvers: seq<Resolver>, question: Question, qname: string, m: nat) {
    && m < |resolvers| && resolvers[m](question, qname).Some?
    && forall j :: 0 <= j < m ==> resolvers[j](question, qname).None?
  }

  /** The first reply to the stripped name is written, for the three types that resolvers are asked about. */
  ghost predicate ResolversDecide(resolvers: seq<Resolver>, search: seq<string>, question: Question, written: Written) {
    question.qtype in {TypeA, TypeAAAA, TypeSRV} ==>
      forall m: nat :: FirstToReply(resolvers, question, Stripped(search, question.name), m) ==>
        written == Response(resolvers[m](question, Stripped(search, question.name)).value)
  }

  /** Every resolver is out: the type is another one, or none of them replies to the stripped name. */
  ghost predicate LeftToRecursor(resolvers: seq<Resolver>, search: seq<string>, question: Question) {
    || question.qtype.OtherType?
    || forall m: nat :: m < |resolvers| ==> resolvers[m](question, Stripped(search, question.name)).None?
  }

  lemma FirstReplyDecides(resolvers: seq<Resolver>, search: seq<string>, question: Question, m: nat, written: Written)
    requires FirstToReply(resolvers, question, Stripped(search, question.name), m)
    requires written == Response(resolvers[m](question, Stripped(search, question.name)).value)
    ensures ResolversDecide(resolvers, search, question, written)
    ensures LeftToRecursor(resolvers, search, question) ==> question.qtype.OtherType?
  {
    var qname := Stripped(search, question.name);
    forall k: nat | FirstToReply(resolvers, question, qname, k) ensures k == m {
    }
  }

  class DnsHandler {
    const resolvers: seq<Resolver>
    const recurseProxy: Proxy?

    constructor (resolvers: seq<Resolver>, recurseProxy: Proxy?)
      ensures this.resolvers == resolvers && this.recurseProxy == recurseProxy
    {
      this.resolvers, this.recurseProxy := resolvers, recurseProxy;
    }

    function Search(): (search: seq<string>)
      ensures recurseProxy == null ==> search == []
      ensures recurseProxy != null ==> search == recurseProxy.config.search
    {
      if recurseProxy == null then [] else recurseProxy.config.search
    }

    method Preprocess(qname: string) returns (r: string)
      ensures r == Stripped(Search(), qname)
    {
      if recurseProxy == null || |recurseProxy.config.search| == 0 {
        return qname;
      }
      var search := recurseProxy.config.search;
      var i := 0;
      while i < |search|
        invariant 0 <= i <= |search|
        invariant FirstMatchFrom(search, qname, 0) == FirstMatchFrom(search, qname, i)
      {
        var searchName := search[i];
        if !EndsInDot(searchName) {
          searchName := searchName + ".";
        }
        assert searchName == AddQuota(search[i]);
        if HasSuffix(qname, searchName) {
          assert FirstMatch(search, qname) == i;
          var processed := qname[..|qname| - |searchName|];
          if processed == "" {
            return qname;
          }
          return processed;
        }
        i := i + 1;
      }
      assert FirstMatch(search, qname) == |search|;
      return qname;
    }

    /** Whether the recursor makes an exchange; only then does it need an upstream. */
    ghost predicate Recurses(questions: seq<Question>) {
      && questions != [] && recurseProxy != null && LeftToRecursor(resolvers, Search(), questions[0])
      && Expanded(recurseProxy.config, questions[0].name) != []
    }

    /**
     Only address and service questions go to the resolvers, with the preprocessed name; the first reply
     wins. The recursor answers what is left, with the raw name. A request without a question is refused (code
     5), one without a response fails (code 2).
     */
    method ServeDNS(questions: seq<Question>, net: Network, others: nat -> nat) returns (written: Written)
      requires Recurses(questions) ==> recurseProxy.rotate.Valid()
      modifies if recurseProxy == null then {} else {recurseProxy.rotate}
      ensures questions == [] ==> written == Code(5)
      ensures questions != [] ==> ResolversDecide(resolvers, Search(), questions[0], written)
      ensures questions != [] && LeftToRecursor(resolvers, Search(), questions[0]) ==>
                if !Recurses(questions) then written == Code(2)
                else exists resp, made ::
                  && Handled(resp, made, net, Expanded(recurseProxy.config, questions[0].name),
                             recurseProxy.config.attempts, recurseProxy.rotate.servers,
                             old(recurseProxy.rotate.index), others)
                  && written == if resp.None? then Code(2) else Response(resp.value)
    {
      if |questions| == 0 {
        return Code(RCODE_REFUSED);
      }
      var question := questions[0];
      if CanDoResolve(question.qtype) {
        var resp, m := AskResolvers(question);
        if resp.Some? {
          written := Response(resp.value);
          FirstReplyDecides(resolvers, Search(), question, m, written);
          return;
        }
      }
      if recurseProxy == null {
        return Code(RCODE_SERVER_FAILURE);
      }
      var resp, made := recurseProxy.HandleDNS(question.name, net, others);
      if resp.Some? {
        return Response(resp.value);
      }
      return Code(RCODE_SERVER_FAILURE);
    }

    /** The loop over the resolvers, with the preprocessed name; `m` is the one that replied. */
    method AskResolvers(question: Question) returns (resp: Option<Msg>, ghost m: nat)
      ensures resp.Some? ==> FirstToReply(resolvers, question, Stripped(Search(), question.name), m)
                             && resp == resolvers[m](question, Stripped(Search(), question.name))
      ensures resp.None? ==>
                forall j: nat :: j < |resolvers| ==> resolvers[j](question, Stripped(Search(), question.name)).None?
    {
      var qname := Preprocess(question.name);
      var i := 0;
      m := 0;
      while i < |resolvers|
        invariant 0 <= i <= |resolvers|
        invariant forall j: nat :: j < i ==> resolvers[j](question, qname).None?
      {
        resp := resolvers[i](question, qname);
        if resp.Some? {
          m := i;
          return;
        }
        i := i + 1;
      }
      resp := None;
    }
  }

  // ----- The mesh resolver behind the handler -----

  /** The mesh resolver with a fixed table, as one link of the chain. */
  function MeshResolver(stored: Option<Table>, suffix: string, namespace: string): Resolver {
    (question: Question, qname: string) => TwoStage(stored, suffix, namespace, question, qname)
  }

  /**
   A client that expands the bare name of a mesh service by one of its search entries is answered from
   the mesh: the handler strips the entry again, no earlier resolver replies, and the second lookup stage
   adds the namespace. What the handler writes still carries the name the client asked for.
   */
  lemma ExpandedBareNameReachesMesh(
      resolvers: seq<Resolver>, m: nat, settings: Settings, i: nat, question: Question, bare: string,
      stored: Option<Table>, services: set<string>, ip: IP, dnsTtl: int,
      suffix: string, namespace: string, service: string, written: Written)
    requires m < |resolvers| && resolvers[m] == MeshResolver(stored, suffix, namespace)
    requires forall j :: 0 <= j < m ==> resolvers[j](question, bare).None?
    requires bare != "" && Count(bare, '.') < settings.ndots
    requires i < |settings.search| && settings.search[i] != ""
    requires question.name == Expanded(settings, bare)[i] && question.qtype == TypeA
    requires var k := FirstMatch(settings.search, question.name);
             k < |settings.search| && AddQuota(settings.search[k]) == AddQuota(settings.search[i])
    requires AnswersAs(stored, services, ip, dnsTtl)
    requires service + "." + namespace in services
    requires Bare(bare, service) && MatchSuffix(bare, suffix).1
    requires ResolversDecide(resolvers, settings.search, question, written)
    ensures written == Response(Msg(0, false, [A(question.name, dnsTtl, ip)]))
  {
    StripUndoesExpand(settings, bare, i);
    BareNameResolves(stored, services, ip, dnsTtl, suffix, namespace, question, bare, service);
    assert FirstToReply(resolvers, question, bare, m);
  }
}

/**
 The name algebra of `pkg/utils/util.go`: the final dot, the configured suffix, and the split of a
 query name into service and namespace.
 */
module Names {
  import opened Strings
  import opened Wrappers

  /** The namespace alias that queries may use for the system namespace, in any letter case. */
  const SYS_NAMESPACE := "polaris"

  datatype ServiceKey = ServiceKey(namespace: string, service: string)

  predicate EndsInDot(q: string) {
    q != "" && q[|q| - 1] == '.'
  }

  function AddQuota(q: string): string {
    if EndsInDot(q) then q else q + "."
  }

  function RemoveQuota(q: string): string {
    if EndsInDot(q) then q[..|q| - 1] else q
  }

  lemma RemoveQuotaConcat(head: string, tail: string)
    requires tail != ""
    ensures RemoveQuota(head + tail) == head + RemoveQuota(tail)
  {
    assert (head + tail)[|head + tail| - 1] == tail[|tail| - 1];
  }

  lemma AddQuotaConcat(head: string, tail: string)
    requires tail != ""
    ensures AddQuota(head + tail) == head + AddQuota(tail)
  {
    assert (head + tail)[|head + tail| - 1] == tail[|tail| - 1];
  }

  /** The name without the suffix, and whether the suffix was there. */
  function MatchSuffix(qname: string, suffix: string): (string, bool) {
    if suffix == "" then (qname, true)
    else
      var q, s := AddQuota(qname), AddQuota(suffix);
      if HasSuffix(q, s) then (q[..|q| - |s|], true) else (q, false)
  }

  /** `serverNs` is the SDK's own name for the system namespace. */
  function ParseQname(qname: string, suffix: string, currentNs: string, serverNs: string): Option<ServiceKey> {
    var (name, matched) := MatchSuffix(qname, suffix);
    if !matched then None else Some(ParseStripped(RemoveQuota(name), currentNs, serverNs))
  }

  function ParseStripped(name: string, currentNs: string, serverNs: string): ServiceKey {
    var sep := LastIndex(name, '.');
    if sep < 0 then ServiceKey(currentNs, name)
    else
      var namespace := name[sep + 1..];
      ServiceKey(if ToLower(namespace) == SYS_NAMESPACE then serverNs else namespace, name[..sep])
  }

  /** How a service is written as a query name under a suffix. */
  function Printed(service: string, namespace: string, suffix: string): string {
    service + "." + namespace + "." + suffix
  }

  /** The namespaces that the system alias does not redirect somewhere else. */
  predicate Stable(namespace: string, serverNs: string) {
    SameUpToCase(namespace, "polaris") ==> namespace == serverNs
  }

  /** The alias, without regard to letter case. */
  lemma AliasInAnyCase(namespace: string)
    ensures ToLower(namespace) == SYS_NAMESPACE <==> SameUpToCase(namespace, "polaris")
    ensures SameUpToCase(namespace, "polaris") ==> '.' !in namespace
  {
    assert NoCapitals("polaris") && '.' !in "polaris";
    LoweredWithoutCapitals("polaris");
    LoweredEqualIff(namespace, "polaris");
    if SameUpToCase(namespace, "polaris") {
      forall i | 0 <= i < |namespace| ensures namespace[i] != '.' {
        assert SameLetter(namespace[i], "polaris"[i]);
      }
    }
  }

  lemma MatchSuffixAppended(name: string, suffix: string)
    requires suffix != ""
    ensures MatchSuffix(name + suffix, suffix) == (name, true)
    ensures MatchSuffix(AddQuota(name + suffix), suffix) == (name, true)
  {
    var s := AddQuota(suffix);
    assert (name + suffix)[|name + suffix| - 1] == suffix[|suffix| - 1];
    assert AddQuota(name + suffix) == name + s;
    assert (name + s)[|name + s| - |s|..] == s;
    assert (name + s)[..|name + s| - |s|] == name;
  }

  /** What MatchSuffix decides: the dotted name is some rest followed by the dotted suffix. */
  lemma MatchSuffixMeaning(qname: string, suffix: string, rest: string)
    requires suffix != ""
    ensures MatchSuffix(qname, suffix) == (rest, true) <==> AddQuota(qname) == rest + AddQuota(suffix)
  {
    var q, s := AddQuota(qname), AddQuota(suffix);
    if q == rest + s {
      assert q[|q| - |s|..] == s && q[..|q| - |s|] == rest;
    }
    if HasSuffix(q, s) {
      assert q == q[..|q| - |s|] + s;
    }
  }

  /** Adding a missing final dot to a query name never changes how it parses. */
  lemma FinalDotIrrelevant(qname: string, suffix: string, currentNs: string, serverNs: string)
    ensures ParseQname(AddQuota(qname), suffix, currentNs, serverNs)
         == ParseQname(qname, suffix, currentNs, serverNs)
  {
    assert AddQuota(AddQuota(qname)) == AddQuota(qname);
    assert RemoveQuota(AddQuota(qname)) == RemoveQuota(qname);
  }

  lemma DottedNamespaceMovesToService(service: string, namespace: string, currentNs: string, serverNs: string)
    requires '.' in namespace
    ensures |ParseStripped(service + "." + namespace, currentNs, serverNs).service| > |service|
  {
    var k := LastIndex(namespace, '.');
    var head, tail := namespace[..k], namespace[k + 1..];
    var front := service + "." + head;
    assert namespace == head + "." + tail;
    assert service + "." + namespace == front + "." + tail;
    LastIndexAt(front, '.', tail);
  }

  lemma ParseStrippedPrinted(service: string, namespace: string, currentNs: string, serverNs: string)
    ensures ParseStripped(service + "." + namespace, currentNs, serverNs) == ServiceKey(namespace, service)
       <==> '.' !in namespace && Stable(namespace, serverNs)
  {
    var name := service + "." + namespace;
    AliasInAnyCase(namespace);
    if '.' !in namespace {
      LastIndexAt(service, '.', namespace);
      assert name[|service| + 1..] == namespace && name[..|service|] == service;
    } else {
      DottedNamespaceMovesToService(service, namespace, currentNs, serverNs);
    }
  }

  /**
   A fully dotted printed name parses back to its service and namespace, for every service and every
   suffix, exactly when the namespace is dot-free and not redirected by the system alias.
   */
  lemma ParsePrinted(service: string, namespace: string, suffix: string, currentNs: string, serverNs: string)
    ensures ParseQname(AddQuota(Printed(service, namespace, suffix)), suffix, currentNs, serverNs)
              == Some(ServiceKey(namespace, service))
       <==> '.' !in namespace && Stable(namespace, serverNs)
  {
    var body := service + "." + namespace + ".";
    var p := Printed(service, namespace, suffix);
    assert p == body + suffix;
    if suffix == "" {
      assert AddQuota(p) == body;
    } else {
      MatchSuffixAppended(body, suffix);
    }
    assert RemoveQuota(body) == service + "." + namespace;
    ParseStrippedPrinted(service, namespace, currentNs, serverNs);
  }

  /** Parsing fails exactly when a non-empty suffix, given its final dot, does not end the dotted name. */
  lemma ParseFailsIffSuffixMissing(qname: string, suffix: string, currentNs: string, serverNs: string)
    ensures ParseQname(qname, suffix, currentNs, serverNs) == None
       <==> suffix != "" && forall rest :: AddQuota(qname) != rest + AddQuota(suffix)
  {
    if suffix != "" {
      forall rest ensures MatchSuffix(qname, suffix) == (rest, true) <==> AddQuota(qname) == rest + AddQuota(suffix) {
        MatchSuffixMeaning(qname, suffix, rest);
      }
      var (rest, matched) := MatchSuffix(qname, suffix);
      assert matched ==> AddQuota(qname) == rest + AddQuota(suffix);
    }
  }

  /** The alias, in any letter case, stands for the system namespace under every suffix. */
  lemma SystemAliasRedirects(service: string, alias: string, suffix: string, currentNs: string, serverNs: string)
    requires SameUpToCase(alias, "polaris")
    ensures ParseQname(AddQuota(Printed(service, alias, suffix)), suffix, currentNs, serverNs)
         == Some(ServiceKey(serverNs, service))
  {
    AliasInAnyCase(alias);
    var name := service + "." + alias;
    var body := name + ".";
    assert Printed(service, alias, suffix) == body + suffix;
    if suffix == "" {
      assert body + suffix == body;
    } else {
      MatchSuffixAppended(body, suffix);
    }
    assert RemoveQuota(body) == name;
    LastIndexAt(service, '.', alias);
    assert name[|service| + 1..] == alias && name[..|service|] == service;
  }

  predicate EndsInTwoDots(s: string) {
    |s| >= 2 && s[|s| - 1] == '.' && s[|s| - 2] == '.'
  }

  predicate AllDots(s: string) {
    forall i :: 0 <= i < |s| ==> s[i] == '.'
  }

  /** A string that equals itself shifted by one place behind a dot consists of dots only. */
  lemma {:induction false} ShiftedIsAllDots(s: string, i: nat)
    requires forall k :: 0 <= k < |s| ==> s[k] == ("." + s)[k]
    requires i < |s|
    ensures s[i] == '.'
  {
    if i > 0 {
      ShiftedIsAllDots(s, i - 1);
      assert s[i] == ("." + s)[i];
    }
  }

  lemma SuffixAfterDroppingDot(body: string, suffix: string)
    requires EndsInDot(body) && EndsInTwoDots(suffix)
    ensures var p := (body + suffix)[..|body + suffix| - 1];
            (HasSuffix(p, suffix) <==> AllDots(suffix)) &&
            (AllDots(suffix) ==> p[..|p| - |suffix|] == body[..|body| - 1])
  {
    var p := (body + suffix)[..|body + suffix| - 1];
    var tail := p[|p| - |suffix|..];
    assert forall k :: 0 <= k < |suffix| ==> tail[k] == ("." + suffix)[k];
    if tail == suffix {
      forall i | 0 <= i < |suffix| ensures suffix[i] == '.' {
        ShiftedIsAllDots(suffix, i);
      }
    }
    if AllDots(suffix) {
      assert tail == suffix;
    }
  }

  lemma UndottedUnderTwoDots(name: string, suffix: string)
    requires EndsInTwoDots(suffix)
    ensures var (r, matched) := MatchSuffix(RemoveQuota(name + "." + suffix), suffix);
            (matched <==> AllDots(suffix)) && (matched ==> r == name)
  {
    var body := name + ".";
    var p := body + suffix;
    var q := p[..|p| - 1];
    assert p[|p| - 1] == suffix[|suffix| - 1];
    assert RemoveQuota(p) == q;
    assert q[|q| - 1] == suffix[|suffix| - 2];
    SuffixAfterDroppingDot(body, suffix);
    assert body[..|body| - 1] == name;
  }

  lemma AddQuotaRestores(suffix: string)
    requires suffix != "" && suffix != "." && !EndsInTwoDots(suffix)
    ensures RemoveQuota(suffix) != "" && AddQuota(RemoveQuota(suffix)) == AddQuota(suffix)
  {
    if EndsInDot(suffix) {
      assert suffix == suffix[..|suffix| - 1] + ".";
    }
  }

  /** What is left to parse when a dotted name printed under a suffix loses its final dot. */
  lemma UndottedUnderAllDots(name: string, suffix: string)
    requires AllDots(suffix)
    ensures MatchSuffix(RemoveQuota(name + "." + suffix), suffix) == (name, true)
  {
    var body := name + ".";
    assert body[..|body| - 1] == name;
    if suffix == "" {
      assert body + suffix == body;
    } else if suffix == "." {
      RemoveQuotaConcat(body, suffix);
      assert body + RemoveQuota(suffix) == body;
      MatchSuffixMeaning(body, suffix, name);
    } else {
      UndottedUnderTwoDots(name, suffix);
    }
  }

  lemma UndottedKeepsSuffix(name: string, suffix: string)
    requires !EndsInTwoDots(suffix) && !AllDots(suffix)
    ensures MatchSuffix(RemoveQuota(name + "." + suffix), suffix) == (name + ".", true)
  {
    var body := name + ".";
    RemoveQuotaConcat(body, suffix);
    AddQuotaRestores(suffix);
    AddQuotaConcat(body, RemoveQuota(suffix));
    MatchSuffixMeaning(body + RemoveQuota(suffix), suffix, body);
  }

  /** Under a suffix of dots only the program takes one more dot off the name. */
  lemma UndottedIsParsedAs(name: string, suffix: string, currentNs: string, serverNs: string)
    ensures ParseQname(RemoveQuota(name + "." + suffix), suffix, currentNs, serverNs)
         == if AllDots(suffix) then Some(ParseStripped(RemoveQuota(name), currentNs, serverNs))
            else if EndsInTwoDots(suffix) then None
            else Some(ParseStripped(name, currentNs, serverNs))
  {
    if AllDots(suffix) {
      UndottedUnderAllDots(name, suffix);
    } else if EndsInTwoDots(suffix) {
      UndottedUnderTwoDots(name, suffix);
    } else {
      UndottedKeepsSuffix(name, suffix);
      assert (name + ".")[..|name + "."| - 1] == name;
    }
  }

  lemma ParseStrippedWithoutNamespace(service: string, currentNs: string, serverNs: string)
    ensures ParseStripped(service, currentNs, serverNs) == ServiceKey("", service)
       <==> '.' !in service && currentNs == ""
  {
  }

  /** A namespace that loses its final dot comes back only if the alias puts the dotted form in its place. */
  lemma ParseStrippedDotLost(service: string, front: string, currentNs: string, serverNs: string)
    ensures ParseStripped(service + "." + front, currentNs, serverNs) == ServiceKey(front + ".", service)
       <==> SameUpToCase(front, "polaris") && serverNs == front + "."
  {
    AliasInAnyCase(front);
    var name := service + "." + front;
    if '.' !in front {
      LastIndexAt(service, '.', front);
      assert name[|service| + 1..] == front && name[..|service|] == service;
    } else {
      DottedNamespaceMovesToService(service, front, currentNs, serverNs);
    }
  }

  /** The condition under which a name printed without its final dot still parses back. */
  predicate UndottedParsesBack(service: string, namespace: string, suffix: string,
                               currentNs: string, serverNs: string)
  {
    if AllDots(suffix) && namespace == "" then '.' !in service && currentNs == ""
    else if AllDots(suffix) && EndsInDot(namespace) then
      SameUpToCase(namespace, "polaris.") && serverNs == namespace
    else
      (EndsInTwoDots(suffix) ==> AllDots(suffix)) && '.' !in namespace && Stable(namespace, serverNs)
  }

  /** A printed service and namespace parsed after the loss of a further dot. */
  lemma OneMoreDotLost(service: string, namespace: string, currentNs: string, serverNs: string)
    ensures ParseStripped(RemoveQuota(service + "." + namespace), currentNs, serverNs) == ServiceKey(namespace, service)
       <==> UndottedParsesBack(service, namespace, "", currentNs, serverNs)
  {
    if namespace == "" {
      assert service + "." + namespace == service + ".";
      assert RemoveQuota(service + ".") == service;
      ParseStrippedWithoutNamespace(service, currentNs, serverNs);
    } else {
      RemoveQuotaConcat(service + ".", namespace);
      if EndsInDot(namespace) {
        var front := RemoveQuota(namespace);
        assert namespace == front + "." && "polaris" + "." == "polaris.";
        if SameUpToCase(front, "polaris") {
          SameUpToCaseConcat(front, "polaris", ".");
        }
        if SameUpToCase(namespace, "polaris.") {
          SameUpToCaseFront(front, "polaris", ".");
        }
        ParseStrippedDotLost(service, RemoveQuota(namespace), currentNs, serverNs);
      } else {
        ParseStrippedPrinted(service, namespace, currentNs, serverNs);
      }
    }
  }

  /**
   When a printed name parses back without its final dot. Under a suffix that has more than dots in it, just when the
   dotted name does, unless the suffix ends in two dots: then never, because the name no longer carries it. Under a
   suffix of dots only, or none, one more dot is lost, which matters when the namespace is empty or ends in a dot.
   */
  lemma ParsePrintedUndotted(service: string, namespace: string, suffix: string,
                             currentNs: string, serverNs: string)
    ensures ParseQname(RemoveQuota(Printed(service, namespace, suffix)), suffix, currentNs, serverNs)
              == Some(ServiceKey(namespace, service))
       <==> UndottedParsesBack(service, namespace, suffix, currentNs, serverNs)
  {
    UndottedIsParsedAs(service + "." + namespace, suffix, currentNs, serverNs);
    if AllDots(suffix) {
      OneMoreDotLost(service, namespace, currentNs, serverNs);
    } else {
      ParseStrippedPrinted(service, namespace, currentNs, serverNs);
    }
  }

  /** The exception is real: a suffix such as "x.." loses its own names when the final dot goes. */
  lemma UndottedNameCanBeLost()
    ensures ParseQname("s.n.x.", "x..", "default", "Polaris") != Some(ServiceKey("n", "s"))
    ensures ParseQname("s.n.x..", "x..", "default", "Polaris") == Some(ServiceKey("n", "s"))
  {
    var service, namespace, suffix := "s", "n", "x..";
    var name := Printed(service, namespace, suffix);
    assert name == "s.n.x.." && name[..6] == "s.n.x.";
    assert |namespace| == 1 && suffix[0] == 'x';
    assert !AllDots(suffix) && EndsInTwoDots(suffix);
    ParsePrinted(service, namespace, suffix, "default", "Polaris");
    ParsePrintedUndotted(service, namespace, suffix, "default", "Polaris");
  }

  /**
   A bare service name is looked up in the current namespace: it parses exactly as the same name
   qualified with that namespace, unless the namespace has dots or the system alias redirects it.
   */
  lemma BareNameUsesCurrentNamespace(service: string, suffix: string, currentNs: string, serverNs: string)
    requires '.' !in service
    ensures ParseQname(service + "." + suffix, suffix, currentNs, serverNs) == Some(ServiceKey(currentNs, service))
    ensures ParseQname(service + "." + suffix, suffix, currentNs, serverNs)
              == ParseQname(AddQuota(Printed(service, currentNs, suffix)), suffix, currentNs, serverNs)
       <==> '.' !in currentNs && Stable(currentNs, serverNs)
  {
    var body := service + ".";
    assert RemoveQuota(body) == service;
    if suffix == "" {
      assert body + suffix == body;
    } else {
      MatchSuffixAppended(body, suffix);
    }
    ParsePrinted(service, currentNs, suffix, currentNs, serverNs);
  }
}

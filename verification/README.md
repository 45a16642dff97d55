# Verification of the Polaris sidecar's DNS side

This project models the DNS path of the sidecar and two of its long-running loops, and proves what they
promise over every input and every run.

- **Names** (`Strings`, `Names`, `Labels`, `SearchNames`): the final dot, the configured suffix, the split of a
  query name into service and namespace, route labels, and the stripping of search suffixes. The printers and
  parsers are shown to undo each other, with the exact condition where they do not always.
- **Mesh resolver** (`MeshTable`, `MeshProxy`): the lookup table that is rebuilt only when the registry's service
  list changes. Every interleaving of reload steps with lookups answers as if the table were always current.
- **Recursor** (`Rotation`, `Upstreams`, `Recursor`, `Failover`): the mutex-guarded round-robin, the merged upstream
  list, the failover loop over every expanded name and attempt, and how many calls of other requests that loop
  tolerates before it misses an upstream.
- **Discovery resolver** (`DnsAgent`): SRV targets that carry an address as a hexadecimal label, and the address
  query that reads it back.
- **Handler** (`Handler`): preprocessing, the resolver chain, the fallback, and the path of a search-expanded bare
  service name through handler and mesh resolver.
- **Envoy metrics** (`EnvoyStats`, `EnvoyMetrics`, `MetricsRuns`): cumulative counters turned into one call for every
  unit they rise by, eviction of silent instances and what a return after it reports twice, and cluster names
  recovered from statistic names.
- **Shutdown** (`Shutdown`): the component goroutines, their bounded error channel and its single receiver.

Objects that the program updates in place are classes whose methods are proved against functions on values; the
properties are lemmas about those functions. Interleavings are sequences of small steps, each enabled or not in
the state before it.

What the program gets from outside is a parameter: the registry's answers, the outcome of every DNS exchange (a
function of the number of the exchange, the name and the upstream), the calls other requests make between two
attempts, Envoy's polls and their times, signals, and the moment each server returns. The SDK's own name for the
system namespace is the parameter `serverNs`, because the SDK's source is not part of this model.

Where code and comment disagree the model follows the code: `ParseLabels` is documented to return an empty map for
an empty string and nil for an invalid one; it returns nil for the empty string and skips invalid tokens.

Five promises turned out to hold only under a condition, and the exact condition is proved:

- A name printed without its final dot parses back just when the dotted one does, except under a suffix that ends in
  two dots and is not made of dots only; a suffix of dots only, or none, costs a further dot
  (`Names.ParsePrintedUndotted`, `Names.UndottedNameCanBeLost`).
- Stripping picks the longest search entry for every query exactly when the list is ordered longest first
  (`SearchNames.LongestChosenIffOrdered`, `SearchNames.OrderMatters`).
- Failover covers all n upstreams, despite up to f calls of other requests between the attempts for each name, exactly
  when there are at least n + f(n - 1) attempts; under every interleaving, exactly when there is one upstream
  (`Failover.ToleratedInterleaving`, `Failover.AnyInterleaving`, `Failover.UpstreamCanBeSkipped`).
- The calls for a key are its first counter and the rises after it, and the smaller of the last and the new counter
  once more at every return after the key was forgotten, as long as no single growth exceeds a signed 64-bit integer
  (`MetricsRuns.CallsWithReturns`, `MetricsRuns.CallsEqualGrowthIff`); a key seen often enough is never forgotten
  (`MetricsRuns.SteadyCallsTelescope`).
- Some run leaves a goroutine blocked in its send exactly when the mTLS agent is configured: after a signal its
  rotator's error can stay unreceived for ever (`Shutdown.StrandsIffMtls`, `Shutdown.SignalCanStrandTheRotator`,
  `Shutdown.BlockedAfterSignalForever`).

`dafny verify dfyconfig.toml` checks the whole project.

## Model

| member | source | states |
|---|---|---|
| `Strings.ToLowerMeaning` | internal/resolver/meshproxy/dns.go:76 | the lower-cased string is the only one without the letters A to Z that equals the given one up to the case of letters |
| `Strings.LoweredEqualIff` | internal/resolver/meshproxy/dns.go:135 | two lower-cased strings are equal exactly when the strings have one length and each pair of characters is equal or a capital and its small letter |
| `Names.MatchSuffixMeaning` | pkg/utils/util.go:58-69 | for every non-empty suffix, MatchSuffix succeeds with a given rest exactly when the dotted name is that rest followed by the dotted suffix |
| `Names.ParseFailsIffSuffixMissing` | pkg/utils/util.go:33-38 | parsing fails exactly when a non-empty dotted suffix does not end the dotted name |
| `Names.SystemAliasRedirects` | pkg/utils/util.go:48-53 | the name polaris in any letter case parses to the system namespace, with the service unchanged, under every suffix |
| `Names.FinalDotIrrelevant` | pkg/utils/util.go:32-55 | adding a missing final dot never changes how a query name parses |
| `Names.ParsePrinted` | pkg/utils/util.go:30-55 | a dotted name printed as service.namespace.suffix parses back to its parts exactly when the namespace is dot-free and not redirected by the polaris alias, for every service and suffix |
| `Names.ParsePrintedUndotted` | pkg/utils/util.go:30-55 | without the final dot it still parses back, for every service, namespace and suffix, exactly under a condition on the dots of suffix and namespace: as for the dotted name, except for suffixes that end in two dots, and for suffixes of dots only with an empty namespace or one that ends in a dot |
| `Names.UndottedNameCanBeLost` | pkg/utils/util.go:58-69 | a concrete suffix for which the undotted name no longer parses back while the dotted one does |
| `Names.BareNameUsesCurrentNamespace` | pkg/utils/util.go:42-47 | an undotted service name parses to the current namespace, and as the name qualified with it exactly when that namespace is dot-free and the alias does not redirect it |
| `Labels.ParseLabels` | pkg/utils/base.go:57-73 | the loop computes the label map of the specification; nil exactly for the empty string |
| `Labels.ParseUndoesPrint` | pkg/utils/base.go:53-73 | parsing the printed form of any non-empty list of comma- and colon-free labels yields the map in which each key has its last value and no other key occurs |
| `Labels.TokenMeaning` | pkg/utils/base.go:63-71 | a token without a colon adds nothing; any other adds the field before its first colon with the field up to the second colon, if there is one, as value |
| `Labels.JoinedListsOverride` | pkg/utils/base.go:57-73 | parsing two lists joined by a comma is the first map overridden by the second, nil read as empty |
| `Handler.DnsHandler.Preprocess` | internal/resolver/handler.go:31-48 | the loop strips the first dotted search entry that ends the name, unless nothing would be left |
| `SearchNames.StrippedIsPrefix` | internal/resolver/handler.go:31-48 | the result for a non-empty name is a non-empty prefix that lacks nothing or exactly one dotted search entry |
| `SearchNames.LongestChosenIffOrdered` | internal/resolver/handler.go:35-46 | the chosen entry is a longest matching one for every query name if and only if the list is ordered longest first |
| `SearchNames.OrderMatters` | internal/resolver/dns_test.go:69-88 | the two orders of one pair of entries strip different amounts from one name |
| `SearchNames.ExpandedShape` | internal/resolver/recursor/proxy.go:101-112 | a name with fewer dots than ndots expands to one dot-terminated name per search entry, in order, each the name followed by the entry; any other name stays alone and unchanged |
| `SearchNames.StripUndoesExpand` | internal/resolver/handler.go:31-48 | stripping gives the name expanded by entry i back exactly when the first search entry that ends the expanded name is entry i up to its final dot |
| `Recursor.Proxy.ExpandQuery` | internal/resolver/recursor/proxy.go:101-112 | the loop builds the expansion of the specification; a name with enough dots stays alone and unchanged |
| `Handler.DnsHandler.ServeDNS` | internal/resolver/handler.go:51-84 | no question is refused with code 5; for A, AAAA and SRV questions the reply of the first resolver that replies to the stripped name is written; for other types, or without such a reply, the recursor's response to the raw name, or code 2; an upstream is needed only if the recursor is reached and makes an exchange |
| `Handler.DnsHandler.AskResolvers` | internal/resolver/handler.go:66-75 | the resolvers are asked in order for the stripped name, and the first reply is taken |
| `Handler.ExpandedBareNameReachesMesh` | internal/resolver/handler.go:65-75 | for a bare mesh service name, in any case, expanded by a client's search entry the handler writes the mesh address under the name asked for |
| `MeshTable.LookupTable.BuildDNSAnswers` | internal/resolver/meshproxy/dns.go:74-85 | in any iteration order, the table gains exactly the lower-cased hosts with these addresses |
| `MeshTable.LookupTable.LookupHost` | internal/resolver/meshproxy/dns.go:90-115 | a host outside allHosts is not found; one inside gets the records of its type |
| `MeshTable.AnswersA` | internal/resolver/meshproxy/dns.go:151-160 | the array holds one A record per address, in order, under the question's name |
| `MeshTable.AnswersAAAA` | internal/resolver/meshproxy/dns.go:163-172 | the array holds one AAAA record per address, in order, under the question's name |
| `MeshTable.LocalDNSServer.UpdateLookupTable` | internal/resolver/meshproxy/dns.go:39-55 | whatever order the service set is walked in, the stored table is the one table of that set |
| `MeshTable.LocalDNSServer.ServeDNS` | internal/resolver/meshproxy/dns.go:125-147 | the reply is the stored table's answer; nil before any table is stored |
| `MeshTable.TableShape` | internal/resolver/meshproxy/dns.go:39-85 | allHosts is the set of lower-cased dotted names, name4 has exactly these keys with one address each, name6 is empty |
| `MeshTable.LookupMeaning` | internal/resolver/meshproxy/dns.go:90-147 | a query has a reply exactly when some service has its name up to letter case: one A record under the question's name, or no record for other types |
| `MeshTable.AddedHostAnswered` | internal/resolver/meshproxy/dns.go:74-172 | a host just added is answered in any letter case, with one A or AAAA record per IPv4 or IPv6 address, in order, under the question's name, and with no record for other types |
| `MeshProxy.IfServiceListChanged` | internal/resolver/meshproxy/plugin.go:162-175 | true exactly when the two sets differ, from sizes and one inclusion |
| `MeshProxy.ResolverMesh.DoReload` | internal/resolver/meshproxy/plugin.go:149-160 | the table is replaced by that of the new list exactly when a list arrived and differs; otherwise nothing changes |
| `MeshProxy.ResolverMesh.Start` | internal/resolver/meshproxy/plugin.go:116-143 | after any sequence of registry outcomes every lookup agrees with the last list that arrived |
| `MeshProxy.LookupsAgreeWithRegistry` | internal/resolver/meshproxy/plugin.go:116-160 | in every interleaving of fetch, store and assign steps with lookups, each lookup is answered as from a table of the last processed list |
| `MeshProxy.ReloadCompletes` | internal/resolver/meshproxy/plugin.go:116-160 | in every interleaving lookups are always possible and change nothing, failures and unchanged lists change nothing, and a changed list can be stored and assigned |
| `MeshProxy.ResolverMesh.ServeDNS` | internal/resolver/meshproxy/plugin.go:96-114 | nothing without the suffix; else the direct lookup, and only if it finds nothing the lookup with the namespace added |
| `MeshProxy.TwoStageMeaning` | internal/resolver/meshproxy/plugin.go:96-114 | a reply exists exactly when the suffix matches and the name, or the name qualified by the namespace, is registered up to case; its content is determined |
| `MeshProxy.BareNameResolves` | internal/resolver/meshproxy/plugin.go:106-109 | a service registered in the configured namespace resolves from its bare name in any case, with or without the final dot |
| `Upstreams.Config.MergeUpstream` | internal/resolver/recursor/base.go:65-72 | the list stays the stable deduplication of all usable servers offered so far, and the seen-map holds exactly these |
| `Upstreams.InitRecurseConfig` | internal/resolver/recursor/base.go:26-50 | nil without a file, an error for an unreadable one, else one stable deduplication of configured then resolv.conf servers |
| `Upstreams.UpstreamsAreMerged` | internal/resolver/recursor/base.go:41-87 | no duplicates, exactly the servers of both lists at port 53 except 127.0.0.1 when bound to localhost, in the order of first occurrence, and at least as many attempts as upstreams |
| `Upstreams.LimitsAreMerged` | internal/resolver/recursor/base.go:41-80 | the search list is that of the file, ndots is at least 1, and timeout and attempts are the larger of their two sources |
| `Recursor.RotatingUpstream.Next` | internal/resolver/recursor/proxy.go:44-50 | returns the server at the index and advances it round the list |
| `Rotation.EachWindowVisitsAllOnce` | internal/resolver/recursor/proxy.go:44-50 | any n consecutive calls visit each of the n positions exactly once |
| `Rotation.UsageIsFair` | internal/resolver/recursor/proxy.go:44-50 | after any number of calls the usage of two positions differs by at most one |
| `Rotation.InterleavingsAreSequential` | internal/resolver/recursor/proxy.go:22-50 | under the mutex, every interleaving of callers serves the positions of a sequential run, one caller inside at a time, index in range |
| `Rotation.CallCompletes` | internal/resolver/recursor/proxy.go:44-50 | in every interleaving, once the mutex is free a caller can run through a whole call, which serves the position at the index, advances it and frees the mutex |
| `Rotation.ConcurrentUsageIsFair` | internal/resolver/recursor/proxy.go:22-50 | fairness for the calls of all concurrent callers together |
| `Rotation.ConcurrentWindow` | internal/resolver/recursor/proxy.go:22-50 | any n consecutive reads of all concurrent callers together visit each position exactly once |
| `Recursor.Proxy.HandleDNS` | internal/resolver/recursor/proxy.go:53-99 | the exchanges follow the order of names and attempts with rotating upstreams; the response is that of the first acceptable one, after which none is made; nil only at the end, or without an exchange for a name that expands to nothing |
| `Recursor.OutcomesThatEnd` | internal/resolver/recursor/proxy.go:83-95 | an exchange ends the request with its response exactly when the code is 0 or 3 and there is no error or the response is truncated, or with nil on success without a response; after any other outcome the request goes on to the next exchange of the plan and never returns that response |
| `Recursor.PlanOfAttempts` | internal/resolver/recursor/proxy.go:72-76 | the plan has names times attempts exchanges, and the d-th block of attempts asks for the d-th name |
| `Failover.ToleratedInterleaving` | internal/resolver/recursor/proxy.go:72-98 | with n distinct upstreams and up to f foreign calls between the attempts for each name, every upstream is asked for every name before a request ends in nil, if and only if there are at least n + f(n - 1) attempts |
| `Failover.AnyInterleaving` | internal/resolver/recursor/proxy.go:72-98 | with enough attempts to reach every upstream once, no interleaving leaves one unasked if and only if there is just one upstream |
| `Failover.UpstreamCanBeSkipped` | internal/resolver/recursor/proxy.go:76-98 | with fewer attempts, from every start of the index, so many foreign calls let a request run through its whole plan, end in nil and never ask the last upstream |
| `Failover.MergedTolerance` | internal/resolver/recursor/base.go:26-50 | both equivalences for a recursor configured from the merged settings and every name it expands |
| `Failover.NilOnlyAfterAllTried` | internal/resolver/recursor/proxy.go:72-98 | with the merged configuration: at most names times attempts exchanges, and undisturbed, nil only after every upstream was asked for every name |
| `DnsAgent.ResolverDiscovery.ServeDNS` | internal/resolver/dnsagent/plugin.go:112-146 | a hidden address answers alone, a bad one gives nil, and otherwise the instances of the parsed service give one record each |
| `DnsAgent.HiddenMeaning` | internal/resolver/dnsagent/plugin.go:116-129 | only the first label _addr of a name counts; the label before it is decoded as the address |
| `DnsAgent.InstancesAnswered` | internal/resolver/dnsagent/plugin.go:131-145 | an A or AAAA question for a parsed service with instances is answered with code 0 and one record of that type per instance, in order, with its address under the question's name |
| `DnsAgent.NoReplyIff` | internal/resolver/dnsagent/plugin.go:131-134 | a name without a hidden address has no reply exactly when it does not parse, the registry fails, or there are no instances |
| `DnsAgent.TargetAnswered` | internal/resolver/dnsagent/plugin.go:124-128 | a question for a target is answered by one record: A or AAAA with the hidden bytes for these types, no record for the others |
| `DnsAgent.HexDecodeIsInverse` | internal/resolver/dnsagent/plugin.go:119 | decoding yields given bytes exactly for their encoding in either letter case |
| `DnsAgent.TargetDecodes` | internal/resolver/dnsagent/plugin.go:170-173 | the printed target of any address, service and namespace reaches the address branch and decodes to the same bytes |
| `DnsAgent.PrefixKeepsAddressIff` | internal/resolver/dnsagent/plugin.go:116-129 | a prefix of a target decodes to the address exactly when it holds the whole address label |
| `DnsAgent.TargetSurvivesStripping` | internal/resolver/handler.go:31-48 | after the stripping of a search suffix the target decodes to its address exactly when no search entry ends it, or the first that does is the whole target, or is at most as long as the service and namespace part with the dot before it |
| `DnsAgent.SrvTargetResolves` | internal/resolver/dnsagent/plugin.go:137-205 | an SRV reply has one record per instance, in order, under the question's name and with the 16-bit port, priority and weight; an A query for a record's target yields one record with that instance's address |
| `EnvoyStats.ClusterOfIsInverse` | internal/mesh/metrics/server.go:151-184 | the parser returns a cluster name exactly for the statistic name printed from it, for non-empty newline-free names with any dots |
| `EnvoyStats.ParseUpstreamDelay` | internal/mesh/metrics/server.go:153-204 | a cluster is a key with some delay exactly when that is the third value, float or integer, of the last histogram of the poll that carries the cluster's statistic name and such a value |
| `EnvoyMetrics.Server.ReportMetrics` | internal/mesh/metrics/server.go:302-310 | one success call per request grown, then one failure call per error grown, for counts read as signed |
| `EnvoyMetrics.Server.ReportMetricByCluster` | internal/mesh/metrics/server.go:206-300 | a failed poll changes nothing; else every host with an address is observed in order, its growth reported and its counters stored with the time read for that host |
| `EnvoyMetrics.ObservationsMeaning` | internal/mesh/metrics/server.go:245-277 | a poll observes every host with a socket, in the order of clusters and hosts, with its own key, time, and the last values of rq_success, rq_error and rq_total, and nothing else |
| `EnvoyMetrics.ObservationReported` | internal/mesh/metrics/server.go:279-310 | an observation makes one success call with code 200 per rise of the first counter, then one failure call with code 500 per rise of the second, with the cluster's delay or none, and stores its counters and time |
| `EnvoyMetrics.FirstPollReported` | internal/mesh/metrics/server.go:206-310 | a poll of one host not stored yet, with a successes and b errors, makes a success calls and then b failure calls for its cluster, address and port |
| `EnvoyMetrics.Server.OnTick` | internal/mesh/metrics/server.go:91-105 | every tenth tick first drops exactly the keys silent for more than five minutes at the time it reads; then the poll is reported |
| `MetricsRuns.CallsFollowHistory` | internal/mesh/metrics/server.go:262-310 | over every run the number of calls for a key and status is determined by that key's own history, whatever other keys do |
| `MetricsRuns.CallsEqualGrowthIff` | internal/mesh/metrics/server.go:302-309 | calls equal the growth exactly when no single growth exceeds a signed 64-bit integer |
| `MetricsRuns.CallsTelescope` | internal/mesh/metrics/server.go:262-296 | for a key never evicted, calls are the first counter plus all rises, at least every counter, and the last counter exactly when it never fell |
| `MetricsRuns.CallsWithReturns` | internal/mesh/metrics/server.go:262-310 | over every run with counters below 2^63, the calls for a key are its first counter, all rises, and the smaller of last and new counter at every return after it was forgotten |
| `MetricsRuns.ReturningKeyIsReportedTwice` | internal/mesh/metrics/server.go:279-283 | a key forgotten and seen again with the same counter is reported in full a second time |
| `MetricsRuns.EveryTenthTickCleans` | internal/mesh/metrics/server.go:91-104 | in every run from the start, a tick forgets a key exactly when it is a tenth one and the stored key was silent for more than 300 seconds |
| `MetricsRuns.SteadyCallsTelescope` | internal/mesh/metrics/server.go:87-310 | a key that Envoy shows at least every nine ticks, or every ten if cleaning reads the time at the tick's start, gets calls for its first counter and all rises of the observed counters, which is the last counter exactly when it never fell |
| `MetricsRuns.StoredUntil` | internal/mesh/metrics/server.go:87-105 | a key last observed at a tick when the clean counter became c stays stored for exactly 20 - c ticks, or for ten when c is 0 and the cleaning ten ticks on finds it silent for more than five minutes; clock readings may lie anywhere within their ticks |
| `MetricsRuns.EvictionIsBounded` | internal/mesh/metrics/server.go:87-105 | it is stored before tick t+10, before tick t+11 if ticks clean at their start, and gone by tick t+20, for every run and phase of the counter |
| `Shutdown.GetErrorChannel` | internal/bootstrap/agent.go:92-112 | the capacity counts every send the configured components can make, except the mTLS agent's second one |
| `Shutdown.SendsAreBounded` | internal/bootstrap/agent.go:73-112 | in every interleaving the sends never exceed the capacity, plus one with the mTLS agent |
| `Shutdown.FirstErrorStopsMain` | internal/bootstrap/entry.go:64-76 | while main loops, in every run, any goroutine about to send can, main can take an error that lies in the channel and stops, and a signal stops it |
| `Shutdown.SendsHaveCauses` | internal/mesh/mtls/agent.go:84-101 | in every run a result is sent only after its server returned, an error of its own only by a component that failed before serving or by the mTLS agent after its rotator ended, and the rotator ends only after main stopped |
| `Shutdown.ServersStart` | internal/bootstrap/agent.go:73-90 | in every run a component that is up can serve, and each of its servers can return and then sends its result |
| `Shutdown.SendersDoNotBlock` | internal/bootstrap/entry.go:52-76 | no sender blocks before main stops or after an error; after a signal at most one does, and none without the mTLS agent |
| `Shutdown.SignalCanStrandTheRotator` | internal/mesh/mtls/agent.go:84-101 | for every configuration with the mTLS agent, a run that fills the channel and ends with the rotator's send blocked after a signal |
| `Shutdown.StrandsIffMtls` | internal/bootstrap/agent.go:73-112 | some run leaves a sender blocked if and only if the mTLS agent is configured |
| `Shutdown.BlockedAfterSignalForever` | internal/bootstrap/entry.go:64-75 | a sender blocked after a signal stays blocked in every continuation |

## Left out

- Sockets, HTTP, gRPC, the SDK and DNS exchanges themselves: library calls, present only as arbitrary outcomes.
- Rewriting and truncation of replies before they are written: the DNS library is not part of this model, so the
  final code and size of a message are not claimed.
- Escaped labels and non-ASCII letter case: `dns.Fqdn` and `dns.SplitDomainName` are modelled on names without
  backslashes, `strings.ToLower` on ASCII letters, and strings are sequences of ASCII characters.
- Inputs that panic and are recovered: an empty upstream list when an exchange is due and a name whose first label is
  `_addr` are preconditions.
- Delayed ticks: the runs about eviction have one tick in every 30 seconds, with its clock readings anywhere before the
  next one; a poll that takes longer is not part of them.
- Retries inside `reportStatus` and the truncation of a delay to whole milliseconds: one reported call is one entry
  of the `sent` sequence, with the delay as read.
- `MeshProxy.TwoStageMeaning`: is about one table; when a reload falls between the two stages each stage is covered by
  `MeshProxy.LookupsAgreeWithRegistry` on its own.
- `EnvoyMetrics` keeps the map of values as a field, where the program passes a local map by reference.
- The 30-second forced exit and the wait group: the start of a component does not precede the wait, so no claim is
  made about which components are waited for.
- Certificates, secret discovery and the certificate authority client: of the mTLS agent only its sends are kept.
- Configuration files, environment variables, logging, the debug server's pages and deployment scripts: mostly
  single-field overrides and plumbing.

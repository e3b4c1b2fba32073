# kube-google-safebrowsing reconciler, modelled in Dafny

This project models the domain bookkeeping of kube-google-safebrowsing. That
service lists the cluster's Kubernetes ingresses and reduces each rule host
to a domain (its last two labels). It asks Google Safe Browsing whether any of
those domains, plus a configured list of additional domains, is a known
threat, and exports one Prometheus gauge per domain (1 = threat match,
0 = none or no longer queried). Gauges are created lazily and are never removed.

Modules:

- `Strings` models Go's `strings.Split(s, ".")` and `strings.Join(parts, ".")`.
  They are inverse to each other, splitting always yields at least one label,
  and no label contains a dot.
- `Utils` models `internal/utils.go`: `unique` (order-preserving deduplication)
  and `extractSecondLevelDomain`.
- `Registry` models the gauge registry `Service.Prometheus` as
  `map<string, int>` with values 0 or 1. It covers `PrometheusForTopLevelDomain`
  and the two loops of `UpdateThreadMatchMetrics`.
- `Service` models `internal/service.go`: host canonicalisation, the ingress
  snapshot built by `UpdateIngresses`, the query list and classification of
  `FindThreadMatches`, `UpdateThreadMatchMetrics`, and the synchronous first
  pass of `Run`.
- `Reconcile` models the two periodic loops of `Run` as an arbitrary
  interleaving of ticks. A tick's error is logged and dropped.

The cluster and the threat provider are inputs to the model:

- A namespace listing, or a failure. Each namespace carries its ingress
  listing, or a failure. Each ingress object carries its rule hosts in rule order.
- A lookup response: lists of matched patterns, or a failure. Failing to create
  the client and failing the lookup are the same failure.

Go's map iteration order in the gauge loops of `UpdateThreadMatchMetrics` is
the `order` parameter of `Registry.SetGauges` and `Registry.ApplyMatches`.
`Registry.ApplyMatchesOrderIndependent` proves the resulting registry is the
same for every order. `Service.UpdateThreadMatchMetrics` then passes the query
list as the order.

Points where the code behaves in a way worth spelling out:

- Hosts are canonicalised by the inline last-two-labels rule of
  `UpdateIngresses`, not by `extractSecondLevelDomain`. Nothing in the service
  calls `extractSecondLevelDomain`. The two rules differ only on single-label
  hosts: the inline rule keeps such a host, `extractSecondLevelDomain` returns
  "". A rule without a host (`""`) therefore yields the domain `""`, which is queried.
- Additional domains are queried exactly as configured, without canonicalisation.
- `UpdateThreadMatchMetrics` returns nil when the lookup fails. That makes the
  error check after the first pass of `Run` (internal/service.go:70-72) and the
  error logging in the threat loop (98-100) dead code. The model keeps both
  versions (see Findings). `Service.UpdateThreadMatchMetricsAsWritten` and
  `Service.Initialize` follow the code: a failed lookup reports success and
  start-up goes on. `Service.UpdateThreadMatchMetrics` and
  `Service.InitializeCorrected` carry the evidently intended outcome, in which a
  failed lookup is an error. The state change is the same in both versions.
  `Reconcile` uses the corrected operation; it drops every tick's error anyway,
  so the choice does not affect its results.
- The ingress refresh loop sleeps a fixed minute, not the configured interval.

## Model

| member | source | states |
|---|---|---|
| Strings.Split | internal/utils.go:18 | Splitting on "." yields at least one label. No label contains a dot. `Join`, which models `strings.Join(parts, ".")`, turns the labels back into the input. |
| Strings.SplitJoin | internal/service.go:233-234 | Splitting a join of one or more dot-free labels gives back exactly those labels, so host labels survive a Join/Split round trip. |
| Strings.SplitDot | internal/service.go:233 | Splitting `p + "." + t` yields the labels of `p` followed by the labels of `t`. |
| Strings.TailRoundTrip | internal/service.go:233-234 | Any tail of a host's labels, joined again, splits back into exactly that tail and is a suffix of the host. |
| Strings.SingleLabelIffNoDot | internal/utils.go:18-19 | A string has fewer than two labels exactly when it contains no dot. |
| Utils.Unique | internal/utils.go:5-15 | The result has no duplicates and the same elements as the input. It is no longer than the input. Its elements appear in the order of their first occurrence in the input, at those positions, so it is a subsequence of the input. |
| Utils.UniqueWithSeenKeys | internal/utils.go:6-14 | The Go loop, with a map of seen keys and an appended list, computes exactly `Unique`. |
| Utils.DedupIsUnique | internal/utils.go:8-13 | Two lists with no duplicates, the input's elements and first-occurrence order are equal, so that description fixes the result of `unique` completely. |
| Utils.UniqueOfDistinct | internal/utils.go:8-13 | A list without duplicates is returned unchanged. |
| Utils.UniqueIdempotent | internal/utils.go:5-15 | Deduplicating twice equals deduplicating once. |
| Utils.ExtractLastTwoLabels | internal/utils.go:17-23 | `ExtractSecondLevelDomain` yields "" exactly when the input has fewer than two labels. Otherwise its result's labels are the input's last two labels and it contains exactly one dot. The result is always a suffix of the input. |
| Utils.ExtractIdempotent | internal/utils.go:17-23 | Extracting from an extracted domain changes nothing. |
| Utils.ExtractSameIffSameLastTwoLabels | internal/utils.go:22 | Two multi-label hosts give the same domain exactly when their last two labels are equal. |
| Utils.ExtractSingleLabelExample | internal/utils_test.go:10 | "com" yields "". |
| Utils.ExtractTwoLabelExample | internal/utils_test.go:11 | "domain.com" yields "domain.com". |
| Utils.ExtractOfSubdomain | internal/utils_test.go:12-13 | Whatever precedes the last two labels `a.b` (e.g. "sub" or "sub.sub"), the result is `a.b`. |
| Registry.GaugeFor | internal/service.go:113-135 | After the call the domain has a gauge. An existing gauge is returned with its value. Otherwise exactly one gauge for the domain is added, reading 0. No gauge is lost or changed. |
| Registry.GaugeForIdempotent | internal/service.go:117-119 | A second request for the same domain returns the registry unchanged, so a gauge is created and registered at most once. |
| Registry.SetGauges | internal/service.go:181-188 | For any iteration order, every walked result domain gets a gauge set to 1 if threats were found and 0 otherwise. Gauges of other domains keep their values. The registry only gains keys. |
| Registry.ClearAbsent | internal/service.go:190-201 | No gauge is added or removed. A gauge whose domain is in the lookup result keeps its value. Every other gauge reads 0. |
| Registry.ApplyMatches | internal/service.go:181-201 | Registry keys afterwards are the old keys plus the result's keys. A result domain reads 1 exactly when threats were found, else 0. Every other registered domain reads 0. All values are 0 or 1. |
| Registry.ApplyMatchesOrderIndependent | internal/service.go:181 | The updated registry does not depend on the map iteration order. |
| Registry.ApplyMatchesIdempotent | internal/service.go:181-201 | Applying the same lookup result twice equals applying it once. |
| Registry.ShrinkingResultClears | internal/service.go:190-201 | When a newer lookup result no longer contains a domain, its gauge stays registered and reads 0. |
| Service.NewService | internal/service.go:48-61 | A new service keeps its additional domains and starts with no ingresses and no gauges, so its first query list holds exactly the additional domains. |
| Service.CanonicalHostLabels | internal/service.go:233-234 | `CanonicalHost`, the inline rule, keeps the last min(2, n) labels of an n-label host, and its result is a suffix of the host. |
| Service.CanonicalHostAgreesOnMultiLabel | internal/service.go:233-234 | On hosts with at least two labels the inline rule equals `extractSecondLevelDomain`. |
| Service.CanonicalHostKeepsSingleLabel | internal/service.go:233-234 | A single-label host is kept unchanged, whereas `extractSecondLevelDomain` yields "". A non-empty single label is where the two rules differ. |
| Service.CanonicalHostIdempotent | internal/service.go:233-234 | Canonicalising a canonical domain changes nothing. |
| Service.BuildIngressDomains | internal/service.go:227-246 | `BuildIngress` keeps the namespace and name of an ingress. Its domains have no duplicates and are exactly the canonical forms of the rule hosts. They are in the order of first occurrence among the rules, and each has at most two labels. |
| Service.ListAllIngresses | internal/service.go:221-247 | Fails exactly when some namespace's ingress listing fails. Otherwise it lists exactly the ingress objects of all namespaces. |
| Service.ListAllIngressesOne | internal/service.go:221-247 | A single namespace whose listing succeeded contributes exactly its listed objects, once each and in listing order. |
| Service.ListAllIngressesAppend | internal/service.go:221-247 | Listing two namespace lists one after the other yields the objects of the first followed by those of the second. So the objects are in namespace order. |
| Service.UpdateIngresses | internal/service.go:206-251 | Fails exactly when the namespace listing or some ingress listing fails. On failure the previous snapshot is kept. On success the snapshot holds exactly the ingresses built from the listed objects. Gauges never change. |
| Service.AllDomainsAppend | internal/service.go:140-143 | The domains of two snapshots one after the other are the domains of the first followed by those of the second, so the query list follows snapshot order. |
| Service.AllDomains | internal/service.go:140-143 | The concatenation contains exactly the domains of the snapshot's ingresses. |
| Service.QueryDomains | internal/service.go:140-145 | The query list has no duplicates. It holds exactly the ingress domains and the additional domains, in first-occurrence order of ingress domains followed by additional domains. |
| Service.MatchesAny | internal/service.go:163-169 | True exactly when some match in some returned threat list has the given pattern. |
| Service.Classify | internal/service.go:160-170 | The result has one key per queried domain. A domain maps to true exactly when some returned match has pattern `domain + "/"`. |
| Service.ClassifyIgnoresOtherPatterns | internal/service.go:165 | Adding matches whose patterns are not `d + "/"` for a queried `d` (sub-paths, other hosts) never changes the classification. |
| Service.FindThreadMatches | internal/service.go:137-173 | Fails exactly when the lookup fails. On success the key set is exactly the query list, and each value is true exactly when the pattern `domain + "/"` was matched. |
| Service.UpdateThreadMatchMetrics | internal/service.go:175-204 | If the lookup fails, state is unchanged. Otherwise registry keys become the old keys plus the query list. A gauge reads 1 exactly when its domain was queried and matched. All gauges read 0 or 1. The snapshot is untouched. |
| Service.UpdateThreadMatchMetricsAsWritten | internal/service.go:175-204 | As written, the operation always reports success. Its state change is that of the corrected operation: nothing changes on a failed lookup, and otherwise the gauges reflect the lookup. |
| Service.LookupErrorSwallowed | internal/service.go:176-179 | As written, a failed lookup leaves the state unchanged and reports success. The corrected operation reports the lookup error. |
| Service.Initialize | internal/service.go:67-72 | As written, the first pass fails exactly when the ingress listing fails, and then keeps the old state. After a passing pass the snapshot is the one built from the cluster listing. A failed lookup does not abort start-up and leaves the gauges unchanged. After a successful lookup, the registry holds exactly the old gauges plus one per queried domain of the new snapshot, and every value is 0 or 1. Exactly the queried, matched domains read 1. The additional domains are kept. |
| Service.InitializeCorrected | internal/service.go:67-72 | With the lookup error returned, the first pass succeeds exactly when both the ingress listing and the lookup succeed. A failed listing keeps the old state. Once the listing succeeded, the snapshot is the one built from the cluster listing. After a passing pass, the registry holds exactly the old gauges plus one per queried domain of that snapshot, and every value is 0 or 1. Exactly the queried, matched domains read 1. The additional domains are kept. |
| Service.InitializeStartsDespiteLookupError | internal/service.go:67-72 | After a successful listing, a failed first lookup lets the as-written start-up go on but aborts the corrected one. Both reach the same state. |
| Service.SingleIngressGauge | internal/service.go:175-201 | Starting with no gauges, for a snapshot of one ingress with one domain and no additional domains, that domain is the only gauge after a successful lookup. It reads 1 when `domain + "/"` was matched, else 0. |
| Reconcile.Step | internal/service.go:87-103 | One tick of either loop never unregisters a gauge and keeps gauge values 0 or 1. It changes gauge values only on a successful lookup. A threat tick never touches the snapshot. |
| Reconcile.Run | internal/service.go:87-103 | For any interleaving of ticks: the registry only grows and gauges stay 0 or 1. Without a successful lookup every gauge keeps its value, so stale values persist. |
| Reconcile.VanishedDomainCleared | internal/service.go:190-201 | A registered domain that is no longer queried after an ingress refresh stays registered and reads 0 after the next successful lookup. |
| Reconcile.FailedLookupKeepsGauges | internal/service.go:176-179 | A failed lookup after a successful one leaves every gauge as the successful one set it. |

## Left out

- `Run` (internal/service.go:63-111): the goroutines, the `/metrics` HTTP server on port 1024, the sleeps (one minute for ingresses, the configured interval for lookups) and the signal select. These are concurrency, timing and I/O. The two loops appear only as arbitrary interleavings of ticks, and the first synchronous pass as `Service.Initialize`.
- The mutex `s.mu`, the unlocked walk of `s.Prometheus` in `UpdateThreadMatchMetrics`, and the unlocked read of `s.Ingresses` in `FindThreadMatches` (internal/service.go:140-143), while `UpdateIngresses` replaces the snapshot under the lock (209-210, 248). These are concurrency. Each operation is modelled as atomic.
- The Kubernetes clientset and the Safe Browsing client, including their 30-second timeouts and the API key. They are external calls, so they are inputs here.
- The alignment of Safe Browsing's answer lists with the queried URLs. The code ignores it and scans every list, and the model does the same.
- Prometheus gauge construction, `MustRegister` and the gauge name and labels. These are library calls. A gauge is a map entry holding an integer 0 or 1 instead of a float64. A fresh gauge reads 0.
- Logging (`Debug`, `Info`, `Error`). This is I/O.
- `NewService`'s clientset creation error. `Service.NewService` models only the empty initial state.
- `cmd/root.go`: flags, environment variable, kubeconfig loading, signal wiring. This is plumbing.
- `internal/service_test.go`. It needs a live cluster, uses identifiers that service.go does not define, and expects a domain that contradicts the last-two-labels rule.
- Service.UpdateIngresses: the contract states which ingresses the snapshot holds, not their order. The order of the listed objects (namespace order, then listing order, one entry per object) is fixed by Service.ListAllIngressesOne together with Service.ListAllIngressesAppend. Service.BuildAll then builds one ingress per object, index by index.

## Findings

| source | as written | input that shows it | evidently intended | confidence | as-written member | corrected member |
|---|---|---|---|---|---|---|
| internal/service.go:176-179 | `if err != nil { return nil }`: the error of `FindThreadMatches` is discarded and success is returned | any failed lookup (bad API key, provider unreachable): `UpdateThreadMatchMetrics` returns nil. `Run`'s first pass (67-72) then goes live with no gauges, and the loop (98-100) never logs the failure. The checks at 70-72 and 98-100 can never fire | `return err`, so the checks `Run` already makes at 70-72 and 98-100 take effect: start-up aborts on a failed first lookup and later failures are logged | high, not executed | Service.LookupErrorSwallowed, Service.UpdateThreadMatchMetricsAsWritten, Service.Initialize | Service.UpdateThreadMatchMetrics, Service.InitializeCorrected |

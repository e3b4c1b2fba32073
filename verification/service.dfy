/**
  The reconciler's bookkeeping (`internal/service.go`): turning the cluster's
  ingress hosts into a snapshot of per-ingress domains, building the query
  list, classifying the provider's threat matches per domain, and driving the
  gauge registry from that classification.

  The cluster and the threat provider are inputs: a namespace listing (each
  namespace with its ingress listing, either of which may fail) and a lookup
  response (lists of matched patterns, or a failure).
 */
module Service {
  import opened Strings
  import opened Utils
  import opened Results
  import Registry

  /** `ServiceIngress`: one ingress of the snapshot with its deduplicated domains. */
  datatype Ingress = Ingress(namespace: string, name: string, topLevelDomains: seq<string>)

  /** An ingress object as listed by the cluster: its metadata and the host of each rule, in rule order. */
  datatype IngressObject = IngressObject(namespace: string, name: string, hosts: seq<string>)

  /** The answer of a cluster list call. */
  datatype Listing<T> = Listed(items: seq<T>) | ListFailed

  /** A namespace together with the answer of listing its ingresses. */
  datatype NamespaceListing = NamespaceListing(name: string, ingresses: Listing<IngressObject>)

  /** A threat match returned by the provider; only its pattern is inspected. */
  datatype ThreatMatch = ThreatMatch(pattern: string)

  /** The provider's answer: per queried URL a list of matches, or a failure
      (of creating the client or of the lookup itself). */
  datatype LookupResponse = Threats(lists: seq<seq<ThreatMatch>>) | LookupError

  /** The service state: the configured additional domains, the ingress
      snapshot and the gauge registry. */
  datatype Service = Service(additionalDomains: seq<string>, ingresses: seq<Ingress>, gauges: Registry.Registry)

  /** The state after an operation together with the error it returned. */
  datatype StepResult = StepResult(service: Service, outcome: Outcome)

  /** `NewService`: no ingresses and no gauges yet, so the first lookup
      queries exactly the configured additional domains. */
  function NewService(additionalDomains: seq<string>): (s: Service)
    ensures s.additionalDomains == additionalDomains
    ensures |s.ingresses| == 0 && |s.gauges| == 0
    ensures forall d :: d in QueryDomains(s) <==> d in additionalDomains
  {
    Service(additionalDomains, [], map[])
  }

  // ---------------------------------------------------------------------------
  // Host canonicalisation and the ingress snapshot

  function Min(a: nat, b: nat): nat {
    if a <= b then a else b
  }

  /** The rule of `UpdateIngresses` that turns a rule host into a domain: keep
      the last two labels, or the whole host when it has fewer. */
  function CanonicalHost(host: string): string
  {
    var segments := Split(host);
    Join(segments[if |segments| >= 2 then |segments| - 2 else 0..])
  }

  /** The canonical domain consists of the last min(2, n) labels of an
      n-label host and is a suffix of it. */
  lemma CanonicalHostLabels(host: string)
    ensures |Split(CanonicalHost(host))| == Min(2, |Split(host)|)
    ensures Split(CanonicalHost(host)) == Split(host)[|Split(host)| - Min(2, |Split(host)|)..]
    ensures IsSuffix(CanonicalHost(host), host)
  {
    var segments := Split(host);
    var k := |segments| - Min(2, |segments|);
    assert CanonicalHost(host) == Join(segments[k..]);
    TailRoundTrip(segments, k);
  }

  /** On hosts with at least two labels the inline rule and `extractSecondLevelDomain` agree. */
  lemma CanonicalHostAgreesOnMultiLabel(host: string)
    requires !IsLabel(host)
    ensures CanonicalHost(host) == ExtractSecondLevelDomain(host)
  {
    SingleLabelIffNoDot(host);
  }

  /** On a single-label host they differ: the inline rule keeps the host,
      `extractSecondLevelDomain` yields the empty string. */
  lemma CanonicalHostKeepsSingleLabel(host: string)
    requires IsLabel(host)
    ensures CanonicalHost(host) == host
    ensures ExtractSecondLevelDomain(host) == ""
    ensures host != "" ==> CanonicalHost(host) != ExtractSecondLevelDomain(host)
  {
    SingleLabelIffNoDot(host);
    assert Split(host)[0..] == Split(host);
  }

  /** A canonical domain is its own canonical form. */
  lemma CanonicalHostIdempotent(host: string)
    ensures CanonicalHost(CanonicalHost(host)) == CanonicalHost(host)
  {
    var d := CanonicalHost(host);
    CanonicalHostLabels(host);
    assert Split(d)[0..] == Split(d);
  }

  /** The rule hosts of an ingress, canonicalised, in rule order. */
  function CanonicalHosts(hosts: seq<string>): (ds: seq<string>)
    ensures |ds| == |hosts|
    ensures forall i :: 0 <= i < |hosts| ==> ds[i] == CanonicalHost(hosts[i])
    ensures forall d :: d in ds <==> exists h :: h in hosts && d == CanonicalHost(h)
  {
    var ds := seq(|hosts|, i requires 0 <= i < |hosts| => CanonicalHost(hosts[i]));
    assert forall d :: d in ds <==> exists h :: h in hosts && d == CanonicalHost(h) by {
      forall d
        ensures d in ds <==> exists h :: h in hosts && d == CanonicalHost(h)
      {
        if d in ds {
          var i :| 0 <= i < |ds| && ds[i] == d;
          assert hosts[i] in hosts;
        }
        if exists h :: h in hosts && d == CanonicalHost(h) {
          var h :| h in hosts && d == CanonicalHost(h);
          var i :| 0 <= i < |hosts| && hosts[i] == h;
          assert ds[i] == d;
        }
      }
    }
    ds
  }

  /** One `ServiceIngress` of the snapshot: the object's metadata and the
      deduplicated canonical domains of its rules. */
  function BuildIngress(o: IngressObject): Ingress
  {
    Ingress(o.namespace, o.name, Unique(CanonicalHosts(o.hosts)))
  }

  /** An ingress keeps its metadata; its domains are the canonical forms of its
      rule hosts, each once, in rule order of first occurrence, and have at
      most two labels each. */
  lemma BuildIngressDomains(o: IngressObject)
    ensures BuildIngress(o).namespace == o.namespace && BuildIngress(o).name == o.name
    ensures NoDuplicates(BuildIngress(o).topLevelDomains)
    ensures forall d :: d in BuildIngress(o).topLevelDomains <==> exists h :: h in o.hosts && d == CanonicalHost(h)
    ensures FirstOccurrenceOrder(BuildIngress(o).topLevelDomains, CanonicalHosts(o.hosts))
    ensures forall d :: d in BuildIngress(o).topLevelDomains ==> |Split(d)| <= 2
  {
    forall h | h in o.hosts
      ensures |Split(CanonicalHost(h))| <= 2
    {
      CanonicalHostLabels(h);
    }
  }

  /** The snapshot entries of one namespace's ingresses, in listing order. */
  function BuildAll(objects: seq<IngressObject>): (gs: seq<Ingress>)
    ensures |gs| == |objects|
    ensures forall j :: 0 <= j < |objects| ==> gs[j] == BuildIngress(objects[j])
    ensures forall o :: o in objects ==> BuildIngress(o) in gs
    ensures forall g :: g in gs ==> exists o :: o in objects && g == BuildIngress(o)
  {
    var gs := seq(|objects|, j requires 0 <= j < |objects| => BuildIngress(objects[j]));
    forall g | g in gs
      ensures exists o :: o in objects && g == BuildIngress(o)
    {
      var j :| 0 <= j < |gs| && gs[j] == g;
      assert objects[j] in objects;
    }
    forall o | o in objects
      ensures BuildIngress(o) in gs
    {
      var j :| 0 <= j < |objects| && objects[j] == o;
      assert gs[j] == BuildIngress(o);
    }
    gs
  }

  /** `o` is an ingress object in a successful namespace listing of `nss`. */
  ghost predicate InListing(nss: seq<NamespaceListing>, o: IngressObject) {
    exists i :: 0 <= i < |nss| && nss[i].ingresses.Listed? && o in nss[i].ingresses.items
  }

  /** Some namespace's ingress listing failed. */
  predicate SomeListingFailed(nss: seq<NamespaceListing>) {
    exists i :: 0 <= i < |nss| && nss[i].ingresses.ListFailed?
  }

  /** The loops of `UpdateIngresses` over namespaces and their ingresses:
      every listed ingress object in namespace order, then listing order, or
      an error as soon as one namespace's ingress listing fails. */
  function ListAllIngresses(nss: seq<NamespaceListing>): (r: Result<seq<IngressObject>>)
    ensures r.Err? <==> SomeListingFailed(nss)
    ensures r.Err? ==> r.error == ClusterListFailed
    ensures r.Ok? ==> forall o :: o in r.value <==> InListing(nss, o)
    decreases |nss|
  {
    if |nss| == 0 then Ok([])
    else
      match nss[0].ingresses
      case ListFailed => Err(ClusterListFailed)
      case Listed(objects) =>
        var rest := ListAllIngresses(nss[1..]);
        ShiftListings(nss);
        match rest
        case Err(e) => Err(e)
        case Ok(later) => Ok(objects + later)
  }

  /** Failures and listed objects of `nss` are those of its head and of its tail. */
  lemma ShiftListings(nss: seq<NamespaceListing>)
    requires |nss| > 0
    ensures SomeListingFailed(nss) <==> nss[0].ingresses.ListFailed? || SomeListingFailed(nss[1..])
    ensures forall o :: InListing(nss, o) <==>
      (nss[0].ingresses.Listed? && o in nss[0].ingresses.items) || InListing(nss[1..], o)
  {
    if SomeListingFailed(nss) {
      var i :| 0 <= i < |nss| && nss[i].ingresses.ListFailed?;
      if i > 0 {
        assert nss[1..][i - 1] == nss[i];
      }
    }
    if SomeListingFailed(nss[1..]) {
      var i :| 0 <= i < |nss| - 1 && nss[1..][i].ingresses.ListFailed?;
      assert nss[i + 1] == nss[1..][i];
    }
    forall o
      ensures InListing(nss, o) <==>
        (nss[0].ingresses.Listed? && o in nss[0].ingresses.items) || InListing(nss[1..], o)
    {
      if InListing(nss, o) {
        var i :| 0 <= i < |nss| && nss[i].ingresses.Listed? && o in nss[i].ingresses.items;
        if i > 0 {
          assert nss[1..][i - 1] == nss[i];
        }
      }
      if InListing(nss[1..], o) {
        var i :| 0 <= i < |nss| - 1 && nss[1..][i].ingresses.Listed? && o in nss[1..][i].ingresses.items;
        assert nss[i + 1] == nss[1..][i];
      }
    }
  }

  /** A single namespace whose listing succeeded contributes exactly its
      listed objects, once each and in listing order. */
  lemma ListAllIngressesOne(n: NamespaceListing)
    requires n.ingresses.Listed?
    ensures ListAllIngresses([n]) == Ok(n.ingresses.items)
  {
    assert [n][1..] == [];
    assert n.ingresses.items + [] == n.ingresses.items;
  }

  /** Listing two namespace lists one after the other yields the objects of
      the first followed by those of the second. */
  lemma {:induction false} ListAllIngressesAppend(a: seq<NamespaceListing>, b: seq<NamespaceListing>)
    requires ListAllIngresses(a).Ok? && ListAllIngresses(b).Ok?
    ensures ListAllIngresses(a + b) == Ok(ListAllIngresses(a).value + ListAllIngresses(b).value)
    decreases |a|
  {
    if |a| == 0 {
      assert a + b == b;
      assert ListAllIngresses(a).value == [];
      assert [] + ListAllIngresses(b).value == ListAllIngresses(b).value;
    } else {
      var ab := a + b;
      var here := a[0].ingresses.items;
      assert a[0].ingresses == Listed(here);
      assert ab[0] == a[0];
      assert ab[1..] == a[1..] + b;
      ListAllIngressesAppend(a[1..], b);
      var x, y := ListAllIngresses(a[1..]).value, ListAllIngresses(b).value;
      var xy, hx := x + y, here + x;
      assert here + xy == hx + y by {
        assert |here + xy| == |hx + y|;
        forall i | 0 <= i < |hx + y|
          ensures (here + xy)[i] == (hx + y)[i]
        {
        }
      }
      assert ListAllIngresses(ab[1..]) == Ok(xy);
      assert ListAllIngresses(a).value == hx;
    }
  }

  /** `UpdateIngresses`: list the namespaces, then each namespace's ingresses.
      Any failed listing returns an error and keeps the previous snapshot; the
      snapshot is replaced only after every listing succeeded. */
  function UpdateIngresses(s: Service, cluster: Listing<NamespaceListing>): (r: StepResult)
    ensures r.outcome.Fail? <==> cluster.ListFailed? || SomeListingFailed(cluster.items)
    ensures r.outcome.Fail? ==> r.service == s && r.outcome.error == ClusterListFailed
    ensures r.service.gauges == s.gauges && r.service.additionalDomains == s.additionalDomains
    ensures r.outcome.Pass? ==> forall o :: InListing(cluster.items, o) ==> BuildIngress(o) in r.service.ingresses
    ensures r.outcome.Pass? ==> forall g :: g in r.service.ingresses ==>
      exists o :: InListing(cluster.items, o) && g == BuildIngress(o)
  {
    match cluster
    case ListFailed => StepResult(s, Fail(ClusterListFailed))
    case Listed(namespaces) =>
      match ListAllIngresses(namespaces)
      case Err(e) => StepResult(s, Fail(e))
      case Ok(objects) =>
        var ingresses := BuildAll(objects);
        StepResult(s.(ingresses := ingresses), Pass)
  }

  // ---------------------------------------------------------------------------
  // The query list and the classification of threat matches

  /** The domains of all ingresses, concatenated in snapshot order. */
  function AllDomains(ingresses: seq<Ingress>): (ds: seq<string>)
    ensures forall d :: d in ds <==> exists k :: 0 <= k < |ingresses| && d in ingresses[k].topLevelDomains
    decreases |ingresses|
  {
    if |ingresses| == 0 then []
    else
      var rest := AllDomains(ingresses[1..]);
      assert forall k :: 0 < k < |ingresses| ==> ingresses[k] == ingresses[1..][k - 1];
      forall d | d in rest
        ensures exists k :: 0 <= k < |ingresses| && d in ingresses[k].topLevelDomains
      {
        var k :| 0 <= k < |ingresses| - 1 && d in ingresses[1..][k].topLevelDomains;
        assert d in ingresses[k + 1].topLevelDomains;
      }
      ingresses[0].topLevelDomains + rest
  }

  /** The concatenation follows the snapshot order: the domains of a snapshot
      split in two are those of the first part followed by those of the second. */
  lemma {:induction false} AllDomainsAppend(a: seq<Ingress>, b: seq<Ingress>)
    ensures AllDomains(a + b) == AllDomains(a) + AllDomains(b)
    decreases |a|
  {
    if |a| > 0 {
      assert (a + b)[0] == a[0];
      assert (a + b)[1..] == a[1..] + b;
      AllDomainsAppend(a[1..], b);
      var h, x, y := a[0].topLevelDomains, AllDomains(a[1..]), AllDomains(b);
      assert h + (x + y) == (h + x) + y;
    } else {
      assert a + b == b;
    }
  }

  /** The query list of `FindThreadMatches`: ingress domains, then the
      additional domains, deduplicated in first-occurrence order. */
  function QueryDomains(s: Service): (q: seq<string>)
    ensures NoDuplicates(q)
    ensures forall d :: d in q <==>
      (exists k :: 0 <= k < |s.ingresses| && d in s.ingresses[k].topLevelDomains) || d in s.additionalDomains
    ensures FirstOccurrenceOrder(q, AllDomains(s.ingresses) + s.additionalDomains)
  {
    Unique(AllDomains(s.ingresses) + s.additionalDomains)
  }

  /** Some match of one returned list has pattern `p`. */
  function MatchesIn(matches: seq<ThreatMatch>, p: string): (b: bool)
    ensures b <==> exists j :: 0 <= j < |matches| && matches[j].pattern == p
    decreases |matches|
  {
    if |matches| == 0 then false
    else matches[0].pattern == p || MatchesIn(matches[1..], p)
  }

  /** Some match of some returned list has pattern `p`. */
  function MatchesAny(threats: seq<seq<ThreatMatch>>, p: string): (b: bool)
    ensures b <==> exists i, j :: 0 <= i < |threats| && 0 <= j < |threats[i]| && threats[i][j].pattern == p
    decreases |threats|
  {
    if |threats| == 0 then false
    else
      var rest := MatchesAny(threats[1..], p);
      assert forall i :: 0 < i < |threats| ==> threats[i] == threats[1..][i - 1];
      MatchesIn(threats[0], p) || rest
  }

  /** A domain is flagged when some returned match has exactly the pattern
      `domain + "/"`; every other pattern is ignored. */
  ghost predicate Flagged(threats: seq<seq<ThreatMatch>>, domain: string) {
    exists i, j :: 0 <= i < |threats| && 0 <= j < |threats[i]| && threats[i][j].pattern == domain + "/"
  }

  /** The result map of `FindThreadMatches`: one entry per queried domain. */
  function Classify(domains: seq<string>, threats: seq<seq<ThreatMatch>>): (result: map<string, bool>)
    ensures forall d :: d in result <==> d in domains
    ensures forall d :: d in result ==> (result[d] <==> Flagged(threats, d))
  {
    map d | d in domains :: MatchesAny(threats, d + "/")
  }

  /** Matches whose pattern is not `d + "/"` for a queried `d` (sub-paths,
      other hosts) never change the classification. */
  lemma ClassifyIgnoresOtherPatterns(domains: seq<string>, threats: seq<seq<ThreatMatch>>, extra: seq<ThreatMatch>)
    requires forall d :: d in domains ==> !MatchesIn(extra, d + "/")
    ensures Classify(domains, threats + [extra]) == Classify(domains, threats)
  {
    var t := threats + [extra];
    forall d | d in domains
      ensures Flagged(t, d) <==> Flagged(threats, d)
    {
      if Flagged(t, d) {
        var i, j :| 0 <= i < |t| && 0 <= j < |t[i]| && t[i][j].pattern == d + "/";
        if i < |threats| {
          assert threats[i][j] == t[i][j];
        }
      }
      if Flagged(threats, d) {
        var i, j :| 0 <= i < |threats| && 0 <= j < |threats[i]| && threats[i][j].pattern == d + "/";
        assert t[i][j] == threats[i][j];
      }
    }
  }

  /** `FindThreadMatches`: query the provider for the query list and classify
      every queried domain; a failed lookup is an error. */
  function FindThreadMatches(s: Service, response: LookupResponse): (r: Result<map<string, bool>>)
    ensures r.Err? <==> response.LookupError?
    ensures r.Err? ==> r.error == LookupFailed
    ensures r.Ok? ==> forall d :: d in r.value <==> d in QueryDomains(s)
    ensures r.Ok? ==> forall d :: d in r.value ==> (r.value[d] <==> Flagged(response.lists, d))
  {
    match response
    case LookupError => Err(LookupFailed)
    case Threats(lists) => Ok(Classify(QueryDomains(s), lists))
  }

  // ---------------------------------------------------------------------------
  // Updating the gauges

  /** The gauges after a successful lookup reflect it: exactly the gauges of
      queried, flagged domains read 1. */
  ghost predicate ReflectsLookup(s: Service, threats: seq<seq<ThreatMatch>>, gauges: Registry.Registry) {
    && (forall d :: d in QueryDomains(s) ==> d in gauges)
    && forall d :: d in gauges ==>
         (gauges[d] == 1 <==> d in QueryDomains(s) && Flagged(threats, d))
  }

  /** `UpdateThreadMatchMetrics` with the lookup error returned to the caller.
      On a failed lookup nothing changes; otherwise every queried domain gets
      a gauge reading 1 or 0 and every other registered gauge reads 0. */
  function UpdateThreadMatchMetrics(s: Service, response: LookupResponse): (r: StepResult)
    ensures r.outcome.Fail? <==> response.LookupError?
    ensures response.LookupError? ==> r.service == s
    ensures r.service.ingresses == s.ingresses && r.service.additionalDomains == s.additionalDomains
    ensures Registry.Retains(s.gauges, r.service.gauges)
    ensures response.Threats? ==> r.service.gauges.Keys == s.gauges.Keys + set d | d in QueryDomains(s)
    ensures response.Threats? ==> ReflectsLookup(s, response.lists, r.service.gauges)
    ensures response.Threats? ==> Registry.WellFormed(r.service.gauges)
    ensures Registry.WellFormed(s.gauges) ==> Registry.WellFormed(r.service.gauges)
  {
    match FindThreadMatches(s, response)
    case Err(e) => StepResult(s, Fail(e))
    case Ok(result) => StepResult(s.(gauges := Registry.ApplyMatches(s.gauges, result, QueryDomains(s))), Pass)
  }

  /** `UpdateThreadMatchMetrics` as written: the state change is that of the
      corrected operation, but a failed lookup is reported as success. */
  function UpdateThreadMatchMetricsAsWritten(s: Service, response: LookupResponse): (r: StepResult)
    ensures r.outcome == Pass
    ensures r.service == UpdateThreadMatchMetrics(s, response).service
    ensures response.LookupError? ==> r.service == s
    ensures response.Threats? ==> ReflectsLookup(s, response.lists, r.service.gauges)
  {
    StepResult(UpdateThreadMatchMetrics(s, response).service, Pass)
  }

  /** The discrepancy: a failed lookup leaves the gauges stale and still reports success. */
  lemma LookupErrorSwallowed(s: Service)
    ensures UpdateThreadMatchMetricsAsWritten(s, LookupError) == StepResult(s, Pass)
    ensures UpdateThreadMatchMetrics(s, LookupError) == StepResult(s, Fail(LookupFailed))
  {
  }

  /** The synchronous first pass of `Run` as written: refresh the snapshot,
      then the gauges. Only a failed listing aborts start-up; a failed lookup
      is swallowed, so start-up goes on with the gauges as they were. */
  function Initialize(s: Service, cluster: Listing<NamespaceListing>, response: LookupResponse): (r: StepResult)
    ensures r.outcome.Pass? <==> UpdateIngresses(s, cluster).outcome.Pass?
    ensures r.outcome.Fail? ==> r.service == s && r.outcome.error == ClusterListFailed
    ensures r.outcome.Pass? && response.Threats? ==> ReflectsLookup(r.service, response.lists, r.service.gauges)
    ensures response.LookupError? ==> r.service.gauges == s.gauges
    ensures r.outcome.Pass? && response.Threats? ==> r.service.gauges.Keys == s.gauges.Keys + set d | d in QueryDomains(r.service)
    ensures r.outcome.Pass? && response.Threats? ==> Registry.WellFormed(r.service.gauges)
    ensures r.outcome.Pass? ==> r.service.ingresses == UpdateIngresses(s, cluster).service.ingresses
    ensures Registry.Retains(s.gauges, r.service.gauges)
    ensures r.service.additionalDomains == s.additionalDomains
  {
    var afterIngresses := UpdateIngresses(s, cluster);
    if afterIngresses.outcome.Fail? then afterIngresses
    else UpdateThreadMatchMetricsAsWritten(afterIngresses.service, response)
  }

  /** The first pass with the lookup error returned: either error aborts
      start-up, and after a successful pass the gauges reflect the lookup. */
  function InitializeCorrected(s: Service, cluster: Listing<NamespaceListing>, response: LookupResponse): (r: StepResult)
    ensures r.outcome.Pass? <==> UpdateIngresses(s, cluster).outcome.Pass? && response.Threats?
    ensures r.outcome.Pass? ==> ReflectsLookup(r.service, response.lists, r.service.gauges)
    ensures r.outcome.Pass? ==> r.service.gauges.Keys == s.gauges.Keys + set d | d in QueryDomains(r.service)
    ensures r.outcome.Pass? ==> Registry.WellFormed(r.service.gauges)
    ensures UpdateIngresses(s, cluster).outcome.Fail? ==> r.service == s
    ensures UpdateIngresses(s, cluster).outcome.Pass? ==> r.service.ingresses == UpdateIngresses(s, cluster).service.ingresses
    ensures Registry.Retains(s.gauges, r.service.gauges)
    ensures r.service.additionalDomains == s.additionalDomains
  {
    var afterIngresses := UpdateIngresses(s, cluster);
    if afterIngresses.outcome.Fail? then afterIngresses
    else UpdateThreadMatchMetrics(afterIngresses.service, response)
  }

  /** Both first passes reach the same state; they differ only in whether a
      failed lookup aborts start-up. */
  lemma InitializeStartsDespiteLookupError(s: Service, cluster: Listing<NamespaceListing>)
    requires UpdateIngresses(s, cluster).outcome.Pass?
    ensures Initialize(s, cluster, LookupError).outcome == Pass
    ensures InitializeCorrected(s, cluster, LookupError).outcome == Fail(LookupFailed)
    ensures Initialize(s, cluster, LookupError).service == InitializeCorrected(s, cluster, LookupError).service
  {
  }

  /** A snapshot of one ingress with one domain and no additional domains:
      after a successful lookup exactly that domain has a gauge, reading 1
      when the provider matched `domain + "/"` and 0 otherwise. */
  lemma SingleIngressGauge(namespace: string, name: string, domain: string, threats: seq<seq<ThreatMatch>>)
    ensures var s := Service([], [Ingress(namespace, name, [domain])], map[]);
            var gauges := UpdateThreadMatchMetrics(s, Threats(threats)).service.gauges;
            && gauges.Keys == {domain}
            && gauges[domain] == (if Flagged(threats, domain) then 1 else 0)
  {
    var s := Service([], [Ingress(namespace, name, [domain])], map[]);
    assert forall d :: d in QueryDomains(s) <==> d == domain by {
      forall d
        ensures d in QueryDomains(s) <==> d == domain
      {
        assert d in s.ingresses[0].topLevelDomains <==> d == domain;
      }
    }
  }
}

/**
  The two periodic loops of the reconciler, as an arbitrary interleaving of
  their ticks: an ingress refresh re-lists the cluster, a threat refresh
  looks the query list up and updates the gauges. A tick's error is logged
  and the loop carries on, so only the state is threaded through.
 */
module Reconcile {
  import opened Service
  import Registry

  datatype Tick = IngressRefresh(cluster: Listing<NamespaceListing>) | ThreatRefresh(response: LookupResponse)

  /** A tick that can change gauge values: a threat refresh whose lookup succeeded. */
  predicate UpdatesGauges(t: Tick) {
    t.ThreatRefresh? && t.response.Threats?
  }

  /** One tick of either loop; its error, if any, is only logged. */
  function Step(s: Service, t: Tick): (s': Service)
    ensures Registry.Retains(s.gauges, s'.gauges)
    ensures s'.additionalDomains == s.additionalDomains
    ensures Registry.WellFormed(s.gauges) ==> Registry.WellFormed(s'.gauges)
    ensures !UpdatesGauges(t) ==> s'.gauges == s.gauges
    ensures t.ThreatRefresh? ==> s'.ingresses == s.ingresses
  {
    match t
    case IngressRefresh(cluster) => UpdateIngresses(s, cluster).service
    case ThreatRefresh(response) => UpdateThreadMatchMetrics(s, response).service
  }

  /** Any interleaving of ticks: gauges are never unregistered, always read 0
      or 1, and keep their values until a lookup succeeds. */
  function Run(s: Service, ticks: seq<Tick>): (s': Service)
    ensures Registry.Retains(s.gauges, s'.gauges)
    ensures s'.additionalDomains == s.additionalDomains
    ensures Registry.WellFormed(s.gauges) ==> Registry.WellFormed(s'.gauges)
    ensures (forall i :: 0 <= i < |ticks| ==> !UpdatesGauges(ticks[i])) ==> s'.gauges == s.gauges
    decreases |ticks|
  {
    if |ticks| == 0 then s
    else
      assert forall i :: 0 < i < |ticks| ==> ticks[1..][i - 1] == ticks[i];
      Run(Step(s, ticks[0]), ticks[1..])
  }

  /** A registered domain that is no longer queried after an ingress refresh
      reads 0 after the next successful lookup, and stays registered. */
  lemma VanishedDomainCleared(s: Service, cluster: Listing<NamespaceListing>, threats: seq<seq<ThreatMatch>>, d: string)
    requires d in s.gauges
    requires d !in QueryDomains(Step(s, IngressRefresh(cluster)))
    ensures d in Step(Step(s, IngressRefresh(cluster)), ThreatRefresh(Threats(threats))).gauges
    ensures Step(Step(s, IngressRefresh(cluster)), ThreatRefresh(Threats(threats))).gauges[d] == 0
  {
  }

  /** A failed lookup after a successful one leaves every gauge as it was. */
  lemma FailedLookupKeepsGauges(s: Service, threats: seq<seq<ThreatMatch>>)
    ensures Step(Step(s, ThreatRefresh(Threats(threats))), ThreatRefresh(LookupError)).gauges
         == Step(s, ThreatRefresh(Threats(threats))).gauges
  {
  }
}

/**
  The per-domain gauge registry of the service (`Service.Prometheus`).

  A gauge is identified by its domain label and holds 0 (no threat match or
  cleared) or 1 (threat match). Gauges are created lazily and never removed.
 */
module Registry {

  /** Domain label -> current gauge value. */
  type Registry = map<string, int>

  /** Every exported gauge reads 0 or 1. */
  predicate WellFormed(reg: Registry) {
    forall d :: d in reg ==> reg[d] == 0 || reg[d] == 1
  }

  /** `reg'` keeps every gauge of `reg` (possibly with a new value). */
  predicate Retains(reg: Registry, reg': Registry) {
    reg.Keys <= reg'.Keys
  }

  /** The value a gauge is set to for a lookup answer. */
  function Indicator(threatsFound: bool): (v: int)
    ensures v == 1 <==> threatsFound
    ensures v == 0 || v == 1
  {
    if threatsFound then 1 else 0
  }

  /** `PrometheusForTopLevelDomain`: the gauge for `domain`, created (reading 0,
      as a fresh Prometheus gauge does) and registered only if it is missing. */
  function GaugeFor(reg: Registry, domain: string): (reg': Registry)
    ensures domain in reg'
    ensures reg'.Keys == reg.Keys + {domain}
    ensures forall d :: d in reg ==> reg'[d] == reg[d]
    ensures domain !in reg ==> reg'[domain] == 0
  {
    if domain in reg then reg else reg[domain := 0]
  }

  /** Asking for a gauge twice creates it at most once. */
  lemma GaugeForIdempotent(reg: Registry, domain: string)
    ensures GaugeFor(GaugeFor(reg, domain), domain) == GaugeFor(reg, domain)
    ensures domain in reg ==> GaugeFor(reg, domain) == reg
  {
  }

  /** The first loop of `UpdateThreadMatchMetrics`: walk the lookup result in
      `order` (Go's map iteration order), fetch or create each domain's gauge
      and set it to 1 or 0. */
  function SetGauges(reg: Registry, result: map<string, bool>, order: seq<string>): (reg': Registry)
    requires forall d :: d in order ==> d in result
    ensures reg'.Keys == reg.Keys + set d | d in order
    ensures forall d :: d in order ==> reg'[d] == Indicator(result[d])
    ensures forall d :: d in reg && d !in order ==> reg'[d] == reg[d]
    decreases |order|
  {
    if |order| == 0 then reg
    else
      var d := order[0];
      var withGauge := GaugeFor(reg, d);
      var rest := SetGauges(withGauge[d := Indicator(result[d])], result, order[1..]);
      assert forall e :: e in order <==> e == d || e in order[1..];
      rest
  }

  /** The second loop of `UpdateThreadMatchMetrics`: every registered gauge
      whose domain is absent from the lookup result is set to 0. */
  function ClearAbsent(reg: Registry, result: map<string, bool>): (reg': Registry)
    ensures reg'.Keys == reg.Keys
    ensures forall d :: d in reg && d in result ==> reg'[d] == reg[d]
    ensures forall d :: d in reg' && d !in result ==> reg'[d] == 0
  {
    map d | d in reg :: if d in result then reg[d] else 0
  }

  /** Both loops together. For whatever iteration order, the registry
      afterwards holds the old gauges plus one per result domain; a result
      domain reads 1 exactly when a threat was found; every other gauge reads 0. */
  function ApplyMatches(reg: Registry, result: map<string, bool>, order: seq<string>): (reg': Registry)
    requires forall d :: d in order <==> d in result
    ensures reg'.Keys == reg.Keys + result.Keys
    ensures forall d :: d in result ==> reg'[d] == Indicator(result[d])
    ensures forall d :: d in reg' && d !in result ==> reg'[d] == 0
    ensures WellFormed(reg')
  {
    ClearAbsent(SetGauges(reg, result, order), result)
  }

  /** The update does not depend on the order in which the result map is walked. */
  lemma ApplyMatchesOrderIndependent(reg: Registry, result: map<string, bool>, order: seq<string>, order': seq<string>)
    requires forall d :: d in order <==> d in result
    requires forall d :: d in order' <==> d in result
    ensures ApplyMatches(reg, result, order) == ApplyMatches(reg, result, order')
  {
  }

  /** Applying the same lookup result a second time changes nothing. */
  lemma ApplyMatchesIdempotent(reg: Registry, result: map<string, bool>, order: seq<string>)
    requires forall d :: d in order <==> d in result
    ensures ApplyMatches(ApplyMatches(reg, result, order), result, order) == ApplyMatches(reg, result, order)
  {
  }

  /** A newer, smaller lookup result clears every gauge that dropped out of
      it while keeping that gauge registered. */
  lemma ShrinkingResultClears(reg: Registry, older: map<string, bool>, o1: seq<string>,
                              newer: map<string, bool>, o2: seq<string>, d: string)
    requires forall e :: e in o1 <==> e in older
    requires forall e :: e in o2 <==> e in newer
    requires d in older && d !in newer
    ensures d in ApplyMatches(ApplyMatches(reg, older, o1), newer, o2)
    ensures ApplyMatches(ApplyMatches(reg, older, o1), newer, o2)[d] == 0
  {
  }
}

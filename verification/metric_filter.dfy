/**
 The gate as it edits an export in place: the mutable project state and the nested
 filtering loops (fn0/fn0/src/metric_gate.rs:50-83, 114-175, 271-301).
 */
module MetricFilter {
  import opened DocTypes
  import opened Collections
  import opened TextOrder
  import opened MetricKeys
  import opened MetricGate
  import MetricRoom
  import MetricRuns

  /** A data point: its attributes, rendered as strings, and whatever else it carries. */
  datatype Point = Point(attributes: seq<Pair>, payload: int)

  /** `data` is absent for metadata-only metrics; the five kinds of data differ only in `kind`. */
  datatype Points = Points(kind: nat, points: seq<Point>)

  datatype Metric = Metric(name: string, data: Option<Points>)

  datatype Scope = Scope(metrics: seq<Metric>)

  datatype Resource = Resource(scopes: seq<Scope>)

  /** A point together with the name of its metric and the kind of its data. */
  datatype Sample = Sample(name: string, kind: nat, point: Point)

  function OfferOf(sample: Sample): Offer {
    Offer(sample.name, LabelPairs(sample.point.attributes))
  }

  function OffersOf(samples: seq<Sample>): (offers: seq<Offer>)
    ensures |offers| == |samples|
  {
    seq(|samples|, i requires 0 <= i < |samples| => OfferOf(samples[i]))
  }

  function Named(name: string, kind: nat, points: seq<Point>): (samples: seq<Sample>)
    ensures |samples| == |points|
  {
    seq(|points|, i requires 0 <= i < |points| => Sample(name, kind, points[i]))
  }

  function MetricSamples(metric: Metric): seq<Sample> {
    if metric.data.Some? then Named(metric.name, metric.data.value.kind, metric.data.value.points) else []
  }

  /** The name of a metric that carries no data at all. */
  function MetricMeta(metric: Metric): seq<string> {
    if metric.data.None? then [metric.name] else []
  }

  function ScopeMeta(metrics: seq<Metric>): seq<string> {
    if metrics == [] then [] else ScopeMeta(metrics[..|metrics| - 1]) + MetricMeta(metrics[|metrics| - 1])
  }

  function ResourceMeta(scopes: seq<Scope>): seq<string> {
    if scopes == [] then [] else ResourceMeta(scopes[..|scopes| - 1]) + ScopeMeta(scopes[|scopes| - 1].metrics)
  }

  /** The metadata-only metrics of an export, in order. */
  function Meta(resources: seq<Resource>): seq<string> {
    if resources == [] then [] else Meta(resources[..|resources| - 1]) + ResourceMeta(resources[|resources| - 1].scopes)
  }

  function ScopeSamples(metrics: seq<Metric>): seq<Sample> {
    if metrics == [] then [] else ScopeSamples(metrics[..|metrics| - 1]) + MetricSamples(metrics[|metrics| - 1])
  }

  function ResourceSamples(scopes: seq<Scope>): seq<Sample> {
    if scopes == [] then []
    else ResourceSamples(scopes[..|scopes| - 1]) + ScopeSamples(scopes[|scopes| - 1].metrics)
  }

  /** All points of an export, in the order they are offered to the gate. */
  function Samples(resources: seq<Resource>): seq<Sample> {
    if resources == [] then []
    else Samples(resources[..|resources| - 1]) + ResourceSamples(resources[|resources| - 1].scopes)
  }

  lemma ScopeSnoc(metrics: seq<Metric>, metric: Metric)
    ensures ScopeSamples(metrics + [metric]) == ScopeSamples(metrics) + MetricSamples(metric)
    ensures ScopeMeta(metrics + [metric]) == ScopeMeta(metrics) + MetricMeta(metric)
  {
    assert (metrics + [metric])[..|metrics|] == metrics;
  }

  lemma ResourceSnoc(scopes: seq<Scope>, scope: Scope)
    ensures ResourceSamples(scopes + [scope]) == ResourceSamples(scopes) + ScopeSamples(scope.metrics)
    ensures ResourceMeta(scopes + [scope]) == ResourceMeta(scopes) + ScopeMeta(scope.metrics)
  {
    assert (scopes + [scope])[..|scopes|] == scopes;
  }

  lemma SamplesSnoc(resources: seq<Resource>, resource: Resource)
    ensures Samples(resources + [resource]) == Samples(resources) + ResourceSamples(resource.scopes)
    ensures Meta(resources + [resource]) == Meta(resources) + ResourceMeta(resource.scopes)
  {
    assert (resources + [resource])[..|resources|] == resources;
  }

  lemma ScopeTake(metrics: seq<Metric>, i: nat)
    requires i < |metrics|
    ensures ScopeSamples(metrics[..i + 1]) == ScopeSamples(metrics[..i]) + MetricSamples(metrics[i])
    ensures ScopeMeta(metrics[..i + 1]) == ScopeMeta(metrics[..i]) + MetricMeta(metrics[i])
  {
    TakeOneMore(metrics, i);
    ScopeSnoc(metrics[..i], metrics[i]);
  }

  lemma ResourceTake(scopes: seq<Scope>, i: nat)
    requires i < |scopes|
    ensures ResourceSamples(scopes[..i + 1]) == ResourceSamples(scopes[..i]) + ScopeSamples(scopes[i].metrics)
    ensures ResourceMeta(scopes[..i + 1]) == ResourceMeta(scopes[..i]) + ScopeMeta(scopes[i].metrics)
  {
    TakeOneMore(scopes, i);
    ResourceSnoc(scopes[..i], scopes[i]);
  }

  lemma SamplesTake(resources: seq<Resource>, i: nat)
    requires i < |resources|
    ensures Samples(resources[..i + 1]) == Samples(resources[..i]) + ResourceSamples(resources[i].scopes)
    ensures Meta(resources[..i + 1]) == Meta(resources[..i]) + ResourceMeta(resources[i].scopes)
  {
    TakeOneMore(resources, i);
    SamplesSnoc(resources[..i], resources[i]);
  }

  // ---- What filtering a list of samples means -----------------------------------

  function Select<T>(items: seq<T>, keep: seq<bool>): seq<T>
    requires |items| == |keep|
  {
    if items == [] then []
    else
      var last := |items| - 1;
      Select(items[..last], keep[..last]) + if keep[last] then [items[last]] else []
  }

  /** The state after all samples were offered, in order. */
  function After(p: Project, samples: seq<Sample>, now: int): Project {
    if samples == [] then p
    else Admit(After(p, samples[..|samples| - 1], now), OfferOf(samples[|samples| - 1]), now)
  }

  /** The samples that were admitted. */
  function Kept(p: Project, samples: seq<Sample>, now: int): seq<Sample> {
    if samples == [] then []
    else
      var init, last := samples[..|samples| - 1], samples[|samples| - 1];
      Kept(p, init, now) + if Allowed(After(p, init, now), OfferOf(last)) then [last] else []
  }

  lemma KeptSnoc(p: Project, samples: seq<Sample>, sample: Sample, now: int)
    ensures After(p, samples + [sample], now) == Admit(After(p, samples, now), OfferOf(sample), now)
    ensures Kept(p, samples + [sample], now)
            == Kept(p, samples, now) + if Allowed(After(p, samples, now), OfferOf(sample)) then [sample] else []
  {
    assert (samples + [sample])[..|samples|] == samples;
  }

  /** Offering `samples` takes the gate from `p` to `q` and admits `kept`. */
  ghost predicate Filtered(p: Project, q: Project, samples: seq<Sample>, kept: seq<Sample>, now: int) {
    q == After(p, samples, now) && kept == Kept(p, samples, now)
  }

  /** The first `k` samples of `b` are filtered with the state that `a` left. */
  ghost predicate Concatenates(p: Project, a: seq<Sample>, b: seq<Sample>, now: int, k: nat) {
    k <= |b| ==>
      && After(p, a + b[..k], now) == After(After(p, a, now), b[..k], now)
      && Kept(p, a + b[..k], now) == Kept(p, a, now) + Kept(After(p, a, now), b[..k], now)
  }

  lemma KeptOneMore(p: Project, q: Project, all: seq<Sample>, part: seq<Sample>, before: seq<Sample>, sample: Sample, now: int)
    requires After(p, all, now) == After(q, part, now)
    requires Kept(p, all, now) == before + Kept(q, part, now)
    ensures After(p, all + [sample], now) == After(q, part + [sample], now)
    ensures Kept(p, all + [sample], now) == before + Kept(q, part + [sample], now)
  {
    KeptSnoc(p, all, sample, now);
    KeptSnoc(q, part, sample, now);
    if Allowed(After(q, part, now), OfferOf(sample)) {
      Regroup(before, Kept(q, part, now), [sample]);
    }
  }

  lemma ConcatenatesNext(p: Project, a: seq<Sample>, b: seq<Sample>, now: int, k: nat)
    requires Concatenates(p, a, b, now, k)
    ensures Concatenates(p, a, b, now, k + 1)
  {
    if k < |b| {
      KeptOneMore(p, After(p, a, now), a + b[..k], b[..k], Kept(p, a, now), b[k], now);
      TakeOneMore(b, k);
      Regroup(a, b[..k], [b[k]]);
    }
  }

  /** Filtering a concatenation filters the second part with the state the first part left. */
  lemma KeptConcat(p: Project, a: seq<Sample>, b: seq<Sample>, now: int)
    ensures After(p, a + b, now) == After(After(p, a, now), b, now)
    ensures Kept(p, a + b, now) == Kept(p, a, now) + Kept(After(p, a, now), b, now)
  {
    var concatenates := (k: nat) => Concatenates(p, a, b, now, k);
    assert a + b[..0] == a && b[..0] == [];
    forall k: nat | concatenates(k) ensures concatenates(k + 1) {
      ConcatenatesNext(p, a, b, now, k);
    }
    StepByStep(concatenates, |b|);
    assert b[..|b|] == b;
  }

  /**
   A relation between two gates, what was offered and what was kept. The loops below only
   need that it composes; `Filter` is the one they are about.
   */
  type Filtering = (Project, Project, seq<Sample>, seq<Sample>) -> bool

  ghost function Filter(now: int): Filtering {
    (p: Project, q: Project, samples: seq<Sample>, kept: seq<Sample>) => Filtered(p, q, samples, kept, now)
  }

  lemma FilteredConcat(p: Project, q: Project, r: Project, a: seq<Sample>, keptA: seq<Sample>,
                       b: seq<Sample>, keptB: seq<Sample>, now: int)
    requires Filter(now)(p, q, a, keptA) && Filter(now)(q, r, b, keptB)
    ensures Filter(now)(p, r, a + b, keptA + keptB)
  {
    KeptConcat(p, a, b, now);
  }

  /** `After` and `Kept` are the admission decisions of the gate applied to the samples. */
  lemma {:induction false} KeptIsSelected(p: Project, samples: seq<Sample>, now: int)
    ensures After(p, samples, now) == AdmitAll(p, OffersOf(samples), now)
    ensures Kept(p, samples, now) == Select(samples, Decisions(p, OffersOf(samples), now))
    decreases |samples|
  {
    if samples != [] {
      var last := |samples| - 1;
      var init := samples[..last];
      KeptIsSelected(p, init, now);
      assert OffersOf(samples)[..last] == OffersOf(init);
      DecisionsPrefix(p, OffersOf(samples), now, last);
    }
  }

  lemma DecisionsPrefix(p: Project, offers: seq<Offer>, now: int, n: nat)
    requires n <= |offers|
    ensures Decisions(p, offers, now)[..n] == Decisions(p, offers[..n], now)
  {
    forall i | 0 <= i < n ensures Decisions(p, offers, now)[i] == Decisions(p, offers[..n], now)[i] {
      assert offers[..n][..i] == offers[..i];
    }
  }

  lemma NamedSnoc(name: string, kind: nat, points: seq<Point>, point: Point)
    ensures Named(name, kind, points + [point]) == Named(name, kind, points) + [Sample(name, kind, point)]
  {
  }

  // ---- Points with distinct, plain attributes make plain offers ---------------------

  lemma SortKeepsDistinct(pairs: seq<Pair>)
    requires DistinctLabelKeys(pairs)
    ensures DistinctLabelKeys(Sort(pairs))
  {
    SortSorts(pairs);
    PermutedStaysDistinct(pairs, Sort(pairs), (pair: Pair) => pair.0);
  }

  /** The attribute keys of a point are distinct and nothing in it contains a separator. */
  ghost predicate PlainSample(sample: Sample) {
    && PlainName(sample.name) && PlainPairs(sample.point.attributes)
    && DistinctLabelKeys(sample.point.attributes)
  }

  lemma PlainSampleOffers(sample: Sample)
    requires PlainSample(sample)
    ensures PlainOffer(OfferOf(sample))
  {
    SortKeepsPlain(sample.point.attributes);
    SortKeepsDistinct(sample.point.attributes);
  }

  ghost predicate PlainExport(resources: seq<Resource>) {
    forall i :: 0 <= i < |Samples(resources)| ==> PlainSample(Samples(resources)[i])
  }

  lemma PlainExportOffers(resources: seq<Resource>)
    requires PlainExport(resources)
    ensures PlainOffers(OffersOf(Samples(resources)))
  {
    var samples := Samples(resources);
    forall i | 0 <= i < |samples| ensures PlainOffer(OffersOf(samples)[i]) {
      PlainSampleOffers(samples[i]);
    }
  }

  // ---- No empty shells are left behind --------------------------------------------

  predicate HasData(metric: Metric) {
    metric.data.Some? ==> metric.data.value.points != []
  }

  predicate TidyScope(scope: Scope) {
    scope.metrics != [] && forall i :: 0 <= i < |scope.metrics| ==> HasData(scope.metrics[i])
  }

  predicate TidyResource(resource: Resource) {
    resource.scopes != [] && forall i :: 0 <= i < |resource.scopes| ==> TidyScope(resource.scopes[i])
  }

  // ---- What each loop has done so far ----------------------------------------------

  /** Offering the points takes the gate from `p` to `q`, keeps the admitted ones and counts the others. */
  ghost predicate PointsDone(f: Filtering, p: Project, q: Project, name: string, kind: nat, points: seq<Point>,
                             kept: seq<Point>, dropped: nat)
  {
    && f(p, q, Named(name, kind, points), Named(name, kind, kept))
    && dropped + |kept| == |points|
  }

  /** The same for a metric, whose name and kind of data stay. */
  ghost predicate MetricDone(f: Filtering, p: Project, q: Project, metric: Metric, filtered: Metric, dropped: nat) {
    && f(p, q, MetricSamples(metric), MetricSamples(filtered))
    && dropped + |MetricSamples(filtered)| == |MetricSamples(metric)|
    && filtered.name == metric.name
    && (metric.data.None? ==> filtered.data.None?)
    && (metric.data.Some? ==> filtered.data.Some? && filtered.data.value.kind == metric.data.value.kind)
  }

  /** For a scope: metrics left without points go, metadata-only metrics stay. */
  ghost predicate ScopeDone(f: Filtering, p: Project, q: Project, metrics: seq<Metric>, kept: seq<Metric>, dropped: nat) {
    && f(p, q, ScopeSamples(metrics), ScopeSamples(kept))
    && dropped + |ScopeSamples(kept)| == |ScopeSamples(metrics)|
    && ScopeMeta(kept) == ScopeMeta(metrics)
    && forall i :: 0 <= i < |kept| ==> HasData(kept[i])
  }

  ghost predicate ResourceDone(f: Filtering, p: Project, q: Project, scopes: seq<Scope>, kept: seq<Scope>, dropped: nat) {
    && f(p, q, ResourceSamples(scopes), ResourceSamples(kept))
    && dropped + |ResourceSamples(kept)| == |ResourceSamples(scopes)|
    && ResourceMeta(kept) == ResourceMeta(scopes)
    && forall i :: 0 <= i < |kept| ==> TidyScope(kept[i])
  }

  ghost predicate ExportDone(f: Filtering, p: Project, q: Project, resources: seq<Resource>, kept: seq<Resource>, dropped: nat) {
    && f(p, q, Samples(resources), Samples(kept))
    && dropped + |Samples(kept)| == |Samples(resources)|
    && Meta(kept) == Meta(resources)
    && forall i :: 0 <= i < |kept| ==> TidyResource(kept[i])
  }

  lemma PointsStep(p: Project, q: Project, name: string, kind: nat, points: seq<Point>, i: nat,
                   kept: seq<Point>, dropped: nat, now: int)
    requires i < |points| && PointsDone(Filter(now), p, q, name, kind, points[..i], kept, dropped)
    ensures var offer := OfferOf(Sample(name, kind, points[i]));
            PointsDone(Filter(now), p, Admit(q, offer, now), name, kind, points[..i + 1],
                       if Allowed(q, offer) then kept + [points[i]] else kept,
                       if Allowed(q, offer) then dropped else dropped + 1)
  {
    assert points[..i + 1] == points[..i] + [points[i]];
    NamedSnoc(name, kind, points[..i], points[i]);
    NamedSnoc(name, kind, kept, points[i]);
    KeptSnoc(p, Named(name, kind, points[..i]), Sample(name, kind, points[i]), now);
  }

  lemma ScopeKeeps(f: Filtering, p: Project, q: Project, r: Project, metrics: seq<Metric>, i: nat,
                  kept: seq<Metric>, dropped: nat, filtered: Metric, count: nat)
    requires i < |metrics| && ScopeDone(f, p, q, metrics[..i], kept, dropped)
    requires MetricDone(f, q, r, metrics[i], filtered, count)
    requires f(p, r, ScopeSamples(metrics[..i]) + MetricSamples(metrics[i]), ScopeSamples(kept) + MetricSamples(filtered))
    requires HasData(filtered)
    ensures ScopeDone(f, p, r, metrics[..i + 1], kept + [filtered], dropped + count)
  {
    ScopeTake(metrics, i);
    ScopeSnoc(kept, filtered);
  }

  lemma ScopeDrops(f: Filtering, p: Project, q: Project, r: Project, metrics: seq<Metric>, i: nat,
                  kept: seq<Metric>, dropped: nat, filtered: Metric, count: nat)
    requires i < |metrics| && ScopeDone(f, p, q, metrics[..i], kept, dropped)
    requires MetricDone(f, q, r, metrics[i], filtered, count)
    requires f(p, r, ScopeSamples(metrics[..i]) + MetricSamples(metrics[i]), ScopeSamples(kept) + MetricSamples(filtered))
    requires !HasData(filtered)
    ensures ScopeDone(f, p, r, metrics[..i + 1], kept, dropped + count)
  {
    ScopeTake(metrics, i);
    NothingAdded(ScopeSamples(kept), MetricSamples(filtered));
    NothingAdded(ScopeMeta(kept), MetricMeta(metrics[i]));
  }

  lemma ResourceKeeps(f: Filtering, p: Project, q: Project, r: Project, scopes: seq<Scope>, i: nat,
                  kept: seq<Scope>, dropped: nat, metrics: seq<Metric>, count: nat)
    requires i < |scopes| && ResourceDone(f, p, q, scopes[..i], kept, dropped)
    requires ScopeDone(f, q, r, scopes[i].metrics, metrics, count)
    requires f(p, r, ResourceSamples(scopes[..i]) + ScopeSamples(scopes[i].metrics), ResourceSamples(kept) + ScopeSamples(metrics))
    requires metrics != []
    ensures ResourceDone(f, p, r, scopes[..i + 1], kept + [Scope(metrics)], dropped + count)
  {
    ResourceTake(scopes, i);
    ResourceSnoc(kept, Scope(metrics));
  }

  lemma ResourceDrops(f: Filtering, p: Project, q: Project, r: Project, scopes: seq<Scope>, i: nat,
                  kept: seq<Scope>, dropped: nat, metrics: seq<Metric>, count: nat)
    requires i < |scopes| && ResourceDone(f, p, q, scopes[..i], kept, dropped)
    requires ScopeDone(f, q, r, scopes[i].metrics, metrics, count)
    requires f(p, r, ResourceSamples(scopes[..i]) + ScopeSamples(scopes[i].metrics), ResourceSamples(kept) + ScopeSamples(metrics))
    requires metrics == []
    ensures ResourceDone(f, p, r, scopes[..i + 1], kept, dropped + count)
  {
    ResourceTake(scopes, i);
    NothingAdded(ResourceSamples(kept), ScopeSamples(metrics));
    NothingAdded(ResourceMeta(kept), ScopeMeta(scopes[i].metrics));
  }

  lemma ExportKeeps(f: Filtering, p: Project, q: Project, r: Project, resources: seq<Resource>, i: nat,
                  kept: seq<Resource>, dropped: nat, scopes: seq<Scope>, count: nat)
    requires i < |resources| && ExportDone(f, p, q, resources[..i], kept, dropped)
    requires ResourceDone(f, q, r, resources[i].scopes, scopes, count)
    requires f(p, r, Samples(resources[..i]) + ResourceSamples(resources[i].scopes), Samples(kept) + ResourceSamples(scopes))
    requires scopes != []
    ensures ExportDone(f, p, r, resources[..i + 1], kept + [Resource(scopes)], dropped + count)
  {
    SamplesTake(resources, i);
    SamplesSnoc(kept, Resource(scopes));
  }

  lemma ExportDrops(f: Filtering, p: Project, q: Project, r: Project, resources: seq<Resource>, i: nat,
                  kept: seq<Resource>, dropped: nat, scopes: seq<Scope>, count: nat)
    requires i < |resources| && ExportDone(f, p, q, resources[..i], kept, dropped)
    requires ResourceDone(f, q, r, resources[i].scopes, scopes, count)
    requires f(p, r, Samples(resources[..i]) + ResourceSamples(resources[i].scopes), Samples(kept) + ResourceSamples(scopes))
    requires scopes == []
    ensures ExportDone(f, p, r, resources[..i + 1], kept, dropped + count)
  {
    SamplesTake(resources, i);
    NothingAdded(Samples(kept), ResourceSamples(scopes));
    NothingAdded(Meta(kept), ResourceMeta(resources[i].scopes));
  }

  lemma AdmitsWhatFits(p: Project, offer: Offer, now: int)
    ensures Inv(p, now) && Capped(p) && PlainOffer(offer) ==>
              (Allowed(p, offer) <==> Capped(Touch(p, offer, now)))
  {
    if Inv(p, now) && Capped(p) && PlainOffer(offer) {
      MetricRoom.RefusedIffCapBreaks(p, offer, now);
      MetricRoom.DecisionIsAllowed(p, offer, now);
    }
  }

  lemma {:induction false} SelectEverything<T>(items: seq<T>, keep: seq<bool>)
    requires |items| == |keep| && forall i :: 0 <= i < |keep| ==> keep[i]
    ensures Select(items, keep) == items
  {
    if items != [] {
      var last := |items| - 1;
      SelectEverything(items[..last], keep[..last]);
      assert items == items[..last] + [items[last]];
    }
  }

  lemma {:induction false} RunOneMore(g: MetricRuns.Gate, ops: seq<MetricRuns.Op>, op: MetricRuns.Op)
    ensures MetricRuns.Run(g, ops + [op]) == MetricRuns.Apply(MetricRuns.Run(g, ops), op)
    decreases |ops|
  {
    if ops == [] {
      assert [op][1..] == [];
    } else {
      RunOneMore(MetricRuns.Apply(g, ops[0]), ops[1..], op);
      assert (ops + [op])[1..] == ops[1..] + [op];
    }
  }

  /** What an export keeps if it fits into the caps with the points of the last 300 seconds. */
  lemma KeepsWhatFits(ops: seq<MetricRuns.Op>, op: MetricRuns.Op, samples: seq<Sample>)
    requires op.Enforce? && op.offers == OffersOf(samples)
    ensures MetricRoom.FitsCaps(MetricRoom.Recent(ops, op.id, op.time) + op.offers) ==>
              Select(samples, MetricRuns.Accepted(MetricRuns.Run(map[], ops), op)) == samples
  {
    if MetricRoom.FitsCaps(MetricRoom.Recent(ops, op.id, op.time) + op.offers) {
      var accepted := MetricRuns.Accepted(MetricRuns.Run(map[], ops), op);
      forall j | 0 <= j < |accepted| ensures accepted[j] {
        MetricRoom.WhatFitsIsAccepted(ops, op, j);
      }
      SelectEverything(samples, accepted);
    }
  }

  // ---- The loops -----------------------------------------------------------------------

  class ProjectState {
    var series: Times
    var names: Times
    var labels: map<string, Times>

    ghost function View(): Project
      reads this
    {
      Project(series, names, labels)
    }

    constructor (p: Project)
      ensures View() == p
    {
      series, names, labels := p.series, p.names, p.labels;
    }

    method Evict(now: int)
      modifies this
      ensures View() == MetricGate.Evict(old(View()), now)
    {
      series := map key | key in series && now - series[key] <= STALE_WINDOW :: series[key];
      names := map key | key in names && now - names[key] <= STALE_WINDOW :: names[key];
      labels := map key | key in labels :: Live(labels[key], now);
      labels := map key | key in labels && labels[key] != map[] :: labels[key];
      assert labels == LiveLabels(old(labels), now);
    }

    method Admit(name: string, pairs: seq<Pair>, now: int) returns (allowed: bool)
      modifies this
      ensures allowed == Allowed(old(View()), Offer(name, pairs))
      ensures View() == MetricGate.Admit(old(View()), Offer(name, pairs), now)
      ensures old(Inv(View(), now) && Capped(View())) && PlainOffer(Offer(name, pairs)) ==>
                (allowed <==> Capped(Touch(old(View()), Offer(name, pairs), now)))
    {
      AdmitsWhatFits(View(), Offer(name, pairs), now);
      var key := BuildSeriesKey(name, pairs);
      var existing := key in series;
      allowed := existing
        || (&& |series| < MAX_SERIES
            && (name in names || |names| < MAX_NAMES)
            && forall i :: 0 <= i < |pairs| ==> LabelFits(labels, pairs[i]));
      if allowed {
        series := series[key := now];
        names := names[name := now];
        for i := 0 to |pairs|
          invariant series == old(series)[key := now] && names == old(names)[name := now]
          invariant labels == TouchLabels(old(labels), pairs[..i], now)
        {
          assert pairs[..i + 1][..i] == pairs[..i];
          var values := if pairs[i].0 in labels then labels[pairs[i].0] else map[];
          labels := labels[pairs[i].0 := values[pairs[i].1 := now]];
        }
        assert pairs[..|pairs|] == pairs;
      }
    }

    method FilterPoints(name: string, ghost kind: nat, points: seq<Point>, now: int)
      returns (kept: seq<Point>, dropped: nat)
      modifies this
      ensures PointsDone(Filter(now), old(View()), View(), name, kind, points, kept, dropped)
    {
      kept := [];
      dropped := 0;
      for i := 0 to |points|
        invariant PointsDone(Filter(now), old(View()), View(), name, kind, points[..i], kept, dropped)
      {
        PointsStep(old(View()), View(), name, kind, points, i, kept, dropped, now);
        var allowed := Admit(name, LabelPairs(points[i].attributes), now);
        if allowed {
          kept := kept + [points[i]];
        } else {
          dropped := dropped + 1;
        }
      }
      assert points[..|points|] == points;
    }

    method FilterMetric(metric: Metric, now: int) returns (filtered: Metric, dropped: nat)
      modifies this
      ensures MetricDone(Filter(now), old(View()), View(), metric, filtered, dropped)
    {
      match metric.data
      case None => return metric, 0;
      case Some(data) =>
        var kept, count := FilterPoints(metric.name, data.kind, data.points, now);
        return metric.(data := Some(data.(points := kept))), count;
    }

    method FilterScope(metrics: seq<Metric>, now: int) returns (kept: seq<Metric>, dropped: nat)
      modifies this
      ensures ScopeDone(Filter(now), old(View()), View(), metrics, kept, dropped)
    {
      kept := [];
      dropped := 0;
      for i := 0 to |metrics|
        invariant ScopeDone(Filter(now), old(View()), View(), metrics[..i], kept, dropped)
      {
        ghost var before := View();
        var filtered, count := FilterMetric(metrics[i], now);
        FilteredConcat(old(View()), before, View(), ScopeSamples(metrics[..i]), ScopeSamples(kept),
                       MetricSamples(metrics[i]), MetricSamples(filtered), now);
        if HasData(filtered) {
          ScopeKeeps(Filter(now), old(View()), before, View(), metrics, i, kept, dropped, filtered, count);
          kept := kept + [filtered];
        } else {
          ScopeDrops(Filter(now), old(View()), before, View(), metrics, i, kept, dropped, filtered, count);
        }
        dropped := dropped + count;
      }
      assert metrics[..|metrics|] == metrics;
    }

    method FilterResource(scopes: seq<Scope>, now: int) returns (kept: seq<Scope>, dropped: nat)
      modifies this
      ensures ResourceDone(Filter(now), old(View()), View(), scopes, kept, dropped)
    {
      kept := [];
      dropped := 0;
      for i := 0 to |scopes|
        invariant ResourceDone(Filter(now), old(View()), View(), scopes[..i], kept, dropped)
      {
        ghost var before := View();
        var metrics, count := FilterScope(scopes[i].metrics, now);
        FilteredConcat(old(View()), before, View(), ResourceSamples(scopes[..i]), ResourceSamples(kept),
                       ScopeSamples(scopes[i].metrics), ScopeSamples(metrics), now);
        if metrics != [] {
          ResourceKeeps(Filter(now), old(View()), before, View(), scopes, i, kept, dropped, metrics, count);
          kept := kept + [Scope(metrics)];
        } else {
          ResourceDrops(Filter(now), old(View()), before, View(), scopes, i, kept, dropped, metrics, count);
        }
        dropped := dropped + count;
      }
      assert scopes[..|scopes|] == scopes;
    }

    /**
     `enforce_project`: the surviving points are exactly the admitted ones, in order and
     under the same name and kind; every other point is counted as dropped; metadata-only
     metrics stay; no emptied metric, scope or resource remains.
     */
    method EnforceProject(resources: seq<Resource>, now: int) returns (kept: seq<Resource>, dropped: nat)
      modifies this
      ensures ExportDone(Filter(now), old(View()), View(), resources, kept, dropped)
    {
      kept := [];
      dropped := 0;
      for i := 0 to |resources|
        invariant ExportDone(Filter(now), old(View()), View(), resources[..i], kept, dropped)
      {
        ghost var before := View();
        var scopes, count := FilterResource(resources[i].scopes, now);
        FilteredConcat(old(View()), before, View(), Samples(resources[..i]), Samples(kept),
                       ResourceSamples(resources[i].scopes), ResourceSamples(scopes), now);
        if scopes != [] {
          ExportKeeps(Filter(now), old(View()), before, View(), resources, i, kept, dropped, scopes, count);
          kept := kept + [Resource(scopes)];
        } else {
          ExportDrops(Filter(now), old(View()), before, View(), resources, i, kept, dropped, scopes, count);
        }
        dropped := dropped + count;
      }
      assert resources[..|resources|] == resources;
    }
  }

  lemma ExportIsApplied(g: MetricRuns.Gate, id: string, resources: seq<Resource>, q: Project, kept: seq<Resource>, now: int)
    requires Filter(now)(MetricGate.Evict(MetricRuns.ProjectIn(g, id), now), q, Samples(resources), Samples(kept))
    ensures var op := MetricRuns.Enforce(id, OffersOf(Samples(resources)), now);
            && g[id := q] == MetricRuns.Apply(g, op)
            && Samples(kept) == Select(Samples(resources), MetricRuns.Accepted(g, op))
  {
    KeptIsSelected(MetricGate.Evict(MetricRuns.ProjectIn(g, id), now), Samples(resources), now);
  }

  lemma PlainExportKeeps(g: MetricRuns.Gate, before: int, id: string, resources: seq<Resource>, now: int)
    ensures MetricRuns.GateInv(g, before) && before <= now && PlainExport(resources) ==>
              MetricRuns.GateInv(MetricRuns.Apply(g, MetricRuns.Enforce(id, OffersOf(Samples(resources)), now)), now)
  {
    if MetricRuns.GateInv(g, before) && before <= now && PlainExport(resources) {
      PlainExportOffers(resources);
      MetricRuns.ApplyKeeps(g, MetricRuns.Enforce(id, OffersOf(Samples(resources)), now), before);
    }
  }

  function EvictAll(g: MetricRuns.Gate, now: int): MetricRuns.Gate {
    map id | id in g :: MetricGate.Evict(g[id], now)
  }

  /** The projects that have any live series. */
  function WithSeries(g: MetricRuns.Gate): (r: MetricRuns.Gate)
    ensures forall id :: id in r ==> |r[id].series| > 0
  {
    map id | id in g && g[id].series != map[] :: g[id]
  }

  lemma SnapshotIsApplied(g: MetricRuns.Gate, now: int)
    ensures WithSeries(EvictAll(g, now)) == MetricRuns.Apply(g, MetricRuns.Snapshot(now))
  {
  }

  lemma SnapshotKeeps(g: MetricRuns.Gate, before: int, now: int)
    ensures MetricRuns.GateInv(g, before) && before <= now ==>
              MetricRuns.GateInv(MetricRuns.Apply(g, MetricRuns.Snapshot(now)), now)
  {
    if MetricRuns.GateInv(g, before) && before <= now {
      MetricRuns.ApplyKeeps(g, MetricRuns.Snapshot(now), before);
    }
  }

  class MetricCardinalityGate {
    var state: MetricRuns.Gate
    /** The time of the latest call. */
    ghost var clock: int
    /** All calls so far. */
    ghost var history: seq<MetricRuns.Op>

    /** Every project is within its caps and its times are maxima over its live series. */
    ghost predicate Valid()
      reads this
    {
      MetricRuns.GateInv(state, clock)
    }

    /** The state is what the calls so far have made of an empty gate. */
    ghost predicate Recorded()
      reads this
    {
      state == MetricRuns.Run(map[], history)
    }

    constructor ()
      ensures state == map[] && Valid()
      ensures history == [] && Recorded()
    {
      state := map[];
      history := [];
    }

    /**
     On a clock that does not go back, an export of plain points keeps the caps. An
     export that fits into the caps together with what the project offered in the last
     300 seconds loses nothing.
     */
    method Enforce(id: string, resources: seq<Resource>, now: int) returns (kept: seq<Resource>, dropped: nat)
      modifies this
      ensures var op := MetricRuns.Enforce(id, OffersOf(Samples(resources)), now);
              && state == MetricRuns.Apply(old(state), op)
              && Samples(kept) == Select(Samples(resources), MetricRuns.Accepted(old(state), op))
      ensures dropped + |Samples(kept)| == |Samples(resources)| && Meta(kept) == Meta(resources)
      ensures clock == now
      ensures old(Valid()) && old(clock) <= now && PlainExport(resources) ==> Valid()
      ensures history == old(history) + [MetricRuns.Enforce(id, OffersOf(Samples(resources)), now)]
      ensures old(Recorded()) ==> Recorded()
      ensures old(Recorded())
              && MetricRoom.FitsCaps(MetricRoom.Recent(old(history), id, now) + OffersOf(Samples(resources))) ==>
                dropped == 0 && Samples(kept) == Samples(resources)
    {
      ghost var op := MetricRuns.Enforce(id, OffersOf(Samples(resources)), now);
      RunOneMore(map[], history, op);
      KeepsWhatFits(history, op, Samples(resources));
      history := history + [op];
      var project := new ProjectState(MetricRuns.ProjectIn(state, id));
      project.Evict(now);
      kept, dropped := project.EnforceProject(resources, now);
      ExportIsApplied(state, id, resources, project.View(), kept, now);
      state := state[id := Project(project.series, project.names, project.labels)];
      clock := now;
      PlainExportKeeps(old(state), old(clock), id, resources, now);
    }

    /** Active series per project; projects without any are forgotten. */
    method Snapshot(now: int) returns (counts: map<string, nat>)
      modifies this
      ensures state == MetricRuns.Apply(old(state), MetricRuns.Snapshot(now))
      ensures counts.Keys == state.Keys
      ensures forall id :: id in counts ==> counts[id] == |state[id].series| && counts[id] > 0
      ensures clock == now
      ensures old(Valid()) && old(clock) <= now ==> Valid()
      ensures history == old(history) + [MetricRuns.Snapshot(now)]
      ensures old(Recorded()) ==> Recorded()
    {
      RunOneMore(map[], history, MetricRuns.Snapshot(now));
      history := history + [MetricRuns.Snapshot(now)];
      SnapshotIsApplied(state, now);
      SnapshotKeeps(state, clock, now);
      state := EvictAll(state, now);
      state := WithSeries(state);
      counts := map id | id in state :: |state[id].series|;
      clock := now;
    }
  }
}

/**
 Why the caps of the metric gate need plain points: exports that take an empty gate past
 any number of names or label values (fn0/fn0/src/metric_gate.rs:61-83, 177-197).
 */
module MetricCapBreaks {
  import opened Collections
  import opened TextOrder
  import opened MetricKeys
  import opened MetricGate
  import opened MetricFilter
  import MetricRuns

  /** What the gate tracks for a project after one export into an empty gate. */
  function Exported(samples: seq<Sample>, now: int): Project {
    After(EMPTY_PROJECT, samples, now)
  }

  lemma ExportedIsTracked(id: string, samples: seq<Sample>, now: int)
    ensures MetricRuns.Run(map[], [MetricRuns.Enforce(id, OffersOf(samples), now)]) == map[id := Exported(samples, now)]
  {
    var op := MetricRuns.Enforce(id, OffersOf(samples), now);
    KeptIsSelected(EMPTY_PROJECT, samples, now);
    assert Evict(EMPTY_PROJECT, now) == EMPTY_PROJECT;
    assert MetricRuns.Apply(map[], op) == map[id := Exported(samples, now)];
    assert [op][1..] == [];
  }

  // ---- Points whose keys collide ---------------------------------------------------

  const UNIT: string := [NAME_END] + "b="

  function Echo(n: nat): string {
    if n == 0 then "" else Echo(n - 1) + UNIT
  }

  lemma {:induction false} EchoJoins(m: nat, n: nat)
    ensures Echo(m) + Echo(n) == Echo(m + n)
    decreases n
  {
    if n == 0 {
      assert Echo(m) + "" == Echo(m);
    } else {
      EchoJoins(m, n - 1);
      Regroup(Echo(m), Echo(n - 1), UNIT);
    }
  }

  lemma {:induction false} EchoLength(n: nat)
    ensures |Echo(n)| == 3 * n
  {
    if n > 0 {
      EchoLength(n - 1);
    }
  }

  /** The `j`th of `n` points with one attribute each: the longer the name, the shorter the value. */
  function Colliding(name: string, j: nat, n: nat): Sample
    requires j < n
  {
    Sample(name + Echo(j), 0, Point([("b", Echo(n - 1 - j))], 0))
  }

  function CollidingPoints(name: string, n: nat, count: nat): (samples: seq<Sample>)
    requires count <= n
    ensures |samples| == count
  {
    seq(count, j requires 0 <= j < count => Colliding(name, j, n))
  }

  lemma OnePairKey(name: string, pair: Pair)
    ensures SeriesKey(name, LabelPairs([pair])) == name + [NAME_END] + (pair.0 + ['='] + pair.1 + [PAIR_END])
  {
    var pairs := [pair];
    assert pairs[1..] == [] && Sort([]) == [] && Insert(pair, []) == pairs;
    assert PairsKey([]) == "" && PairsKey(pairs) == pair.0 + ['='] + pair.1 + [PAIR_END];
  }

  lemma KeyRegroups(head: string, echo: string, value: string, whole: string)
    requires echo + (UNIT + value) == whole
    ensures head + echo + [NAME_END] + ("b" + ['='] + value + [PAIR_END]) == head + whole + [PAIR_END]
  {
    assert [NAME_END] + ("b" + ['='] + value + [PAIR_END]) == UNIT + value + [PAIR_END];
    Regroup(head + echo, UNIT + value, [PAIR_END]);
    Regroup(head, echo, UNIT + value);
  }

  lemma UnitIsEcho()
    ensures Echo(1) == UNIT
  {
    assert Echo(0) + UNIT == UNIT;
  }

  lemma EchoSplits(j: nat, n: nat)
    requires j < n
    ensures Echo(j) + (UNIT + Echo(n - 1 - j)) == Echo(n)
  {
    UnitIsEcho();
    EchoJoins(1, n - 1 - j);
    EchoJoins(j, n - j);
  }

  lemma CollidingSnoc(name: string, n: nat, count: nat)
    requires count < n
    ensures CollidingPoints(name, n, count + 1) == CollidingPoints(name, n, count) + [Colliding(name, count, n)]
  {
  }

  /** They all have the same series key. */
  lemma CollidingKey(name: string, j: nat, n: nat)
    requires j < n
    ensures KeyOf(OfferOf(Colliding(name, j, n))) == name + Echo(n) + [PAIR_END]
  {
    var value := Echo(n - 1 - j);
    EchoSplits(j, n);
    OnePairKey(name + Echo(j), ("b", value));
    KeyRegroups(name, Echo(j), value, Echo(n));
  }

  lemma CollidingNamesDiffer(name: string, i: nat, j: nat)
    requires i != j
    ensures name + Echo(i) != name + Echo(j)
  {
    EchoLength(i);
    EchoLength(j);
    assert |name + Echo(i)| == |name| + 3 * i && |name + Echo(j)| == |name| + 3 * j;
  }

  function NamesUpTo(name: string, count: nat): set<string> {
    set j | 0 <= j < count :: name + Echo(j)
  }

  lemma {:induction false} NamesUpToSize(name: string, count: nat)
    ensures |NamesUpTo(name, count)| == count
  {
    if count > 0 {
      NamesUpToSize(name, count - 1);
      var last := name + Echo(count - 1);
      NamesUpToSnoc(name, count - 1);
      forall j | 0 <= j < count - 1 ensures name + Echo(j) != last {
        CollidingNamesDiffer(name, j, count - 1);
      }
    }
  }

  /** After `count` of the points: one series, and as many names as points. */
  ghost predicate OneSeries(p: Project, name: string, n: nat, count: nat) {
    && p.names.Keys == NamesUpTo(name, count)
    && p.series.Keys == (if count == 0 then {} else {name + Echo(n) + [PAIR_END]})
    && (count == 0 ==> p == EMPTY_PROJECT)
  }

  lemma EmptyAllows(offer: Offer)
    ensures Allowed(EMPTY_PROJECT, offer)
  {
  }

  lemma KeyAdded(times: Times, key: string, now: int)
    ensures times[key := now].Keys == times.Keys + {key}
  {
  }

  lemma NamesUpToSnoc(name: string, count: nat)
    ensures NamesUpTo(name, count + 1) == NamesUpTo(name, count) + {name + Echo(count)}
  {
  }

  lemma NextCollides(p: Project, name: string, n: nat, count: nat, now: int)
    requires count < n && OneSeries(p, name, n, count)
    ensures OneSeries(Admit(p, OfferOf(Colliding(name, count, n)), now), name, n, count + 1)
  {
    var offer := OfferOf(Colliding(name, count, n));
    CollidingKey(name, count, n);
    EmptyAllows(offer);
    KeyAdded(p.names, offer.name, now);
    KeyAdded(p.series, KeyOf(offer), now);
    NamesUpToSnoc(name, count);
  }

  ghost predicate Piled(name: string, n: nat, count: nat, now: int) {
    count <= n ==> OneSeries(Exported(CollidingPoints(name, n, count), now), name, n, count)
  }

  lemma PileGrows(name: string, n: nat, count: nat, now: int)
    requires Piled(name, n, count, now)
    ensures Piled(name, n, count + 1, now)
  {
    if count < n {
      var samples := CollidingPoints(name, n, count);
      NextCollides(Exported(samples, now), name, n, count, now);
      KeptSnoc(EMPTY_PROJECT, samples, Colliding(name, count, n), now);
      CollidingSnoc(name, n, count);
    }
  }

  lemma CollidingPointsPile(name: string, n: nat, now: int)
    ensures OneSeries(Exported(CollidingPoints(name, n, n), now), name, n, n)
  {
    var piled := (k: nat) => Piled(name, n, k, now);
    assert CollidingPoints(name, n, 0) == [] && NamesUpTo(name, 0) == {};
    forall k: nat | piled(k) ensures piled(k + 1) {
      PileGrows(name, n, k, now);
    }
    StepByStep(piled, n);
  }

  /**
   From every name and for every number there is one export, of points with a single
   attribute each, after which an empty gate tracks that many names in one series.
   */
  lemma CollisionsEscapeTheNameCap(id: string, name: string, n: nat, now: int)
    ensures var op := MetricRuns.Enforce(id, OffersOf(CollidingPoints(name, n, n)), now);
            var gate := MetricRuns.Run(map[], [op]);
            id in gate && |gate[id].names| == n && |gate[id].series| <= 1
  {
    ExportedIsTracked(id, CollidingPoints(name, n, n), now);
    CollidingPointsPile(name, n, now);
    NamesUpToSize(name, n);
    var p := Exported(CollidingPoints(name, n, n), now);
    assert |p.names| == |p.names.Keys| && |p.series| == |p.series.Keys|;
  }

  // ---- A point that repeats an attribute key ------------------------------------------

  function Repeated(attr: string, values: seq<string>): (attributes: seq<Pair>)
    ensures |attributes| == |values|
  {
    seq(|values|, i requires 0 <= i < |values| => (attr, values[i]))
  }

  function ValuesIn(values: seq<string>): set<string> {
    set value | value in values
  }

  lemma RepeatedValues(attr: string, values: seq<string>)
    ensures NewValues(LabelPairs(Repeated(attr, values)), attr) == ValuesIn(values)
  {
    var attributes := Repeated(attr, values);
    var pairs := LabelPairs(attributes);
    SortSorts(attributes);
    forall pair ensures pair in pairs <==> pair in attributes {
      assert pair in pairs <==> pair in multiset(pairs);
      assert pair in attributes <==> pair in multiset(attributes);
    }
    forall value ensures value in NewValues(pairs, attr) <==> value in values {
      if value in values {
        var i :| 0 <= i < |values| && values[i] == value;
        assert attributes[i] in pairs;
      }
      if value in NewValues(pairs, attr) {
        var i :| 0 <= i < |pairs| && pairs[i].0 == attr && pairs[i].1 == value;
        assert pairs[i] in attributes;
      }
    }
  }

  /**
   One point that repeats an attribute key is admitted to an empty gate with all its
   values, however many.
   */
  lemma RepeatedKeyEscapesTheLabelCap(id: string, name: string, attr: string, values: seq<string>, now: int)
    requires values != []
    ensures var sample := Sample(name, 0, Point(Repeated(attr, values), 0));
            var gate := MetricRuns.Run(map[], [MetricRuns.Enforce(id, OffersOf([sample]), now)]);
            id in gate && attr in gate[id].labels && gate[id].labels[attr].Keys == ValuesIn(values)
  {
    var sample := Sample(name, 0, Point(Repeated(attr, values), 0));
    ExportedIsTracked(id, [sample], now);
    OnePointAdmitted(sample, now);
    RepeatedValues(attr, values);
    assert values[0] in ValuesIn(values);
    LabelsOfOnePoint(OfferOf(sample).pairs, attr, now);
  }

  lemma LabelsOfOnePoint(pairs: seq<Pair>, attr: string, now: int)
    requires NewValues(pairs, attr) != {}
    ensures var labels := TouchLabels(map[], pairs, now);
            attr in labels && labels[attr].Keys == NewValues(pairs, attr)
  {
    TouchLabelsKeys(map[], pairs, now, attr);
  }

  lemma OnePointAdmitted(sample: Sample, now: int)
    ensures Exported([sample], now).labels == TouchLabels(map[], OfferOf(sample).pairs, now)
  {
    assert [sample][..0] == [];
    assert After(EMPTY_PROJECT, [], now) == EMPTY_PROJECT;
    EmptyAllows(OfferOf(sample));
  }
}

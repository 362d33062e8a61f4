/**
 The metric cardinality gate (fn0/fn0/src/metric_gate.rs:31-83, 277-300): what one
 project tracks, how a point is admitted, and the invariant that makes the caps hold.
 */
module MetricGate {
  import opened Collections
  import opened TextOrder
  import opened MetricKeys

  const MAX_SERIES: nat := 1000
  const MAX_NAMES: nat := 100
  const MAX_LABEL_VALUES: nat := 100
  const STALE_WINDOW: int := 300

  type Times = map<string, int>

  /** `ProjectState`: when each series, name and label value was last seen. */
  datatype Project = Project(series: Times, names: Times, labels: map<string, Times>)

  const EMPTY_PROJECT: Project := Project(map[], map[], map[])

  /** One data point offered to the gate. */
  datatype Offer = Offer(name: string, pairs: seq<Pair>)

  function KeyOf(offer: Offer): string {
    SeriesKey(offer.name, offer.pairs)
  }

  function Live(times: Times, now: int): Times {
    map key | key in times && now - times[key] <= STALE_WINDOW :: times[key]
  }

  function LiveLabels(labels: map<string, Times>, now: int): map<string, Times> {
    map key | key in labels && Live(labels[key], now) != map[] :: Live(labels[key], now)
  }

  function Evict(p: Project, now: int): Project {
    Project(Live(p.series, now), Live(p.names, now), LiveLabels(p.labels, now))
  }

  predicate LabelFits(labels: map<string, Times>, pair: Pair) {
    pair.0 !in labels || pair.1 in labels[pair.0] || |labels[pair.0]| < MAX_LABEL_VALUES
  }

  predicate Allowed(p: Project, offer: Offer) {
    || KeyOf(offer) in p.series
    || (&& |p.series| < MAX_SERIES
        && (offer.name in p.names || |p.names| < MAX_NAMES)
        && forall i :: 0 <= i < |offer.pairs| ==> LabelFits(p.labels, offer.pairs[i]))
  }

  function ValuesOf(labels: map<string, Times>, key: string): Times {
    if key in labels then labels[key] else map[]
  }

  function TouchLabels(labels: map<string, Times>, pairs: seq<Pair>, now: int): map<string, Times> {
    if pairs == [] then labels
    else
      var pair := pairs[|pairs| - 1];
      var before := TouchLabels(labels, pairs[..|pairs| - 1], now);
      before[pair.0 := ValuesOf(before, pair.0)[pair.1 := now]]
  }

  function Touch(p: Project, offer: Offer, now: int): Project {
    Project(p.series[KeyOf(offer) := now], p.names[offer.name := now], TouchLabels(p.labels, offer.pairs, now))
  }

  function Admit(p: Project, offer: Offer, now: int): Project {
    if Allowed(p, offer) then Touch(p, offer, now) else p
  }

  /** All points of one export, in order. */
  function AdmitAll(p: Project, offers: seq<Offer>, now: int): Project {
    if offers == [] then p
    else Admit(AdmitAll(p, offers[..|offers| - 1], now), offers[|offers| - 1], now)
  }

  function Decisions(p: Project, offers: seq<Offer>, now: int): (accepted: seq<bool>)
    ensures |accepted| == |offers|
  {
    seq(|offers|, i requires 0 <= i < |offers| => Allowed(AdmitAll(p, offers[..i], now), offers[i]))
  }

  // ---- Well-formed points -------------------------------------------------------

  ghost predicate DistinctLabelKeys(pairs: seq<Pair>) {
    forall i, j :: 0 <= i < j < |pairs| ==> pairs[i].0 != pairs[j].0
  }

  /** Attribute keys are distinct within a point and no input contains a separator. */
  ghost predicate PlainOffer(offer: Offer) {
    PlainName(offer.name) && PlainPairs(offer.pairs) && DistinctLabelKeys(offer.pairs)
  }

  /**
   Which series a key stands for. The invariant is stated for any such reading of the
   keys; `SeriesOf` below is the one that is right for all plain points.
   */
  type Reading = string -> Offer

  // ---- The invariant ----------------------------------------------------------------

  /** Every tracked key is the key of a plain series last seen no later than `now`. */
  ghost predicate SeriesSound(p: Project, now: int, of: Reading) {
    forall key :: key in p.series ==> PlainOffer(of(key)) && KeyOf(of(key)) == key && p.series[key] <= now
  }

  ghost predicate NameWitness(p: Project, of: Reading, name: string, key: string)
    requires name in p.names
  {
    key in p.series && of(key).name == name && p.series[key] == p.names[name]
  }

  /** The time of a name is the maximum over the live series that use it. */
  ghost predicate NamesAreMaxima(p: Project, of: Reading) {
    && (forall key :: key in p.series ==> of(key).name in p.names && p.series[key] <= p.names[of(key).name])
    && (forall name :: name in p.names ==> exists key :: NameWitness(p, of, name, key))
  }

  ghost predicate Tracked(labels: map<string, Times>, pair: Pair) {
    pair.0 in labels && pair.1 in labels[pair.0]
  }

  ghost predicate LabelWitness(p: Project, of: Reading, pair: Pair, key: string)
    requires Tracked(p.labels, pair)
  {
    key in p.series && pair in of(key).pairs && p.series[key] == p.labels[pair.0][pair.1]
  }

  /** The time of a label value is the maximum over the live series that use it. */
  ghost predicate LabelsAreMaxima(p: Project, of: Reading) {
    && LabelsCover(p, of)
    && LabelsWitnessed(p, of)
    && forall attr :: attr in p.labels ==> p.labels[attr] != map[]
  }

  ghost predicate LabelsCover(p: Project, of: Reading) {
    forall key, pair :: key in p.series && pair in of(key).pairs ==>
      Tracked(p.labels, pair) && p.series[key] <= p.labels[pair.0][pair.1]
  }

  ghost predicate LabelsWitnessed(p: Project, of: Reading) {
    forall pair :: Tracked(p.labels, pair) ==> exists key :: LabelWitness(p, of, pair, key)
  }

  ghost predicate InvFor(p: Project, now: int, of: Reading) {
    SeriesSound(p, now, of) && NamesAreMaxima(p, of) && LabelsAreMaxima(p, of)
  }

  ghost predicate Capped(p: Project) {
    && |p.series| <= MAX_SERIES
    && |p.names| <= MAX_NAMES
    && forall attr :: attr in p.labels ==> |p.labels[attr]| <= MAX_LABEL_VALUES
  }

  // ---- Eviction ---------------------------------------------------------------------

  lemma LiveShrinks(times: Times, now: int)
    ensures |Live(times, now)| <= |times|
  {
    KeysSubset(Live(times, now), times);
  }

  lemma KeysSubset(a: Times, b: Times)
    requires a.Keys <= b.Keys
    ensures |a| <= |b|
  {
    SubsetSize(a.Keys, b.Keys);
    assert |a| == |a.Keys| && |b| == |b.Keys|;
  }

  lemma EvictKeepsCaps(p: Project, now: int)
    requires Capped(p)
    ensures Capped(Evict(p, now))
  {
    LiveShrinks(p.series, now);
    LiveShrinks(p.names, now);
    forall attr | attr in LiveLabels(p.labels, now)
      ensures |LiveLabels(p.labels, now)[attr]| <= MAX_LABEL_VALUES
    {
      LiveShrinks(p.labels[attr], now);
    }
  }

  lemma EvictTracks(p: Project, now: int, pair: Pair)
    ensures Tracked(Evict(p, now).labels, pair) <==>
            Tracked(p.labels, pair) && now - p.labels[pair.0][pair.1] <= STALE_WINDOW
    ensures Tracked(Evict(p, now).labels, pair) ==>
              Evict(p, now).labels[pair.0][pair.1] == p.labels[pair.0][pair.1]
  {
    if Tracked(p.labels, pair) && now - p.labels[pair.0][pair.1] <= STALE_WINDOW {
      assert pair.1 in Live(p.labels[pair.0], now);
    }
  }

  /** A name or label value is evicted exactly with the last series that uses it. */
  lemma EvictKeepsInv(p: Project, before: int, now: int, of: Reading)
    requires InvFor(p, before, of) && before <= now
    ensures InvFor(Evict(p, now), now, of)
  {
    EvictKeepsNames(p, before, now, of);
    EvictKeepsLabels(p, before, now, of);
  }

  lemma EvictKeepsNames(p: Project, before: int, now: int, of: Reading)
    requires InvFor(p, before, of) && before <= now
    ensures NamesAreMaxima(Evict(p, now), of)
  {
    var q := Evict(p, now);
    forall name | name in q.names ensures exists key :: NameWitness(q, of, name, key) {
      var key :| NameWitness(p, of, name, key);
      assert NameWitness(q, of, name, key);
    }
  }

  lemma EvictKeepsLabels(p: Project, before: int, now: int, of: Reading)
    requires InvFor(p, before, of) && before <= now
    ensures LabelsAreMaxima(Evict(p, now), of)
  {
    var q := Evict(p, now);
    forall key, pair | key in q.series && pair in of(key).pairs
      ensures Tracked(q.labels, pair) && q.series[key] <= q.labels[pair.0][pair.1]
    {
      EvictTracks(p, now, pair);
    }
    forall pair | Tracked(q.labels, pair) ensures exists key :: LabelWitness(q, of, pair, key) {
      EvictTracks(p, now, pair);
      var key :| LabelWitness(p, of, pair, key);
      assert LabelWitness(q, of, pair, key);
    }
  }

  lemma LiveTwice(times: Times, first: int, now: int)
    requires first <= now
    ensures Live(Live(times, first), now) == Live(times, now)
  {
  }

  /** Evicting earlier makes no difference to a later eviction. */
  lemma EvictTwice(p: Project, first: int, now: int)
    requires first <= now
    ensures Evict(Evict(p, first), now) == Evict(p, now)
  {
    LiveTwice(p.series, first, now);
    LiveTwice(p.names, first, now);
    var once, twice := LiveLabels(p.labels, now), LiveLabels(LiveLabels(p.labels, first), now);
    forall attr ensures attr in once <==> attr in twice {
      if attr in p.labels {
        LiveTwice(p.labels[attr], first, now);
        if attr in once {
          LiveOfEmpty(now);
          assert Live(p.labels[attr], first) != map[];
        }
      }
    }
    forall attr | attr in once ensures once[attr] == twice[attr] {
      LiveTwice(p.labels[attr], first, now);
    }
  }

  lemma LiveOfEmpty(now: int)
    ensures Live(map[], now) == map[]
  {
  }

  // ---- Admission --------------------------------------------------------------------

  lemma {:induction false} TouchLabelsAt(labels: map<string, Times>, pairs: seq<Pair>, now: int, attr: string)
    requires DistinctLabelKeys(pairs)
    ensures (forall i :: 0 <= i < |pairs| ==> pairs[i].0 != attr) ==>
              (attr in TouchLabels(labels, pairs, now) <==> attr in labels)
              && ValuesOf(TouchLabels(labels, pairs, now), attr) == ValuesOf(labels, attr)
    ensures forall i :: 0 <= i < |pairs| && pairs[i].0 == attr ==>
              attr in TouchLabels(labels, pairs, now)
              && TouchLabels(labels, pairs, now)[attr] == ValuesOf(labels, attr)[pairs[i].1 := now]
  {
    if pairs != [] {
      var init := pairs[..|pairs| - 1];
      TouchLabelsAt(labels, init, now, attr);
      forall i | 0 <= i < |init| ensures init[i] == pairs[i] {
      }
    }
  }

  /** What a touch does to one label value. */
  lemma TouchTracks(labels: map<string, Times>, pairs: seq<Pair>, now: int, pair: Pair)
    requires DistinctLabelKeys(pairs)
    ensures var touched := TouchLabels(labels, pairs, now);
            && (Tracked(touched, pair) <==> pair in pairs || Tracked(labels, pair))
            && (Tracked(touched, pair) ==>
                  touched[pair.0][pair.1] == if pair in pairs then now else labels[pair.0][pair.1])
  {
    TouchLabelsAt(labels, pairs, now, pair.0);
    if i :| 0 <= i < |pairs| && pairs[i].0 == pair.0 {
      assert forall j :: 0 <= j < |pairs| && j != i ==> pairs[j].0 != pair.0;
      assert pair in pairs <==> pairs[i] == pair;
    }
  }

  lemma TouchKeepsNames(p: Project, offer: Offer, now: int, of: Reading)
    requires InvFor(p, now, of) && of(KeyOf(offer)) == offer
    ensures NamesAreMaxima(Touch(p, offer, now), of)
  {
    var q := Touch(p, offer, now);
    forall name | name in q.names ensures exists key :: NameWitness(q, of, name, key) {
      if name == offer.name {
        assert NameWitness(q, of, name, KeyOf(offer));
      } else {
        var key :| NameWitness(p, of, name, key);
        assert NameWitness(q, of, name, key);
      }
    }
  }

  lemma TouchKeepsCover(p: Project, offer: Offer, now: int, of: Reading)
    requires SeriesSound(p, now, of) && LabelsCover(p, of)
    requires of(KeyOf(offer)) == offer && DistinctLabelKeys(offer.pairs)
    ensures LabelsCover(Touch(p, offer, now), of)
  {
    var q := Touch(p, offer, now);
    forall key, pair | key in q.series && pair in of(key).pairs
      ensures Tracked(q.labels, pair) && q.series[key] <= q.labels[pair.0][pair.1]
    {
      TouchTracks(p.labels, offer.pairs, now, pair);
      if key != KeyOf(offer) {
        assert Tracked(p.labels, pair) && p.series[key] <= p.labels[pair.0][pair.1];
      }
    }
  }

  lemma TouchKeepsWitnesses(p: Project, offer: Offer, now: int, of: Reading)
    requires LabelsWitnessed(p, of)
    requires of(KeyOf(offer)) == offer && DistinctLabelKeys(offer.pairs)
    ensures LabelsWitnessed(Touch(p, offer, now), of)
  {
    var q := Touch(p, offer, now);
    forall pair | Tracked(q.labels, pair) ensures exists key :: LabelWitness(q, of, pair, key) {
      TouchTracks(p.labels, offer.pairs, now, pair);
      if pair in offer.pairs {
        assert LabelWitness(q, of, pair, KeyOf(offer));
      } else {
        var key :| LabelWitness(p, of, pair, key);
        assert LabelWitness(q, of, pair, key);
      }
    }
  }

  lemma TouchKeepsLabels(p: Project, offer: Offer, now: int, of: Reading)
    requires InvFor(p, now, of) && of(KeyOf(offer)) == offer && PlainOffer(offer)
    ensures LabelsAreMaxima(Touch(p, offer, now), of)
  {
    TouchKeepsCover(p, offer, now, of);
    TouchKeepsWitnesses(p, offer, now, of);
    var q := Touch(p, offer, now);
    forall attr | attr in q.labels ensures q.labels[attr] != map[] {
      TouchLabelsAt(p.labels, offer.pairs, now, attr);
    }
  }

  lemma AdmitKeepsInv(p: Project, offer: Offer, now: int, of: Reading)
    requires InvFor(p, now, of) && of(KeyOf(offer)) == offer && PlainOffer(offer)
    ensures InvFor(Admit(p, offer, now), now, of)
  {
    if Allowed(p, offer) {
      TouchKeepsNames(p, offer, now, of);
      TouchKeepsLabels(p, offer, now, of);
    }
  }

  lemma UpdateSize(times: Times, key: string, now: int)
    ensures |times[key := now]| == |times| + if key in times then 0 else 1
  {
    assert times[key := now].Keys == times.Keys + {key};
    assert |times[key := now].Keys| == |times[key := now]| && |times.Keys| == |times|;
  }

  /**
   The caps are inductive. For a series that is already tracked nothing is checked,
   and nothing needs to be: by the invariant its name and label values are tracked too.
   */
  lemma AdmitKeepsCaps(p: Project, offer: Offer, now: int, of: Reading)
    requires InvFor(p, now, of) && Capped(p) && of(KeyOf(offer)) == offer && PlainOffer(offer)
    ensures Capped(Admit(p, offer, now))
  {
    if Allowed(p, offer) {
      var q := Touch(p, offer, now);
      UpdateSize(p.series, KeyOf(offer), now);
      UpdateSize(p.names, offer.name, now);
      forall attr | attr in q.labels ensures |q.labels[attr]| <= MAX_LABEL_VALUES {
        TouchLabelsAt(p.labels, offer.pairs, now, attr);
        if i :| 0 <= i < |offer.pairs| && offer.pairs[i].0 == attr {
          assert offer.pairs[i] in offer.pairs;
          UpdateSize(ValuesOf(p.labels, attr), offer.pairs[i].1, now);
          if KeyOf(offer) in p.series {
            assert Tracked(p.labels, offer.pairs[i]);
          } else {
            assert LabelFits(p.labels, offer.pairs[i]);
          }
        }
      }
    }
  }

  ghost predicate PlainOffers(offers: seq<Offer>) {
    forall i :: 0 <= i < |offers| ==> PlainOffer(offers[i])
  }

  lemma {:induction false} AdmitAllKeeps(p: Project, offers: seq<Offer>, now: int, of: Reading)
    requires InvFor(p, now, of) && Capped(p) && PlainOffers(offers)
    requires forall i :: 0 <= i < |offers| ==> of(KeyOf(offers[i])) == offers[i]
    ensures InvFor(AdmitAll(p, offers, now), now, of) && Capped(AdmitAll(p, offers, now))
  {
    if offers != [] {
      var init, last := offers[..|offers| - 1], offers[|offers| - 1];
      AdmitAllKeeps(p, init, now, of);
      AdmitKeepsInv(AdmitAll(p, init, now), last, now, of);
      AdmitKeepsCaps(AdmitAll(p, init, now), last, now, of);
    }
  }

  // ---- What holds for every point, plain or not --------------------------------------

  /** Some tracked series was seen at `t` or later. */
  ghost predicate Backed(p: Project, t: int) {
    exists key :: key in p.series && t <= p.series[key]
  }

  /** No series was seen after `now`, and no name or label value after every series. */
  ghost predicate Supported(p: Project, now: int) {
    && (forall key :: key in p.series ==> p.series[key] <= now)
    && (forall name :: name in p.names ==> Backed(p, p.names[name]))
    && (forall pair :: Tracked(p.labels, pair) ==> Backed(p, p.labels[pair.0][pair.1]))
    && (forall attr :: attr in p.labels ==> p.labels[attr] != map[])
  }

  lemma EvictKeepsBacking(p: Project, now: int, t: int)
    requires Backed(p, t) && now - t <= STALE_WINDOW
    ensures Backed(Evict(p, now), t)
  {
    var key :| key in p.series && t <= p.series[key];
    assert key in Evict(p, now).series;
  }

  /** Whatever is evicted last goes with the last series. */
  lemma EvictKeepsSupport(p: Project, before: int, now: int)
    requires Supported(p, before) && before <= now
    ensures Supported(Evict(p, now), now)
  {
    var q := Evict(p, now);
    forall name | name in q.names ensures Backed(q, q.names[name]) {
      EvictKeepsBacking(p, now, p.names[name]);
    }
    forall pair | Tracked(q.labels, pair) ensures Backed(q, q.labels[pair.0][pair.1]) {
      EvictTracks(p, now, pair);
      EvictKeepsBacking(p, now, p.labels[pair.0][pair.1]);
    }
  }

  lemma TouchKeepsBacking(p: Project, offer: Offer, now: int, t: int)
    requires t <= now
    ensures Backed(Touch(p, offer, now), t)
  {
    assert KeyOf(offer) in Touch(p, offer, now).series;
  }

  lemma BackedIsPast(p: Project, now: int, t: int)
    requires Supported(p, now) && Backed(p, t)
    ensures t <= now
  {
  }

  lemma {:induction false} TouchedPair(labels: map<string, Times>, pairs: seq<Pair>, now: int, pair: Pair)
    requires Tracked(TouchLabels(labels, pairs, now), pair)
    ensures var time := TouchLabels(labels, pairs, now)[pair.0][pair.1];
            (time == now && pair in pairs) || (Tracked(labels, pair) && time == labels[pair.0][pair.1])
  {
    if pairs != [] {
      var init, last := pairs[..|pairs| - 1], pairs[|pairs| - 1];
      if pair != last {
        TouchedPair(labels, init, now, pair);
      }
    }
  }

  lemma {:induction false} TouchedNotEmpty(labels: map<string, Times>, pairs: seq<Pair>, now: int, attr: string)
    requires attr in TouchLabels(labels, pairs, now) && (attr in labels ==> labels[attr] != map[])
    ensures TouchLabels(labels, pairs, now)[attr] != map[]
  {
    if pairs != [] {
      var before, last := TouchLabels(labels, pairs[..|pairs| - 1], now), pairs[|pairs| - 1];
      if last.0 == attr {
        assert last.1 in TouchLabels(labels, pairs, now)[attr];
      } else {
        TouchedNotEmpty(labels, pairs[..|pairs| - 1], now, attr);
      }
    }
  }

  lemma AdmitKeepsSupport(p: Project, offer: Offer, now: int)
    requires Supported(p, now)
    ensures Supported(Admit(p, offer, now), now)
  {
    var q := Touch(p, offer, now);
    forall name | name in q.names ensures Backed(q, q.names[name]) {
      if name != offer.name {
        BackedIsPast(p, now, p.names[name]);
      }
      TouchKeepsBacking(p, offer, now, q.names[name]);
    }
    forall pair | Tracked(q.labels, pair) ensures Backed(q, q.labels[pair.0][pair.1]) {
      TouchedPair(p.labels, offer.pairs, now, pair);
      if q.labels[pair.0][pair.1] != now {
        BackedIsPast(p, now, p.labels[pair.0][pair.1]);
      }
      TouchKeepsBacking(p, offer, now, q.labels[pair.0][pair.1]);
    }
    forall attr | attr in q.labels ensures q.labels[attr] != map[] {
      TouchedNotEmpty(p.labels, offer.pairs, now, attr);
    }
  }

  lemma {:induction false} AdmitAllKeepsSupport(p: Project, offers: seq<Offer>, now: int)
    requires Supported(p, now)
    ensures Supported(AdmitAll(p, offers, now), now)
  {
    if offers != [] {
      AdmitAllKeepsSupport(p, offers[..|offers| - 1], now);
      AdmitKeepsSupport(AdmitAll(p, offers[..|offers| - 1], now), offers[|offers| - 1], now);
    }
  }

  /** A project without live series has no live names or labels either. */
  lemma NoSeriesMeansEmpty(p: Project, now: int)
    requires Supported(p, now) && p.series == map[]
    ensures p == EMPTY_PROJECT
  {
    if name :| name in p.names {
      assert false;
    }
    if attr :| attr in p.labels {
      var value :| value in p.labels[attr];
      assert Tracked(p.labels, (attr, value));
      assert false;
    }
  }

  // ---- The reading of keys that is right for all plain points ----------------------

  ghost predicate HasSeries(key: string) {
    exists s :: PlainOffer(s) && KeyOf(s) == key
  }

  ghost function SeriesOf(key: string): Offer {
    if HasSeries(key) then var s :| PlainOffer(s) && KeyOf(s) == key; s else Offer("", [])
  }

  lemma SeriesOfKey(offer: Offer)
    requires PlainOffer(offer)
    ensures SeriesOf(KeyOf(offer)) == offer
  {
    assert HasSeries(KeyOf(offer));
    var s := SeriesOf(KeyOf(offer));
    assert PlainOffer(s) && KeyOf(s) == KeyOf(offer);
    SeriesKeyInjective(s.name, s.pairs, offer.name, offer.pairs);
  }

  ghost predicate Inv(p: Project, now: int) {
    InvFor(p, now, SeriesOf)
  }

  lemma EmptyInv(now: int)
    ensures Inv(EMPTY_PROJECT, now) && Capped(EMPTY_PROJECT)
  {
  }

  /** One export keeps the invariant and the caps. */
  lemma EnforceKeeps(p: Project, offers: seq<Offer>, before: int, now: int)
    requires Inv(p, before) && Capped(p) && before <= now && PlainOffers(offers)
    ensures Inv(AdmitAll(Evict(p, now), offers, now), now)
    ensures Capped(AdmitAll(Evict(p, now), offers, now))
  {
    EvictKeepsInv(p, before, now, SeriesOf);
    EvictKeepsCaps(p, now);
    forall i | 0 <= i < |offers| ensures SeriesOf(KeyOf(offers[i])) == offers[i] {
      SeriesOfKey(offers[i]);
    }
    AdmitAllKeeps(Evict(p, now), offers, now, SeriesOf);
  }

  // ---- Exactly when one admission keeps the caps ----------------------------------

  function NewValues(pairs: seq<Pair>, attr: string): set<string> {
    set i | 0 <= i < |pairs| && pairs[i].0 == attr :: pairs[i].1
  }

  lemma {:induction false} TouchLabelsKeys(labels: map<string, Times>, pairs: seq<Pair>, now: int, attr: string)
    ensures ValuesOf(TouchLabels(labels, pairs, now), attr).Keys == ValuesOf(labels, attr).Keys + NewValues(pairs, attr)
    ensures attr in TouchLabels(labels, pairs, now) <==> attr in labels || NewValues(pairs, attr) != {}
  {
    if pairs != [] {
      var init, last := pairs[..|pairs| - 1], pairs[|pairs| - 1];
      TouchLabelsKeys(labels, init, now, attr);
      assert forall i :: 0 <= i < |init| ==> init[i] == pairs[i];
      if last.0 == attr {
        assert NewValues(pairs, attr) == NewValues(init, attr) + {last.1};
      } else {
        assert NewValues(pairs, attr) == NewValues(init, attr);
      }
    }
  }

  ghost predicate NamesHaveRoom(p: Project, offer: Offer) {
    offer.name in p.names || |p.names| < MAX_NAMES
  }

  ghost predicate LabelsHaveRoom(p: Project, offer: Offer) {
    forall attr :: |ValuesOf(p.labels, attr).Keys + NewValues(offer.pairs, attr)| <= MAX_LABEL_VALUES
  }

  /**
   For every point, plain or not, and every capped project: an admitted point keeps
   the caps exactly when there is room for its name and, per attribute key, for all of
   its values together.
   */
  lemma AdmitKeepsCapsIff(p: Project, offer: Offer, now: int)
    requires Capped(p) && Allowed(p, offer)
    ensures Capped(Admit(p, offer, now)) <==> NamesHaveRoom(p, offer) && LabelsHaveRoom(p, offer)
  {
    var q := Touch(p, offer, now);
    UpdateSize(p.series, KeyOf(offer), now);
    UpdateSize(p.names, offer.name, now);
    forall attr ensures |ValuesOf(q.labels, attr)| == |ValuesOf(p.labels, attr).Keys + NewValues(offer.pairs, attr)| {
      TouchLabelsKeys(p.labels, offer.pairs, now, attr);
      assert |ValuesOf(q.labels, attr)| == |ValuesOf(q.labels, attr).Keys|;
    }
    if Capped(q) {
      forall attr ensures |ValuesOf(p.labels, attr).Keys + NewValues(offer.pairs, attr)| <= MAX_LABEL_VALUES {
        assert |ValuesOf(q.labels, attr)| <= MAX_LABEL_VALUES;
      }
    }
    if LabelsHaveRoom(p, offer) {
      forall attr | attr in q.labels ensures |q.labels[attr]| <= MAX_LABEL_VALUES {
        assert q.labels[attr] == ValuesOf(q.labels, attr);
      }
    }
  }
}

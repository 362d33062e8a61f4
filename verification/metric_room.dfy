/**
 The other half of the caps: the gate refuses nothing that fits
 (fn0/fn0/src/metric_gate.rs:30-34, 51-83, 271-301). A point is refused exactly when
 its series is new and tracking it would go over a cap, and an export loses no point as
 long as the points of the last 300 seconds, its own included, stay within the caps.
 */
module MetricRoom {
  import opened Collections
  import opened TextOrder
  import opened MetricGate
  import opened MetricRuns

  // ---- One decision -------------------------------------------------------------------

  /** The decision on a point offered alone. */
  function Decision(p: Project, offer: Offer, now: int): bool {
    Decisions(p, [offer], now)[0]
  }

  /** Some label key of the point has 100 tracked values and the point brings another. */
  ghost predicate LabelKeyIsFull(p: Project, offer: Offer) {
    exists pair :: pair in offer.pairs && pair.0 in p.labels && |p.labels[pair.0]| == 100 && pair.1 !in p.labels[pair.0]
  }

  lemma DecisionIsAllowed(p: Project, offer: Offer, now: int)
    ensures Decision(p, offer, now) == Allowed(p, offer)
  {
    assert [offer][..0] == [];
  }

  /** A point that is admitted leaves the project within its caps, and one that is refused would not have. */
  lemma RefusedIffCapBreaks(p: Project, offer: Offer, now: int)
    requires Inv(p, now) && Capped(p) && PlainOffer(offer)
    ensures Decision(p, offer, now) <==> Capped(Touch(p, offer, now))
    ensures !Decision(p, offer, now) <==>
            && KeyOf(offer) !in p.series
            && (|p.series| == 1000 || (|p.names| == 100 && offer.name !in p.names) || LabelKeyIsFull(p, offer))
  {
    DecisionIsAllowed(p, offer, now);
    SeriesOfKey(offer);
    if Allowed(p, offer) {
      AdmitKeepsCaps(p, offer, now, SeriesOf);
      assert forall pair :: pair in offer.pairs && KeyOf(offer) !in p.series ==> LabelFits(p.labels, pair);
    } else {
      RefusedBreaks(p, offer, now);
    }
  }

  lemma RefusedBreaks(p: Project, offer: Offer, now: int)
    requires Capped(p) && DistinctLabelKeys(offer.pairs) && !Allowed(p, offer)
    ensures !Capped(Touch(p, offer, now)) && KeyOf(offer) !in p.series
    ensures |p.series| == 1000 || (|p.names| == 100 && offer.name !in p.names) || LabelKeyIsFull(p, offer)
  {
    UpdateSize(p.series, KeyOf(offer), now);
    UpdateSize(p.names, offer.name, now);
    if |p.series| < MAX_SERIES && (offer.name in p.names || |p.names| < MAX_NAMES) {
      var i :| 0 <= i < |offer.pairs| && !LabelFits(p.labels, offer.pairs[i]);
      var pair := offer.pairs[i];
      assert pair in offer.pairs;
      TouchLabelsAt(p.labels, offer.pairs, now, pair.0);
      UpdateSize(p.labels[pair.0], pair.1, now);
      assert |Touch(p, offer, now).labels[pair.0]| == 101;
    }
  }

  // ---- Everything tracked was sent within the window -----------------------------------

  ghost predicate Sends(op: Op, id: string, time: int, offer: Offer) {
    op.Enforce? && op.id == id && op.time == time && offer in op.offers
  }

  ghost predicate Sent(ops: seq<Op>, id: string, time: int, offer: Offer) {
    exists i :: 0 <= i < |ops| && Sends(ops[i], id, time, offer)
  }

  ghost predicate SeriesSent(ops: seq<Op>, id: string, time: int, key: string) {
    exists offer :: Sent(ops, id, time, offer) && KeyOf(offer) == key
  }

  ghost predicate NameSent(ops: seq<Op>, id: string, time: int, name: string) {
    exists offer :: Sent(ops, id, time, offer) && offer.name == name
  }

  ghost predicate LabelSent(ops: seq<Op>, id: string, time: int, pair: Pair) {
    exists offer :: Sent(ops, id, time, offer) && pair in offer.pairs
  }

  /** Every tracked time is the time of an export that brought what it stands for. */
  ghost predicate Traced(p: Project, ops: seq<Op>, id: string) {
    && (forall key :: key in p.series ==> SeriesSent(ops, id, p.series[key], key))
    && (forall name :: name in p.names ==> NameSent(ops, id, p.names[name], name))
    && (forall pair :: Tracked(p.labels, pair) ==> LabelSent(ops, id, p.labels[pair.0][pair.1], pair))
  }

  ghost predicate AllTraced(g: Gate, ops: seq<Op>) {
    forall id :: id in g ==> Traced(g[id], ops, id)
  }

  lemma SentMore(ops: seq<Op>, op: Op, id: string, time: int, offer: Offer)
    requires Sent(ops, id, time, offer) || Sends(op, id, time, offer)
    ensures Sent(ops + [op], id, time, offer)
  {
    if Sent(ops, id, time, offer) {
      var i :| 0 <= i < |ops| && Sends(ops[i], id, time, offer);
      assert (ops + [op])[i] == ops[i];
    } else {
      assert (ops + [op])[|ops|] == op;
    }
  }

  lemma TracedMore(p: Project, ops: seq<Op>, op: Op, id: string)
    requires Traced(p, ops, id)
    ensures Traced(p, ops + [op], id)
  {
    forall time, offer | Sent(ops, id, time, offer) ensures Sent(ops + [op], id, time, offer) {
      SentMore(ops, op, id, time, offer);
    }
  }

  lemma EvictTraced(p: Project, ops: seq<Op>, id: string, now: int)
    requires Traced(p, ops, id)
    ensures Traced(Evict(p, now), ops, id)
  {
    forall pair | Tracked(Evict(p, now).labels, pair)
      ensures LabelSent(ops, id, Evict(p, now).labels[pair.0][pair.1], pair)
    {
      EvictTracks(p, now, pair);
    }
  }

  lemma AdmitTraced(p: Project, ops: seq<Op>, id: string, offer: Offer, now: int)
    requires Traced(p, ops, id) && Sent(ops, id, now, offer)
    ensures Traced(Admit(p, offer, now), ops, id)
  {
    var q := Touch(p, offer, now);
    assert SeriesSent(ops, id, now, KeyOf(offer)) && NameSent(ops, id, now, offer.name);
    forall pair | Tracked(q.labels, pair) ensures LabelSent(ops, id, q.labels[pair.0][pair.1], pair) {
      TouchedPair(p.labels, offer.pairs, now, pair);
    }
  }

  lemma {:induction false} AdmitAllTraced(p: Project, ops: seq<Op>, id: string, offers: seq<Offer>, now: int)
    requires Traced(p, ops, id) && forall offer :: offer in offers ==> Sent(ops, id, now, offer)
    ensures Traced(AdmitAll(p, offers, now), ops, id)
  {
    if offers != [] {
      AdmitAllTraced(p, ops, id, offers[..|offers| - 1], now);
      AdmitTraced(AdmitAll(p, offers[..|offers| - 1], now), ops, id, offers[|offers| - 1], now);
    }
  }

  lemma ApplyTraced(g: Gate, ops: seq<Op>, op: Op)
    requires AllTraced(g, ops)
    ensures AllTraced(Apply(g, op), ops + [op])
  {
    var h := Apply(g, op);
    forall id | id in h ensures Traced(h[id], ops + [op], id) {
      var p := ProjectIn(g, id);
      TracedMore(p, ops, op, id);
      EvictTraced(p, ops + [op], id, op.time);
      if op.Enforce? && op.id == id {
        forall offer | offer in op.offers ensures Sent(ops + [op], id, op.time, offer) {
          SentMore(ops, op, id, op.time, offer);
        }
        AdmitAllTraced(Ready(g, op), ops + [op], id, op.offers, op.time);
      }
    }
  }

  lemma {:induction false} RunTraced(g: Gate, done: seq<Op>, ops: seq<Op>)
    requires AllTraced(g, done)
    ensures AllTraced(Run(g, ops), done + ops)
    decreases |ops|
  {
    if ops == [] {
      NothingAdded(done, ops);
    } else {
      ApplyTraced(g, done, ops[0]);
      RunTraced(Apply(g, ops[0]), done + [ops[0]], ops[1..]);
      Regroup(done, [ops[0]], ops[1..]);
      assert [ops[0]] + ops[1..] == ops;
    }
  }

  // ---- What fits is kept ------------------------------------------------------------------

  /** All points of the project that were offered within the 300 seconds before `now`. */
  function Recent(ops: seq<Op>, id: string, now: int): seq<Offer> {
    if ops == [] then []
    else
      var last := ops[|ops| - 1];
      Recent(ops[..|ops| - 1], id, now)
      + if last.Enforce? && last.id == id && now - last.time <= 300 then last.offers else []
  }

  function KeysOf(offers: seq<Offer>): set<string> {
    set offer | offer in offers :: KeyOf(offer)
  }

  function NamesOf(offers: seq<Offer>): set<string> {
    set offer | offer in offers :: offer.name
  }

  function ValuesOn(offers: seq<Offer>, attr: string): set<string> {
    set offer, pair | offer in offers && pair in offer.pairs && pair.0 == attr :: pair.1
  }

  /** At most 1000 different series, 100 different names and 100 different values per label key. */
  ghost predicate FitsCaps(offers: seq<Offer>) {
    && |KeysOf(offers)| <= 1000
    && |NamesOf(offers)| <= 100
    && forall attr :: |ValuesOn(offers, attr)| <= 100
  }

  lemma {:induction false} SentIsRecent(ops: seq<Op>, id: string, now: int, time: int, offer: Offer)
    requires Sent(ops, id, time, offer) && now - time <= 300
    ensures offer in Recent(ops, id, now)
    decreases |ops|
  {
    var n := |ops| - 1;
    var i :| 0 <= i < |ops| && Sends(ops[i], id, time, offer);
    if i < n {
      assert ops[..n][i] == ops[i];
      SentIsRecent(ops[..n], id, now, time, offer);
    }
  }

  /** The project tracks nothing but what these points brought. */
  ghost predicate Within(p: Project, offers: seq<Offer>) {
    && p.series.Keys <= KeysOf(offers)
    && p.names.Keys <= NamesOf(offers)
    && forall pair :: Tracked(p.labels, pair) ==> pair.1 in ValuesOn(offers, pair.0)
  }

  lemma TracedIsWithin(p: Project, ops: seq<Op>, id: string, now: int, offers: seq<Offer>)
    requires Traced(p, ops, id) && forall offer :: offer in Recent(ops, id, now) ==> offer in offers
    ensures Within(Evict(p, now), offers)
  {
    var q := Evict(p, now);
    forall key | key in q.series ensures key in KeysOf(offers) {
      var offer :| Sent(ops, id, p.series[key], offer) && KeyOf(offer) == key;
      SentIsRecent(ops, id, now, p.series[key], offer);
    }
    forall name | name in q.names ensures name in NamesOf(offers) {
      var offer :| Sent(ops, id, p.names[name], offer) && offer.name == name;
      SentIsRecent(ops, id, now, p.names[name], offer);
    }
    forall pair | Tracked(q.labels, pair) ensures pair.1 in ValuesOn(offers, pair.0) {
      EvictTracks(p, now, pair);
      var offer :| Sent(ops, id, p.labels[pair.0][pair.1], offer) && pair in offer.pairs;
      SentIsRecent(ops, id, now, p.labels[pair.0][pair.1], offer);
    }
  }

  lemma AdmitStaysWithin(p: Project, offer: Offer, now: int, offers: seq<Offer>)
    requires Within(p, offers) && offer in offers
    ensures Within(Admit(p, offer, now), offers)
  {
    var q := Touch(p, offer, now);
    forall pair | Tracked(q.labels, pair) ensures pair.1 in ValuesOn(offers, pair.0) {
      TouchedPair(p.labels, offer.pairs, now, pair);
    }
  }

  lemma {:induction false} AdmitAllStaysWithin(p: Project, some: seq<Offer>, now: int, offers: seq<Offer>)
    requires Within(p, offers) && forall offer :: offer in some ==> offer in offers
    ensures Within(AdmitAll(p, some, now), offers)
  {
    if some != [] {
      AdmitAllStaysWithin(p, some[..|some| - 1], now, offers);
      AdmitStaysWithin(AdmitAll(p, some[..|some| - 1], now), some[|some| - 1], now, offers);
    }
  }

  /** A set that lacks one of the members of another is smaller than it. */
  lemma LacksOne(some: Times, all: set<string>, key: string)
    requires some.Keys <= all && key in all && key !in some
    ensures |some| < |all|
  {
    SubsetSize(some.Keys + {key}, all);
    assert |some| == |some.Keys|;
  }

  lemma FitsIsAllowed(p: Project, offer: Offer, offers: seq<Offer>)
    requires Within(p, offers) && FitsCaps(offers) && offer in offers
    ensures Allowed(p, offer)
  {
    if KeyOf(offer) !in p.series {
      LacksOne(p.series, KeysOf(offers), KeyOf(offer));
      if offer.name !in p.names {
        LacksOne(p.names, NamesOf(offers), offer.name);
      }
      forall i | 0 <= i < |offer.pairs| ensures LabelFits(p.labels, offer.pairs[i]) {
        var pair := offer.pairs[i];
        if pair.0 in p.labels && pair.1 !in p.labels[pair.0] {
          forall value | value in p.labels[pair.0] ensures value in ValuesOn(offers, pair.0) {
            assert Tracked(p.labels, (pair.0, value));
          }
          LacksOne(p.labels[pair.0], ValuesOn(offers, pair.0), pair.1);
        }
      }
    }
  }

  /**
   Nothing is lost that fits. Whatever was exported before, by whatever projects and at
   whatever times: if the points this project offered in the last 300 seconds, together
   with those of the present export, bring at most 1000 different series, 100 different
   names and 100 different values per label key, every point of the export is accepted.
   */
  lemma WhatFitsIsAccepted(ops: seq<Op>, sending: Op, j: nat)
    requires sending.Enforce? && j < |sending.offers|
    requires FitsCaps(Recent(ops, sending.id, sending.time) + sending.offers)
    ensures Accepted(Run(map[], ops), sending)[j]
  {
    var offers := Recent(ops, sending.id, sending.time) + sending.offers;
    var g := Run(map[], ops);
    RunTraced(map[], [], ops);
    assert [] + ops == ops;
    TracedIsWithin(ProjectIn(g, sending.id), ops, sending.id, sending.time, offers);
    AdmitAllStaysWithin(Ready(g, sending), sending.offers[..j], sending.time, offers);
    FitsIsAllowed(AdmitAll(Ready(g, sending), sending.offers[..j], sending.time), sending.offers[j], offers);
  }
}

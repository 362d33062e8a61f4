/**
 Whole runs of the metric gate: any sequence of exports and snapshots, of any
 projects, on a clock that does not go backwards (fn0/fn0/src/metric_gate.rs:271-301).
 */
module MetricRuns {
  import opened MetricGate

  type Gate = map<string, Project>

  datatype Op =
    | Enforce(id: string, offers: seq<Offer>, time: int)
    | Snapshot(time: int)

  function ProjectIn(g: Gate, id: string): Project {
    if id in g then g[id] else EMPTY_PROJECT
  }

  /** The project as an export finds it: stale entries evicted. */
  function Ready(g: Gate, op: Op): Project
    requires op.Enforce?
  {
    Evict(ProjectIn(g, op.id), op.time)
  }

  function Apply(g: Gate, op: Op): Gate {
    match op
    case Enforce(id, offers, time) => g[id := AdmitAll(Ready(g, op), offers, time)]
    case Snapshot(time) => map id | id in g && Evict(g[id], time).series != map[] :: Evict(g[id], time)
  }

  function Accepted(g: Gate, op: Op): seq<bool>
    requires op.Enforce?
  {
    Decisions(Ready(g, op), op.offers, op.time)
  }

  function Run(g: Gate, ops: seq<Op>): Gate
    decreases |ops|
  {
    if ops == [] then g else Run(Apply(g, ops[0]), ops[1..])
  }

  ghost predicate PlainOp(op: Op) {
    op.Enforce? ==> PlainOffers(op.offers)
  }

  /** The clock never goes backwards, starting from `now`. */
  ghost predicate Ordered(ops: seq<Op>, now: int) {
    && (forall i :: 0 <= i < |ops| ==> now <= ops[i].time)
    && (forall i, j :: 0 <= i < j < |ops| ==> ops[i].time <= ops[j].time)
  }

  function LastTime(ops: seq<Op>, now: int): int {
    if ops == [] then now else ops[|ops| - 1].time
  }

  // ---- The caps hold in every reachable state ---------------------------------------

  ghost predicate GateInv(g: Gate, now: int) {
    forall id :: id in g ==> Inv(g[id], now) && Capped(g[id])
  }

  lemma ProjectInv(g: Gate, id: string, now: int)
    requires GateInv(g, now)
    ensures Inv(ProjectIn(g, id), now) && Capped(ProjectIn(g, id))
  {
    EmptyInv(now);
  }

  lemma InvLater(p: Project, now: int, later: int)
    requires Inv(p, now) && now <= later
    ensures Inv(p, later)
  {
    assert SeriesSound(p, later, SeriesOf);
  }

  lemma ApplyKeeps(g: Gate, op: Op, now: int)
    requires GateInv(g, now) && now <= op.time && PlainOp(op)
    ensures GateInv(Apply(g, op), op.time)
  {
    var h := Apply(g, op);
    forall id | id in h ensures Inv(h[id], op.time) && Capped(h[id]) {
      if op.Enforce? && id == op.id {
        ProjectInv(g, id, now);
        EnforceKeeps(ProjectIn(g, id), op.offers, now, op.time);
      } else if op.Enforce? {
        InvLater(g[id], now, op.time);
      } else {
        EvictKeepsInv(g[id], now, op.time, SeriesOf);
        EvictKeepsCaps(g[id], op.time);
      }
    }
  }

  lemma OrderedTail(ops: seq<Op>, now: int)
    requires ops != [] && Ordered(ops, now)
    ensures now <= ops[0].time && Ordered(ops[1..], ops[0].time)
    ensures LastTime(ops, now) == LastTime(ops[1..], ops[0].time)
  {
    var rest := ops[1..];
    forall i | 0 <= i < |rest| ensures ops[0].time <= rest[i].time {
      assert rest[i] == ops[i + 1];
    }
  }

  /**
   After every sequence of exports and snapshots each project tracks at most 1000
   series, 100 names and 100 values per label key, and each name or label value carries
   the time of the latest live series that uses it.
   */
  lemma {:induction false} CapsAlwaysHold(g: Gate, ops: seq<Op>, now: int)
    requires GateInv(g, now) && Ordered(ops, now)
    requires forall i :: 0 <= i < |ops| ==> PlainOp(ops[i])
    ensures GateInv(Run(g, ops), LastTime(ops, now))
    decreases |ops|
  {
    if ops != [] {
      OrderedTail(ops, now);
      ApplyKeeps(g, ops[0], now);
      CapsAlwaysHold(Apply(g, ops[0]), ops[1..], ops[0].time);
    }
  }

  lemma CapsHoldFromStart(ops: seq<Op>, start: int)
    requires Ordered(ops, start) && forall i :: 0 <= i < |ops| ==> PlainOp(ops[i])
    ensures GateInv(Run(map[], ops), LastTime(ops, start))
  {
    CapsAlwaysHold(map[], ops, start);
  }

  // ---- Keep existing -----------------------------------------------------------------

  /** The series is tracked and was last seen at `t` or later. */
  predicate Holds(p: Project, key: string, t: int) {
    key in p.series && p.series[key] >= t
  }

  lemma {:induction false} AdmitAllHolds(p: Project, offers: seq<Offer>, now: int, key: string, t: int)
    requires Holds(p, key, t) && t <= now
    ensures Holds(AdmitAll(p, offers, now), key, t)
  {
    if offers != [] {
      AdmitAllHolds(p, offers[..|offers| - 1], now, key, t);
    }
  }

  /** An accepted point is tracked at the end of its export. */
  lemma {:induction false} AcceptedIsTracked(p: Project, offers: seq<Offer>, now: int, i: nat)
    requires i < |offers| && Decisions(p, offers, now)[i]
    ensures Holds(AdmitAll(p, offers, now), KeyOf(offers[i]), now)
    decreases |offers|
  {
    var init := offers[..|offers| - 1];
    if i < |init| {
      assert init[..i] == offers[..i];
      assert Decisions(p, init, now)[i];
      AcceptedIsTracked(p, init, now, i);
    } else {
      assert offers[..i] == init;
    }
  }

  /** A tracked series is accepted wherever it appears in the export. */
  lemma TrackedIsAccepted(p: Project, offers: seq<Offer>, now: int, i: nat, t: int)
    requires i < |offers| && Holds(p, KeyOf(offers[i]), t) && t <= now
    ensures Decisions(p, offers, now)[i]
  {
    AdmitAllHolds(p, offers[..i], now, KeyOf(offers[i]), t);
  }

  lemma EvictHolds(p: Project, now: int, key: string, t: int)
    requires Holds(p, key, t) && now <= t + STALE_WINDOW
    ensures Holds(Evict(p, now), key, t)
  {
  }

  lemma ApplyHolds(g: Gate, op: Op, id: string, key: string, t: int)
    requires id in g && Holds(g[id], key, t) && t <= op.time <= t + STALE_WINDOW
    ensures id in Apply(g, op) && Holds(Apply(g, op)[id], key, t)
  {
    EvictHolds(g[id], op.time, key, t);
    if op.Enforce? && op.id == id {
      AdmitAllHolds(Ready(g, op), op.offers, op.time, key, t);
    }
  }

  lemma {:induction false} RunHolds(g: Gate, ops: seq<Op>, id: string, key: string, t: int)
    requires id in g && Holds(g[id], key, t)
    requires forall i :: 0 <= i < |ops| ==> t <= ops[i].time <= t + STALE_WINDOW
    ensures id in Run(g, ops) && Holds(Run(g, ops)[id], key, t)
    decreases |ops|
  {
    if ops != [] {
      ApplyHolds(g, ops[0], id, key, t);
      RunHolds(Apply(g, ops[0]), ops[1..], id, key, t);
    }
  }

  /**
   A series accepted at `t` is accepted again at any later time up to `t + 300`,
   whatever exports and snapshots, of whatever points, came in between.
   */
  lemma KeepsExisting(g: Gate, first: Op, between: seq<Op>, again: Op, i: nat, j: nat)
    requires first.Enforce? && again.Enforce? && first.id == again.id
    requires i < |first.offers| && j < |again.offers| && KeyOf(first.offers[i]) == KeyOf(again.offers[j])
    requires Accepted(g, first)[i]
    requires Ordered(between, first.time) && LastTime(between, first.time) <= again.time <= first.time + STALE_WINDOW
    ensures Accepted(Run(Apply(g, first), between), again)[j]
  {
    var key, t := KeyOf(first.offers[i]), first.time;
    AcceptedIsTracked(Ready(g, first), first.offers, t, i);
    forall k | 0 <= k < |between| ensures t <= between[k].time <= t + STALE_WINDOW {
    }
    RunHolds(Apply(g, first), between, first.id, key, t);
    var h := Run(Apply(g, first), between);
    EvictHolds(h[again.id], again.time, key, t);
    TrackedIsAccepted(Ready(h, again), again.offers, again.time, j, t);
  }

  // ---- Snapshots are invisible ---------------------------------------------------------

  /** The accept decisions of all exports of a run, in order. */
  function Outcomes(g: Gate, ops: seq<Op>): seq<seq<bool>>
    decreases |ops|
  {
    if ops == [] then []
    else (if ops[0].Enforce? then [Accepted(g, ops[0])] else []) + Outcomes(Apply(g, ops[0]), ops[1..])
  }

  function WithoutSnapshots(ops: seq<Op>): seq<Op> {
    if ops == [] then []
    else (if ops[0].Enforce? then [ops[0]] else []) + WithoutSnapshots(ops[1..])
  }

  /** From `now` on, no export can tell the two gates apart. */
  ghost predicate Alike(g: Gate, h: Gate, now: int) {
    forall id :: Evict(ProjectIn(g, id), now) == Evict(ProjectIn(h, id), now)
  }

  lemma AlikeLater(g: Gate, h: Gate, now: int, later: int)
    requires Alike(g, h, now) && now <= later
    ensures Alike(g, h, later)
  {
    forall id ensures Evict(ProjectIn(g, id), later) == Evict(ProjectIn(h, id), later) {
      EvictTwice(ProjectIn(g, id), now, later);
      EvictTwice(ProjectIn(h, id), now, later);
    }
  }

  lemma EvictEmpty(now: int)
    ensures Evict(EMPTY_PROJECT, now) == EMPTY_PROJECT
  {
  }

  /** In every project no name or label value was seen after every series. */
  ghost predicate GateSupported(g: Gate, now: int) {
    forall id :: id in g ==> Supported(g[id], now)
  }

  lemma SupportedLater(p: Project, now: int, later: int)
    requires Supported(p, now) && now <= later
    ensures Supported(p, later)
  {
  }

  /** Every call keeps this, whatever points it brings. */
  lemma ApplyKeepsSupport(g: Gate, op: Op, now: int)
    requires GateSupported(g, now) && now <= op.time
    ensures GateSupported(Apply(g, op), op.time)
  {
    var h := Apply(g, op);
    forall id | id in h ensures Supported(h[id], op.time) {
      if op.Enforce? && id == op.id {
        assert Supported(ProjectIn(g, id), now);
        EvictKeepsSupport(ProjectIn(g, id), now, op.time);
        AdmitAllKeepsSupport(Ready(g, op), op.offers, op.time);
      } else if op.Enforce? {
        SupportedLater(g[id], now, op.time);
      } else {
        EvictKeepsSupport(g[id], now, op.time);
      }
    }
  }

  /** Taking a snapshot, which drops whole projects, changes nothing an export could notice. */
  lemma SnapshotAlike(g: Gate, now: int, time: int)
    requires GateSupported(g, now) && now <= time
    ensures Alike(Apply(g, Snapshot(time)), g, time)
  {
    var h := Apply(g, Snapshot(time));
    forall id ensures Evict(ProjectIn(h, id), time) == Evict(ProjectIn(g, id), time) {
      EvictEmpty(time);
      if id in g {
        var p := Evict(g[id], time);
        EvictTwice(g[id], time, time);
        if p.series == map[] {
          EvictKeepsSupport(g[id], now, time);
          NoSeriesMeansEmpty(p, time);
        }
      }
    }
  }

  lemma EnforceAlike(g: Gate, h: Gate, op: Op)
    requires op.Enforce? && Alike(g, h, op.time)
    ensures Accepted(g, op) == Accepted(h, op)
    ensures Alike(Apply(g, op), Apply(h, op), op.time)
  {
    assert Ready(g, op) == Ready(h, op);
    forall id ensures Evict(ProjectIn(Apply(g, op), id), op.time) == Evict(ProjectIn(Apply(h, op), id), op.time) {
      if id != op.id {
        assert Evict(ProjectIn(g, id), op.time) == Evict(ProjectIn(h, id), op.time);
      }
    }
  }

  lemma AlikeTransitive(g: Gate, h: Gate, k: Gate, now: int)
    requires Alike(g, h, now) && Alike(h, k, now)
    ensures Alike(g, k, now)
  {
    forall id ensures Evict(ProjectIn(g, id), now) == Evict(ProjectIn(k, id), now) {
      assert Evict(ProjectIn(g, id), now) == Evict(ProjectIn(h, id), now);
    }
  }

  lemma {:induction false} SnapshotsInvisible(g: Gate, h: Gate, ops: seq<Op>, now: int)
    requires GateSupported(g, now) && Alike(g, h, now) && Ordered(ops, now)
    ensures Outcomes(g, ops) == Outcomes(h, WithoutSnapshots(ops))
    decreases |ops|
  {
    if ops != [] {
      var op, rest := ops[0], ops[1..];
      OrderedTail(ops, now);
      ApplyKeepsSupport(g, op, now);
      AlikeLater(g, h, now, op.time);
      if op.Enforce? {
        EnforceAlike(g, h, op);
        SnapshotsInvisible(Apply(g, op), Apply(h, op), rest, op.time);
        assert WithoutSnapshots(ops)[1..] == WithoutSnapshots(rest);
      } else {
        SnapshotAlike(g, now, op.time);
        AlikeTransitive(Apply(g, op), g, h, op.time);
        SnapshotsInvisible(Apply(g, op), h, rest, op.time);
        assert WithoutSnapshots(ops) == WithoutSnapshots(rest);
      }
    }
  }

  /** Inserting or removing snapshot calls anywhere never changes an admission decision, of any point. */
  lemma SnapshotsNeverMatter(ops: seq<Op>, others: seq<Op>, start: int)
    requires Ordered(ops, start) && Ordered(others, start)
    requires WithoutSnapshots(ops) == WithoutSnapshots(others)
    ensures Outcomes(map[], ops) == Outcomes(map[], others)
  {
    SnapshotsInvisible(map[], map[], ops, start);
    SnapshotsInvisible(map[], map[], others, start);
  }
}

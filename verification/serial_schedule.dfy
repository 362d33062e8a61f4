/**
 Two links between the serializability theorem and plain schedules: the serial
 reference is itself a schedule of the step system in which nobody else moves, and
 the incarnation proviso follows from a condition on the steps alone.
 */
module SerialSchedule {
  import opened DocTypes
  import opened Collections
  import opened TrxState
  import opened Backends
  import opened Interleaving
  import opened AttemptInvariant
  import opened Serializability

  // ---- The serial reference is a contiguous schedule -------------------------

  function ArriveAll(id: nat, count: nat): seq<Step> {
    if count == 0 then [] else ArriveAll(id, count - 1) + [ArriveStep(id, count - 1)]
  }

  /** The steps of one local action of an attempt that runs alone. */
  function ActionSteps(id: nat, t: Trx, action: Action): seq<Step> {
    if action.ReadDocs? && !Refused(t, action.gets)
    then [ActStep(id)] + ArriveAll(id, |action.gets|) + [ActStep(id)]
    else [ActStep(id)]
  }

  /** The schedule that runs the first `n` actions of a closure and nothing else. */
  function SoloSteps(id: nat, closure: Closure, b: Backend, n: nat): seq<Step> {
    if n == 0 then [BeginStep(id, closure)]
    else SoloSteps(id, closure, b, n - 1) + LastSteps(id, closure, b, n - 1)
  }

  /** The steps of the action after the first `n`. */
  function LastSteps(id: nat, closure: Closure, b: Backend, n: nat): seq<Step> {
    var s := Solo(closure, b, n);
    if IsLocal(closure(s.replies)) then ActionSteps(id, s.trx, closure(s.replies)) else []
  }

  lemma {:induction false} RunConcat(w: World, first: seq<Step>, second: seq<Step>)
    ensures Run(w, first + second) == Run(Run(w, first), second)
    decreases |second|
  {
    if second == [] {
      assert first + second == first;
    } else {
      var init := second[..|second| - 1];
      assert (first + second)[..|first + second| - 1] == first + init;
      RunConcat(w, first, init);
    }
  }

  lemma RunOne(w: World, s: Step)
    ensures Run(w, [s]) == Next(w, s)
  {
    assert [s][..0] == [];
  }

  /** The first `count` loads of the outstanding read have arrived. */
  function PartlyArrived(b: Backend, gets: seq<Get>, count: nat): (loads: seq<Option<Load>>)
    requires count <= |gets|
    ensures |loads| == |gets|
  {
    seq(|gets|, i requires 0 <= i < |gets| => if i < count then Some(ObserveAt(b, gets[i].key)) else None)
  }

  function WithAttempt(w: World, id: nat, a: Attempt): World {
    w.(attempts := w.attempts[id := a])
  }

  /** The outstanding read with its first `count` loads arrived. */
  function Waiting(a: Attempt, b: Backend, gets: seq<Get>, count: nat): Attempt
    requires count <= |gets|
  {
    a.(waiting := Some(PartlyArrived(b, gets, count)))
  }

  lemma ArriveRuns(w: World, id: nat, a: Attempt, gets: seq<Get>, count: nat)
    requires a.result.None? && a.closure(a.replies) == ReadDocs(gets) && count < |gets|
    ensures Next(WithAttempt(w, id, Waiting(a, w.db, gets, count)), ArriveStep(id, count))
            == WithAttempt(w, id, Waiting(a, w.db, gets, count + 1))
  {
    assert PartlyArrived(w.db, gets, count)[count := Some(ObserveAt(w.db, gets[count].key))]
        == PartlyArrived(w.db, gets, count + 1);
  }

  /** The first `count` arrivals have that effect. */
  ghost predicate ArrivalsRun(w: World, id: nat, a: Attempt, gets: seq<Get>, count: nat) {
    count <= |gets| ==>
      Run(WithAttempt(w, id, Waiting(a, w.db, gets, 0)), ArriveAll(id, count))
      == WithAttempt(w, id, Waiting(a, w.db, gets, count))
  }

  lemma ArriveOneMore(w: World, id: nat, a: Attempt, gets: seq<Get>, count: nat)
    requires a.result.None? && a.closure(a.replies) == ReadDocs(gets)
    requires ArrivalsRun(w, id, a, gets, count)
    ensures ArrivalsRun(w, id, a, gets, count + 1)
  {
    if count < |gets| {
      RunSnoc(WithAttempt(w, id, Waiting(a, w.db, gets, 0)), ArriveAll(id, count), ArriveStep(id, count));
      ArriveRuns(w, id, a, gets, count);
    }
  }

  lemma ArriveAllRuns(w: World, id: nat, a: Attempt, gets: seq<Get>)
    requires a.result.None? && a.closure(a.replies) == ReadDocs(gets)
    ensures ArrivalsRun(w, id, a, gets, |gets|)
  {
    var arrivals := (k: nat) => ArrivalsRun(w, id, a, gets, k);
    forall k: nat | arrivals(k) ensures arrivals(k + 1) {
      ArriveOneMore(w, id, a, gets, k);
    }
    StepByStep(arrivals, |gets|);
  }

  lemma ActRuns(w: World, id: nat, a: Attempt)
    requires a.result.None?
    ensures Next(WithAttempt(w, id, a), ActStep(id)) == WithAttempt(w, id, Act(a))
  {
  }

  lemma StartReadActs(a: Attempt, b: Backend, gets: seq<Get>)
    requires a.waiting.None? && a.closure(a.replies) == ReadDocs(gets) && !Refused(a.trx, gets)
    ensures Act(a) == Waiting(a, b, gets, 0)
  {
    var none: seq<Option<Load>> := seq(|gets|, _ => None);
    assert none == PartlyArrived(b, gets, 0);
  }

  lemma FinishReadActs(a: Attempt, b: Backend, gets: seq<Get>)
    requires a.waiting.None? && a.closure(a.replies) == ReadDocs(gets)
    ensures Act(Waiting(a, b, gets, |gets|)) == FinishRead(a, gets, ObserveAll(b, gets))
  {
    var loads := PartlyArrived(b, gets, |gets|);
    assert AllArrived(loads) && Arrived(loads) == ObserveAll(b, gets);
  }

  lemma RunStages(w: World, first: Step, u: World, steps: seq<Step>, v: World, last: Step)
    requires Next(w, first) == u && Run(u, steps) == v
    ensures Run(w, [first] + steps + [last]) == Next(v, last)
  {
    RunSnoc(w, [first] + steps, last);
    RunConcat(w, [first], steps);
    RunOne(w, first);
  }

  lemma ReadRuns(w: World, id: nat, gets: seq<Get>)
    requires Running(w, id) && w.attempts[id].waiting.None?
    requires w.attempts[id].closure(w.attempts[id].replies) == ReadDocs(gets) && !Refused(w.attempts[id].trx, gets)
    ensures Run(w, [ActStep(id)] + ArriveAll(id, |gets|) + [ActStep(id)])
            == WithAttempt(w, id, FinishRead(w.attempts[id], gets, ObserveAll(w.db, gets)))
  {
    var a := w.attempts[id];
    assert WithAttempt(w, id, a) == w;
    ActRuns(w, id, a);
    StartReadActs(a, w.db, gets);
    ArriveAllRuns(w, id, a, gets);
    var full := Waiting(a, w.db, gets, |gets|);
    FinishReadActs(a, w.db, gets);
    ActRuns(w, id, full);
    RunStages(w, ActStep(id), WithAttempt(w, id, Waiting(a, w.db, gets, 0)),
              ArriveAll(id, |gets|), WithAttempt(w, id, full), ActStep(id));
  }

  /** The attempt is where its closure alone would be after `n` actions on the current backend. */
  ghost predicate InStep(w: World, id: nat, closure: Closure, n: nat) {
    && id in w.attempts
    && w.attempts[id].closure == closure
    && w.attempts[id].waiting.None? && w.attempts[id].result.None?
    && SoloState(w.attempts[id].trx, w.attempts[id].replies) == Solo(closure, w.db, n)
  }

  lemma ActionRuns(w: World, id: nat, closure: Closure, n: nat)
    requires InStep(w, id, closure, n) && IsLocal(closure(w.attempts[id].replies))
    ensures var v := Run(w, ActionSteps(id, w.attempts[id].trx, closure(w.attempts[id].replies)));
            v.db == w.db && InStep(v, id, closure, n + 1)
  {
    var a := w.attempts[id];
    var action := closure(a.replies);
    if action.ReadDocs? && !Refused(a.trx, action.gets) {
      ReadRuns(w, id, action.gets);
    } else {
      RunOne(w, ActStep(id));
    }
  }

  lemma SoloExtends(w: World, id: nat, closure: Closure, n: nat) returns (v: World)
    requires InStep(w, id, closure, n)
    ensures v == Run(w, LastSteps(id, closure, w.db, n))
    ensures v.db == w.db && InStep(v, id, closure, n + 1)
  {
    v := Run(w, LastSteps(id, closure, w.db, n));
    if IsLocal(closure(Solo(closure, w.db, n).replies)) {
      ActionRuns(w, id, closure, n);
    }
  }

  /** The schedule of `n` actions leaves the backend alone and the attempt in step. */
  ghost predicate Reached(w: World, id: nat, closure: Closure, n: nat) {
    var v := Run(w, SoloSteps(id, closure, w.db, n));
    v.db == w.db && InStep(v, id, closure, n)
  }

  lemma SoloBegins(w: World, id: nat, closure: Closure)
    requires id !in w.attempts
    ensures Reached(w, id, closure, 0)
  {
    RunOne(w, BeginStep(id, closure));
  }

  lemma SoloAdvances(w: World, id: nat, closure: Closure, n: nat)
    requires Reached(w, id, closure, n)
    ensures Reached(w, id, closure, n + 1)
  {
    var mid := Run(w, SoloSteps(id, closure, w.db, n));
    var v := SoloExtends(mid, id, closure, n);
    RunConcat(w, SoloSteps(id, closure, w.db, n), LastSteps(id, closure, w.db, n));
  }

  /** The serial reference is a run of the same step system with nobody else moving. */
  lemma {:induction false} SoloIsASchedule(w: World, id: nat, closure: Closure, n: nat)
    requires id !in w.attempts
    ensures Reached(w, id, closure, n)
  {
    var reached := (k: nat) => Reached(w, id, closure, k);
    SoloBegins(w, id, closure);
    forall k: nat | reached(k) ensures reached(k + 1) {
      SoloAdvances(w, id, closure, k);
    }
    StepByStep(reached, n);
  }

  /** Running alone and then committing gives exactly `SoloCommit`. */
  lemma SoloCommitIsASchedule(w: World, id: nat, closure: Closure, n: nat)
    requires id !in w.attempts && closure(Solo(closure, w.db, n).replies).Finish?
    ensures var v := Run(w, SoloSteps(id, closure, w.db, n) + [CommitStep(id)]);
            && v.db == SoloCommit(closure, w.db, n).backend
            && id in v.attempts && v.attempts[id].result == Some(SoloCommit(closure, w.db, n).result)
  {
    SoloIsASchedule(w, id, closure, n);
    RunSnoc(w, SoloSteps(id, closure, w.db, n), CommitStep(id));
  }

  // ---- The proviso as a condition on the steps -----------------------------------

  /** All loads of the attempt, registered or still waiting to be, have a property. */
  ghost predicate AllLoads(a: Attempt, ok: (Key, Load) -> bool) {
    && WaitingShape(a)
    && (forall key :: key in a.seen ==> ok(key, a.seen[key]))
    && (a.waiting.Some? ==>
          forall i :: 0 <= i < |a.waiting.value| && a.waiting.value[i].Some? ==>
            ok(a.closure(a.replies).gets[i].key, a.waiting.value[i].value))
  }

  lemma FinishReadLoaded(b: Backend, a: Attempt, ok: (Key, Load) -> bool)
    requires AttemptInv(b, a) && AllLoads(a, ok)
    requires a.waiting.Some? && AllArrived(a.waiting.value)
    ensures AllLoads(Act(a), ok)
  {
    var gets, loads := a.closure(a.replies).gets, Arrived(a.waiting.value);
    var u := Act(a);
    assert u == FinishRead(a, gets, loads);
    if !AnyLoadError(loads) {
      BatchSeen(a, gets, loads);
      forall key | key in u.seen ensures ok(key, u.seen[key]) {
        if key !in a.seen {
          var i :| 0 <= i < BatchOf(a.trx, gets, loads).count && gets[i].key == key;
          assert u.seen[key] == loads[i] == a.waiting.value[i].value;
        }
      }
    }
  }

  lemma ActLoaded(b: Backend, a: Attempt, ok: (Key, Load) -> bool)
    requires AttemptInv(b, a) && AllLoads(a, ok)
    ensures AllLoads(Act(a), ok)
  {
    if a.waiting.Some? && AllArrived(a.waiting.value) {
      FinishReadLoaded(b, a, ok);
    }
  }

  lemma ArriveLoaded(b: Backend, a: Attempt, position: nat, ok: (Key, Load) -> bool)
    requires AllLoads(a, ok) && forall key :: ok(key, ObserveAt(b, key))
    ensures AllLoads(Arrive(a, b, position), ok)
  {
  }

  /** A step gives an attempt no load but what the backend holds at an arrival. */
  lemma NextLoaded(w: World, s: Step, id: nat, ok: (Key, Load) -> bool)
    requires Inv(w) && (id in w.attempts ==> AllLoads(w.attempts[id], ok))
    requires s.ArriveStep? && s.id == id ==> forall key :: ok(key, ObserveAt(w.db, key))
    ensures id in Next(w, s).attempts ==> AllLoads(Next(w, s).attempts[id], ok)
  {
    if Running(w, id) && s.ActStep? && s.id == id {
      ActLoaded(w.db, w.attempts[id], ok);
    }
    if Running(w, id) && s.ArriveStep? && s.id == id {
      ArriveLoaded(w.db, w.attempts[id], s.position, ok);
    }
  }

  /** Step `t` lets a load of the attempt arrive, and `load` is what `key` then holds. */
  ghost predicate LoadedAt(w: World, steps: seq<Step>, t: nat, id: nat, key: Key, load: Load) {
    && t < |steps| && steps[t].ArriveStep? && steps[t].id == id
    && load == ObserveAt(Run(w, steps[..t]).db, key)
  }

  ghost predicate HasInstant(w: World, steps: seq<Step>, id: nat, key: Key, load: Load) {
    exists t: nat :: LoadedAt(w, steps, t, id, key, load)
  }

  ghost function WithInstant(w: World, steps: seq<Step>, id: nat): (Key, Load) -> bool {
    (key: Key, load: Load) => HasInstant(w, steps, id, key, load)
  }

  lemma InstantStays(w: World, steps: seq<Step>, id: nat, key: Key, load: Load)
    requires steps != [] && HasInstant(w, steps[..|steps| - 1], id, key, load)
    ensures HasInstant(w, steps, id, key, load)
  {
    var init := steps[..|steps| - 1];
    var t: nat :| LoadedAt(w, init, t, id, key, load);
    assert init[..t] == steps[..t];
    assert LoadedAt(w, steps, t, id, key, load);
  }

  lemma WeakerLoads(a: Attempt, ok: (Key, Load) -> bool, weaker: (Key, Load) -> bool)
    requires AllLoads(a, ok) && forall key, load :: ok(key, load) ==> weaker(key, load)
    ensures AllLoads(a, weaker)
  {
  }

  /** Every load an attempt has was taken at some arrival step of its own. */
  lemma {:induction false} LoadsHaveInstants(w: World, steps: seq<Step>, id: nat)
    requires Initial(w)
    ensures id in Run(w, steps).attempts ==> AllLoads(Run(w, steps).attempts[id], WithInstant(w, steps, id))
  {
    if steps != [] {
      var init, last := steps[..|steps| - 1], steps[|steps| - 1];
      var before := Run(w, init);
      LoadsHaveInstants(w, init, id);
      RunKeeps(w, init);
      forall key, load | WithInstant(w, init, id)(key, load) ensures WithInstant(w, steps, id)(key, load) {
        InstantStays(w, steps, id, key, load);
      }
      if id in before.attempts {
        WeakerLoads(before.attempts[id], WithInstant(w, init, id), WithInstant(w, steps, id));
      }
      if last.ArriveStep? && last.id == id {
        forall key ensures WithInstant(w, steps, id)(key, ObserveAt(before.db, key)) {
          assert LoadedAt(w, steps, |init|, id, key, ObserveAt(before.db, key));
        }
      }
      NextLoaded(before, last, id, WithInstant(w, steps, id));
    }
  }

  /** No document the attempt read was removed, nor its version wrapped, since it was loaded. */
  ghost predicate ReadDocsSurvive(w: World, steps: seq<Step>, id: nat, a: Attempt) {
    forall key, t: nat :: key in a.seen && a.seen[key].Loaded? && a.seen[key].observed.Present?
                          && LoadedAt(w, steps, t, id, key, a.seen[key]) ==>
                            !RestartsWithin(w, steps, t, |steps|, key)
  }

  lemma KeyUndisturbed(w: World, steps: seq<Step>, t: nat, id: nat, key: Key, load: Load)
    requires w.db.Memory? && load.Loaded? && LoadedAt(w, steps, t, id, key, load)
    ensures SameIncarnation(Run(w, steps).db, key, load) <==>
            load.observed.Missing? || !RestartsWithin(w, steps, t, |steps|, key)
  {
    MemoryStays(w, steps[..t]);
    MemoryStays(w, steps);
    assert steps[..|steps|] == steps;
    SameIncarnationIff(w, steps, t, |steps|, key);
  }

  /**
   Serializability on the memory backend, stated on the steps alone: if no document
   the attempt read was deleted (or wrapped) between its load and the commit, the commit
   is atomic.
   */
  lemma CommittedIsAtomicUndisturbed(w: World, steps: seq<Step>, id: nat)
    requires Initial(w) && w.db.Memory? && Commits(Run(w, steps), id)
    requires var a := Run(w, steps).attempts[id];
             a.healthy && Loadable(Run(w, steps).db, a.asked) && ReadDocsSurvive(w, steps, id, a)
    ensures var before := Run(w, steps);
            var a := before.attempts[id];
            SoloCommit(a.closure, before.db, |a.replies|)
            == Committing(Committed(a.closure(a.replies).out), Next(before, CommitStep(id)).db)
  {
    var before := Run(w, steps);
    var a := before.attempts[id];
    LoadsHaveInstants(w, steps, id);
    forall key | key in a.seen ensures SameIncarnation(before.db, key, a.seen[key]) {
      if a.seen[key].Loaded? && a.seen[key].observed.Present? {
        assert WithInstant(w, steps, id)(key, a.seen[key]);
        var t: nat :| LoadedAt(w, steps, t, id, key, a.seen[key]);
        KeyUndisturbed(w, steps, t, id, key, a.seen[key]);
      }
    }
    CommittedIsAtomic(w, steps, id);
  }
}

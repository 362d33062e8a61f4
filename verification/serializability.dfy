/**
 Serializability of optimistic transactions: in every interleaving, an attempt
 that commits did exactly what its closure would have done alone, in one step, at
 its commit instant; so the whole run has the effect of a serial one.
 */
module Serializability {
  import opened DocTypes
  import MemoryStore
  import opened TrxState
  import opened Backends
  import opened Interleaving
  import opened AttemptInvariant

  ghost predicate Initial(w: World) {
    Clocked(w.db) && w.attempts == map[]
  }

  /** A commit step of `id` at `w` returns `Committed`. */
  predicate Commits(w: World, id: nat) {
    && Running(w, id)
    && AtFinish(w.attempts[id])
    && CommitOf(w.db, w.attempts[id]).result.Committed?
  }

  function CommitOf(b: Backend, a: Attempt): Committing
    requires AtFinish(a)
  {
    var action := a.closure(a.replies);
    CommitTrx(b, a.trx, action.out, action.escaping)
  }

  /**
   What a commit needs from the run so far. Every load deserialized; no key the closure
   asked for holds a negative version; and, on the memory backend, no key the attempt
   observed as present was restarted in between.
   */
  ghost predicate Sound(b: Backend, a: Attempt) {
    && a.healthy
    && Loadable(b, a.asked)
    && forall key :: key in a.seen ==> SameIncarnation(b, key, a.seen[key])
  }

  /** Each registered load contributes its condition to the request. */
  lemma SeenKeysAreGuarded(t: Trx, seen: map<Key, Load>, key: Key)
    requires Linked(t, seen) && key in seen
    ensures PinOf(key, seen[key].observed) in ConditionsOf(t.entries)
  {
    var e := t.entries[t.index[key]];
    assert ConditionOf(e) == Some(PinOf(key, seen[key].observed));
    ConditionsAreOwn(t.entries);
    assert ConditionOfSome(t.entries, PinOf(key, seen[key].observed));
  }

  /** At a successful commit every registered load is again what the backend holds. */
  lemma CommitPinsLoads(b: Backend, a: Attempt)
    requires AttemptInv(b, a) && AtFinish(a) && CommitOf(b, a).result.Committed?
    requires forall key :: key in a.seen ==> SameIncarnation(b, key, a.seen[key])
    ensures Agrees(b, a.seen)
  {
    var request := RequestOf(a.trx.entries).value;
    forall key | key in a.seen
      ensures ObserveAt(b, key).Loaded? && ObserveAt(b, key).observed == a.seen[key].observed
    {
      SeenKeysAreGuarded(a.trx, a.seen, key);
      CommitMeansAllHold(b, request);
      var pin := PinOf(key, a.seen[key].observed);
      var i :| 0 <= i < |request.conditions| && request.conditions[i] == pin;
      ConditionPins(b, key, a.seen[key]);
    }
  }

  /**
   In every interleaving from an initial world, a sound attempt that commits equals
   its closure run alone against the backend at the commit instant: same output,
   same new backend.
   */
  lemma CommittedIsAtomic(w: World, steps: seq<Step>, id: nat)
    requires Initial(w)
    requires Commits(Run(w, steps), id)
    requires Sound(Run(w, steps).db, Run(w, steps).attempts[id])
    ensures var before := Run(w, steps);
            var a := before.attempts[id];
            var after := Next(before, CommitStep(id));
            && SoloCommit(a.closure, before.db, |a.replies|) == CommitOf(before.db, a)
            && after.attempts[id].result == Some(SoloCommit(a.closure, before.db, |a.replies|).result)
            && after.db == SoloCommit(a.closure, before.db, |a.replies|).backend
  {
    RunKeeps(w, steps);
    var before := Run(w, steps);
    var a := before.attempts[id];
    CommitPinsLoads(before.db, a);
    ReplayCommits(before.db, a);
  }

  /** On a backend that agrees with its loads, an attempt and its closure alone commit alike. */
  lemma ReplayCommits(b: Backend, a: Attempt)
    requires Replays(a) && AtFinish(a) && Loadable(b, a.asked) && Agrees(b, a.seen)
    ensures SoloCommit(a.closure, b, |a.replies|) == CommitOf(b, a)
  {
    assert Solo(a.closure, b, |a.replies|) == SoloState(a.trx, a.replies);
  }

  lemma {:induction false} RunKeepsKind(w: World, steps: seq<Step>)
    ensures Run(w, steps).db.Revisioned? <==> w.db.Revisioned?
  {
    if steps != [] {
      RunKeepsKind(w, steps[..|steps| - 1]);
    }
  }

  lemma CommittedIsAtomicRevisioned(w: World, steps: seq<Step>, id: nat)
    requires Initial(w) && w.db.Revisioned?
    requires Commits(Run(w, steps), id) && Run(w, steps).attempts[id].healthy
    ensures var before := Run(w, steps);
            var a := before.attempts[id];
            SoloCommit(a.closure, before.db, |a.replies|)
            == Committing(Committed(a.closure(a.replies).out), Next(before, CommitStep(id)).db)
  {
    RunKeepsKind(w, steps);
    CommittedIsAtomic(w, steps, id);
  }

  // ---- The whole run --------------------------------------------------------

  /**
   The serial execution: plain writes where they happened, and each committed
   closure run alone, from scratch, at its commit point. Nothing else touches the
   backend.
   */
  function SerialDb(w: World, steps: seq<Step>): Backend {
    if steps == [] then w.db
    else
      var init, last := steps[..|steps| - 1], steps[|steps| - 1];
      var db := SerialDb(w, init);
      match last
      case PutStep(key, data) => PlainPut(db, key, data)
      case DeleteStep(key) => PlainDelete(db, key)
      case CommitStep(id) =>
        if Commits(Run(w, init), id) then
          var a := Run(w, init).attempts[id];
          SoloCommit(a.closure, db, |a.replies|).backend
        else db
      case _ => db
  }

  ghost predicate AllSound(w: World, steps: seq<Step>) {
    forall i :: 0 <= i < |steps| ==> SoundAt(w, steps, i)
  }

  ghost predicate SoundAt(w: World, steps: seq<Step>, i: nat)
    requires i < |steps|
  {
    var before := Run(w, steps[..i]);
    steps[i].CommitStep? && Commits(before, steps[i].id) ==> Sound(before.db, before.attempts[steps[i].id])
  }

  lemma NothingRestarts(b: Backend)
    requires b.Memory?
    ensures Restart(b, {}) == b.incarnations
  {
  }

  /** A commit that does not succeed leaves the backend as it was. */
  lemma FailedCommitChangesNothing(b: Backend, t: Trx, out: int, escaping: set<nat>)
    requires !CommitTrx(b, t, out, escaping).result.Committed?
    ensures CommitTrx(b, t, out, escaping).backend == b
  {
    if RequestOf(t.entries).Ok? && b.Memory? && ValidRequest(RequestOf(t.entries).value) {
      var request := RequestOf(t.entries).value;
      MemoryStore.TransactEffect(b.store, request);
      NothingRestarts(b);
      assert b.store.Keys - b.store.Keys == {};
    }
  }

  /** Every interleaving whose commits are sound ends in the state of its serial execution. */
  lemma {:induction false} RunIsSerial(w: World, steps: seq<Step>)
    requires Initial(w) && AllSound(w, steps)
    ensures Run(w, steps).db == SerialDb(w, steps)
  {
    if steps != [] {
      var init, last := steps[..|steps| - 1], steps[|steps| - 1];
      forall i | 0 <= i < |init| ensures SoundAt(w, init, i) {
        assert SoundAt(w, steps, i);
        assert steps[..i] == init[..i];
      }
      RunIsSerial(w, init);
      assert SoundAt(w, steps, |steps| - 1);
      var before := Run(w, init);
      if last.CommitStep? && Running(before, last.id) && AtFinish(before.attempts[last.id]) {
        if Commits(before, last.id) {
          CommittedIsAtomic(w, init, last.id);
        } else {
          var a := before.attempts[last.id];
          FailedCommitChangesNothing(before.db, a.trx, a.closure(a.replies).out, a.closure(a.replies).escaping);
        }
      }
    }
  }

  // ---- What the incarnation proviso says about the steps ---------------------

  /** The step ends an incarnation of `key`: it removes the document or wraps its version. */
  predicate Restarts(w: World, s: Step, key: Key)
    requires w.db.Memory?
  {
    && key in w.db.store
    && (|| key !in StoreAfter(w, s)
        || (s.PutStep? && s.key == key && w.db.store[key].version >= I64_MAX))
  }

  function StoreAfter(w: World, s: Step): Store
    requires w.db.Memory?
  {
    Next(w, s).db.store
  }

  lemma IncarnationStep(w: World, s: Step, key: Key)
    requires w.db.Memory?
    ensures Incarnation(Next(w, s).db, key) == Incarnation(w.db, key) + if Restarts(w, s, key) then 1 else 0
  {
  }

  lemma RunSplits(w: World, steps: seq<Step>, i: nat)
    requires i < |steps|
    ensures Run(w, steps[..i + 1]) == Next(Run(w, steps[..i]), steps[i])
  {
    assert steps[..i + 1][..i] == steps[..i];
  }

  lemma {:induction false} MemoryStays(w: World, steps: seq<Step>)
    requires w.db.Memory?
    ensures Run(w, steps).db.Memory?
  {
    RunKeepsKind(w, steps);
  }

  /** The incarnation of `key` before step `i` of a run on the memory backend. */
  function IncarnationAt(w: World, steps: seq<Step>, i: nat, key: Key): nat
    requires i <= |steps|
  {
    var db := Run(w, steps[..i]).db;
    if db.Memory? then Incarnation(db, key) else 0
  }

  predicate RestartsAt(w: World, steps: seq<Step>, i: nat, key: Key)
    requires i < |steps|
  {
    var before := Run(w, steps[..i]);
    before.db.Memory? && Restarts(before, steps[i], key)
  }

  lemma IncarnationAtStep(w: World, steps: seq<Step>, i: nat, key: Key)
    requires w.db.Memory? && i < |steps|
    ensures IncarnationAt(w, steps, i + 1, key)
            == IncarnationAt(w, steps, i, key) + if RestartsAt(w, steps, i, key) then 1 else 0
  {
    MemoryStays(w, steps[..i]);
    RunSplits(w, steps, i);
    IncarnationStep(Run(w, steps[..i]), steps[i], key);
  }

  predicate RestartsWithin(w: World, steps: seq<Step>, lo: nat, hi: nat, key: Key)
    requires lo <= hi <= |steps|
  {
    exists i :: lo <= i < hi && RestartsAt(w, steps, i, key)
  }

  predicate Counts(levels: seq<nat>, bumps: seq<bool>, i: nat)
    requires i < |bumps| && |levels| == |bumps| + 1
  {
    levels[i + 1] == levels[i] + if bumps[i] then 1 else 0
  }

  /** A counter stands still between two instants exactly when nothing bumped it. */
  lemma {:induction false} CounterMoves(levels: seq<nat>, bumps: seq<bool>, lo: nat, hi: nat)
    requires |levels| == |bumps| + 1 && lo <= hi <= |bumps|
    requires forall i :: 0 <= i < |bumps| ==> Counts(levels, bumps, i)
    ensures levels[lo] <= levels[hi]
    ensures levels[lo] == levels[hi] <==> !exists i :: lo <= i < hi && bumps[i]
    decreases hi
  {
    if lo < hi {
      CounterMoves(levels, bumps, lo, hi - 1);
      assert Counts(levels, bumps, hi - 1);
    }
  }

  /** Two instants see the same incarnation exactly when no step between them restarted the key. */
  lemma {:induction false} SameIncarnationIff(w: World, steps: seq<Step>, lo: nat, hi: nat, key: Key)
    requires w.db.Memory? && lo <= hi <= |steps|
    ensures IncarnationAt(w, steps, lo, key) <= IncarnationAt(w, steps, hi, key)
    ensures IncarnationAt(w, steps, lo, key) == IncarnationAt(w, steps, hi, key)
            <==> !RestartsWithin(w, steps, lo, hi, key)
  {
    var levels := seq(|steps| + 1, i requires 0 <= i <= |steps| => IncarnationAt(w, steps, i, key));
    var bumps := seq(|steps|, i requires 0 <= i < |steps| => RestartsAt(w, steps, i, key));
    forall i | 0 <= i < |bumps| ensures Counts(levels, bumps, i) {
      IncarnationAtStep(w, steps, i, key);
    }
    CounterMoves(levels, bumps, lo, hi);
    forall i | lo <= i < hi ensures bumps[i] == RestartsAt(w, steps, i, key) {
    }
  }

  lemma RunSnoc(w: World, steps: seq<Step>, s: Step)
    ensures Run(w, steps + [s]) == Next(Run(w, steps), s)
  {
    assert (steps + [s])[..|steps|] == steps;
  }
}

/**
 No lost update: a counter document that is only ever written by transactions which
 read it and store its value plus one holds, in every reachable state, its initial
 value plus the number of those transactions that committed. The transactions may
 read and write any other documents, and everything else may run in between.
 */
module LostUpdate {
  import opened DocTypes
  import MemoryStore
  import opened TrxState
  import opened Backends
  import opened Interleaving
  import opened AttemptInvariant
  import opened Serializability
  import opened SerialSchedule

  /** If the attempt writes `counter`, it puts the value it loaded plus one. */
  ghost predicate WritesByIncrement(a: Attempt, counter: Key, value: Data -> int) {
    forall m :: MutationOfSome(a.trx.entries, m) && m.key == counter ==>
      && m.PutDoc?
      && counter in a.seen && a.seen[counter].Loaded? && a.seen[counter].observed.Present?
      && value(m.data) == value(a.seen[counter].observed.data) + 1
  }

  /** The step touches `counter` at most by committing an increment. */
  ghost predicate CounterStep(w: World, s: Step, counter: Key, value: Data -> int) {
    match s
    case PutStep(key, _) => key != counter
    case DeleteStep(key) => key != counter
    case CommitStep(id) => Commits(w, id) ==> WritesByIncrement(w.attempts[id], counter, value)
    case _ => true
  }

  ghost predicate CounterRun(w: World, steps: seq<Step>, counter: Key, value: Data -> int) {
    forall i :: 0 <= i < |steps| ==> CounterStep(Run(w, steps[..i]), steps[i], counter, value)
  }

  /** The step commits a transaction that writes `counter`. */
  predicate CommitsWriteOf(w: World, s: Step, counter: Key) {
    && s.CommitStep?
    && Commits(w, s.id)
    && RequestOf(w.attempts[s.id].trx.entries).Ok?
    && MemoryStore.MutationOn(RequestOf(w.attempts[s.id].trx.entries).value.mutations, counter).Some?
  }

  function Increments(w: World, steps: seq<Step>, counter: Key): nat {
    if steps == [] then 0
    else
      var init := steps[..|steps| - 1];
      Increments(w, init, counter)
      + if CommitsWriteOf(Run(w, init), steps[|steps| - 1], counter) then 1 else 0
  }

  ghost predicate CounterHolds(b: Backend, counter: Key, value: Data -> int, expected: int) {
    b.Memory? && counter in b.store && value(b.store[counter].data) == expected
  }

  /** What one successful commit does to one key. */
  lemma CommitEffectAt(b: Backend, a: Attempt, key: Key)
    requires b.Memory? && Tracks(a.trx) && AtFinish(a) && CommitOf(b, a).result.Committed?
    ensures RequestOf(a.trx.entries).Ok?
    ensures CommitOf(b, a).backend.Memory?
    ensures MemoryStore.Lookup(CommitOf(b, a).backend.store, key)
            == MemoryStore.Effect(MemoryStore.Lookup(b.store, key),
                                  MemoryStore.MutationOn(RequestOf(a.trx.entries).value.mutations, key))
  {
    RequestIsSound(a.trx);
    MemoryStore.TransactEffect(b.store, RequestOf(a.trx.entries).value);
  }

  /** An increment that commits adds one to the value the store holds at that instant. */
  lemma CommitIncrements(b: Backend, a: Attempt, counter: Key, value: Data -> int)
    requires b.Memory? && AttemptInv(b, a) && AtFinish(a) && CommitOf(b, a).result.Committed?
    requires WritesByIncrement(a, counter, value)
    requires counter in a.seen ==> SameIncarnation(b, counter, a.seen[counter])
    requires counter in b.store
    ensures RequestOf(a.trx.entries).Ok?
    ensures var written := MemoryStore.MutationOn(RequestOf(a.trx.entries).value.mutations, counter).Some?;
            CounterHolds(CommitOf(b, a).backend, counter, value,
                         value(b.store[counter].data) + if written then 1 else 0)
  {
    CommitEffectAt(b, a, counter);
    var request := RequestOf(a.trx.entries).value;
    var mutation := MemoryStore.MutationOn(request.mutations, counter);
    if mutation.Some? {
      RequestIsSound(a.trx);
      MemoryStore.MutationOnFinds(request.mutations, counter);
      MutationsAreOwn(a.trx.entries);
      assert MutationOfSome(a.trx.entries, mutation.value);
      SeenKeysAreGuarded(a.trx, a.seen, counter);
      CommitMeansAllHold(b, request);
      ConditionPins(b, counter, a.seen[counter]);
    }
  }

  lemma NeverRestarted(w: World, steps: seq<Step>, counter: Key)
    requires w.db.Memory? && Run(w, steps).db.Memory?
    requires Incarnation(Run(w, steps).db, counter) == Incarnation(w.db, counter)
    ensures forall t: nat :: t <= |steps| ==> !RestartsWithin(w, steps, t, |steps|, counter)
  {
    assert steps[..0] == [] && steps[..|steps|] == steps;
    SameIncarnationIff(w, steps, 0, |steps|, counter);
  }

  lemma StartingIncarnation(w: World, steps: seq<Step>, id: nat, counter: Key)
    requires Initial(w) && w.db.Memory? && id in Run(w, steps).attempts
    requires Run(w, steps).db.Memory? && Incarnation(Run(w, steps).db, counter) == Incarnation(w.db, counter)
    ensures var a := Run(w, steps).attempts[id];
            counter in a.seen ==> SameIncarnation(Run(w, steps).db, counter, a.seen[counter])
  {
    var a := Run(w, steps).attempts[id];
    LoadsHaveInstants(w, steps, id);
    NeverRestarted(w, steps, counter);
    if counter in a.seen && a.seen[counter].Loaded? {
      assert WithInstant(w, steps, id)(counter, a.seen[counter]);
      var t: nat :| LoadedAt(w, steps, t, id, counter, a.seen[counter]);
      assert !RestartsWithin(w, steps, t, |steps|, counter);
      KeyUndisturbed(w, steps, t, id, counter, a.seen[counter]);
    }
  }

  lemma CounterStepKeepsIncarnation(w: World, s: Step, counter: Key, value: Data -> int)
    requires w.db.Memory? && Inv(w) && counter in w.db.store && CounterStep(w, s, counter, value)
    ensures Next(w, s).db.Memory?
    ensures counter in Next(w, s).db.store
    ensures Incarnation(Next(w, s).db, counter) == Incarnation(w.db, counter)
  {
    if s.CommitStep? && Running(w, s.id) && AtFinish(w.attempts[s.id]) {
      var a := w.attempts[s.id];
      if Commits(w, s.id) {
        CommitEffectAt(w.db, a, counter);
        CommittedPutsStay(w.db, a, counter, value);
      } else {
        FailedCommitChangesNothing(w.db, a.trx, a.closure(a.replies).out, a.closure(a.replies).escaping);
      }
    }
    IncarnationStep(w, s, counter);
  }

  lemma CommittedPutsStay(b: Backend, a: Attempt, counter: Key, value: Data -> int)
    requires b.Memory? && Tracks(a.trx) && RequestOf(a.trx.entries).Ok? && WritesByIncrement(a, counter, value)
    ensures var m := MemoryStore.MutationOn(RequestOf(a.trx.entries).value.mutations, counter);
            m.Some? ==> m.value.PutDoc?
  {
    RequestIsSound(a.trx);
    MemoryStore.MutationOnFinds(RequestOf(a.trx.entries).value.mutations, counter);
    MutationsAreOwn(a.trx.entries);
  }

  lemma CounterStepValue(w: World, s: Step, counter: Key, value: Data -> int)
    requires w.db.Memory? && Inv(w) && counter in w.db.store && CounterStep(w, s, counter, value)
    requires s.CommitStep? && s.id in w.attempts && counter in w.attempts[s.id].seen ==>
               SameIncarnation(w.db, counter, w.attempts[s.id].seen[counter])
    ensures CounterHolds(Next(w, s).db, counter, value,
                         value(w.db.store[counter].data) + if CommitsWriteOf(w, s, counter) then 1 else 0)
  {
    if s.CommitStep? && Running(w, s.id) && AtFinish(w.attempts[s.id]) {
      var a := w.attempts[s.id];
      if Commits(w, s.id) {
        CommitIncrements(w.db, a, counter, value);
      } else {
        FailedCommitChangesNothing(w.db, a.trx, a.closure(a.replies).out, a.closure(a.replies).escaping);
      }
    }
  }

  lemma CounterRunPrefix(w: World, steps: seq<Step>, counter: Key, value: Data -> int)
    requires steps != [] && CounterRun(w, steps, counter, value)
    ensures CounterRun(w, steps[..|steps| - 1], counter, value)
    ensures CounterStep(Run(w, steps[..|steps| - 1]), steps[|steps| - 1], counter, value)
  {
    var init := steps[..|steps| - 1];
    forall i | 0 <= i < |init| ensures CounterStep(Run(w, init[..i]), init[i], counter, value) {
      assert init[..i] == steps[..i];
    }
  }

  /**
   Over every run, the counter is its initial value plus the number of transactions
   that committed a write to it.
   */
  lemma {:induction false} NoLostUpdate(w: World, steps: seq<Step>, counter: Key, value: Data -> int)
    requires Initial(w) && w.db.Memory? && counter in w.db.store
    requires CounterRun(w, steps, counter, value)
    ensures CounterHolds(Run(w, steps).db, counter, value,
                         value(w.db.store[counter].data) + Increments(w, steps, counter))
    ensures Incarnation(Run(w, steps).db, counter) == Incarnation(w.db, counter)
  {
    if steps != [] {
      var init, last := steps[..|steps| - 1], steps[|steps| - 1];
      CounterRunPrefix(w, steps, counter, value);
      NoLostUpdate(w, init, counter, value);
      RunKeeps(w, init);
      if last.CommitStep? && last.id in Run(w, init).attempts {
        StartingIncarnation(w, init, last.id, counter);
      }
      CounterStepKeepsIncarnation(Run(w, init), last, counter, value);
      CounterStepValue(Run(w, init), last, counter, value);
    }
  }
}

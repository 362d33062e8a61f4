/**
 Why serializability also needs its other two provisos: that every load of the attempt
 deserialized, and that every key its closure asked for can still be loaded.
 */
module NeededProvisos {
  import opened DocTypes
  import MemoryStore
  import opened TrxState
  import opened Backends
  import opened Interleaving
  import opened AttemptInvariant
  import opened Serializability
  import opened SerialSchedule
  import opened StaleCommits

  // ---- Every load deserialized ----------------------------------------------------------

  /** Reads one document as a type that `data` does not deserialize to; returns whether that failed. */
  function Picky(key: Key, data: Data): Closure {
    (replies: seq<Reply>) =>
      if replies == [] then ReadDocs([PickyGet(key, data)])
      else Finish(if replies[0].Refusal? then 1 else 0, {})
  }

  function PickyGet(key: Key, data: Data): Get {
    Get(key, (d: Data) => d != data)
  }

  lemma PickyObserves(b: Backend, key: Key, data: Data) returns (loads: seq<Load>)
    requires b.Memory? && key in b.store && b.store[key].version >= 0
    ensures loads == ObserveAll(b, [PickyGet(key, data)]) && !AnyLoadError(loads)
    ensures ObservedOf(loads) == [Present(b.store[key].data, b.store[key].version)]
  {
    loads := ObserveAll(b, [PickyGet(key, data)]);
    assert loads[0].observed == Present(b.store[key].data, b.store[key].version);
  }

  lemma PickyFails(b: Backend, key: Key)
    requires b.Memory? && key in b.store && b.store[key].version >= 0
    ensures Solo(Picky(key, b.store[key].data), b, 1) == SoloState(Trx([], map[key := 0]), [Refusal])
  {
    var data := b.store[key].data;
    var closure, gets := Picky(key, data), [PickyGet(key, data)];
    assert Solo(closure, b, 0) == SoloState(EMPTY_TRX, []) && closure([]) == ReadDocs(gets);
    var loads := PickyObserves(b, key, data);
    var observed := ObservedOf(loads);
    assert RegisterLoaded(EMPTY_TRX, gets[0], observed[0]) == Loading(Trx([], map[key := 0]), Failed(Undecodable));
  }

  lemma PickyReads(b: Backend, key: Key, data: Data)
    requires b.Memory? && key in b.store && b.store[key].version >= 0 && b.store[key].data != data
    ensures Solo(Picky(key, data), b, 1) == ReaderState(key, b.store[key].data, b.store[key].version)
  {
    var closure, gets := Picky(key, data), [PickyGet(key, data)];
    assert Solo(closure, b, 0) == SoloState(EMPTY_TRX, []) && closure([]) == ReadDocs(gets);
    var loads := PickyObserves(b, key, data);
    RegistersOne(PickyGet(key, data), Present(b.store[key].data, b.store[key].version));
  }

  lemma PutOver(w: World, key: Key, version: nat, data: Data, other: Data)
    requires version < I64_MAX && w.db == Memory(map[key := MemoryStore.MemDoc(data, version)], map[])
    ensures Next(w, PutStep(key, other))
            == World(Memory(map[key := MemoryStore.MemDoc(other, version + 1)], map[]), w.attempts)
  {
    assert MemoryStore.Upsert(w.db.store, key, other) == map[key := MemoryStore.MemDoc(other, version + 1)];
  }

  /** Having registered nothing, it commits without any condition. */
  lemma PickyCommits(b: Backend, a: Attempt, key: Key, data: Data)
    requires a.closure == Picky(key, data) && a.waiting.None?
    requires SoloState(a.trx, a.replies) == SoloState(Trx([], map[key := 0]), [Refusal])
    ensures AtFinish(a) && CommitOf(b, a).result == Committed(1)
  {
  }

  /**
   For every key and any two contents: an attempt that swallowed a failed load commits
   with a result that it would not have had alone, although no key was ever restarted and
   every key can be loaded.
   */
  lemma HealthIsNeeded(key: Key, version: nat, data: Data, other: Data)
    requires version < I64_MAX && data != other
    ensures var w := World(Memory(map[key := MemoryStore.MemDoc(data, version)], map[]), map[]);
            var closure := Picky(key, data);
            var v := Run(w, SoloSteps(0, closure, w.db, 1) + [PutStep(key, other)]);
            && Initial(w)
            && v.db.Memory? && v.db.incarnations == map[] && (forall keys :: Loadable(v.db, keys))
            && Commits(v, 0) && CommitOf(v.db, v.attempts[0]).result == Committed(1)
            && SoloCommit(closure, v.db, 1).result == Committed(0)
  {
    var w := World(Memory(map[key := MemoryStore.MemDoc(data, version)], map[]), map[]);
    var closure := Picky(key, data);
    SoloIsASchedule(w, 0, closure, 1);
    PickyFails(w.db, key);
    var mid := Run(w, SoloSteps(0, closure, w.db, 1));
    RunSnoc(w, SoloSteps(0, closure, w.db, 1), PutStep(key, other));
    PutOver(mid, key, version, data, other);
    var db := Memory(map[key := MemoryStore.MemDoc(other, version + 1)], map[]);
    PickyCommits(db, mid.attempts[0], key, data);
    PickyReads(db, key, data);
    ReaderCommits(db, key, other, version + 1, 0);
  }

  // ---- Every key asked for can be loaded --------------------------------------------------

  /** Asks for `a` twice and for `b`, which is refused, and then tries to create `a`; returns whether that was refused too. */
  function Insistent(a: Key, b: Key, data: Data): Closure {
    (replies: seq<Reply>) =>
      if replies == [] then ReadDocs(Threefold(a, b))
      else if |replies| == 1 then MakeDoc(Document(a, Some(data)))
      else Finish(if replies[1].Refusal? then 1 else 0, {})
  }

  function Threefold(a: Key, b: Key): seq<Get> {
    [Get(a, Always), Get(a, Always), Get(b, Always)]
  }

  lemma ThreefoldRegisters(a: Key, b: Key, observed: seq<Observed>)
    requires |observed| == 3 && observed[0].Present?
    ensures var batch := RegisterBatch(EMPTY_TRX, Threefold(a, b), observed);
            && batch.trx == ReaderState(a, observed[0].data, observed[0].revision).trx
            && batch.result == Failed(Duplicate)
  {
    var gets := Threefold(a, b);
    var state := ReaderState(a, observed[0].data, observed[0].revision).trx;
    var first := RegisterLoaded(EMPTY_TRX, gets[0], observed[0]);
    assert first.trx.entries == state.entries && first.trx.index == state.index;
    assert gets[1..][0] == gets[1] && observed[1..][0] == observed[1];
    assert RegisterBatch(first.trx, gets[1..], observed[1..]) == Batch(first.trx, Failed(Duplicate), 0);
  }

  lemma InsistentWhileLoadable(store: Backend, a: Key, b: Key, data: Data)
    requires store.Memory? && a in store.store && b in store.store
    requires store.store[a].version >= 0 && store.store[b].version >= 0
    ensures Solo(Insistent(a, b, data), store, 2)
            == SoloState(ReaderState(a, store.store[a].data, store.store[a].version).trx, [Refusal, Refusal])
  {
    var closure, gets := Insistent(a, b, data), Threefold(a, b);
    assert Solo(closure, store, 0) == SoloState(EMPTY_TRX, []) && closure([]) == ReadDocs(gets);
    var loads := ObserveAll(store, gets);
    forall i | 0 <= i < 3 ensures loads[i].Loaded? {
    }
    ThreefoldRegisters(a, b, ObservedOf(loads));
    var state := ReaderState(a, store.store[a].data, store.store[a].version).trx;
    assert Solo(closure, store, 1) == SoloState(state, [Refusal]);
    assert Create(state, Document(a, Some(data))) == Creation(state, Failed(Duplicate));
  }

  lemma InsistentOtherwise(store: Backend, a: Key, b: Key, data: Data)
    requires store.Memory? && b in store.store && store.store[b].version < 0
    ensures Solo(Insistent(a, b, data), store, 2)
            == SoloState(Create(EMPTY_TRX, Document(a, Some(data))).trx, [Refusal, Created(0)])
  {
    var closure, gets := Insistent(a, b, data), Threefold(a, b);
    assert Solo(closure, store, 0) == SoloState(EMPTY_TRX, []) && closure([]) == ReadDocs(gets);
    var loads := ObserveAll(store, gets);
    assert loads[2].LoadError?;
    assert Solo(closure, store, 1) == SoloState(EMPTY_TRX, [Refusal]);
  }

  lemma OneEntryRequest(entry: Entry, condition: Condition, mutation: Mutation)
    requires ConditionOf(entry) == Some(condition) && MutationOf(entry) == Ok(Some(mutation))
    ensures RequestOf([entry]) == Ok(Request([condition], [mutation]))
  {
    assert [entry][..0] == [] && [] + [condition] == [condition] && [] + [mutation] == [mutation];
    assert ConditionsOf([]) == [] && MutationsOf([]) == Ok([]);
  }

  lemma PresentKeyConflicts(store: Backend, a: Key, request: Request)
    requires store.Memory? && a in store.store && request.conditions == [NotExists(a)]
    ensures Transact(store, request).outcome != Ok(Outcome(None))
  {
    assert MemoryStore.ConditionHolds(store.store, request.conditions[0]) == Ok(false);
  }

  lemma InsistentConflicts(store: Backend, a: Key, data: Data, out: int)
    requires store.Memory? && a in store.store
    ensures !CommitTrx(store, Create(EMPTY_TRX, Document(a, Some(data))).trx, out, {}).result.Committed?
  {
    var entry := Entry(a, None, false, Managed(a, Some(data), false, false, true));
    assert Create(EMPTY_TRX, Document(a, Some(data))).trx.entries == [entry];
    var request := Request([NotExists(a)], [PutDoc(a, data)]);
    OneEntryRequest(entry, NotExists(a), PutDoc(a, data));
    PresentKeyConflicts(store, a, request);
  }

  /**
   For any two keys: a plain put that wraps the version of a key the closure asked for in
   vain makes the attempt commit where the closure alone would not, although every load
   deserialized and the only document it read was not touched.
   */
  lemma LoadabilityIsNeeded(a: Key, b: Key, version: nat, data: Data)
    requires a != b && version <= I64_MAX
    ensures var docs := map[a := MemoryStore.MemDoc(data, version), b := MemoryStore.MemDoc(data, I64_MAX)];
            var w := World(Memory(docs, map[]), map[]);
            var closure := Insistent(a, b, data);
            var v := Run(w, SoloSteps(0, closure, w.db, 2) + [PutStep(b, data)]);
            && Initial(w)
            && v.db.Memory? && Incarnation(v.db, a) == 0 && a in v.db.store && v.db.store[a] == docs[a]
            && Commits(v, 0) && CommitOf(v.db, v.attempts[0]).result == Committed(1)
            && !SoloCommit(closure, v.db, 2).result.Committed?
  {
    var docs := map[a := MemoryStore.MemDoc(data, version), b := MemoryStore.MemDoc(data, I64_MAX)];
    var w := World(Memory(docs, map[]), map[]);
    var closure := Insistent(a, b, data);
    SoloIsASchedule(w, 0, closure, 2);
    InsistentWhileLoadable(w.db, a, b, data);
    RunSnoc(w, SoloSteps(0, closure, w.db, 2), PutStep(b, data));
    var v := Run(w, SoloSteps(0, closure, w.db, 2) + [PutStep(b, data)]);
    assert v.db.store[b].version == I64_MIN && v.db.store[a] == docs[a];
    ReaderCommits(v.db, a, data, version, 1);
    InsistentOtherwise(v.db, a, b, data);
    InsistentConflicts(v.db, a, data, 0);
  }
}

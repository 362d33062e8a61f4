/**
 Why serializability on the memory store needs its proviso: a document that is deleted
 and created again gets back to any version (doc-db/src/memory.rs:145-149, 271-281), and a
 revision condition cannot tell the two apart.
 */
module StaleCommits {
  import opened DocTypes
  import opened Collections
  import MemoryStore
  import opened TrxState
  import opened Backends
  import opened Interleaving
  import opened AttemptInvariant
  import opened Serializability
  import opened SerialSchedule

  type Store = MemoryStore.Store

  // ---- Bringing a version back ---------------------------------------------------

  /** The rival schedule: delete the key, then put the other contents until the version is back. */
  function Reincarnate(key: Key, data: Data, version: nat): seq<Step> {
    if version == 0 then [DeleteStep(key), PutStep(key, data)]
    else Reincarnate(key, data, version - 1) + [PutStep(key, data)]
  }

  lemma RunTwo(w: World, first: Step, second: Step)
    ensures Run(w, [first, second]) == Next(Next(w, first), second)
  {
    RunOne(w, first);
    RunSnoc(w, [first], second);
    assert [first] + [second] == [first, second];
  }

  /** The world `v` is `w` with one document replaced. */
  ghost predicate Reborn(w: World, v: World, key: Key, data: Data, version: nat) {
    && w.db.Memory? && v.db.Memory? && v.attempts == w.attempts
    && v.db.store == w.db.store[key := MemoryStore.MemDoc(data, version)]
  }

  lemma DeleteThenPut(w: World, key: Key, data: Data)
    requires w.db.Memory?
    ensures Reborn(w, Next(Next(w, DeleteStep(key)), PutStep(key, data)), key, data, 0)
  {
  }

  lemma PutAgain(w: World, v: World, key: Key, data: Data, version: nat)
    requires Reborn(w, v, key, data, version) && version < I64_MAX
    ensures Reborn(w, Next(v, PutStep(key, data)), key, data, version + 1)
  {
  }

  /** The schedule for `version` has that effect. */
  ghost predicate Reincarnates(w: World, key: Key, data: Data, version: nat) {
    version <= I64_MAX ==> Reborn(w, Run(w, Reincarnate(key, data, version)), key, data, version)
  }

  lemma OneMorePut(w: World, key: Key, data: Data, version: nat)
    requires Reincarnates(w, key, data, version)
    ensures Reincarnates(w, key, data, version + 1)
  {
    if version < I64_MAX {
      var steps := Reincarnate(key, data, version);
      RunSnoc(w, steps, PutStep(key, data));
      PutAgain(w, Run(w, steps), key, data, version);
    }
  }

  lemma ReincarnateReaches(w: World, key: Key, data: Data, version: nat)
    requires w.db.Memory? && version <= I64_MAX
    ensures Reborn(w, Run(w, Reincarnate(key, data, version)), key, data, version)
  {
    var reached := (k: nat) => Reincarnates(w, key, data, k);
    RunTwo(w, DeleteStep(key), PutStep(key, data));
    DeleteThenPut(w, key, data);
    forall k: nat | reached(k) ensures reached(k + 1) {
      OneMorePut(w, key, data, k);
    }
    StepByStep(reached, version);
  }

  /** Conditions and overflow look at presence and versions only, never at contents. */
  ghost predicate SameVersions(a: Store, b: Store) {
    a.Keys == b.Keys && forall key :: key in a ==> a[key].version == b[key].version
  }

  lemma {:induction false} VersionsDecideCheck(a: Store, b: Store, conditions: seq<Condition>, start: nat)
    requires SameVersions(a, b) && start <= |conditions|
    ensures MemoryStore.CheckConditions(a, conditions, start) == MemoryStore.CheckConditions(b, conditions, start)
    decreases |conditions| - start
  {
    if start < |conditions| {
      VersionsDecideCheck(a, b, conditions, start + 1);
    }
  }

  lemma {:induction false} VersionsDecideApply(a: Store, b: Store, mutations: seq<Mutation>)
    requires SameVersions(a, b)
    ensures MemoryStore.ApplyMutations(a, mutations).Ok? <==> MemoryStore.ApplyMutations(b, mutations).Ok?
    decreases mutations
  {
    if mutations != [] {
      var a', b' := MemoryStore.ApplyMutation(a, mutations[0]), MemoryStore.ApplyMutation(b, mutations[0]);
      if a'.Ok? {
        assert SameVersions(a'.value, b'.value);
        VersionsDecideApply(a'.value, b'.value, mutations[1..]);
      }
    }
  }

  lemma VersionsDecideCommit(b: Backend, c: Backend, a: Attempt)
    requires b.Memory? && c.Memory? && SameVersions(b.store, c.store)
    requires AtFinish(a) && CommitOf(b, a).result.Committed?
    ensures CommitOf(c, a).result.Committed?
  {
    var request := RequestOf(a.trx.entries).value;
    VersionsDecideCheck(b.store, c.store, request.conditions, 0);
    VersionsDecideApply(b.store, c.store, request.mutations);
  }

  // ---- Any attempt that has read the document --------------------------------------

  lemma PinnedVersion(b: Backend, a: Attempt, key: Key)
    requires b.Memory? && AttemptInv(b, a) && AtFinish(a) && CommitOf(b, a).result.Committed?
    requires key in a.seen && a.seen[key].Loaded? && a.seen[key].observed.Present?
    ensures key in b.store && b.store[key].version == a.seen[key].observed.revision
  {
    SeenKeysAreGuarded(a.trx, a.seen, key);
    var request := RequestOf(a.trx.entries).value;
    CommitMeansAllHold(b, request);
    var i :| 0 <= i < |request.conditions| && request.conditions[i] == PinOf(key, a.seen[key].observed);
    assert Holds(b, request.conditions[i]);
  }

  /**
   Whatever attempt is about to commit in whatever reachable world, whatever document it
   has read and whatever other contents: after one delete and enough puts it still
   commits, although the store no longer agrees with what it read.
   */
  lemma StaleCommitAfterReincarnation(w: World, steps: seq<Step>, id: nat, key: Key, data: Data)
    requires Initial(w) && w.db.Memory? && Commits(Run(w, steps), id)
    requires var a := Run(w, steps).attempts[id];
             && key in a.seen && a.seen[key].Loaded? && a.seen[key].observed.Present?
             && a.seen[key].observed.data != data && a.seen[key].observed.revision <= I64_MAX
    ensures var before := Run(w, steps);
            var seen := before.attempts[id].seen;
            var v := Run(w, steps + Reincarnate(key, data, seen[key].observed.revision));
            && v.attempts == before.attempts
            && Commits(v, id)
            && !Agrees(v.db, seen)
  {
    RunKeeps(w, steps);
    MemoryStays(w, steps);
    var before := Run(w, steps);
    var a := before.attempts[id];
    var version := a.seen[key].observed.revision;
    PinnedVersion(before.db, a, key);
    ReincarnateReaches(before, key, data, version);
    RunConcat(w, steps, Reincarnate(key, data, version));
    var v := Run(before, Reincarnate(key, data, version));
    VersionsDecideCommit(before.db, v.db, a);
    assert ObserveAt(v.db, key).observed == Present(data, version);
  }

  // ---- A closure whose result shows it -----------------------------------------------

  /** Reads one document and returns whether it holds `data`. */
  function Reader(key: Key, data: Data): Closure {
    (replies: seq<Reply>) =>
      if replies == [] then ReadDocs([Get(key, Always)])
      else Finish(if Saw(replies[0], data) then 1 else 0, {})
  }

  predicate Saw(reply: Reply, data: Data) {
    && reply.GotDocs? && |reply.docs| == 1
    && reply.docs[0].Some? && reply.docs[0].value.contents == data
  }

  /** The reader after its read of a present document. */
  function ReaderState(key: Key, data: Data, version: nat): SoloState {
    var entry := Entry(key, Some(version), true, Managed(key, Some(data), false, false, false));
    SoloState(Trx([entry], map[key := 0]), [GotDocs([Some(Handle(0, data))])])
  }

  lemma ReaderReads(b: Backend, key: Key, data: Data)
    requires b.Memory? && key in b.store && b.store[key].version >= 0
    ensures Solo(Reader(key, data), b, 1) == ReaderState(key, b.store[key].data, b.store[key].version)
  {
    var closure, gets := Reader(key, data), [Get(key, Always)];
    assert Solo(closure, b, 0) == SoloState(EMPTY_TRX, []) && closure([]) == ReadDocs(gets);
    var loads := ObserveAll(b, gets);
    var observed := Present(b.store[key].data, b.store[key].version);
    assert loads[0].observed == observed && ObservedOf(loads) == [observed];
    RegistersOne(Get(key, Always), observed);
  }

  /** Registering one load that deserializes. */
  lemma RegistersOne(get: Get, observed: Observed)
    requires observed.Present? && get.accepts(observed.data)
    ensures var batch := RegisterBatch(EMPTY_TRX, [get], [observed]);
            var state := ReaderState(get.key, observed.data, observed.revision);
            batch.trx == state.trx && batch.result == Done([Some(Handle(0, observed.data))])
  {
    var gets := [get];
    var first := RegisterLoaded(EMPTY_TRX, get, observed);
    assert gets[1..] == [] && [observed][1..] == [];
    assert RegisterBatch(first.trx, gets[1..], [observed][1..]) == Batch(first.trx, Done([]), 0);
    assert first.trx.index == map[get.key := 0];
    assert first.trx.entries == ReaderState(get.key, observed.data, observed.revision).trx.entries;
    assert [Some(Handle(0, observed.data))] + [] == [Some(Handle(0, observed.data))];
  }

  /** It writes nothing, so its commit only checks the revision it read. */
  lemma ReaderCommits(b: Backend, key: Key, data: Data, version: nat, out: int)
    requires b.Memory?
    ensures CommitTrx(b, ReaderState(key, data, version).trx, out, {}).result == Committed(out) <==>
            key in b.store && b.store[key].version == version
    ensures CommitTrx(b, ReaderState(key, data, version).trx, out, {}).result.Committed? ==>
              CommitTrx(b, ReaderState(key, data, version).trx, out, {}).result == Committed(out)
  {
    var entries := ReaderState(key, data, version).trx.entries;
    assert entries[..0] == [];
    assert ConditionsOf(entries) == [RevisionEquals(key, version)] by {
      assert ConditionOf(entries[0]) == Some(RevisionEquals(key, version)) && ConditionsOf([]) == [];
    }
    assert MutationsOf(entries) == Ok([]) by {
      assert MutationOf(entries[0]) == Ok(None) && MutationsOf([]) == Ok([]);
    }
    var request := Request([RevisionEquals(key, version)], []);
    assert RequestOf(entries) == Ok(request);
    assert MemoryStore.CheckConditions(b.store, request.conditions, 1) == Ok(None);
    assert MemoryStore.CheckConditions(b.store, request.conditions, 0) == Ok(None) <==>
           key in b.store && b.store[key].version == version;
  }

  /**
   After any rival schedule that leaves the reader alone, its commit goes through exactly
   when the version is the one it read, and it then equals the reader run alone at that
   instant exactly when the contents are the ones it read.
   */
  lemma ReaderIsAtomicIff(v: World, id: nat, key: Key, version: nat, data: Data)
    requires v.db.Memory? && id in v.attempts
    requires v.attempts[id].closure == Reader(key, data)
    requires v.attempts[id].waiting.None? && v.attempts[id].result.None?
    requires SoloState(v.attempts[id].trx, v.attempts[id].replies) == ReaderState(key, data, version)
    ensures Commits(v, id) <==> key in v.db.store && v.db.store[key].version == version
    ensures Commits(v, id) ==> CommitOf(v.db, v.attempts[id]).result == Committed(1)
    ensures Commits(v, id) ==>
              SoloCommit(Reader(key, data), v.db, 1).result
              == Committed(if v.db.store[key].data == data then 1 else 0)
  {
    ReaderCommits(v.db, key, data, version, 1);
    if Commits(v, id) {
      var stored := v.db.store[key].data;
      ReaderReads(v.db, key, data);
      ReaderCommits(v.db, key, stored, version, if stored == data then 1 else 0);
    }
  }

  /**
   Serializability fails without the proviso: for every key, every version and any two
   contents there is a run from an initial world in which an attempt commits with a result
   that it would not have had alone at that instant.
   */
  lemma StaleReaderIsNotSerial(key: Key, version: nat, data: Data, other: Data)
    requires version <= I64_MAX && data != other
    ensures var w := World(Memory(map[key := MemoryStore.MemDoc(data, version)], map[]), map[]);
            var closure := Reader(key, data);
            var v := Run(w, SoloSteps(0, closure, w.db, 1) + Reincarnate(key, other, version));
            && Initial(w)
            && Commits(v, 0)
            && CommitOf(v.db, v.attempts[0]).result == Committed(1)
            && SoloCommit(closure, v.db, 1).result == Committed(0)
  {
    var w := World(Memory(map[key := MemoryStore.MemDoc(data, version)], map[]), map[]);
    var closure := Reader(key, data);
    SoloIsASchedule(w, 0, closure, 1);
    ReaderReads(w.db, key, data);
    var mid := Run(w, SoloSteps(0, closure, w.db, 1));
    var rival := Reincarnate(key, other, version);
    RunConcat(w, SoloSteps(0, closure, w.db, 1), rival);
    ReincarnateReaches(mid, key, other, version);
    ReaderIsAtomicIff(Run(mid, rival), 0, key, version, data);
  }
}

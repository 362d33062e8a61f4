/**
 The two kinds of backend an attempt can run against: the in-memory store, whose
 versions restart at zero when a key is re-created, and an abstract backend whose
 revisions never repeat and whose missing states carry a revision too, as dodb
 reports them (doc-db/src/dodb.rs:361-371).
 */
module Backends {
  import opened DocTypes
  import MemoryStore

  type Store = MemoryStore.Store

  datatype KeyState = KeyState(content: Option<Data>, revision: Revision)

  /**
   `incarnations` is a history variable: it counts, per key, how often the version
   sequence of the key restarted, by a delete or by the wrap-around of a plain put.
   */
  datatype Backend =
    | Memory(store: Store, incarnations: map<Key, nat>)
    | Revisioned(states: map<Key, KeyState>, clock: nat)

  datatype Load = Loaded(observed: Observed, incarnation: nat) | LoadError

  function Incarnation(b: Backend, key: Key): nat
    requires b.Memory?
  {
    if key in b.incarnations then b.incarnations[key] else 0
  }

  function StateOf(b: Backend, key: Key): KeyState
    requires b.Revisioned?
  {
    if key in b.states then b.states[key] else KeyState(None, 0)
  }

  function ObserveAt(b: Backend, key: Key): Load {
    match b
    case Memory(store, _) =>
      (match MemoryStore.Observe(store, key)
       case Ok(observed) => Loaded(observed, Incarnation(b, key))
       case Err => LoadError)
    case Revisioned(_, _) =>
      var state := StateOf(b, key);
      match state.content
      case Some(data) => Loaded(Present(data, state.revision), 0)
      case None => Loaded(Missing(Some(state.revision)), 0)
  }

  function Restart(b: Backend, keys: set<Key>): map<Key, nat>
    requires b.Memory?
  {
    map key | key in keys + b.incarnations.Keys ::
      Incarnation(b, key) + if key in keys then 1 else 0
  }

  function PlainPut(b: Backend, key: Key, data: Data): Backend {
    match b
    case Memory(store, incarnations) =>
      var wraps := key in store && store[key].version >= I64_MAX;
      Memory(MemoryStore.Upsert(store, key, data), if wraps then Restart(b, {key}) else incarnations)
    case Revisioned(states, clock) =>
      Revisioned(states[key := KeyState(Some(data), clock + 1)], clock + 1)
  }

  function PlainDelete(b: Backend, key: Key): Backend {
    match b
    case Memory(store, incarnations) =>
      Memory(MemoryStore.Remove(store, key), if key in store then Restart(b, {key}) else incarnations)
    case Revisioned(states, clock) =>
      Revisioned(states[key := KeyState(None, clock + 1)], clock + 1)
  }

  predicate RevisionedHolds(b: Backend, condition: Condition)
    requires b.Revisioned?
  {
    var state := StateOf(b, condition.key);
    match condition
    case RevisionEquals(_, expected) => state.revision == expected
    case Exists(_) => state.content.Some?
    case NotExists(_) => state.content.None?
  }

  function FirstUnmet(b: Backend, conditions: seq<Condition>, start: nat): Option<nat>
    requires b.Revisioned? && start <= |conditions|
    decreases |conditions| - start
  {
    if start == |conditions| then None
    else if RevisionedHolds(b, conditions[start]) then FirstUnmet(b, conditions, start + 1)
    else Some(start)
  }

  function MutateRevisioned(b: Backend, mutations: seq<Mutation>): (r: Backend)
    requires b.Revisioned?
    ensures r.Revisioned?
    decreases mutations
  {
    if mutations == [] then b
    else
      var m := mutations[0];
      MutateRevisioned(if m.PutDoc? then PlainPut(b, m.key, m.data) else PlainDelete(b, m.key), mutations[1..])
  }

  datatype Transacted = Transacted(outcome: Result<Outcome>, backend: Backend)

  /** `Database::transact`: validate the request, then run it atomically. */
  function Transact(b: Backend, request: Request): Transacted {
    if !ValidRequest(request) then Transacted(Err, b)
    else match b
      case Memory(store, _) =>
        var done := MemoryStore.Transact(store, request);
        Transacted(done.outcome, Memory(done.store, Restart(b, store.Keys - done.store.Keys)))
      case Revisioned(_, _) =>
        match FirstUnmet(b, request.conditions, 0)
        case Some(index) => Transacted(Ok(Outcome(Some(index))), b)
        case None => Transacted(Ok(Outcome(None)), MutateRevisioned(b, request.mutations))
  }

  ghost predicate Holds(b: Backend, condition: Condition) {
    match b
    case Memory(store, _) => MemoryStore.Holds(store, condition)
    case Revisioned(_, _) => RevisionedHolds(b, condition)
  }

  lemma {:induction false} FirstUnmetNone(b: Backend, conditions: seq<Condition>, start: nat)
    requires b.Revisioned? && start <= |conditions| && FirstUnmet(b, conditions, start).None?
    ensures forall i :: start <= i < |conditions| ==> RevisionedHolds(b, conditions[i])
    decreases |conditions| - start
  {
    if start < |conditions| {
      FirstUnmetNone(b, conditions, start + 1);
    }
  }

  lemma CommitMeansAllHold(b: Backend, request: Request)
    requires Transact(b, request).outcome == Ok(Outcome(None))
    ensures forall i :: 0 <= i < |request.conditions| ==> Holds(b, request.conditions[i])
  {
    if b.Memory? {
      MemoryStore.CheckIsLeast(b.store, request.conditions, 0);
    } else {
      FirstUnmetNone(b, request.conditions, 0);
    }
  }

  // ---- What no operation ever undoes ---------------------------------------

  /** Every revision handed out so far is at most the clock. */
  ghost predicate Clocked(b: Backend) {
    b.Revisioned? ==> forall key :: key in b.states ==> b.states[key].revision <= b.clock
  }

  /**
   `after` continues `before` at `key`: within one incarnation a present document
   stays present, its version never falls, and an unchanged version means an
   unchanged document; on a revisioned backend this holds of every state.
   */
  ghost predicate GrowsAt(before: Backend, after: Backend, key: Key) {
    match before
    case Memory(store, _) =>
      && after.Memory?
      && Incarnation(before, key) <= Incarnation(after, key)
      && (Incarnation(before, key) == Incarnation(after, key) && key in store ==>
            && key in after.store
            && store[key].version <= after.store[key].version
            && (store[key].version == after.store[key].version ==> store[key] == after.store[key]))
    case Revisioned(_, _) =>
      && after.Revisioned?
      && StateOf(before, key).revision <= StateOf(after, key).revision
      && (StateOf(before, key).revision == StateOf(after, key).revision ==> StateOf(before, key) == StateOf(after, key))
  }

  ghost predicate Grows(before: Backend, after: Backend) {
    forall key :: GrowsAt(before, after, key)
  }

  lemma GrowsReflexive(b: Backend)
    ensures Grows(b, b)
  {
  }

  lemma GrowsTransitive(a: Backend, b: Backend, c: Backend)
    requires Grows(a, b) && Grows(b, c)
    ensures Grows(a, c)
  {
    forall key ensures GrowsAt(a, c, key) {
      assert GrowsAt(a, b, key) && GrowsAt(b, c, key);
    }
  }

  lemma PutGrows(b: Backend, key: Key, data: Data)
    requires Clocked(b)
    ensures Grows(b, PlainPut(b, key, data)) && Clocked(PlainPut(b, key, data))
  {
    forall k ensures GrowsAt(b, PlainPut(b, key, data), k) {
    }
  }

  lemma DeleteGrows(b: Backend, key: Key)
    requires Clocked(b)
    ensures Grows(b, PlainDelete(b, key)) && Clocked(PlainDelete(b, key))
  {
    forall k ensures GrowsAt(b, PlainDelete(b, key), k) {
    }
  }

  lemma {:induction false} MutateGrows(b: Backend, mutations: seq<Mutation>)
    requires b.Revisioned? && Clocked(b)
    ensures Grows(b, MutateRevisioned(b, mutations)) && Clocked(MutateRevisioned(b, mutations))
    decreases mutations
  {
    if mutations == [] {
      GrowsReflexive(b);
    } else {
      var m := mutations[0];
      var next := if m.PutDoc? then PlainPut(b, m.key, m.data) else PlainDelete(b, m.key);
      if m.PutDoc? {
        PutGrows(b, m.key, m.data);
      } else {
        DeleteGrows(b, m.key);
      }
      MutateGrows(next, mutations[1..]);
      GrowsTransitive(b, next, MutateRevisioned(b, mutations));
    }
  }

  lemma TransactGrows(b: Backend, request: Request)
    requires Clocked(b)
    ensures Grows(b, Transact(b, request).backend) && Clocked(Transact(b, request).backend)
  {
    if !ValidRequest(request) {
      GrowsReflexive(b);
    } else if b.Revisioned? {
      GrowsReflexive(b);
      MutateGrows(b, request.mutations);
    } else {
      MemoryStore.TransactEffect(b.store, request);
      var after := Transact(b, request).backend;
      var done := MemoryStore.Transact(b.store, request);
      forall key ensures GrowsAt(b, after, key) {
        if done.outcome == Ok(Outcome(None)) {
          assert MemoryStore.Lookup(done.store, key)
              == MemoryStore.Effect(MemoryStore.Lookup(b.store, key), MemoryStore.MutationOn(request.mutations, key));
        }
      }
    }
  }

  // ---- What an old load still says about the backend ------------------------

  function LoadedRevision(observed: Observed): Option<Revision> {
    match observed
    case Present(_, revision) => Some(revision)
    case Missing(revision) => revision
  }

  /** The condition an observed key contributes at commit. */
  function PinOf(key: Key, observed: Observed): Condition {
    match LoadedRevision(observed)
    case Some(revision) => RevisionEquals(key, revision)
    case None => NotExists(key)
  }

  ghost predicate StillGood(b: Backend, key: Key, load: Load) {
    match load
    case LoadError => true
    case Loaded(Present(data, revision), incarnation) =>
      (match b
       case Memory(store, _) =>
         && incarnation <= Incarnation(b, key)
         && (incarnation == Incarnation(b, key) ==>
               && key in store
               && revision <= store[key].version
               && (revision == store[key].version ==> store[key].data == data))
       case Revisioned(_, _) =>
         && revision <= StateOf(b, key).revision
         && (revision == StateOf(b, key).revision ==> StateOf(b, key).content == Some(data)))
    case Loaded(Missing(revision), _) =>
      match b
      case Memory(_, _) => revision.None?
      case Revisioned(_, _) =>
        && revision.Some?
        && revision.value <= StateOf(b, key).revision
        && (revision.value == StateOf(b, key).revision ==> StateOf(b, key).content.None?)
  }

  lemma FreshLoadIsGood(b: Backend, key: Key)
    ensures StillGood(b, key, ObserveAt(b, key))
  {
  }

  lemma GrowthKeepsGood(before: Backend, after: Backend, key: Key, load: Load)
    requires Grows(before, after) && StillGood(before, key, load)
    ensures StillGood(after, key, load)
  {
    assert GrowsAt(before, after, key);
  }

  /** On the memory backend: the key was not restarted since it was loaded as present. */
  ghost predicate SameIncarnation(b: Backend, key: Key, load: Load) {
    b.Memory? && load.Loaded? && load.observed.Present? ==> load.incarnation == Incarnation(b, key)
  }

  /** If the commit condition of a load holds, the key is in exactly the state that was loaded. */
  lemma ConditionPins(b: Backend, key: Key, load: Load)
    requires load.Loaded? && StillGood(b, key, load) && SameIncarnation(b, key, load)
    requires Holds(b, PinOf(key, load.observed))
    ensures ObserveAt(b, key).Loaded? && ObserveAt(b, key).observed == load.observed
  {
  }
}

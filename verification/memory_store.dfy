/**
 What one atomic `transact` means on a versioned store, as the in-memory backend
 computes it (doc-db/src/memory.rs): all conditions are checked in order against
 the current store, and only then are the mutations applied to a staged copy.
 */
module MemoryStore {
  import opened DocTypes
  import opened Collections

  /** The version is the `i64` of the source; `Upsert` can wrap it below zero. */
  datatype MemDoc = MemDoc(data: Data, version: int)

  type Store = map<Key, MemDoc>

  function Lookup(store: Store, key: Key): Option<MemDoc> {
    if key in store then Some(store[key]) else None
  }

  function Observe(store: Store, key: Key): Result<Observed> {
    if key !in store then Ok(Missing(None))
    else match RevisionFromBackend(store[key].version)
      case Ok(revision) => Ok(Present(store[key].data, revision))
      case Err => Err
  }

  /** `i64` addition of one as compiled without overflow checks. */
  function WrapIncrement(version: int): int {
    if version == I64_MAX then I64_MIN else version + 1
  }

  function Upsert(store: Store, key: Key, data: Data): Store {
    store[key := MemDoc(data, if key in store then WrapIncrement(store[key].version) else 0)]
  }

  function Remove(store: Store, key: Key): Store {
    store - {key}
  }

  function ConditionHolds(store: Store, condition: Condition): Result<bool> {
    match condition
    case RevisionEquals(key, expected) =>
      if key !in store then Ok(false)
      else (match RevisionFromBackend(store[key].version)
            case Ok(revision) => Ok(revision == expected)
            case Err => Err)
    case Exists(key) => Ok(key in store)
    case NotExists(key) => Ok(key !in store)
  }

  /** Index of the first condition, counted from `start`, that does not hold. */
  function CheckConditions(store: Store, conditions: seq<Condition>, start: nat): Result<Option<nat>>
    requires start <= |conditions|
    decreases |conditions| - start
  {
    if start == |conditions| then Ok(None)
    else match ConditionHolds(store, conditions[start])
      case Err => Err
      case Ok(holds) => if holds then CheckConditions(store, conditions, start + 1) else Ok(Some(start))
  }

  /** A put is checked: it refuses to move a version past `i64::MAX`. */
  function ApplyMutation(store: Store, mutation: Mutation): Result<Store> {
    match mutation
    case PutDoc(key, data) =>
      if key !in store then Ok(store[key := MemDoc(data, 0)])
      else if store[key].version >= I64_MAX then Err
      else Ok(store[key := MemDoc(data, store[key].version + 1)])
    case DeleteDoc(key) => Ok(store - {key})
  }

  function ApplyMutations(store: Store, mutations: seq<Mutation>): Result<Store>
    decreases mutations
  {
    if mutations == [] then Ok(store)
    else match ApplyMutation(store, mutations[0])
      case Err => Err
      case Ok(staged) => ApplyMutations(staged, mutations[1..])
  }

  datatype Transacted = Transacted(outcome: Result<Outcome>, store: Store)

  function Transact(store: Store, request: Request): Transacted {
    match CheckConditions(store, request.conditions, 0)
    case Err => Transacted(Err, store)
    case Ok(Some(index)) => Transacted(Ok(Outcome(Some(index))), store)
    case Ok(None) =>
      match ApplyMutations(store, request.mutations)
      case Err => Transacted(Err, store)
      case Ok(staged) => Transacted(Ok(Outcome(None)), staged)
  }

  // ---- What the condition check decides -----------------------------------

  ghost predicate Holds(store: Store, condition: Condition) {
    ConditionHolds(store, condition) == Ok(true)
  }

  ghost predicate AllHold(store: Store, conditions: seq<Condition>, start: nat) {
    forall j :: start <= j < |conditions| ==> Holds(store, conditions[j])
  }

  ghost predicate LeastFailing(store: Store, conditions: seq<Condition>, start: nat, i: nat) {
    && start <= i < |conditions|
    && ConditionHolds(store, conditions[i]) == Ok(false)
    && forall j :: start <= j < i ==> Holds(store, conditions[j])
  }

  /** Condition `i` is the first that does not hold, because the version it asks about is negative. */
  ghost predicate FirstUnreadable(store: Store, conditions: seq<Condition>, start: nat, i: nat) {
    && start <= i < |conditions|
    && ConditionHolds(store, conditions[i]).Err? && store[conditions[i].key].version < 0
    && forall j :: start <= j < i ==> Holds(store, conditions[j])
  }

  lemma {:induction false} CheckIsLeast(store: Store, conditions: seq<Condition>, start: nat)
    requires start <= |conditions|
    ensures match CheckConditions(store, conditions, start)
            case Ok(None) => AllHold(store, conditions, start)
            case Ok(Some(i)) => LeastFailing(store, conditions, start, i)
            case Err => exists i :: FirstUnreadable(store, conditions, start, i)
    decreases |conditions| - start
  {
    if start < |conditions| {
      CheckIsLeast(store, conditions, start + 1);
      if ConditionHolds(store, conditions[start]).Err? {
        assert FirstUnreadable(store, conditions, start, start);
      } else if CheckConditions(store, conditions, start).Err? {
        var i :| FirstUnreadable(store, conditions, start + 1, i);
        assert FirstUnreadable(store, conditions, start, i);
      }
    }
  }

  // ---- What the staged mutations do, key by key ----------------------------

  /** The only mutation that addresses `key`, when the keys are distinct. */
  function MutationOn(mutations: seq<Mutation>, key: Key): Option<Mutation> {
    if mutations == [] then None
    else if mutations[0].key == key then Some(mutations[0])
    else MutationOn(mutations[1..], key)
  }

  lemma {:induction false} MutationOnFinds(mutations: seq<Mutation>, key: Key)
    requires DistinctMutationKeys(mutations)
    ensures forall m :: MutationOn(mutations, key) == Some(m) <==> m in mutations && m.key == key
    ensures MutationOn(mutations, key) == None <==> forall m :: m in mutations ==> m.key != key
  {
    if mutations != [] {
      var rest := mutations[1..];
      assert DistinctMutationKeys(rest);
      MutationOnFinds(rest, key);
      assert mutations == [mutations[0]] + rest;
      assert forall m :: m in rest ==> m.key != mutations[0].key;
    }
  }

  /** The document a key holds after its own mutation, computed from that key alone. */
  function Effect(before: Option<MemDoc>, mutation: Option<Mutation>): Option<MemDoc> {
    match mutation
    case None => before
    case Some(DeleteDoc(_)) => None
    case Some(PutDoc(_, data)) => Some(MemDoc(data, if before.Some? then before.value.version + 1 else 0))
  }

  ghost predicate Overflows(store: Store, mutations: seq<Mutation>) {
    exists m :: m in mutations && m.PutDoc? && m.key in store && store[m.key].version >= I64_MAX
  }

  lemma DistinctTail(mutations: seq<Mutation>)
    requires mutations != [] && DistinctMutationKeys(mutations)
    ensures DistinctMutationKeys(mutations[1..])
    ensures forall m :: m in mutations[1..] ==> m.key != mutations[0].key
  {
  }

  lemma EffectAfterFirst(store: Store, staged: Store, mutations: seq<Mutation>, key: Key)
    requires mutations != [] && DistinctMutationKeys(mutations) && ApplyMutation(store, mutations[0]) == Ok(staged)
    ensures Effect(Lookup(staged, key), MutationOn(mutations[1..], key))
         == Effect(Lookup(store, key), MutationOn(mutations, key))
  {
    DistinctTail(mutations);
    if key == mutations[0].key {
      MutationOnFinds(mutations[1..], key);
    }
  }

  /** Mutations with distinct keys act on each key independently of all the others. */
  lemma {:induction false} ApplyIsPointwise(store: Store, mutations: seq<Mutation>)
    requires DistinctMutationKeys(mutations)
    ensures ApplyMutations(store, mutations).Err? <==> Overflows(store, mutations)
    ensures ApplyMutations(store, mutations).Ok? ==>
              forall key :: Lookup(ApplyMutations(store, mutations).value, key)
                            == Effect(Lookup(store, key), MutationOn(mutations, key))
    decreases mutations
  {
    if mutations != [] {
      var first, rest := mutations[0], mutations[1..];
      DistinctTail(mutations);
      match ApplyMutation(store, first)
      case Err =>
        assert first in mutations;
      case Ok(staged) =>
        ApplyIsPointwise(staged, rest);
        OverflowsAfterFirst(store, staged, first, rest);
        assert mutations == [first] + rest;
        forall key
          ensures Effect(Lookup(staged, key), MutationOn(rest, key))
               == Effect(Lookup(store, key), MutationOn(mutations, key))
        {
          EffectAfterFirst(store, staged, mutations, key);
        }
    }
  }

  lemma OverflowsAfterFirst(store: Store, staged: Store, first: Mutation, rest: seq<Mutation>)
    requires ApplyMutation(store, first) == Ok(staged)
    requires forall m :: m in rest ==> m.key != first.key
    ensures Overflows(store, [first] + rest) <==> Overflows(staged, rest)
  {
    assert forall m :: m in rest ==> Lookup(staged, m.key) == Lookup(store, m.key);
    if Overflows(store, [first] + rest) {
      var m :| m in [first] + rest && m.PutDoc? && m.key in store && store[m.key].version >= I64_MAX;
      assert m in rest;
      assert Lookup(staged, m.key) == Lookup(store, m.key);
    }
    if Overflows(staged, rest) {
      var m :| m in rest && m.PutDoc? && m.key in staged && staged[m.key].version >= I64_MAX;
      assert Lookup(staged, m.key) == Lookup(store, m.key);
      assert m in [first] + rest;
    }
  }

  lemma SameLookupsSameStore(a: Store, b: Store)
    requires forall key :: Lookup(a, key) == Lookup(b, key)
    ensures a == b
  {
    forall key ensures key in a <==> key in b {
      assert Lookup(a, key) == Lookup(b, key);
    }
    forall key | key in a ensures a[key] == b[key] {
      assert Lookup(a, key) == Lookup(b, key);
    }
  }

  lemma PermutedKeysStayDistinct(mutations: seq<Mutation>, permuted: seq<Mutation>)
    requires DistinctMutationKeys(mutations) && multiset(mutations) == multiset(permuted)
    ensures DistinctMutationKeys(permuted)
  {
    PermutedStaysDistinct(mutations, permuted, (m: Mutation) => m.key);
  }

  lemma SameMutationOn(mutations: seq<Mutation>, permuted: seq<Mutation>, key: Key)
    requires DistinctMutationKeys(mutations) && DistinctMutationKeys(permuted)
    requires multiset(mutations) == multiset(permuted)
    ensures MutationOn(mutations, key) == MutationOn(permuted, key)
  {
    MutationOnFinds(mutations, key);
    MutationOnFinds(permuted, key);
    assert forall m :: m in mutations <==> m in multiset(mutations);
    assert forall m :: m in permuted <==> m in multiset(permuted);
  }

  /** The order in which a validated request lists its mutations is irrelevant. */
  lemma MutationOrderIrrelevant(store: Store, request: Request, permuted: seq<Mutation>)
    requires ValidRequest(request)
    requires multiset(request.mutations) == multiset(permuted)
    ensures Transact(store, request) == Transact(store, request.(mutations := permuted))
  {
    var ms := request.mutations;
    PermutedKeysStayDistinct(ms, permuted);
    ApplyIsPointwise(store, ms);
    ApplyIsPointwise(store, permuted);
    assert forall m :: m in ms <==> m in multiset(ms);
    assert forall m :: m in permuted <==> m in multiset(permuted);
    assert Overflows(store, ms) <==> Overflows(store, permuted);
    if ApplyMutations(store, ms).Ok? {
      forall key
        ensures Lookup(ApplyMutations(store, ms).value, key) == Lookup(ApplyMutations(store, permuted).value, key)
      {
        SameMutationOn(ms, permuted, key);
      }
      SameLookupsSameStore(ApplyMutations(store, ms).value, ApplyMutations(store, permuted).value);
    }
  }

  /**
   A request commits exactly when every condition holds and no put would
   overflow, and a conflict names exactly the least failing condition.
   */
  lemma TransactOutcome(store: Store, request: Request)
    requires ValidRequest(request)
    ensures Transact(store, request).outcome == Ok(Outcome(None)) <==>
            AllHold(store, request.conditions, 0) && !Overflows(store, request.mutations)
    ensures forall i: nat :: Transact(store, request).outcome == Ok(Outcome(Some(i))) <==>
                             LeastFailing(store, request.conditions, 0, i)
  {
    CheckIsLeast(store, request.conditions, 0);
    ApplyIsPointwise(store, request.mutations);
    match CheckConditions(store, request.conditions, 0)
    case Ok(None) =>
    case Ok(Some(index)) =>
      forall i: nat | LeastFailing(store, request.conditions, 0, i) ensures i == index {
      }
    case Err =>
      var first: nat :| FirstUnreadable(store, request.conditions, 0, first);
      forall i: nat ensures !LeastFailing(store, request.conditions, 0, i) {
      }
  }

  /** Only a commit changes the store, and it changes each key by its own mutation alone. */
  lemma TransactEffect(store: Store, request: Request)
    requires ValidRequest(request)
    ensures Transact(store, request).outcome != Ok(Outcome(None)) ==> Transact(store, request).store == store
    ensures Transact(store, request).outcome == Ok(Outcome(None)) ==>
              forall key :: Lookup(Transact(store, request).store, key)
                            == Effect(Lookup(store, key), MutationOn(request.mutations, key))
  {
    ApplyIsPointwise(store, request.mutations);
  }
}

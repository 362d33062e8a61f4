/** The in-memory backend as the mutable object it is (doc-db/src/memory.rs:20-167, 271-281). */
module MemoryDatabases {
  import opened DocTypes
  import opened MemoryStore

  class MemoryDatabase {
    var store: Store

    constructor ()
      ensures store == map[]
    {
      store := map[];
    }

    method Get(key: Key) returns (data: Option<Data>)
      ensures data.Some? <==> key in store
      ensures data.Some? ==> data.value == store[key].data
    {
      data := if key in store then Some(store[key].data) else None;
    }

    method GetObserved(key: Key) returns (observed: Result<Observed>)
      ensures observed == Observe(store, key)
    {
      if key in store {
        var doc := store[key];
        var revision := RevisionFromBackend(doc.version);
        match revision
        case Ok(r) => return Ok(Present(doc.data, r));
        case Err => return Err;
      }
      return Ok(Missing(None));
    }

    method Put(key: Key, data: Data)
      modifies this
      ensures store == Upsert(old(store), key, data)
    {
      var version := 0;
      if key in store {
        version := WrapIncrement(store[key].version);
      }
      store := store[key := MemDoc(data, version)];
    }

    method Delete(key: Key)
      modifies this
      ensures key !in store
      ensures forall k :: k != key ==> Lookup(store, k) == Lookup(old(store), k)
    {
      store := store - {key};
    }

    /** Check every condition in place, stage every mutation on a copy, swap the copy in. */
    method Transact(request: Request) returns (outcome: Result<Outcome>)
      modifies this
      ensures Transacted(outcome, store) == MemoryStore.Transact(old(store), request)
    {
      for i := 0 to |request.conditions|
        invariant store == old(store)
        invariant CheckConditions(store, request.conditions, 0) == CheckConditions(store, request.conditions, i)
      {
        var holds := ConditionHolds(store, request.conditions[i]);
        match holds
        case Err => return Err;
        case Ok(h) =>
          if !h {
            return Ok(Outcome(Some(i)));
          }
      }
      if request.mutations == [] {
        return Ok(Outcome(None));
      }
      var staged := store;
      for i := 0 to |request.mutations|
        invariant store == old(store)
        invariant ApplyMutations(store, request.mutations) == ApplyMutations(staged, request.mutations[i..])
      {
        assert request.mutations[i..][1..] == request.mutations[i + 1..];
        match request.mutations[i]
        case PutDoc(key, data) =>
          var version := 0;
          if key in staged {
            if staged[key].version >= I64_MAX {
              return Err;
            }
            version := staged[key].version + 1;
          }
          staged := staged[key := MemDoc(data, version)];
        case DeleteDoc(key) =>
          staged := staged - {key};
      }
      store := staged;
      return Ok(Outcome(None));
    }
  }
}

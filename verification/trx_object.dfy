/** The mutable `TrxState` object (doc-db/src/trx.rs:359-480), refining the functions of `TrxState`. */
module TrxObject {
  import opened DocTypes
  import opened TrxState
  import Interleaving

  class Tracker {
    var entries: seq<Entry>
    var index: map<Key, nat>

    ghost function View(): Trx
      reads this
    {
      Trx(entries, index)
    }

    constructor ()
      ensures View() == EMPTY_TRX
    {
      entries, index := [], map[];
    }

    method RegisterLoaded(get: Get, observed: Observed) returns (result: Fallible<Option<Handle>>)
      requires Tracks(View())
      modifies this
      ensures Loading(View(), result) == TrxState.RegisterLoaded(old(View()), get, observed)
      ensures Tracks(View())
      ensures old(Inverse(View())) && result != Failed(Undecodable) ==> Inverse(View())
    {
      RegisterKeeps(View(), get, observed);
      BatchKeeps(View(), [get], [observed]);
      if get.key in index {
        return Failed(Duplicate);
      }
      var slot := |entries|;
      index := index[get.key := slot];
      match observed
      case Present(data, revision) =>
        if !get.accepts(data) {
          return Failed(Undecodable);
        }
        entries := entries + [Entry(get.key, Some(revision), true, Managed(get.key, Some(data), false, false, false))];
        return Done(Some(Handle(slot, data)));
      case Missing(revision) =>
        entries := entries + [Entry(get.key, revision, true, NoDoc)];
        return Done(None);
    }

    method Create(doc: Document) returns (result: Fallible<nat>)
      requires Tracks(View())
      modifies this
      ensures Creation(View(), result) == TrxState.Create(old(View()), doc)
      ensures Tracks(View())
      ensures old(Inverse(View())) ==> Inverse(View())
    {
      CreateKeeps(View(), doc);
      var state := Managed(doc.key, doc.bytes, false, false, true);
      if doc.key !in index {
        var slot := |entries|;
        index := index[doc.key := slot];
        entries := entries + [Entry(doc.key, None, false, state)];
        return Done(slot);
      }
      var slot := index[doc.key];
      if slot < |entries| && entries[slot].state.NoDoc? {
        entries := entries[slot := entries[slot].(state := state)];
        return Done(slot);
      }
      return Failed(Duplicate);
    }

    /** `take_entries`: refuses if a handle outlives the closure; the entries are gone either way. */
    method TakeEntries(alive: set<nat>) returns (taken: Result<seq<Entry>>)
      modifies this
      ensures entries == [] && index == old(index)
      ensures taken.Err? <==> exists i :: 0 <= i < |old(entries)| && old(entries)[i].state.Managed? && i in alive
      ensures taken.Err? <==> Interleaving.HandleEscapes(old(View()), alive)
      ensures taken.Ok? ==> taken.value == old(entries)
    {
      for i := 0 to |entries|
        invariant entries == old(entries) && index == old(index)
        invariant forall j :: 0 <= j < i && entries[j].state.Managed? ==> j !in alive
      {
        if entries[i].state.Managed? && i in alive {
          entries := [];
          return Err;
        }
      }
      taken := Ok(entries);
      entries := [];
    }
  }
}

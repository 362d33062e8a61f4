/**
 No lost update, from the closures' own actions: when every transaction that sets the
 counter sets it to the value its handle showed plus one, the counter ends as its
 initial value plus the number of committed transactions that set it
 (doc-db/src/trx.rs:142-161, 309-345, 522-540, 592-653).
 */
module CountingClosures {
  import opened DocTypes
  import MemoryStore
  import opened TrxState
  import opened Backends
  import opened Interleaving
  import opened AttemptInvariant
  import opened Serializability
  import opened LostUpdate
  import opened BufferedWrites
  import CommitDecision

  // ---- What a closure was handed and what it did with it ---------------------

  /** Reply `k` answered a read of `key` at position `p` with `handle`. */
  ghost predicate HandedAt(closure: Closure, replies: seq<Reply>, k: nat, p: nat, key: Key, handle: Handle) {
    && k < |replies| && replies[k].GotDocs? && p < |replies[k].docs| && replies[k].docs[p] == Some(handle)
    && closure(replies[..k]).ReadDocs? && p < |closure(replies[..k]).gets|
    && closure(replies[..k]).gets[p].key == key
  }

  ghost predicate Handed(closure: Closure, replies: seq<Reply>, key: Key, handle: Handle) {
    exists k: nat, p: nat :: HandedAt(closure, replies, k, p, key, handle)
  }

  ghost predicate HandedNew(replies: seq<Reply>, slot: nat) {
    exists k :: 0 <= k < |replies| && replies[k] == Created(slot)
  }

  /** The closure holds a handle with this slot: a document it loaded or one it created. */
  ghost predicate Holding(closure: Closure, replies: seq<Reply>, slot: nat) {
    HandedNew(replies, slot)
    || exists key: Key, contents: Data :: Handed(closure, replies, key, Handle(slot, contents))
  }

  /** The closure's next action sets the counter it has loaded. */
  ghost predicate SetsCounter(closure: Closure, replies: seq<Reply>, counter: Key) {
    closure(replies).SetDoc?
    && exists contents: Data :: Handed(closure, replies, counter, Handle(closure(replies).slot, contents))
  }

  /** Some earlier action of the closure set the counter it had loaded. */
  ghost predicate HasSet(closure: Closure, replies: seq<Reply>, counter: Key) {
    exists k :: 0 <= k < |replies| && SetsCounter(closure, replies[..k], counter)
  }

  /**
   A closure uses only handles it was given, sets a counter it loaded to one more than
   the handle showed when it was loaded, and does not delete it.
   */
  ghost predicate CountingAction(closure: Closure, replies: seq<Reply>, counter: Key, value: Data -> int) {
    match closure(replies)
    case SetDoc(slot, bytes) =>
      && Holding(closure, replies, slot)
      && forall contents: Data :: Handed(closure, replies, counter, Handle(slot, contents)) ==>
           bytes.Some? && value(bytes.value) == value(contents) + 1
    case DropDoc(slot) =>
      && Holding(closure, replies, slot)
      && forall contents: Data :: !Handed(closure, replies, counter, Handle(slot, contents))
    case _ => true
  }

  ghost predicate CountingClosure(closure: Closure, counter: Key, value: Data -> int) {
    forall replies :: CountingAction(closure, replies, counter, value)
  }

  // ---- One more reply -----------------------------------------------------------

  lemma HandedMore(closure: Closure, replies: seq<Reply>, r: Reply, key: Key, handle: Handle)
    ensures Handed(closure, replies, key, handle) ==> Handed(closure, replies + [r], key, handle)
    ensures !r.GotDocs? ==> (Handed(closure, replies + [r], key, handle) <==> Handed(closure, replies, key, handle))
  {
    assert forall k :: 0 <= k < |replies| ==> (replies + [r])[..k] == replies[..k];
    if k: nat, p: nat :| HandedAt(closure, replies, k, p, key, handle) {
      assert HandedAt(closure, replies + [r], k, p, key, handle);
    }
    if !r.GotDocs? && Handed(closure, replies + [r], key, handle) {
      var k: nat, p: nat :| HandedAt(closure, replies + [r], k, p, key, handle);
      assert HandedAt(closure, replies, k, p, key, handle);
    }
  }

  lemma HandedByRead(closure: Closure, replies: seq<Reply>, docs: seq<Option<Handle>>, key: Key, handle: Handle)
    requires Handed(closure, replies + [GotDocs(docs)], key, handle)
    ensures Handed(closure, replies, key, handle)
            || (closure(replies).ReadDocs?
                && exists p: nat :: p < |docs| && p < |closure(replies).gets|
                                    && docs[p] == Some(handle) && closure(replies).gets[p].key == key)
  {
    var more := replies + [GotDocs(docs)];
    var k: nat, p: nat :| HandedAt(closure, more, k, p, key, handle);
    if k < |replies| {
      assert more[..k] == replies[..k];
      assert HandedAt(closure, replies, k, p, key, handle);
    } else {
      assert more[..k] == replies;
    }
  }

  lemma HasSetMore(closure: Closure, replies: seq<Reply>, r: Reply, counter: Key)
    ensures HasSet(closure, replies + [r], counter)
            <==> HasSet(closure, replies, counter) || SetsCounter(closure, replies, counter)
  {
    var more := replies + [r];
    assert forall k :: 0 <= k < |replies| ==> more[..k] == replies[..k];
    assert more[..|replies|] == replies;
    if HasSet(closure, more, counter) {
      var k :| 0 <= k < |more| && SetsCounter(closure, more[..k], counter);
      assert k < |replies| ==> SetsCounter(closure, replies[..k], counter);
    }
    if HasSet(closure, replies, counter) {
      var k :| 0 <= k < |replies| && SetsCounter(closure, replies[..k], counter);
      assert SetsCounter(closure, more[..k], counter);
    }
    if SetsCounter(closure, replies, counter) {
      assert SetsCounter(closure, more[..|replies|], counter);
    }
  }

  // ---- What every attempt keeps ---------------------------------------------------

  /** A handle stands for the key it was asked for and shows what was loaded. */
  ghost predicate ShowsLoad(a: Attempt, key: Key, handle: Handle) {
    && Live(a.trx, handle.slot)
    && a.trx.entries[handle.slot].key == key
    && !a.trx.entries[handle.slot].state.created
    && key in a.seen && a.seen[key].Loaded? && a.seen[key].observed.Present?
    && a.seen[key].observed.data == handle.contents
  }

  ghost predicate HandlesShowLoads(a: Attempt) {
    forall key: Key, handle: Handle :: Handed(a.closure, a.replies, key, handle) ==> ShowsLoad(a, key, handle)
  }

  ghost predicate NewHandlesCreated(a: Attempt) {
    forall slot: nat :: HandedNew(a.replies, slot) ==>
      Live(a.trx, slot) && a.trx.entries[slot].state.created
  }

  /** The buffered counter is one more than the loaded one if the closure set it, and clean otherwise. */
  ghost predicate CountsOnce(a: Attempt, slot: nat, counter: Key, value: Data -> int)
    requires Live(a.trx, slot)
  {
    var state := a.trx.entries[slot].state;
    && !state.deleted
    && (state.dirty <==> HasSet(a.closure, a.replies, counter))
    && (state.dirty ==>
          && counter in a.seen && a.seen[counter].Loaded? && a.seen[counter].observed.Present?
          && state.bytes.Some? && value(state.bytes.value) == value(a.seen[counter].observed.data) + 1)
  }

  /** `slot` is the counter as it was loaded. */
  predicate LoadedCounter(t: Trx, slot: nat, counter: Key) {
    Live(t, slot) && t.entries[slot].key == counter && !t.entries[slot].state.created
  }

  ghost predicate Counting(a: Attempt, counter: Key, value: Data -> int) {
    && CountingClosure(a.closure, counter, value)
    && HandlesShowLoads(a)
    && NewHandlesCreated(a)
    && forall slot: nat :: LoadedCounter(a.trx, slot, counter) ==> CountsOnce(a, slot, counter, value)
  }

  // ---- Every action keeps it --------------------------------------------------------

  /** Handles stay handles on the same keys. */
  ghost predicate KeepsKinds(t: Trx, u: Trx) {
    forall slot: nat :: Live(t, slot) ==>
      && Live(u, slot)
      && u.entries[slot].key == t.entries[slot].key
      && u.entries[slot].state.created == t.entries[slot].state.created
  }

  lemma ReplyKeepsHandles(a: Attempt, u: Attempt, r: Reply)
    requires HandlesShowLoads(a) && NewHandlesCreated(a) && KeepsKinds(a.trx, u.trx)
    requires u.closure == a.closure && u.replies == a.replies + [r] && u.seen == a.seen && !r.GotDocs?
    requires r.Created? ==> Live(u.trx, r.slot) && u.trx.entries[r.slot].state.created
    ensures HandlesShowLoads(u) && NewHandlesCreated(u)
  {
    forall key: Key, handle: Handle | Handed(u.closure, u.replies, key, handle) ensures ShowsLoad(u, key, handle) {
      HandedMore(a.closure, a.replies, r, key, handle);
      assert ShowsLoad(a, key, handle);
    }
    forall slot: nat | HandedNew(u.replies, slot) ensures Live(u.trx, slot) && u.trx.entries[slot].state.created {
      var k :| 0 <= k < |u.replies| && u.replies[k] == Created(slot);
      if k < |a.replies| {
        assert a.replies[k] == Created(slot);
        assert HandedNew(a.replies, slot);
      }
    }
  }

  /** A handle the closure holds on the counter's entry is a handle on the counter. */
  lemma HoldingTheCounter(a: Attempt, slot: nat, counter: Key) returns (contents: Data)
    requires HandlesShowLoads(a) && NewHandlesCreated(a)
    requires Holding(a.closure, a.replies, slot) && LoadedCounter(a.trx, slot, counter)
    ensures Handed(a.closure, a.replies, counter, Handle(slot, contents))
    ensures ShowsLoad(a, counter, Handle(slot, contents))
  {
    assert !HandedNew(a.replies, slot);
    var key: Key, shown: Data :| Handed(a.closure, a.replies, key, Handle(slot, shown));
    assert ShowsLoad(a, key, Handle(slot, shown));
    contents := shown;
  }

  /** Only one slot can be the one through which the counter is set. */
  lemma SetsThroughItsSlot(a: Attempt, slot: nat, counter: Key)
    requires Tracks(a.trx) && HandlesShowLoads(a) && LoadedCounter(a.trx, slot, counter)
    requires SetsCounter(a.closure, a.replies, counter)
    ensures a.closure(a.replies).slot == slot
  {
    var target := a.closure(a.replies).slot;
    var contents: Data :| Handed(a.closure, a.replies, counter, Handle(target, contents));
    assert ShowsLoad(a, counter, Handle(target, contents));
  }

  lemma SetKeepsCounting(a: Attempt, counter: Key, value: Data -> int)
    requires Tracks(a.trx) && Counting(a, counter, value) && a.waiting.None? && a.closure(a.replies).SetDoc?
    ensures Counting(Act(a), counter, value)
  {
    var u, target := Act(a), a.closure(a.replies).slot;
    ReplyKeepsHandles(a, u, Ack);
    HasSetMore(a.closure, a.replies, Ack, counter);
    assert CountingAction(a.closure, a.replies, counter, value);
    forall slot: nat | LoadedCounter(u.trx, slot, counter) ensures CountsOnce(u, slot, counter, value) {
      assert LoadedCounter(a.trx, slot, counter);
      assert CountsOnce(a, slot, counter, value);
      if slot == target {
        var contents := HoldingTheCounter(a, slot, counter);
        assert SetsCounter(a.closure, a.replies, counter);
      } else if SetsCounter(a.closure, a.replies, counter) {
        SetsThroughItsSlot(a, slot, counter);
      }
    }
  }

  lemma DropKeepsCounting(a: Attempt, counter: Key, value: Data -> int)
    requires Tracks(a.trx) && Counting(a, counter, value) && a.waiting.None? && a.closure(a.replies).DropDoc?
    ensures Counting(Act(a), counter, value)
  {
    var u, dropped := Act(a), a.closure(a.replies).slot;
    ReplyKeepsHandles(a, u, Ack);
    HasSetMore(a.closure, a.replies, Ack, counter);
    assert CountingAction(a.closure, a.replies, counter, value);
    forall slot: nat | LoadedCounter(u.trx, slot, counter) ensures CountsOnce(u, slot, counter, value) {
      assert LoadedCounter(a.trx, slot, counter);
      assert CountsOnce(a, slot, counter, value);
      if slot == dropped {
        var contents := HoldingTheCounter(a, slot, counter);
        assert false;
      }
    }
  }

  lemma CreateKeepsKinds(t: Trx, doc: Document)
    ensures KeepsKinds(t, Create(t, doc).trx)
    ensures var r := Create(t, doc);
            r.result.Done? ==> Live(r.trx, r.result.value) && r.trx.entries[r.result.value].state.created
    ensures forall slot: nat, counter: Key :: LoadedCounter(Create(t, doc).trx, slot, counter) ==>
              LoadedCounter(t, slot, counter) && Create(t, doc).trx.entries[slot] == t.entries[slot]
  {
  }

  lemma MakeKeepsCounting(a: Attempt, counter: Key, value: Data -> int)
    requires Counting(a, counter, value) && a.waiting.None? && a.closure(a.replies).MakeDoc?
    ensures Counting(Act(a), counter, value)
  {
    var u, doc := Act(a), a.closure(a.replies).doc;
    CreateKeepsKinds(a.trx, doc);
    var reply := u.replies[|a.replies|];
    ReplyKeepsHandles(a, u, reply);
    HasSetMore(a.closure, a.replies, reply, counter);
    forall slot: nat | LoadedCounter(u.trx, slot, counter) ensures CountsOnce(u, slot, counter, value) {
      assert LoadedCounter(a.trx, slot, counter);
      assert CountsOnce(a, slot, counter, value);
    }
  }

  /** A read that is refused or whose loads fail adds a refusal and nothing else. */
  lemma RefusalKeepsCounting(a: Attempt, u: Attempt, counter: Key, value: Data -> int)
    requires Counting(a, counter, value) && a.closure(a.replies).ReadDocs?
    requires u.closure == a.closure && u.trx == a.trx && u.seen == a.seen && u.replies == a.replies + [Refusal]
    ensures Counting(u, counter, value)
  {
    ReplyKeepsHandles(a, u, Refusal);
    HasSetMore(a.closure, a.replies, Refusal, counter);
    forall slot: nat | LoadedCounter(u.trx, slot, counter) ensures CountsOnce(u, slot, counter, value) {
      assert LoadedCounter(a.trx, slot, counter);
      assert CountsOnce(a, slot, counter, value);
    }
  }

  // ---- Reads -------------------------------------------------------------------------

  lemma HandedEarlier(closure: Closure, replies: seq<Reply>, n: nat, key: Key, handle: Handle)
    requires n <= |replies| && Handed(closure, replies[..n], key, handle)
    ensures Handed(closure, replies, key, handle)
  {
    var k: nat, p: nat :| HandedAt(closure, replies[..n], k, p, key, handle);
    assert replies[..n][..k] == replies[..k];
    assert HandedAt(closure, replies, k, p, key, handle);
  }

  /** A closure that has set the counter has loaded it. */
  lemma SetMeansLoaded(a: Attempt, counter: Key) returns (slot: nat)
    requires HandlesShowLoads(a) && HasSet(a.closure, a.replies, counter)
    ensures LoadedCounter(a.trx, slot, counter)
  {
    var k :| 0 <= k < |a.replies| && SetsCounter(a.closure, a.replies[..k], counter);
    slot := a.closure(a.replies[..k]).slot;
    var contents: Data :| Handed(a.closure, a.replies[..k], counter, Handle(slot, contents));
    HandedEarlier(a.closure, a.replies, k, counter, Handle(slot, contents));
    assert ShowsLoad(a, counter, Handle(slot, contents));
  }

  lemma {:induction false} BatchAddsClean(t: Trx, gets: seq<Get>, observed: seq<Observed>)
    requires |gets| == |observed|
    ensures var r := RegisterBatch(t, gets, observed);
            forall i :: |t.entries| <= i < |r.trx.entries| ==> Clean(r.trx.entries[i])
    decreases |gets|
  {
    if gets != [] {
      var first := RegisterLoaded(t, gets[0], observed[0]);
      if first.result.Done? {
        BatchAddsClean(first.trx, gets[1..], observed[1..]);
        BatchKeepsEntries(first.trx, gets[1..], observed[1..]);
      }
    }
  }

  /** What registering a batch keeps of the attempt it belongs to. */
  ghost predicate Extends(a: Attempt, u: Attempt) {
    && u.closure == a.closure
    && a.trx.entries <= u.trx.entries
    && (forall i :: |a.trx.entries| <= i < |u.trx.entries| ==> Clean(u.trx.entries[i]))
    && (forall key :: key in a.seen ==> key in u.seen && u.seen[key] == a.seen[key])
    && Tracks(u.trx)
  }

  lemma ReadExtends(a: Attempt, gets: seq<Get>, loads: seq<Load>)
    requires Tracks(a.trx) && Linked(a.trx, a.seen)
    requires |gets| == |loads| && !Refused(a.trx, gets) && !AnyLoadError(loads)
    ensures Extends(a, FinishRead(a, gets, loads))
  {
    var observed := ObservedOf(loads);
    BatchKeepsEntries(a.trx, gets, observed);
    BatchAddsClean(a.trx, gets, observed);
    BatchSeen(a, gets, loads);
  }

  lemma ExtensionCounts(a: Attempt, u: Attempt, r: Reply, counter: Key, value: Data -> int)
    requires Counting(a, counter, value) && Extends(a, u) && u.replies == a.replies + [r]
    requires a.closure(a.replies).ReadDocs?
    ensures forall slot: nat :: LoadedCounter(u.trx, slot, counter) ==> CountsOnce(u, slot, counter, value)
  {
    HasSetMore(a.closure, a.replies, r, counter);
    forall slot: nat | LoadedCounter(u.trx, slot, counter) ensures CountsOnce(u, slot, counter, value) {
      if slot < |a.trx.entries| {
        assert LoadedCounter(a.trx, slot, counter);
        assert CountsOnce(a, slot, counter, value);
      } else if HasSet(a.closure, a.replies, counter) {
        var before := SetMeansLoaded(a, counter);
      }
    }
  }

  lemma ExtensionKeepsNew(a: Attempt, u: Attempt, r: Reply)
    requires NewHandlesCreated(a) && Extends(a, u) && u.replies == a.replies + [r] && !r.Created?
    ensures NewHandlesCreated(u)
  {
    forall slot: nat | HandedNew(u.replies, slot) ensures Live(u.trx, slot) && u.trx.entries[slot].state.created {
      var k :| 0 <= k < |u.replies| && u.replies[k] == Created(slot);
      assert a.replies[k] == Created(slot);
      assert HandedNew(a.replies, slot);
    }
  }

  lemma ExtensionShows(a: Attempt, u: Attempt, key: Key, handle: Handle)
    requires Extends(a, u) && ShowsLoad(a, key, handle)
    ensures ShowsLoad(u, key, handle)
  {
  }

  lemma ReadIsRemembered(a: Attempt, gets: seq<Get>, loads: seq<Load>, p: nat)
    requires Tracks(a.trx) && Linked(a.trx, a.seen)
    requires |gets| == |loads| && !Refused(a.trx, gets) && !AnyLoadError(loads)
    requires p < BatchOf(a.trx, gets, loads).count
    ensures var seen := FinishRead(a, gets, loads).seen; gets[p].key in seen && seen[gets[p].key] == loads[p]
  {
    BatchSeen(a, gets, loads);
  }

  /** A handle a finished read hands out shows what was loaded. */
  lemma ReadShows(a: Attempt, gets: seq<Get>, loads: seq<Load>, p: nat, handle: Handle)
    requires Tracks(a.trx) && Linked(a.trx, a.seen)
    requires |gets| == |loads| && !Refused(a.trx, gets) && !AnyLoadError(loads) && p < |gets|
    requires var result := BatchOf(a.trx, gets, loads).result;
             result.Done? && p < |result.value| && result.value[p] == Some(handle)
    ensures ShowsLoad(FinishRead(a, gets, loads), gets[p].key, handle)
  {
    var observed := ObservedOf(loads);
    assert observed[p] == loads[p].observed;
    BatchAnswers(a.trx, gets, observed, p);
    ReadIsRemembered(a, gets, loads, p);
  }

  lemma ReadShowsLoads(a: Attempt, gets: seq<Get>, loads: seq<Load>)
    requires Tracks(a.trx) && Linked(a.trx, a.seen) && HandlesShowLoads(a)
    requires |gets| == |loads| && !Refused(a.trx, gets) && !AnyLoadError(loads)
    requires a.closure(a.replies) == ReadDocs(gets)
    ensures HandlesShowLoads(FinishRead(a, gets, loads))
  {
    var u, result := FinishRead(a, gets, loads), BatchOf(a.trx, gets, loads).result;
    forall key: Key, handle: Handle | Handed(u.closure, u.replies, key, handle) ensures ShowsLoad(u, key, handle) {
      if Handed(a.closure, a.replies, key, handle) {
        assert ShowsLoad(a, key, handle);
        ReadExtends(a, gets, loads);
        ExtensionShows(a, u, key, handle);
      } else if result.Done? {
        HandedByRead(a.closure, a.replies, result.value, key, handle);
        var p: nat :| p < |result.value| && p < |gets| && result.value[p] == Some(handle) && gets[p].key == key;
        ReadShows(a, gets, loads, p, handle);
      } else {
        HandedMore(a.closure, a.replies, Refusal, key, handle);
      }
    }
  }

  lemma FinishReadKeepsCounting(a: Attempt, gets: seq<Get>, loads: seq<Load>, counter: Key, value: Data -> int)
    requires Tracks(a.trx) && Linked(a.trx, a.seen) && Counting(a, counter, value)
    requires |gets| == |loads| && !Refused(a.trx, gets) && a.closure(a.replies) == ReadDocs(gets)
    ensures Counting(FinishRead(a, gets, loads), counter, value)
  {
    var u := FinishRead(a, gets, loads);
    if AnyLoadError(loads) {
      RefusalKeepsCounting(a, u, counter, value);
    } else {
      var r := u.replies[|a.replies|];
      ReadExtends(a, gets, loads);
      ReadShowsLoads(a, gets, loads);
      ExtensionKeepsNew(a, u, r);
      ExtensionCounts(a, u, r, counter, value);
    }
  }

  lemma ActKeepsCounting(b: Backend, a: Attempt, counter: Key, value: Data -> int)
    requires AttemptInv(b, a) && Counting(a, counter, value)
    ensures Counting(Act(a), counter, value)
  {
    var action := a.closure(a.replies);
    if a.waiting.Some? {
      if AllArrived(a.waiting.value) {
        FinishReadKeepsCounting(a, action.gets, Arrived(a.waiting.value), counter, value);
      }
    } else if action.SetDoc? {
      SetKeepsCounting(a, counter, value);
    } else if action.DropDoc? {
      DropKeepsCounting(a, counter, value);
    } else if action.MakeDoc? {
      MakeKeepsCounting(a, counter, value);
    } else if action.ReadDocs? && Refused(a.trx, action.gets) {
      RefusalKeepsCounting(a, Act(a), counter, value);
    } else {
      SameHistoryCounts(a, Act(a), counter, value);
    }
  }

  lemma SameHistoryCounts(a: Attempt, u: Attempt, counter: Key, value: Data -> int)
    requires Counting(a, counter, value)
    requires u.closure == a.closure && u.trx == a.trx && u.seen == a.seen && u.replies == a.replies
    ensures Counting(u, counter, value)
  {
    forall key: Key, handle: Handle | Handed(u.closure, u.replies, key, handle) ensures ShowsLoad(u, key, handle) {
      assert ShowsLoad(a, key, handle);
    }
    forall slot: nat | LoadedCounter(u.trx, slot, counter) ensures CountsOnce(u, slot, counter, value) {
      assert CountsOnce(a, slot, counter, value);
    }
  }

  // ---- A missing document of the in-memory store has no revision ----------------------

  predicate ExpectsNothing(e: Entry) {
    e.state.NoDoc? || e.state.created ==> e.expected.None?
  }

  predicate PlainLoad(load: Load) {
    load.Loaded? && load.observed.Missing? ==> load.observed.missingRevision.None?
  }

  ghost predicate PlainMissing(a: Attempt) {
    && (forall e :: e in a.trx.entries ==> ExpectsNothing(e))
    && (a.waiting.Some? ==>
          forall i :: 0 <= i < |a.waiting.value| && a.waiting.value[i].Some? ==> PlainLoad(a.waiting.value[i].value))
  }

  lemma {:induction false} BatchExpectsNothing(t: Trx, gets: seq<Get>, observed: seq<Observed>)
    requires |gets| == |observed| && forall e :: e in t.entries ==> ExpectsNothing(e)
    requires forall i :: 0 <= i < |observed| && observed[i].Missing? ==> observed[i].missingRevision.None?
    ensures forall e :: e in RegisterBatch(t, gets, observed).trx.entries ==> ExpectsNothing(e)
    decreases |gets|
  {
    if gets != [] {
      var first := RegisterLoaded(t, gets[0], observed[0]);
      if first.result.Done? {
        BatchExpectsNothing(first.trx, gets[1..], observed[1..]);
      }
    }
  }

  lemma LocalExpectsNothing(t: Trx, action: Action)
    requires action.MakeDoc? || action.SetDoc? || action.DropDoc?
    requires forall e :: e in t.entries ==> ExpectsNothing(e)
    ensures forall e :: e in Respond(t, action, []).trx.entries ==> ExpectsNothing(e)
  {
    var u := Respond(t, action, []).trx;
    forall i | 0 <= i < |u.entries| ensures ExpectsNothing(u.entries[i]) {
      assert i < |t.entries| ==> t.entries[i] in t.entries;
    }
  }

  lemma ReadExpectsNothing(a: Attempt, gets: seq<Get>)
    requires PlainMissing(a) && a.waiting.Some? && AllArrived(a.waiting.value) && |gets| == |a.waiting.value|
    ensures PlainMissing(FinishRead(a, gets, Arrived(a.waiting.value)))
  {
    var loads := Arrived(a.waiting.value);
    if !AnyLoadError(loads) && !Refused(a.trx, gets) {
      forall i | 0 <= i < |loads| ensures PlainLoad(loads[i]) {
        assert a.waiting.value[i].Some?;
      }
      BatchExpectsNothing(a.trx, gets, ObservedOf(loads));
    }
  }

  lemma ActKeepsPlain(a: Attempt)
    requires PlainMissing(a)
    ensures PlainMissing(Act(a))
  {
    var action := a.closure(a.replies);
    if a.waiting.Some? && action.ReadDocs? && |a.waiting.value| == |action.gets| && AllArrived(a.waiting.value) {
      ReadExpectsNothing(a, action.gets);
    } else if a.waiting.None? && (action.MakeDoc? || action.SetDoc? || action.DropDoc?) {
      LocalExpectsNothing(a.trx, action);
    }
  }

  lemma ArriveKeepsPlain(a: Attempt, b: Backend, position: nat)
    requires b.Memory? && PlainMissing(a)
    ensures PlainMissing(Arrive(a, b, position))
  {
  }

  // ---- Every step keeps it ------------------------------------------------------------

  ghost predicate AllCounting(w: World, counter: Key, value: Data -> int) {
    forall id :: id in w.attempts ==> Counting(w.attempts[id], counter, value) && PlainMissing(w.attempts[id])
  }

  /** Plain operations leave the counter alone and every transaction counts. */
  ghost predicate CountingStep(s: Step, counter: Key, value: Data -> int) {
    match s
    case PutStep(key, _) => key != counter
    case DeleteStep(key) => key != counter
    case BeginStep(_, closure) => CountingClosure(closure, counter, value)
    case _ => true
  }

  ghost predicate CountingSteps(steps: seq<Step>, counter: Key, value: Data -> int) {
    forall i :: 0 <= i < |steps| ==> CountingStep(steps[i], counter, value)
  }

  lemma FreshCounts(closure: Closure, counter: Key, value: Data -> int)
    requires CountingClosure(closure, counter, value)
    ensures Counting(Fresh(closure), counter, value) && PlainMissing(Fresh(closure))
  {
    var a := Fresh(closure);
    forall key: Key, handle: Handle ensures !Handed(a.closure, a.replies, key, handle) {
    }
  }

  lemma AttemptCounts(w: World, s: Step, id: nat, counter: Key, value: Data -> int)
    requires w.db.Memory? && id in w.attempts && AttemptInv(w.db, w.attempts[id])
    requires Counting(w.attempts[id], counter, value) && PlainMissing(w.attempts[id])
    ensures id in Next(w, s).attempts
    ensures Counting(Next(w, s).attempts[id], counter, value) && PlainMissing(Next(w, s).attempts[id])
  {
    var a, u := w.attempts[id], Next(w, s).attempts[id];
    if u == a {
      return;
    }
    if s.ActStep? {
      ActKeepsCounting(w.db, a, counter, value);
      ActKeepsPlain(a);
      return;
    }
    SameHistoryCounts(a, u, counter, value);
    if s.ArriveStep? {
      ArriveKeepsPlain(a, w.db, s.position);
    }
  }

  lemma NextCounts(w: World, s: Step, counter: Key, value: Data -> int)
    requires w.db.Memory? && Inv(w) && AllCounting(w, counter, value) && CountingStep(s, counter, value)
    ensures AllCounting(Next(w, s), counter, value)
  {
    var v := Next(w, s);
    forall id | id in v.attempts ensures Counting(v.attempts[id], counter, value) && PlainMissing(v.attempts[id]) {
      if id in w.attempts {
        AttemptCounts(w, s, id, counter, value);
      } else {
        FreshCounts(v.attempts[id].closure, counter, value);
      }
    }
  }

  // ---- What a counting transaction commits ----------------------------------------------

  /** A transaction that would create the counter cannot commit while the counter exists. */
  lemma CannotCreateCounter(b: Backend, a: Attempt, e: Entry, counter: Key)
    requires b.Memory? && Tracks(a.trx) && PlainMissing(a) && counter in b.store
    requires AtFinish(a) && CommitOf(b, a).result.Committed?
    requires e in a.trx.entries && e.key == counter && e.state.Managed? && !e.state.deleted
    ensures !e.state.created
  {
    CommitDecision.CommitDecides(b, a.trx, a.closure(a.replies).out, a.closure(a.replies).escaping);
    assert CommitDecision.HasStake(e) ==> CommitDecision.Met(b, e);
  }

  lemma MutatesByIncrement(b: Backend, a: Attempt, counter: Key, value: Data -> int, e: Entry, m: Mutation)
    requires b.Memory? && Tracks(a.trx) && PlainMissing(a) && counter in b.store && Counting(a, counter, value)
    requires AtFinish(a) && CommitOf(b, a).result.Committed?
    requires e in a.trx.entries && MutationOf(e) == Ok(Some(m)) && m.key == counter
    ensures HasSet(a.closure, a.replies, counter)
    ensures m.PutDoc? && counter in a.seen && a.seen[counter].Loaded? && a.seen[counter].observed.Present?
    ensures value(m.data) == value(a.seen[counter].observed.data) + 1
  {
    var slot: nat :| slot < |a.trx.entries| && a.trx.entries[slot] == e;
    if e.state.created {
      CannotCreateCounter(b, a, e, counter);
    }
    assert LoadedCounter(a.trx, slot, counter);
    assert CountsOnce(a, slot, counter, value);
  }

  lemma CommitCounts(b: Backend, a: Attempt, counter: Key, value: Data -> int)
    requires b.Memory? && Tracks(a.trx) && PlainMissing(a) && counter in b.store && Counting(a, counter, value)
    requires AtFinish(a) && CommitOf(b, a).result.Committed? && RequestOf(a.trx.entries).Ok?
    ensures WritesByIncrement(a, counter, value)
    ensures MemoryStore.MutationOn(RequestOf(a.trx.entries).value.mutations, counter).Some?
            <==> HasSet(a.closure, a.replies, counter)
  {
    forall m | MutationOfSome(a.trx.entries, m) && m.key == counter
      ensures && m.PutDoc?
              && counter in a.seen && a.seen[counter].Loaded? && a.seen[counter].observed.Present?
              && value(m.data) == value(a.seen[counter].observed.data) + 1
              && HasSet(a.closure, a.replies, counter)
    {
      var e :| e in a.trx.entries && MutationOf(e) == Ok(Some(m));
      MutatesByIncrement(b, a, counter, value, e, m);
    }
    var found := MemoryStore.MutationOn(RequestOf(a.trx.entries).value.mutations, counter);
    RequestIsSound(a.trx);
    MemoryStore.MutationOnFinds(RequestOf(a.trx.entries).value.mutations, counter);
    MutationsAreOwn(a.trx.entries);
    if found.Some? {
      assert MutationOfSome(a.trx.entries, found.value);
    }
    if HasSet(a.closure, a.replies, counter) {
      var slot := SetMeansLoaded(a, counter);
      assert CountsOnce(a, slot, counter, value);
      EntryDecides(a.trx, slot);
    }
  }

  // ---- The main result --------------------------------------------------------------------

  /** The step commits a transaction whose closure set the counter. */
  ghost predicate CommitsSet(w: World, s: Step, counter: Key) {
    && s.CommitStep?
    && Commits(w, s.id)
    && HasSet(w.attempts[s.id].closure, w.attempts[s.id].replies, counter)
  }

  ghost function CommittedSets(w: World, steps: seq<Step>, counter: Key): nat {
    if steps == [] then 0
    else
      var init := steps[..|steps| - 1];
      CommittedSets(w, init, counter) + if CommitsSet(Run(w, init), steps[|steps| - 1], counter) then 1 else 0
  }

  lemma CountingStepIsCounterStep(w: World, s: Step, counter: Key, value: Data -> int)
    requires w.db.Memory? && Inv(w) && counter in w.db.store
    requires AllCounting(w, counter, value) && CountingStep(s, counter, value)
    ensures CounterStep(w, s, counter, value)
    ensures CommitsWriteOf(w, s, counter) <==> CommitsSet(w, s, counter)
  {
    if s.CommitStep? && Commits(w, s.id) {
      CommitEffectAt(w.db, w.attempts[s.id], counter);
      CommitCounts(w.db, w.attempts[s.id], counter, value);
    }
  }

  lemma CounterRunMore(w: World, steps: seq<Step>, counter: Key, value: Data -> int)
    requires steps != [] && CounterRun(w, steps[..|steps| - 1], counter, value)
    requires CounterStep(Run(w, steps[..|steps| - 1]), steps[|steps| - 1], counter, value)
    ensures CounterRun(w, steps, counter, value)
  {
    var init := steps[..|steps| - 1];
    forall i | 0 <= i < |steps| ensures CounterStep(Run(w, steps[..i]), steps[i], counter, value) {
      if i < |init| {
        assert init[..i] == steps[..i];
        assert CounterStep(Run(w, init[..i]), init[i], counter, value);
      }
    }
  }

  lemma {:induction false} CountingRun(w: World, steps: seq<Step>, counter: Key, value: Data -> int)
    requires Initial(w) && w.db.Memory? && counter in w.db.store && CountingSteps(steps, counter, value)
    ensures AllCounting(Run(w, steps), counter, value)
    ensures CounterRun(w, steps, counter, value)
    ensures Increments(w, steps, counter) == CommittedSets(w, steps, counter)
  {
    if steps != [] {
      var init, last := steps[..|steps| - 1], steps[|steps| - 1];
      CountingRun(w, init, counter, value);
      NoLostUpdate(w, init, counter, value);
      RunKeeps(w, init);
      NextCounts(Run(w, init), last, counter, value);
      CountingStepIsCounterStep(Run(w, init), last, counter, value);
      CounterRunMore(w, steps, counter, value);
    }
  }

  /**
   Over every interleaving of counting transactions with each other and with plain
   operations on other keys, the counter is its initial value plus the number of
   committed transactions whose closure set it.
   */
  lemma EverySetCounts(w: World, steps: seq<Step>, counter: Key, value: Data -> int)
    requires Initial(w) && w.db.Memory? && counter in w.db.store && CountingSteps(steps, counter, value)
    ensures var end := ContentAt(Run(w, steps).db, counter);
            end.Some? && value(end.value) == value(w.db.store[counter].data) + CommittedSets(w, steps, counter)
  {
    CountingRun(w, steps, counter, value);
    NoLostUpdate(w, steps, counter, value);
  }

  // ---- Such closures exist --------------------------------------------------------------------

  /** Load the counter, set it to its successor, and finish. */
  function Increment(counter: Key, next: Data -> Data): Closure {
    (replies: seq<Reply>) =>
      if replies == [] then ReadDocs([Get(counter, Always)])
      else if |replies| == 1 && replies[0].GotDocs? && |replies[0].docs| == 1 && replies[0].docs[0].Some? then
        SetDoc(replies[0].docs[0].value.slot, Some(next(replies[0].docs[0].value.contents)))
      else Finish(0, {})
  }

  lemma IncrementCounts(counter: Key, next: Data -> Data, value: Data -> int)
    requires forall d :: value(next(d)) == value(d) + 1
    ensures CountingClosure(Increment(counter, next), counter, value)
  {
    var closure := Increment(counter, next);
    forall replies: seq<Reply> ensures CountingAction(closure, replies, counter, value) {
      if closure(replies).SetDoc? {
        var handle := replies[0].docs[0].value;
        assert replies[..0] == [];
        assert HandedAt(closure, replies, 0, 0, counter, handle);
        assert Handed(closure, replies, counter, Handle(handle.slot, handle.contents));
        forall contents: Data | Handed(closure, replies, counter, Handle(handle.slot, contents))
          ensures contents == handle.contents
        {
          var k: nat, p: nat :| HandedAt(closure, replies, k, p, counter, Handle(handle.slot, contents));
        }
      }
    }
  }
}

/**
 What a transaction means for the documents it touched. A closure reads, writes,
 deletes and creates through handles, and nothing reaches the backend before the
 commit (doc-db/src/trx.rs:142-161, 441-461, 498-540, 592-611). A commit then leaves
 behind, key by key, exactly what the closure's own operations say: the bytes last
 written through the handle, no document after a delete, the created document, and
 an untouched document where the closure only read.
 */
module BufferedWrites {
  import opened DocTypes
  import MemoryStore
  import opened TrxState
  import opened Backends
  import opened Interleaving

  // ---- One entry through a sequence of operations ---------------------------

  predicate Writes(op: Op, slot: nat) {
    op.OpWrite? && op.slot == slot
  }

  predicate Deletes(op: Op, slot: nat) {
    op.OpDelete? && op.slot == slot
  }

  /** The entry at `slot` stands for a document the closure can hold a handle to. */
  predicate Live(t: Trx, slot: nat) {
    slot < |t.entries| && t.entries[slot].state.Managed?
  }

  lemma {:induction false} BatchKeepsEntries(t: Trx, gets: seq<Get>, observed: seq<Observed>)
    requires |gets| == |observed|
    ensures t.entries <= RegisterBatch(t, gets, observed).trx.entries
    decreases |gets|
  {
    if gets != [] {
      var first := RegisterLoaded(t, gets[0], observed[0]);
      if first.result.Done? {
        BatchKeepsEntries(first.trx, gets[1..], observed[1..]);
      }
    }
  }

  /** An operation on another handle leaves the entry of this one alone. */
  lemma OthersKeepEntry(t: Trx, op: Op, slot: nat)
    requires WellFormedOp(op) && Live(t, slot) && !Writes(op, slot) && !Deletes(op, slot)
    ensures Live(Perform(t, op), slot) && Perform(t, op).entries[slot] == t.entries[slot]
  {
    if op.OpGet? {
      BatchKeepsEntries(t, op.gets, op.observed);
    }
  }

  lemma WriteSetsEntry(t: Trx, op: Op, slot: nat)
    requires Live(t, slot) && Writes(op, slot)
    ensures Live(Perform(t, op), slot)
    ensures Perform(t, op).entries[slot]
            == t.entries[slot].(state := t.entries[slot].state.(bytes := op.bytes, dirty := true))
  {
  }

  lemma DeleteMarksEntry(t: Trx, op: Op, slot: nat)
    requires Live(t, slot) && Deletes(op, slot)
    ensures Live(Perform(t, op), slot)
    ensures Perform(t, op).entries[slot] == t.entries[slot].(state := t.entries[slot].state.(deleted := true))
  {
  }

  /** Operation `w`, not before `from`, is the last write through the handle. */
  ghost predicate LastWriteAt(ops: seq<Op>, from: nat, slot: nat, w: nat) {
    from <= w < |ops| && Writes(ops[w], slot) && forall j :: w < j < |ops| ==> !Writes(ops[j], slot)
  }

  ghost predicate Written(ops: seq<Op>, from: nat, slot: nat) {
    exists j :: from <= j < |ops| && Writes(ops[j], slot)
  }

  ghost predicate Deleted(ops: seq<Op>, from: nat, slot: nat) {
    exists j :: from <= j < |ops| && Deletes(ops[j], slot)
  }

  /** What the operations from `from` on have made of an entry that was `e` before them. */
  ghost predicate EntryTells(ops: seq<Op>, from: nat, slot: nat, e: Entry, now: Entry)
    requires e.state.Managed?
  {
    && now.(state := e.state) == e
    && now.state.Managed?
    && now.state.created == e.state.created
    && now.state.deleted == (e.state.deleted || Deleted(ops, from, slot))
    && now.state.dirty == (e.state.dirty || Written(ops, from, slot))
    && (!Written(ops, from, slot) ==> now.state.bytes == e.state.bytes)
    && (forall w: nat :: LastWriteAt(ops, from, slot, w) ==> now.state.bytes == ops[w].bytes)
  }

  lemma HistoryGrows(ops: seq<Op>, from: nat, slot: nat)
    requires from < |ops|
    ensures var init, last := ops[..|ops| - 1], ops[|ops| - 1];
            && (Written(ops, from, slot) <==> Written(init, from, slot) || Writes(last, slot))
            && (Deleted(ops, from, slot) <==> Deleted(init, from, slot) || Deletes(last, slot))
            && (!Writes(last, slot) ==>
                  forall w: nat :: LastWriteAt(ops, from, slot, w) <==> LastWriteAt(init, from, slot, w))
            && (Writes(last, slot) ==> forall w: nat :: LastWriteAt(ops, from, slot, w) ==> w == |ops| - 1)
  {
    var n := |ops| - 1;
    var init := ops[..n];
    assert forall j :: 0 <= j < n ==> init[j] == ops[j];
    assert Writes(ops[n], slot) ==> Written(ops, from, slot);
    assert Deletes(ops[n], slot) ==> Deleted(ops, from, slot);
    if Written(init, from, slot) {
      var j :| from <= j < n && Writes(init[j], slot);
      assert Writes(ops[j], slot);
    }
    if Deleted(init, from, slot) {
      var j :| from <= j < n && Deletes(init[j], slot);
      assert Deletes(ops[j], slot);
    }
    if Written(ops, from, slot) && !Writes(ops[n], slot) {
      var j :| from <= j < |ops| && Writes(ops[j], slot);
      assert Writes(init[j], slot);
    }
    if Deleted(ops, from, slot) && !Deletes(ops[n], slot) {
      var j :| from <= j < |ops| && Deletes(ops[j], slot);
      assert Deletes(init[j], slot);
    }
  }

  /** One more operation, told by the entry it leaves behind. */
  lemma TellsOneMore(ops: seq<Op>, from: nat, slot: nat, e: Entry, before: Entry, now: Entry)
    requires from < |ops| && e.state.Managed? && EntryTells(ops[..|ops| - 1], from, slot, e, before)
    requires var last := ops[|ops| - 1];
             && (Writes(last, slot) ==> now == before.(state := before.state.(bytes := last.bytes, dirty := true)))
             && (Deletes(last, slot) ==> now == before.(state := before.state.(deleted := true)))
             && (!Writes(last, slot) && !Deletes(last, slot) ==> now == before)
    ensures EntryTells(ops, from, slot, e, now)
  {
    var init := ops[..|ops| - 1];
    HistoryGrows(ops, from, slot);
    forall w: nat | LastWriteAt(ops, from, slot, w) ensures now.state.bytes == ops[w].bytes {
      if !Writes(ops[|ops| - 1], slot) {
        assert LastWriteAt(init, from, slot, w) && init[w] == ops[w];
      }
    }
  }

  /** The entry of a handle remembers exactly the uses of that handle. */
  lemma {:induction false} EntryHistory(ops: seq<Op>, from: nat, slot: nat)
    requires from <= |ops| && WellFormedOps(ops) && Live(After(ops[..from]), slot)
    ensures Live(After(ops), slot)
    ensures EntryTells(ops, from, slot, After(ops[..from]).entries[slot], After(ops).entries[slot])
    decreases |ops|
  {
    if from == |ops| {
      assert ops[..from] == ops;
    } else {
      var init, last := ops[..|ops| - 1], ops[|ops| - 1];
      assert init[..from] == ops[..from];
      EntryHistory(init, from, slot);
      var t := After(init);
      if Writes(last, slot) {
        WriteSetsEntry(t, last, slot);
      } else if Deletes(last, slot) {
        DeleteMarksEntry(t, last, slot);
      } else {
        OthersKeepEntry(t, last, slot);
      }
      TellsOneMore(ops, from, slot, After(ops[..from]).entries[slot], t.entries[slot], Perform(t, last).entries[slot]);
    }
  }

  // ---- What the closure is told ----------------------------------------------

  lemma {:induction false} BatchAnswers(t: Trx, gets: seq<Get>, observed: seq<Observed>, p: nat)
    requires |gets| == |observed| && RegisterBatch(t, gets, observed).result.Done?
    ensures var r := RegisterBatch(t, gets, observed);
            r.count == |gets| == |r.result.value| && |r.trx.entries| == |t.entries| + |gets|
    ensures p < |gets| ==>
              var r := RegisterBatch(t, gets, observed);
              var e := r.trx.entries[|t.entries| + p];
              && e.key == gets[p].key
              && (observed[p].Present? ==>
                    && r.result.value[p] == Some(Handle(|t.entries| + p, observed[p].data))
                    && e.state == Managed(gets[p].key, Some(observed[p].data), false, false, false))
              && (observed[p].Missing? ==> r.result.value[p] == None && e.state == NoDoc)
    decreases |gets|
  {
    if gets != [] {
      var first := RegisterLoaded(t, gets[0], observed[0]);
      BatchKeepsEntries(first.trx, gets[1..], observed[1..]);
      BatchAnswers(first.trx, gets[1..], observed[1..], if p == 0 then 0 else p - 1);
    }
  }

  ghost predicate DistinctKeys(gets: seq<Get>) {
    forall i, j :: 0 <= i < j < |gets| ==> gets[i].key != gets[j].key
  }

  ghost predicate Deserializes(gets: seq<Get>, observed: seq<Observed>)
    requires |gets| == |observed|
  {
    forall i :: 0 <= i < |gets| && observed[i].Present? ==> gets[i].accepts(observed[i].data)
  }

  ghost predicate NoneTracked(t: Trx, gets: seq<Get>) {
    forall i :: 0 <= i < |gets| ==> gets[i].key !in t.index
  }

  lemma FirstLoadTracks(t: Trx, gets: seq<Get>, observed: seq<Observed>)
    requires gets != [] && |gets| == |observed| && gets[0].key !in t.index
    ensures NoneTracked(RegisterLoaded(t, gets[0], observed[0]).trx, gets[1..])
            <==> NoneTracked(t, gets[1..]) && forall i :: 0 < i < |gets| ==> gets[i].key != gets[0].key
  {
    var u := RegisterLoaded(t, gets[0], observed[0]).trx;
    assert u.index.Keys == t.index.Keys + {gets[0].key};
    assert forall i :: 0 < i < |gets| ==> gets[1..][i - 1] == gets[i];
  }

  lemma DistinctSplits(gets: seq<Get>)
    requires gets != []
    ensures DistinctKeys(gets) <==>
            DistinctKeys(gets[1..]) && forall i :: 0 < i < |gets| ==> gets[i].key != gets[0].key
  {
    if DistinctKeys(gets[1..]) && (forall i :: 0 < i < |gets| ==> gets[i].key != gets[0].key) {
      forall i, j | 0 <= i < j < |gets| ensures gets[i].key != gets[j].key {
        if i > 0 {
          assert gets[1..][i - 1].key != gets[1..][j - 1].key;
        }
      }
    }
  }

  lemma DeserializesSplits(gets: seq<Get>, observed: seq<Observed>)
    requires gets != [] && |gets| == |observed|
    ensures Deserializes(gets, observed) <==>
            Deserializes(gets[1..], observed[1..]) && (observed[0].Present? ==> gets[0].accepts(observed[0].data))
  {
    if Deserializes(gets[1..], observed[1..]) {
      forall i | 0 < i < |gets| && observed[i].Present? ensures gets[i].accepts(observed[i].data) {
        assert gets[1..][i - 1] == gets[i] && observed[1..][i - 1] == observed[i];
      }
    }
  }

  lemma {:induction false} BatchSucceedsIff(t: Trx, gets: seq<Get>, observed: seq<Observed>)
    requires |gets| == |observed|
    ensures RegisterBatch(t, gets, observed).result.Done? <==>
            NoneTracked(t, gets) && DistinctKeys(gets) && Deserializes(gets, observed)
    decreases |gets|
  {
    if gets == [] || gets[0].key in t.index {
      return;
    }
    var first := RegisterLoaded(t, gets[0], observed[0]);
    FirstLoadTracks(t, gets, observed);
    DistinctSplits(gets);
    DeserializesSplits(gets, observed);
    assert NoneTracked(t, gets) <==> NoneTracked(t, gets[1..]) by {
      assert forall i :: 0 < i < |gets| ==> gets[1..][i - 1] == gets[i];
    }
    if first.result.Done? {
      BatchSucceedsIff(first.trx, gets[1..], observed[1..]);
    }
  }

  /**
   A read is answered exactly when it asks for no key twice, within the batch or with
   an earlier operation, every load succeeds and everything found deserializes. The
   answer is what was found, key by key; a read that asks for a tracked key changes
   nothing.
   */
  lemma ReadSucceedsIff(t: Trx, gets: seq<Get>, loads: seq<Load>)
    requires |gets| == |loads|
    ensures var answer := Respond(t, ReadDocs(gets), loads);
            && (answer.reply.GotDocs? <==>
                  && NoneTracked(t, gets) && DistinctKeys(gets) && !AnyLoadError(loads)
                  && Deserializes(gets, ObservedOf(loads)))
            && (answer.reply.GotDocs? || answer.reply == Refusal)
            && (!NoneTracked(t, gets) ==> answer.trx == t)
    ensures var reply := Respond(t, ReadDocs(gets), loads).reply;
            reply.GotDocs? ==>
              && |reply.docs| == |gets|
              && forall p :: 0 <= p < |gets| ==>
                   && (reply.docs[p].Some? <==> loads[p].observed.Present?)
                   && (reply.docs[p].Some? ==> reply.docs[p].value.contents == loads[p].observed.data)
  {
    if AnyLoadError(loads) {
      return;
    }
    var observed := ObservedOf(loads);
    BatchSucceedsIff(t, gets, observed);
    if RegisterBatch(t, gets, observed).result.Done? {
      BatchAnswers(t, gets, observed, 0);
      forall p: nat | p < |gets|
        ensures var docs := RegisterBatch(t, gets, observed).result.value;
                && (docs[p].Some? <==> loads[p].observed.Present?)
                && (docs[p].Some? ==> docs[p].value.contents == loads[p].observed.data)
      {
        BatchAnswers(t, gets, observed, p);
        assert observed[p] == loads[p].observed;
      }
    }
  }

  /** A create succeeds exactly when the transaction has no document of that key yet. */
  lemma CreateSucceedsIff(t: Trx, doc: Document)
    requires Inverse(t)
    ensures Respond(t, MakeDoc(doc), []).reply.Created? <==>
            forall e :: e in t.entries && e.key == doc.key ==> e.state.NoDoc?
    ensures !Respond(t, MakeDoc(doc), []).reply.Created? ==> Respond(t, MakeDoc(doc), []) == Answer(t, Refusal)
  {
    if doc.key in t.index {
      assert Settled(t, doc.key);
    }
  }

  /** Operation `i` is a read that answered the closure with a handle on `key`. */
  ghost predicate GotHandle(ops: seq<Op>, i: nat, p: nat, key: Key, handle: Handle)
    requires WellFormedOps(ops)
  {
    && i < |ops| && ops[i].OpGet? && p < |ops[i].gets| && ops[i].gets[p].key == key
    && !Refused(After(ops[..i]), ops[i].gets)
    && var result := RegisterBatch(After(ops[..i]), ops[i].gets, ops[i].observed).result;
       result.Done? && p < |result.value| && result.value[p] == Some(handle)
  }

  /** Operation `i` created `doc` and answered the closure with a handle on it. */
  ghost predicate GotCreated(ops: seq<Op>, i: nat, doc: Document, slot: nat)
    requires WellFormedOps(ops)
  {
    i < |ops| && ops[i] == OpCreate(doc) && Create(After(ops[..i]), doc).result == Done(slot)
  }

  /** A handle shows the bytes that were loaded, and stands for the key it was asked for. */
  lemma HandleIsTheLoad(ops: seq<Op>, i: nat, p: nat, key: Key, handle: Handle)
    requires WellFormedOps(ops) && GotHandle(ops, i, p, key, handle)
    ensures ops[i].observed[p].Present? && ops[i].observed[p].data == handle.contents
    ensures Live(After(ops[..i + 1]), handle.slot)
    ensures var e := After(ops[..i + 1]).entries[handle.slot];
            e.key == key && e.state == Managed(key, Some(handle.contents), false, false, false)
  {
    BatchAnswers(After(ops[..i]), ops[i].gets, ops[i].observed, p);
    assert ops[..i + 1][..i] == ops[..i];
  }

  lemma CreatedEntry(ops: seq<Op>, i: nat, doc: Document, slot: nat)
    requires WellFormedOps(ops) && GotCreated(ops, i, doc, slot)
    ensures Live(After(ops[..i + 1]), slot)
    ensures After(ops[..i + 1]).entries[slot].state == Managed(doc.key, doc.bytes, false, false, true)
    ensures !SomeLoadFails(ops) ==> After(ops[..i + 1]).entries[slot].key == doc.key
  {
    assert ops[..i + 1][..i] == ops[..i];
    Bookkeeping(ops[..i]);
    CreateLandsAtHomeIff(After(ops[..i]), doc);
    if !SomeLoadFails(ops) {
      PrefixLoadsFine(ops, i);
    }
  }

  lemma PrefixLoadsFine(ops: seq<Op>, n: nat)
    requires WellFormedOps(ops) && n <= |ops| && !SomeLoadFails(ops)
    ensures !SomeLoadFails(ops[..n])
  {
    forall i | 0 <= i < n ensures !LoadFailsAt(ops[..n], i) {
      assert ops[..n][..i] == ops[..i];
      assert !LoadFailsAt(ops, i);
    }
  }

  // ---- From the entry to the committed document ------------------------------

  /** The document a key holds, whatever its version or revision. */
  function ContentAt(b: Backend, key: Key): Option<Data> {
    match b
    case Memory(store, _) => if key in store then Some(store[key].data) else None
    case Revisioned(_, _) => StateOf(b, key).content
  }

  /** Plain operations outside any transaction, and what a load makes of the document. */
  lemma PlainContent(b: Backend, key: Key, data: Data, other: Key)
    ensures ContentAt(PlainPut(b, key, data), key) == Some(data)
    ensures ContentAt(PlainDelete(b, key), key) == None
    ensures other != key ==>
              && ContentAt(PlainPut(b, key, data), other) == ContentAt(b, other)
              && ContentAt(PlainDelete(b, key), other) == ContentAt(b, other)
    ensures ObserveAt(b, key).LoadError? ==> b.Memory? && key in b.store && b.store[key].version < 0
    ensures ObserveAt(b, key).Loaded? ==>
              match ObserveAt(b, key).observed
              case Present(found, _) => ContentAt(b, key) == Some(found)
              case Missing(_) => ContentAt(b, key) == None
  {
  }

  function ContentAfter(before: Option<Data>, mutation: Option<Mutation>): Option<Data> {
    match mutation
    case None => before
    case Some(DeleteDoc(_)) => None
    case Some(PutDoc(_, data)) => Some(data)
  }

  lemma {:induction false} RevisionedContent(b: Backend, mutations: seq<Mutation>, key: Key)
    requires b.Revisioned? && DistinctMutationKeys(mutations)
    ensures ContentAt(MutateRevisioned(b, mutations), key)
            == ContentAfter(ContentAt(b, key), MemoryStore.MutationOn(mutations, key))
    decreases mutations
  {
    if mutations != [] {
      var m := mutations[0];
      var next := if m.PutDoc? then PlainPut(b, m.key, m.data) else PlainDelete(b, m.key);
      MemoryStore.DistinctTail(mutations);
      RevisionedContent(next, mutations[1..], key);
      if m.key == key {
        MemoryStore.MutationOnFinds(mutations[1..], key);
      }
    }
  }

  lemma TransactContent(b: Backend, request: Request, key: Key)
    requires ValidRequest(request) && Transact(b, request).outcome == Ok(Outcome(None))
    ensures ContentAt(Transact(b, request).backend, key)
            == ContentAfter(ContentAt(b, key), MemoryStore.MutationOn(request.mutations, key))
  {
    if b.Memory? {
      MemoryStore.TransactEffect(b.store, request);
      var after := Transact(b, request).backend.store;
      assert MemoryStore.Lookup(after, key)
          == MemoryStore.Effect(MemoryStore.Lookup(b.store, key), MemoryStore.MutationOn(request.mutations, key));
    } else {
      RevisionedContent(b, request.mutations, key);
    }
  }

  lemma CommitContent(b: Backend, t: Trx, out: int, escaping: set<nat>, key: Key)
    requires Tracks(t) && CommitTrx(b, t, out, escaping).result.Committed?
    ensures RequestOf(t.entries).Ok?
    ensures ContentAt(CommitTrx(b, t, out, escaping).backend, key)
            == ContentAfter(ContentAt(b, key),
                            MemoryStore.MutationOn(RequestOf(t.entries).value.mutations, key))
  {
    RequestIsSound(t);
    var request := RequestOf(t.entries).value;
    if request.conditions != [] || request.mutations != [] {
      TransactContent(b, request, key);
    }
  }

  lemma {:induction false} EntryMutationIsOk(entries: seq<Entry>, slot: nat)
    requires slot < |entries| && MutationsOf(entries).Ok?
    ensures MutationOf(entries[slot]).Ok?
    decreases |entries|
  {
    if slot < |entries| - 1 {
      EntryMutationIsOk(entries[..|entries| - 1], slot);
    }
  }

  /** The mutation of an entry is the only one on its key. */
  lemma EntryDecides(t: Trx, slot: nat)
    requires Tracks(t) && RequestOf(t.entries).Ok? && slot < |t.entries|
    ensures MutationOf(t.entries[slot])
            == Ok(MemoryStore.MutationOn(RequestOf(t.entries).value.mutations, t.entries[slot].key))
  {
    var e, mutations := t.entries[slot], RequestOf(t.entries).value.mutations;
    RequestIsSound(t);
    EntryMutationIsOk(t.entries, slot);
    MemoryStore.MutationOnFinds(mutations, e.key);
    MutationsAreOwn(t.entries);
    TrackedKeysDistinct(t);
    var own := MutationOf(e).value;
    if own.Some? {
      assert MutationOfSome(t.entries, own.value);
    }
  }

  lemma NoEntryNoMutation(t: Trx, key: Key)
    requires Tracks(t) && RequestOf(t.entries).Ok? && forall e :: e in t.entries ==> e.key != key
    ensures MemoryStore.MutationOn(RequestOf(t.entries).value.mutations, key) == None
  {
    var mutations := RequestOf(t.entries).value.mutations;
    RequestIsSound(t);
    MemoryStore.MutationOnFinds(mutations, key);
    MutationsAreOwn(t.entries);
    forall m | m in mutations ensures m.key != key {
      assert MutationOfSome(t.entries, m);
    }
  }

  // ---- The main results --------------------------------------------------------

  /** The bytes `bytes` were stored by a successful commit. */
  predicate Stores(after: Option<Data>, bytes: Option<Data>) {
    bytes.Some? && after == bytes
  }

  /**
   What a commit makes of a document the closure loaded. If the handle was deleted
   the document is gone, if it was only read the document is what it was, and
   otherwise it is exactly what was last written.
   */
  lemma LoadedDocument(b: Backend, ops: seq<Op>, out: int, escaping: set<nat>,
                       i: nat, p: nat, key: Key, handle: Handle)
    requires WellFormedOps(ops) && GotHandle(ops, i, p, key, handle)
    requires CommitTrx(b, After(ops), out, escaping).result.Committed?
    ensures var before, after := ContentAt(b, key), ContentAt(CommitTrx(b, After(ops), out, escaping).backend, key);
            && (Deleted(ops, i + 1, handle.slot) ==> after == None)
            && (!Deleted(ops, i + 1, handle.slot) && !Written(ops, i + 1, handle.slot) ==> after == before)
            && (!Deleted(ops, i + 1, handle.slot) ==>
                  forall w: nat :: LastWriteAt(ops, i + 1, handle.slot, w) ==> Stores(after, ops[w].bytes))
  {
    Bookkeeping(ops);
    HandleIsTheLoad(ops, i, p, key, handle);
    EntryHistory(ops, i + 1, handle.slot);
    CommitContent(b, After(ops), out, escaping, key);
    EntryDecides(After(ops), handle.slot);
  }

  /**
   What a commit makes of a document the closure created. If its handle was deleted
   the key is left alone, and otherwise it holds what was last written to the
   document or, if nothing was, the document as it was created.
   */
  lemma CreatedDocument(b: Backend, ops: seq<Op>, out: int, escaping: set<nat>,
                        i: nat, doc: Document, slot: nat)
    requires WellFormedOps(ops) && GotCreated(ops, i, doc, slot) && !SomeLoadFails(ops)
    requires CommitTrx(b, After(ops), out, escaping).result.Committed?
    ensures var before := ContentAt(b, doc.key);
            var after := ContentAt(CommitTrx(b, After(ops), out, escaping).backend, doc.key);
            && (Deleted(ops, i + 1, slot) ==> after == before)
            && (!Deleted(ops, i + 1, slot) && !Written(ops, i + 1, slot) ==> Stores(after, doc.bytes))
            && (!Deleted(ops, i + 1, slot) ==>
                  forall w: nat :: LastWriteAt(ops, i + 1, slot, w) ==> Stores(after, ops[w].bytes))
  {
    Bookkeeping(ops);
    CreatedEntry(ops, i, doc, slot);
    EntryHistory(ops, i + 1, slot);
    CommitContent(b, After(ops), out, escaping, doc.key);
    EntryDecides(After(ops), slot);
  }

  /** The operation creates a document of `key`, or uses a handle on one. */
  predicate Touches(t: Trx, op: Op, key: Key) {
    match op
    case OpGet(_, _) => false
    case OpCreate(doc) => doc.key == key
    case OpWrite(slot, _) => slot < |t.entries| && t.entries[slot].key == key
    case OpDelete(slot) => slot < |t.entries| && t.entries[slot].key == key
  }

  ghost predicate TouchedAt(ops: seq<Op>, i: nat, key: Key)
    requires WellFormedOps(ops) && i < |ops|
  {
    Touches(After(ops[..i]), ops[i], key)
  }

  ghost predicate Touched(ops: seq<Op>, key: Key)
    requires WellFormedOps(ops)
  {
    exists i :: 0 <= i < |ops| && TouchedAt(ops, i, key)
  }

  predicate Clean(e: Entry) {
    e.state.Managed? ==> !e.state.dirty && !e.state.deleted && !e.state.created
  }

  ghost predicate CleanAt(t: Trx, key: Key) {
    forall e :: e in t.entries && e.key == key ==> Clean(e)
  }

  lemma {:induction false} BatchKeepsClean(t: Trx, gets: seq<Get>, observed: seq<Observed>, key: Key)
    requires |gets| == |observed| && CleanAt(t, key)
    ensures CleanAt(RegisterBatch(t, gets, observed).trx, key)
    decreases |gets|
  {
    if gets != [] {
      var first := RegisterLoaded(t, gets[0], observed[0]);
      if first.result.Done? {
        BatchKeepsClean(first.trx, gets[1..], observed[1..], key);
      }
    }
  }

  lemma StepKeepsClean(t: Trx, op: Op, key: Key)
    requires Inverse(t) && WellFormedOp(op) && CleanAt(t, key) && !Touches(t, op, key)
    ensures CleanAt(Perform(t, op), key)
  {
    if op.OpGet? {
      BatchKeepsClean(t, op.gets, op.observed, key);
    } else if op.OpCreate? && op.doc.key in t.index {
      assert Settled(t, op.doc.key);
    }
  }

  lemma {:induction false} UntouchedIsClean(ops: seq<Op>, key: Key)
    requires WellFormedOps(ops) && !SomeLoadFails(ops) && !Touched(ops, key)
    ensures CleanAt(After(ops), key)
  {
    if ops != [] {
      var n := |ops| - 1;
      PrefixLoadsFine(ops, n);
      forall i | 0 <= i < n ensures !TouchedAt(ops[..n], i, key) {
        assert ops[..n][..i] == ops[..i];
        assert !TouchedAt(ops, i, key);
      }
      UntouchedIsClean(ops[..n], key);
      Bookkeeping(ops[..n]);
      assert !TouchedAt(ops, n, key);
      StepKeepsClean(After(ops[..n]), ops[n], key);
    }
  }

  /** A commit changes no document the closure neither created nor used a handle on, read or not. */
  lemma UntouchedDocument(b: Backend, ops: seq<Op>, out: int, escaping: set<nat>, key: Key)
    requires WellFormedOps(ops) && !SomeLoadFails(ops) && !Touched(ops, key)
    requires CommitTrx(b, After(ops), out, escaping).result.Committed?
    ensures ContentAt(CommitTrx(b, After(ops), out, escaping).backend, key) == ContentAt(b, key)
  {
    var t := After(ops);
    Bookkeeping(ops);
    UntouchedIsClean(ops, key);
    CommitContent(b, t, out, escaping, key);
    if exists e :: e in t.entries && e.key == key {
      var slot :| 0 <= slot < |t.entries| && t.entries[slot].key == key;
      EntryDecides(t, slot);
    } else {
      NoEntryNoMutation(t, key);
    }
  }

  // ---- The operations of a closure run against one backend state ----------------

  /** The operation a local action amounts to; a read with a failed load registers nothing. */
  function OpsOf(action: Action, loads: seq<Load>): seq<Op>
    requires IsLocal(action)
  {
    match action
    case ReadDocs(gets) => if AnyLoadError(loads) then [] else [OpGet(gets, ObservedOf(loads))]
    case MakeDoc(doc) => [OpCreate(doc)]
    case SetDoc(slot, bytes) => [OpWrite(slot, bytes)]
    case DropDoc(slot) => [OpDelete(slot)]
  }

  function SoloOps(closure: Closure, b: Backend, n: nat): seq<Op> {
    if n == 0 then []
    else
      var action := closure(Solo(closure, b, n - 1).replies);
      SoloOps(closure, b, n - 1)
      + if IsLocal(action) then OpsOf(action, if action.ReadDocs? then ObserveAll(b, action.gets) else []) else []
  }

  lemma RespondPerforms(t: Trx, action: Action, loads: seq<Load>)
    requires IsLocal(action) && (action.ReadDocs? ==> |loads| == |action.gets|)
    ensures forall op :: op in OpsOf(action, loads) ==> WellFormedOp(op)
    ensures |OpsOf(action, loads)| <= 1
    ensures Respond(t, action, loads).trx
            == if OpsOf(action, loads) == [] then t else Perform(t, OpsOf(action, loads)[0])
  {
  }

  lemma AfterMore(ops: seq<Op>, more: seq<Op>)
    requires WellFormedOps(ops) && |more| <= 1 && forall op :: op in more ==> WellFormedOp(op)
    ensures WellFormedOps(ops + more)
    ensures After(ops + more) == if more == [] then After(ops) else Perform(After(ops), more[0])
  {
    if more == [] {
      assert ops + more == ops;
    } else {
      assert (ops + more)[..|ops|] == ops;
    }
  }

  /** The bookkeeping of a closure is that of its own sequence of operations. */
  lemma {:induction false} SoloIsAfter(closure: Closure, b: Backend, n: nat)
    ensures WellFormedOps(SoloOps(closure, b, n))
    ensures Solo(closure, b, n).trx == After(SoloOps(closure, b, n))
  {
    if n > 0 {
      SoloIsAfter(closure, b, n - 1);
      var s, ops := Solo(closure, b, n - 1), SoloOps(closure, b, n - 1);
      var action := closure(s.replies);
      if IsLocal(action) {
        var loads := if action.ReadDocs? then ObserveAll(b, action.gets) else [];
        RespondPerforms(s.trx, action, loads);
        AfterMore(ops, OpsOf(action, loads));
      } else {
        AfterMore(ops, []);
      }
    }
  }
}

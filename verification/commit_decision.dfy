/**
 When a commit succeeds and what a failed one reports, read off the tracked entries
 themselves (doc-db/src/trx.rs:463-479, 498-520, 592-653). An entry has a stake in the
 commit if its key was loaded or it is a created document that is still wanted; it is
 met if the backend still holds what the entry expects.
 */
module CommitDecision {
  import opened DocTypes
  import MemoryStore
  import opened TrxState
  import opened Backends
  import opened Interleaving
  import BufferedWrites

  predicate HasStake(e: Entry) {
    e.observed || (e.state.Managed? && e.state.created && !e.state.deleted)
  }

  /** The backend holds what the entry expects: the loaded revision, or no document. */
  predicate Met(b: Backend, e: Entry) {
    match b
    case Memory(store, _) =>
      (match e.expected
       case Some(revision) => e.key in store && store[e.key].version == revision
       case None => e.key !in store)
    case Revisioned(_, _) =>
      (match e.expected
       case Some(revision) => StateOf(b, e.key).revision == revision
       case None => StateOf(b, e.key).content.None?)
  }

  /** The stored version is negative, so comparing it with a revision is an error. */
  predicate Unreadable(b: Backend, e: Entry) {
    b.Memory? && e.expected.Some? && e.key in b.store && b.store[e.key].version < 0
  }

  /** The entry has bytes to store, and they do not serialize. */
  predicate Unserializable(e: Entry) {
    e.state.Managed? && !e.state.deleted && (e.state.created || e.state.dirty) && e.state.bytes.None?
  }

  /** The entry stores a document whose version is already the largest there is. */
  predicate PastMax(b: Backend, e: Entry) {
    && b.Memory? && e.key in b.store && b.store[e.key].version >= I64_MAX
    && e.state.Managed? && !e.state.deleted && (e.state.created || e.state.dirty)
  }

  ghost predicate SomeEscapes(t: Trx, escaping: set<nat>) {
    exists slot :: slot in escaping && BufferedWrites.Live(t, slot)
  }

  ghost predicate Serializes(t: Trx) {
    forall e :: e in t.entries ==> !Unserializable(e)
  }

  ghost predicate AllMet(b: Backend, t: Trx) {
    forall e :: e in t.entries && HasStake(e) ==> Met(b, e)
  }

  /** The first entry, in slot order, that has a stake and is not met. */
  ghost predicate FirstMissed(b: Backend, t: Trx, slot: nat) {
    && slot < |t.entries|
    && HasStake(t.entries[slot]) && !Met(b, t.entries[slot])
    && forall s :: 0 <= s < slot && HasStake(t.entries[s]) ==> Met(b, t.entries[s])
  }

  // ---- The request says the same about the entries ---------------------------

  lemma ConditionMeansMet(b: Backend, e: Entry)
    ensures ConditionOf(e).Some? <==> HasStake(e)
    ensures HasStake(e) ==> (Holds(b, ConditionOf(e).value) <==> Met(b, e)) && ConditionOf(e).value.key == e.key
    ensures HasStake(e) && b.Memory? ==>
              (MemoryStore.ConditionHolds(b.store, ConditionOf(e).value).Err? <==> Unreadable(b, e))
  {
  }

  /** The first condition not to hold comes from the first entry not to be met. */
  lemma {:induction false} FirstOfConditions(b: Backend, entries: seq<Entry>, k: nat) returns (slot: nat)
    requires k < |ConditionsOf(entries)| && !Holds(b, ConditionsOf(entries)[k])
    requires forall j :: 0 <= j < k ==> Holds(b, ConditionsOf(entries)[j])
    ensures slot < |entries| && ConditionOf(entries[slot]) == Some(ConditionsOf(entries)[k])
    ensures forall s :: 0 <= s < slot && ConditionOf(entries[s]).Some? ==> Holds(b, ConditionOf(entries[s]).value)
    decreases |entries|
  {
    var n := |entries| - 1;
    var rest := ConditionsOf(entries[..n]);
    assert forall j :: 0 <= j < |rest| ==> rest[j] == ConditionsOf(entries)[j];
    if k < |rest| {
      slot := FirstOfConditions(b, entries[..n], k);
      assert forall s :: 0 <= s < n ==> entries[..n][s] == entries[s];
    } else {
      slot := n;
      ConditionsAreOwn(entries[..n]);
      assert forall c :: c in rest ==> Holds(b, c);
      forall s | 0 <= s < n && ConditionOf(entries[s]).Some? ensures Holds(b, ConditionOf(entries[s]).value) {
        assert entries[..n][s] == entries[s];
        assert ConditionOfSome(entries[..n], ConditionOf(entries[s]).value);
        assert ConditionOf(entries[s]).value in rest;
      }
    }
  }

  lemma FirstMissedOf(b: Backend, t: Trx, k: nat) returns (slot: nat)
    requires k < |ConditionsOf(t.entries)| && !Holds(b, ConditionsOf(t.entries)[k])
    requires forall j :: 0 <= j < k ==> Holds(b, ConditionsOf(t.entries)[j])
    ensures FirstMissed(b, t, slot) && ConditionOf(t.entries[slot]) == Some(ConditionsOf(t.entries)[k])
  {
    slot := FirstOfConditions(b, t.entries, k);
    ConditionMeansMet(b, t.entries[slot]);
    forall s | 0 <= s < slot && HasStake(t.entries[s]) ensures Met(b, t.entries[s]) {
      ConditionMeansMet(b, t.entries[s]);
    }
  }

  lemma AllHoldMeansAllMet(b: Backend, t: Trx)
    ensures (forall c :: c in ConditionsOf(t.entries) ==> Holds(b, c)) <==> AllMet(b, t)
  {
    ConditionsAreOwn(t.entries);
    if forall c :: c in ConditionsOf(t.entries) ==> Holds(b, c) {
      forall e | e in t.entries && HasStake(e) ensures Met(b, e) {
        ConditionMeansMet(b, e);
        assert ConditionOfSome(t.entries, ConditionOf(e).value);
      }
    }
    if AllMet(b, t) {
      forall c | c in ConditionsOf(t.entries) ensures Holds(b, c) {
        assert ConditionOfSome(t.entries, c);
        var e :| e in t.entries && ConditionOf(e) == Some(c);
        ConditionMeansMet(b, e);
      }
    }
  }

  lemma {:induction false} SerializesIffRequest(entries: seq<Entry>)
    ensures MutationsOf(entries).Ok? <==> forall e :: e in entries ==> !Unserializable(e)
  {
    if entries != [] {
      var init, last := entries[..|entries| - 1], entries[|entries| - 1];
      SerializesIffRequest(init);
      assert entries == init + [last];
      assert MutationOf(last).Err? <==> Unserializable(last);
    }
  }

  lemma PastMaxMeansOverflow(b: Backend, t: Trx)
    requires b.Memory? && Tracks(t) && RequestOf(t.entries).Ok?
    ensures MemoryStore.Overflows(b.store, RequestOf(t.entries).value.mutations)
            <==> exists e :: e in t.entries && PastMax(b, e)
  {
    MutationsAreOwn(t.entries);
    SerializesIffRequest(t.entries);
    var mutations := RequestOf(t.entries).value.mutations;
    if MemoryStore.Overflows(b.store, mutations) {
      var m :| m in mutations && m.PutDoc? && m.key in b.store && b.store[m.key].version >= I64_MAX;
      assert MutationOfSome(t.entries, m);
      var e :| e in t.entries && MutationOf(e) == Ok(Some(m));
      assert PastMax(b, e);
    }
    if e :| e in t.entries && PastMax(b, e) {
      assert !Unserializable(e);
      var m := PutDoc(e.key, e.state.bytes.value);
      assert MutationOf(e) == Ok(Some(m));
      assert MutationOfSome(t.entries, m);
    }
  }

  // ---- The decision -------------------------------------------------------------

  ghost predicate SomePastMax(b: Backend, t: Trx) {
    exists e :: e in t.entries && PastMax(b, e)
  }

  lemma TransactDecides(b: Backend, t: Trx)
    requires Tracks(t) && RequestOf(t.entries).Ok?
    ensures var outcome := Transact(b, RequestOf(t.entries).value).outcome;
            && (outcome == Ok(Outcome(None)) <==> AllMet(b, t) && !SomePastMax(b, t))
            && (outcome.Ok? && outcome.value.conflict.Some? ==>
                  && outcome.value.conflict.value < |ConditionsOf(t.entries)|
                  && exists slot: nat ::
                       && FirstMissed(b, t, slot) && !Unreadable(b, t.entries[slot])
                       && ConditionOf(t.entries[slot]) == Some(ConditionsOf(t.entries)[outcome.value.conflict.value]))
            && (outcome.Err? && !AllMet(b, t) ==>
                  exists slot: nat :: FirstMissed(b, t, slot) && Unreadable(b, t.entries[slot]))
  {
    var request := RequestOf(t.entries).value;
    RequestIsSound(t);
    AllHoldMeansAllMet(b, t);
    if b.Memory? {
      PastMaxMeansOverflow(b, t);
      MemoryStore.TransactOutcome(b.store, request);
      MemoryStore.CheckIsLeast(b.store, request.conditions, 0);
      match MemoryStore.CheckConditions(b.store, request.conditions, 0)
      case Ok(None) =>
      case Ok(Some(k)) =>
        var slot := FirstMissedOf(b, t, k);
        ConditionMeansMet(b, t.entries[slot]);
      case Err =>
        var k: nat :| MemoryStore.FirstUnreadable(b.store, request.conditions, 0, k);
        var slot := FirstMissedOf(b, t, k);
        ConditionMeansMet(b, t.entries[slot]);
    } else {
      FirstUnmetIsLeast(b, request.conditions, 0);
      if k :| FirstUnmet(b, request.conditions, 0) == Some(k) {
        var slot := FirstMissedOf(b, t, k);
      }
    }
  }

  lemma {:induction false} FirstUnmetIsLeast(b: Backend, conditions: seq<Condition>, start: nat)
    requires b.Revisioned? && start <= |conditions|
    ensures match FirstUnmet(b, conditions, start)
            case None => forall j :: start <= j < |conditions| ==> Holds(b, conditions[j])
            case Some(k) => start <= k < |conditions| && !Holds(b, conditions[k])
                            && forall j :: start <= j < k ==> Holds(b, conditions[j])
    decreases |conditions| - start
  {
    if start < |conditions| {
      FirstUnmetIsLeast(b, conditions, start + 1);
    }
  }

  /** There is at most one entry that is the first to be missed, and none if all are met. */
  lemma FirstMissedIsUnique(b: Backend, t: Trx, slot: nat, other: nat)
    requires FirstMissed(b, t, slot)
    ensures !AllMet(b, t)
    ensures FirstMissed(b, t, other) ==> other == slot
  {
    assert t.entries[slot] in t.entries;
  }

  ghost predicate Reports(b: Backend, t: Trx, result: TrxResult, slot: nat) {
    && FirstMissed(b, t, slot)
    && result == if Unreadable(b, t.entries[slot]) then Error
                 else Conflicted(t.entries[slot].key, t.entries[slot].expected)
  }

  lemma EscapesMeansSome(t: Trx, escaping: set<nat>)
    ensures HandleEscapes(t, escaping) <==> SomeEscapes(t, escaping)
  {
    if HandleEscapes(t, escaping) {
      var i :| 0 <= i < |t.entries| && t.entries[i].state.Managed? && i in escaping;
      assert BufferedWrites.Live(t, i);
    }
  }

  /** The shortcut for an empty request answers what the backend would have answered. */
  lemma EmptyRequestCommits(b: Backend)
    ensures Transact(b, Request([], [])).outcome == Ok(Outcome(None))
  {
  }

  lemma ResultOfOutcome(b: Backend, t: Trx, out: int, escaping: set<nat>)
    requires !HandleEscapes(t, escaping) && RequestOf(t.entries).Ok?
    ensures var outcome := Transact(b, RequestOf(t.entries).value).outcome;
            var result := CommitTrx(b, t, out, escaping).result;
            && (outcome == Ok(Outcome(None)) <==> result == Committed(out))
            && (outcome.Err? ==> result == Error)
            && (result.Conflicted? ==> outcome.Ok? && outcome.value.conflict.Some?)
  {
    EmptyRequestCommits(b);
  }

  lemma ResultOfConflict(b: Backend, t: Trx, out: int, escaping: set<nat>, slot: nat)
    requires Tracks(t) && !HandleEscapes(t, escaping) && RequestOf(t.entries).Ok?
    requires var outcome := Transact(b, RequestOf(t.entries).value).outcome;
             && outcome.Ok? && outcome.value.conflict.Some?
             && outcome.value.conflict.value < |ConditionsOf(t.entries)|
             && slot < |t.entries|
             && ConditionOf(t.entries[slot]) == Some(ConditionsOf(t.entries)[outcome.value.conflict.value])
    ensures CommitTrx(b, t, out, escaping).result == Conflicted(t.entries[slot].key, t.entries[slot].expected)
  {
    EmptyRequestCommits(b);
  }

  lemma SentRequestDecides(b: Backend, t: Trx, out: int, escaping: set<nat>)
    requires Tracks(t) && !HandleEscapes(t, escaping) && RequestOf(t.entries).Ok?
    ensures var result := CommitTrx(b, t, out, escaping).result;
            && (result == Committed(out) <==> AllMet(b, t) && !SomePastMax(b, t))
            && (!AllMet(b, t) ==> exists slot: nat :: Reports(b, t, result, slot))
            && (result.Conflicted? ==> !AllMet(b, t))
  {
    TransactDecides(b, t);
    ResultOfOutcome(b, t, out, escaping);
    var outcome := Transact(b, RequestOf(t.entries).value).outcome;
    var result := CommitTrx(b, t, out, escaping).result;
    if outcome.Ok? && outcome.value.conflict.Some? {
      var k := outcome.value.conflict.value;
      var slot: nat :| FirstMissed(b, t, slot) && !Unreadable(b, t.entries[slot])
                       && ConditionOf(t.entries[slot]) == Some(ConditionsOf(t.entries)[k]);
      FirstMissedIsUnique(b, t, slot, slot);
      ResultOfConflict(b, t, out, escaping, slot);
      assert Reports(b, t, result, slot);
    } else if outcome.Err? && !AllMet(b, t) {
      var slot: nat :| FirstMissed(b, t, slot) && Unreadable(b, t.entries[slot]);
      assert Reports(b, t, result, slot);
    }
  }

  /**
   A commit succeeds exactly when no handle escapes, everything to be stored
   serializes, every entry with a stake is met and no stored version is exhausted.
   It reports a conflict exactly when no handle escapes, everything serializes and
   the first missed entry could be compared, and the conflict carries the key and
   the expected revision of that very entry. An escaping handle is an error.
   */
  lemma CommitDecides(b: Backend, t: Trx, out: int, escaping: set<nat>)
    requires Tracks(t)
    ensures var result := CommitTrx(b, t, out, escaping).result;
            && (SomeEscapes(t, escaping) || !Serializes(t) ==> result == Error)
            && (result == Committed(out) <==>
                  !SomeEscapes(t, escaping) && Serializes(t) && AllMet(b, t) && !SomePastMax(b, t))
            && (forall slot: nat :: FirstMissed(b, t, slot) && !SomeEscapes(t, escaping) && Serializes(t) ==>
                  Reports(b, t, result, slot))
            && (result.Conflicted? ==> exists slot: nat :: FirstMissed(b, t, slot))
  {
    SerializesIffRequest(t.entries);
    EscapesMeansSome(t, escaping);
    if !SomeEscapes(t, escaping) && Serializes(t) {
      SentRequestDecides(b, t, out, escaping);
      var result := CommitTrx(b, t, out, escaping).result;
      forall slot: nat | FirstMissed(b, t, slot) ensures Reports(b, t, result, slot) {
        FirstMissedIsUnique(b, t, slot, slot);
        var reported: nat :| Reports(b, t, result, reported);
        FirstMissedIsUnique(b, t, slot, reported);
      }
    }
  }
}

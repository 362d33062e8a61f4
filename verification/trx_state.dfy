/**
 The bookkeeping of one optimistic transaction attempt (doc-db/src/trx.rs:359-653):
 tracked entries, the key index into them, and the request built from them at commit.
 */
module TrxState {
  import opened DocTypes

  /**
   `Managed` is a document the closure holds a handle to. `bytes` is its current
   serialized form, `None` when serializing it would fail. `home` records the key
   the document was loaded or created under; nothing in the code reads it.
   */
  datatype EntryState =
    | NoDoc
    | Managed(home: Key, bytes: Option<Data>, dirty: bool, deleted: bool, created: bool)

  datatype Entry = Entry(key: Key, expected: Option<Revision>, observed: bool, state: EntryState)

  datatype Trx = Trx(entries: seq<Entry>, index: map<Key, nat>)

  const EMPTY_TRX: Trx := Trx([], map[])

  datatype TrxError = Duplicate | Undecodable

  datatype Fallible<+T> = Done(value: T) | Failed(error: TrxError)

  /** A document handle: the slot of its entry and the contents that were loaded. */
  datatype Handle = Handle(slot: nat, contents: Data)

  /** One key to load and whether given bytes deserialize to the requested type. */
  datatype Get = Get(key: Key, accepts: Data -> bool)

  datatype Document = Document(key: Key, bytes: Option<Data>)

  datatype Loading = Loading(trx: Trx, result: Fallible<Option<Handle>>)

  /** `register_loaded`: the index slot is taken before deserialization can fail. */
  function RegisterLoaded(t: Trx, get: Get, observed: Observed): Loading {
    if get.key in t.index then Loading(t, Failed(Duplicate))
    else
      var slot := |t.entries|;
      var indexed := t.(index := t.index[get.key := slot]);
      match observed
      case Present(data, revision) =>
        if !get.accepts(data) then Loading(indexed, Failed(Undecodable))
        else
          var entry := Entry(get.key, Some(revision), true, Managed(get.key, Some(data), false, false, false));
          Loading(indexed.(entries := t.entries + [entry]), Done(Some(Handle(slot, data))))
      case Missing(revision) =>
        Loading(indexed.(entries := t.entries + [Entry(get.key, revision, true, NoDoc)]), Done(None))
  }

  /** `count` loads were registered before the batch ended or failed. */
  datatype Batch = Batch(trx: Trx, result: Fallible<seq<Option<Handle>>>, count: nat)

  /** `finalize` over a tuple of reads: left to right, stopping at the first error. */
  function RegisterBatch(t: Trx, gets: seq<Get>, observed: seq<Observed>): (batch: Batch)
    requires |gets| == |observed|
    ensures batch.count <= |gets|
    decreases |gets|
  {
    if gets == [] then Batch(t, Done([]), 0)
    else
      var first := RegisterLoaded(t, gets[0], observed[0]);
      match first.result
      case Failed(error) => Batch(first.trx, Failed(error), 0)
      case Done(handle) =>
        var rest := RegisterBatch(first.trx, gets[1..], observed[1..]);
        Batch(rest.trx,
              if rest.result.Done? then Done([handle] + rest.result.value) else Failed(rest.result.error),
              rest.count + 1)
  }

  /** `Trx::get` refuses the whole batch, before loading, if any key is already tracked. */
  predicate Refused(t: Trx, gets: seq<Get>) {
    exists i :: 0 <= i < |gets| && gets[i].key in t.index
  }

  datatype Creation = Creation(trx: Trx, result: Fallible<nat>)

  /** `create`: a new entry, or the promotion of an entry observed as missing. */
  function Create(t: Trx, doc: Document): Creation {
    var state := Managed(doc.key, doc.bytes, false, false, true);
    if doc.key !in t.index then
      var slot := |t.entries|;
      Creation(Trx(t.entries + [Entry(doc.key, None, false, state)], t.index[doc.key := slot]), Done(slot))
    else
      var slot := t.index[doc.key];
      if slot < |t.entries| && t.entries[slot].state.NoDoc? then
        Creation(t.(entries := t.entries[slot := t.entries[slot].(state := state)]), Done(slot))
      else
        Creation(t, Failed(Duplicate))
  }

  /** Mutable access through a handle: the contents change and the entry is dirty. */
  function Write(t: Trx, slot: nat, bytes: Option<Data>): Trx {
    if slot < |t.entries| && t.entries[slot].state.Managed? then
      var state := t.entries[slot].state;
      t.(entries := t.entries[slot := t.entries[slot].(state := state.(bytes := bytes, dirty := true))])
    else t
  }

  function MarkDeleted(t: Trx, slot: nat): Trx {
    if slot < |t.entries| && t.entries[slot].state.Managed? then
      var state := t.entries[slot].state;
      t.(entries := t.entries[slot := t.entries[slot].(state := state.(deleted := true))])
    else t
  }

  function ConditionOf(e: Entry): Option<Condition> {
    if !e.observed && !(e.state.Managed? && e.state.created && !e.state.deleted) then None
    else match e.expected
      case Some(revision) => Some(RevisionEquals(e.key, revision))
      case None => Some(NotExists(e.key))
  }

  function MutationOf(e: Entry): Result<Option<Mutation>> {
    match e.state
    case NoDoc => Ok(None)
    case Managed(_, bytes, dirty, deleted, created) =>
      if deleted then
        if created then Ok(None) else Ok(Some(DeleteDoc(e.key)))
      else if created || dirty then
        (match bytes
         case Some(data) => Ok(Some(PutDoc(e.key, data)))
         case None => Err)
      else Ok(None)
  }

  function ConditionsOf(entries: seq<Entry>): seq<Condition> {
    if entries == [] then []
    else
      var rest := ConditionsOf(entries[..|entries| - 1]);
      match ConditionOf(entries[|entries| - 1])
      case Some(condition) => rest + [condition]
      case None => rest
  }

  function MutationsOf(entries: seq<Entry>): Result<seq<Mutation>> {
    if entries == [] then Ok([])
    else match MutationsOf(entries[..|entries| - 1])
      case Err => Err
      case Ok(rest) =>
        match MutationOf(entries[|entries| - 1])
        case Err => Err
        case Ok(Some(mutation)) => Ok(rest + [mutation])
        case Ok(None) => Ok(rest)
  }

  function RequestOf(entries: seq<Entry>): Result<Request> {
    match MutationsOf(entries)
    case Err => Err
    case Ok(mutations) => Ok(Request(ConditionsOf(entries), mutations))
  }

  /** The first half of `commit_entries`: one pass that fills both vectors. */
  method BuildRequest(entries: seq<Entry>) returns (request: Result<Request>)
    ensures request == RequestOf(entries)
  {
    var conditions: seq<Condition> := [];
    var mutations: seq<Mutation> := [];
    for i := 0 to |entries|
      invariant conditions == ConditionsOf(entries[..i])
      invariant MutationsOf(entries[..i]) == Ok(mutations)
    {
      assert entries[..i + 1][..i] == entries[..i];
      var condition := ConditionOf(entries[i]);
      if condition.Some? {
        conditions := conditions + [condition.value];
      }
      var mutation := MutationOf(entries[i]);
      match mutation
      case Err =>
        SerializationFailureIsFinal(entries, i + 1);
        return Err;
      case Ok(Some(m)) => mutations := mutations + [m];
      case Ok(None) =>
    }
    assert entries[..|entries|] == entries;
    return Ok(Request(conditions, mutations));
  }

  lemma {:induction false} SerializationFailureIsFinal(entries: seq<Entry>, i: nat)
    requires i <= |entries| && MutationsOf(entries[..i]).Err?
    ensures MutationsOf(entries).Err?
    decreases |entries|
  {
    if i < |entries| {
      var init := entries[..|entries| - 1];
      assert init[..i] == entries[..i];
      SerializationFailureIsFinal(init, i);
    } else {
      assert entries[..i] == entries;
    }
  }

  // ---- The invariant every operation keeps --------------------------------

  ghost predicate EntryShape(e: Entry) {
    && (!e.observed ==> e.expected.None? && e.state.Managed? && e.state.created)
    && (e.state.Managed? && !e.state.created ==> e.observed && e.expected.Some?)
  }

  /** Every entry sits at the slot its own key is indexed at, so entry keys are distinct. */
  ghost predicate Tracks(t: Trx) {
    && (forall i :: 0 <= i < |t.entries| ==>
          && t.entries[i].key in t.index
          && t.index[t.entries[i].key] == i
          && EntryShape(t.entries[i]))
    && (forall key :: key in t.index ==> t.index[key] <= |t.entries|)
  }

  /** The index leads to the key's own entry. */
  ghost predicate Settled(t: Trx, key: Key) {
    key in t.index && t.index[key] < |t.entries| && t.entries[t.index[key]].key == key
  }

  /** `index` and `entries` are mutually inverse. */
  ghost predicate Inverse(t: Trx) {
    Tracks(t) && forall key :: key in t.index ==> Settled(t, key)
  }

  ghost predicate AtHome(t: Trx) {
    forall i :: 0 <= i < |t.entries| && t.entries[i].state.Managed? ==> t.entries[i].state.home == t.entries[i].key
  }

  lemma RegisterKeeps(t: Trx, get: Get, observed: Observed)
    requires Tracks(t)
    ensures var r := RegisterLoaded(t, get, observed);
            && Tracks(r.trx)
            && (AtHome(t) ==> AtHome(r.trx))
            && (forall key :: key != get.key ==> (Settled(r.trx, key) <==> Settled(t, key)))
            && (get.key !in t.index ==> (Settled(r.trx, get.key) <==> r.result.Done?))
            && (get.key in t.index ==> r == Loading(t, Failed(Duplicate)))
            && (r.trx.index.Keys == t.index.Keys + {get.key})
  {
    forall key | key != get.key && key in t.index && t.index[key] == |t.entries|
      ensures !Settled(RegisterLoaded(t, get, observed).trx, key)
    {
    }
  }

  lemma {:induction false} BatchKeeps(t: Trx, gets: seq<Get>, observed: seq<Observed>)
    requires |gets| == |observed| && Tracks(t)
    ensures var r := RegisterBatch(t, gets, observed);
            && Tracks(r.trx)
            && (AtHome(t) ==> AtHome(r.trx))
            && (Inverse(r.trx) <==> Inverse(t) && r.result != Failed(Undecodable))
            && t.index.Keys <= r.trx.index.Keys
    decreases |gets|
  {
    if gets != [] {
      RegisterKeeps(t, gets[0], observed[0]);
      var first := RegisterLoaded(t, gets[0], observed[0]);
      if first.result.Done? {
        BatchKeeps(first.trx, gets[1..], observed[1..]);
        RegisterInverse(t, gets[0], observed[0]);
      } else if first.result.error.Undecodable? {
        assert !Settled(first.trx, gets[0].key);
      }
    }
  }

  lemma RegisterInverse(t: Trx, get: Get, observed: Observed)
    requires Tracks(t) && RegisterLoaded(t, get, observed).result.Done?
    ensures Inverse(RegisterLoaded(t, get, observed).trx) <==> Inverse(t)
  {
    RegisterKeeps(t, get, observed);
    var r := RegisterLoaded(t, get, observed).trx;
    if Inverse(r) {
      forall key | key in t.index ensures Settled(t, key) {
        assert key in r.index;
        assert Settled(r, key);
      }
    }
  }

  lemma CreateKeeps(t: Trx, doc: Document)
    requires Tracks(t)
    ensures Tracks(Create(t, doc).trx)
    ensures Inverse(Create(t, doc).trx) <==> Inverse(t)
    ensures t.index.Keys <= Create(t, doc).trx.index.Keys
  {
    var r := Create(t, doc).trx;
    if Inverse(r) {
      forall key | key in t.index ensures Settled(t, key) {
        assert key in r.index;
        assert Settled(r, key);
      }
    }
  }

  /**
   Where a created document goes. It is stored under its own key exactly when
   that key is not one whose earlier load failed to deserialize, the one way a
   key can be indexed without an entry of its own.
   */
  lemma CreateLandsAtHomeIff(t: Trx, doc: Document)
    requires Tracks(t) && Create(t, doc).result.Done?
    ensures var r := Create(t, doc);
            r.trx.entries[r.result.value].key == doc.key <==> (doc.key in t.index ==> Settled(t, doc.key))
  {
  }

  /** Replacing the state of one managed entry, without turning a loaded one into a created one. */
  lemma UpdateKeeps(t: Trx, u: Trx, slot: nat, state: EntryState)
    requires Tracks(t) && slot < |t.entries| && t.entries[slot].state.Managed?
    requires state.Managed? && state.created == t.entries[slot].state.created && state.home == t.entries[slot].state.home
    requires u == t.(entries := t.entries[slot := t.entries[slot].(state := state)])
    ensures Tracks(u)
    ensures Inverse(u) <==> Inverse(t)
    ensures AtHome(t) ==> AtHome(u)
  {
    assert |u.entries| == |t.entries|;
    assert forall i :: 0 <= i < |t.entries| ==> u.entries[i].key == t.entries[i].key;
    assert forall key :: Settled(u, key) <==> Settled(t, key);
  }

  lemma UseKeeps(t: Trx, slot: nat, bytes: Option<Data>)
    requires Tracks(t)
    ensures Tracks(Write(t, slot, bytes)) && Tracks(MarkDeleted(t, slot))
    ensures Inverse(Write(t, slot, bytes)) <==> Inverse(t)
    ensures Inverse(MarkDeleted(t, slot)) <==> Inverse(t)
    ensures AtHome(t) ==> AtHome(Write(t, slot, bytes)) && AtHome(MarkDeleted(t, slot))
  {
    if slot < |t.entries| && t.entries[slot].state.Managed? {
      var state := t.entries[slot].state;
      UpdateKeeps(t, Write(t, slot, bytes), slot, state.(bytes := bytes, dirty := true));
      UpdateKeeps(t, MarkDeleted(t, slot), slot, state.(deleted := true));
    }
  }

  // ---- Every sequence of operations ----------------------------------------

  datatype Op =
    | OpGet(gets: seq<Get>, observed: seq<Observed>)
    | OpCreate(doc: Document)
    | OpWrite(slot: nat, bytes: Option<Data>)
    | OpDelete(slot: nat)

  predicate WellFormedOp(op: Op) {
    op.OpGet? ==> |op.gets| == |op.observed|
  }

  function Perform(t: Trx, op: Op): Trx
    requires WellFormedOp(op)
  {
    match op
    case OpGet(gets, observed) => if Refused(t, gets) then t else RegisterBatch(t, gets, observed).trx
    case OpCreate(doc) => Create(t, doc).trx
    case OpWrite(slot, bytes) => Write(t, slot, bytes)
    case OpDelete(slot) => MarkDeleted(t, slot)
  }

  /** The operation loads a document that does not deserialize. */
  predicate LoadFails(t: Trx, op: Op)
    requires WellFormedOp(op)
  {
    op.OpGet? && !Refused(t, op.gets) && RegisterBatch(t, op.gets, op.observed).result == Failed(Undecodable)
  }

  ghost predicate WellFormedOps(ops: seq<Op>) {
    forall i :: 0 <= i < |ops| ==> WellFormedOp(ops[i])
  }

  function After(ops: seq<Op>): Trx
    requires WellFormedOps(ops)
  {
    if ops == [] then EMPTY_TRX else Perform(After(ops[..|ops| - 1]), ops[|ops| - 1])
  }

  ghost predicate SomeLoadFails(ops: seq<Op>)
    requires WellFormedOps(ops)
  {
    exists i :: 0 <= i < |ops| && LoadFailsAt(ops, i)
  }

  ghost predicate LoadFailsAt(ops: seq<Op>, i: nat)
    requires WellFormedOps(ops) && i < |ops|
  {
    LoadFails(After(ops[..i]), ops[i])
  }

  lemma LoadFailsBefore(ops: seq<Op>, i: nat)
    requires WellFormedOps(ops) && i < |ops| - 1
    ensures LoadFailsAt(ops[..|ops| - 1], i) <==> LoadFailsAt(ops, i)
  {
    assert ops[..|ops| - 1][..i] == ops[..i];
  }

  lemma StepKeeps(t: Trx, op: Op)
    requires Tracks(t) && WellFormedOp(op)
    ensures Tracks(Perform(t, op))
    ensures Inverse(Perform(t, op)) <==> Inverse(t) && !LoadFails(t, op)
    ensures Inverse(t) && AtHome(t) ==> AtHome(Perform(t, op))
  {
    match op
    case OpGet(gets, observed) =>
      BatchKeeps(t, gets, observed);
    case OpCreate(doc) =>
      CreateKeeps(t, doc);
      if Create(t, doc).result.Done? {
        CreateLandsAtHomeIff(t, doc);
      }
    case OpWrite(slot, bytes) =>
      UseKeeps(t, slot, bytes);
    case OpDelete(slot) =>
      UseKeeps(t, slot, None);
  }

  lemma SomeLoadFailsUnrolls(ops: seq<Op>)
    requires WellFormedOps(ops) && ops != []
    ensures WellFormedOps(ops[..|ops| - 1])
    ensures SomeLoadFails(ops) <==>
            SomeLoadFails(ops[..|ops| - 1]) || LoadFails(After(ops[..|ops| - 1]), ops[|ops| - 1])
  {
    var last := |ops| - 1;
    forall i | 0 <= i < last ensures LoadFailsAt(ops[..last], i) <==> LoadFailsAt(ops, i) {
      LoadFailsBefore(ops, i);
    }
    assert LoadFailsAt(ops, last) <==> LoadFails(After(ops[..last]), ops[last]);
  }

  /**
   After every sequence of gets, creates, writes and deletes each entry is
   indexed at its own slot, and index and entries are mutually inverse exactly
   when no load in the sequence failed to deserialize.
   */
  lemma {:induction false} Bookkeeping(ops: seq<Op>)
    requires WellFormedOps(ops)
    ensures Tracks(After(ops))
    ensures Inverse(After(ops)) <==> !SomeLoadFails(ops)
    ensures !SomeLoadFails(ops) ==> AtHome(After(ops))
  {
    if ops != [] {
      SomeLoadFailsUnrolls(ops);
      Bookkeeping(ops[..|ops| - 1]);
      StepKeeps(After(ops[..|ops| - 1]), ops[|ops| - 1]);
    }
  }

  // ---- The request a tracked transaction commits with ----------------------

  ghost predicate ConditionOfSome(entries: seq<Entry>, condition: Condition) {
    exists e :: e in entries && ConditionOf(e) == Some(condition)
  }

  ghost predicate MutationOfSome(entries: seq<Entry>, mutation: Mutation) {
    exists e :: e in entries && MutationOf(e) == Ok(Some(mutation))
  }

  lemma {:induction false} ConditionsAreOwn(entries: seq<Entry>)
    ensures forall c :: c in ConditionsOf(entries) <==> ConditionOfSome(entries, c)
  {
    if entries != [] {
      var init, last := entries[..|entries| - 1], entries[|entries| - 1];
      ConditionsAreOwn(init);
      assert entries == init + [last];
      forall c ensures ConditionOfSome(entries, c) <==> ConditionOfSome(init, c) || ConditionOf(last) == Some(c) {
        assert last in entries;
        assert forall e :: e in entries <==> e in init || e == last;
      }
    }
  }

  lemma {:induction false} MutationsAreOwn(entries: seq<Entry>)
    requires MutationsOf(entries).Ok?
    ensures forall m :: m in MutationsOf(entries).value <==> MutationOfSome(entries, m)
  {
    if entries != [] {
      var init, last := entries[..|entries| - 1], entries[|entries| - 1];
      MutationsAreOwn(init);
      assert entries == init + [last];
      forall m ensures MutationOfSome(entries, m) <==> MutationOfSome(init, m) || MutationOf(last) == Ok(Some(m)) {
        assert last in entries;
        assert forall e :: e in entries <==> e in init || e == last;
      }
    }
  }

  ghost predicate DistinctEntryKeys(entries: seq<Entry>) {
    forall i, j :: 0 <= i < j < |entries| ==> entries[i].key != entries[j].key
  }

  lemma {:induction false} ConditionKeysDistinct(entries: seq<Entry>)
    requires DistinctEntryKeys(entries)
    ensures DistinctConditionKeys(ConditionsOf(entries))
  {
    if entries != [] {
      var init, last := entries[..|entries| - 1], entries[|entries| - 1];
      ConditionKeysDistinct(init);
      ConditionsAreOwn(init);
      forall c | c in ConditionsOf(init) ensures c.key != last.key {
        assert ConditionOfSome(init, c);
      }
    }
  }

  lemma {:induction false} MutationKeysDistinct(entries: seq<Entry>)
    requires DistinctEntryKeys(entries) && MutationsOf(entries).Ok?
    ensures DistinctMutationKeys(MutationsOf(entries).value)
  {
    if entries != [] {
      var init, last := entries[..|entries| - 1], entries[|entries| - 1];
      MutationKeysDistinct(init);
      MutationsAreOwn(init);
      forall m | m in MutationsOf(init).value ensures m.key != last.key {
        assert MutationOfSome(init, m);
      }
    }
  }

  /** Every mutated key is guarded by a condition on the same key. */
  ghost predicate Guarded(request: Request) {
    forall m :: m in request.mutations ==> exists c :: c in request.conditions && c.key == m.key
  }

  /** The request of a tracked transaction is always valid and always guarded. */
  lemma RequestIsSound(t: Trx)
    requires Tracks(t) && RequestOf(t.entries).Ok?
    ensures ValidRequest(RequestOf(t.entries).value)
    ensures Guarded(RequestOf(t.entries).value)
  {
    TrackedKeysDistinct(t);
    ConditionKeysDistinct(t.entries);
    MutationKeysDistinct(t.entries);
    RequestIsGuarded(t);
  }

  lemma TrackedKeysDistinct(t: Trx)
    requires Tracks(t)
    ensures DistinctEntryKeys(t.entries)
  {
    forall i, j | 0 <= i < j < |t.entries| ensures t.entries[i].key != t.entries[j].key {
      assert t.index[t.entries[i].key] == i && t.index[t.entries[j].key] == j;
    }
  }

  lemma RequestIsGuarded(t: Trx)
    requires Tracks(t) && RequestOf(t.entries).Ok?
    ensures Guarded(RequestOf(t.entries).value)
  {
    ConditionsAreOwn(t.entries);
    MutationsAreOwn(t.entries);
    var request := RequestOf(t.entries).value;
    forall m | m in request.mutations ensures exists c :: c in request.conditions && c.key == m.key {
      assert MutationOfSome(t.entries, m);
      var e :| e in t.entries && MutationOf(e) == Ok(Some(m));
      assert EntryShape(e);
      assert ConditionOf(e).Some?;
      assert ConditionOfSome(t.entries, ConditionOf(e).value);
    }
  }

  /** Bookkeeping and request together, for every sequence of operations. */
  lemma EveryRequestIsSound(ops: seq<Op>)
    requires WellFormedOps(ops) && RequestOf(After(ops).entries).Ok?
    ensures ValidRequest(RequestOf(After(ops).entries).value)
    ensures Guarded(RequestOf(After(ops).entries).value)
  {
    Bookkeeping(ops);
    RequestIsSound(After(ops));
  }

  predicate Never(d: Data) { false }

  predicate Always(d: Data) { true }

  /**
   Why the exact condition is needed: whenever `a` holds bytes that do not
   deserialize and `b` is missing, a closure that swallows the error, reads `b`
   and then creates the document of `a` commits that document under key `b`.
   */
  lemma SwallowedLoadErrorMisplaces(a: Key, b: Key, stored: Data, revision: Revision, newData: Data)
    requires a != b
    ensures var badLoad := OpGet([Get(a, Never)], [Present(stored, revision)]);
            var goodLoad := OpGet([Get(b, Always)], [Missing(None)]);
            var create := OpCreate(Document(a, Some(newData)));
            && LoadFails(EMPTY_TRX, badLoad)
            && RequestOf(Perform(Perform(Perform(EMPTY_TRX, badLoad), goodLoad), create).entries)
               == Ok(Request([NotExists(b)], [PutDoc(b, newData)]))
  {
    var badLoad := OpGet([Get(a, Never)], [Present(stored, revision)]);
    var goodLoad := OpGet([Get(b, Always)], [Missing(None)]);
    var dangling := Trx([], map[a := 0]);
    assert Perform(EMPTY_TRX, badLoad) == dangling;
    var missing := Entry(b, None, true, NoDoc);
    SlotIsShared(dangling, a, b);
    var promoted := missing.(state := Managed(a, Some(newData), false, false, true));
    SingleEntryRequest(promoted, NotExists(b), PutDoc(b, newData));
  }

  lemma SlotIsShared(dangling: Trx, a: Key, b: Key)
    requires a != b && dangling == Trx([], map[a := 0])
    ensures Perform(dangling, OpGet([Get(b, Always)], [Missing(None)]))
            == Trx([Entry(b, None, true, NoDoc)], map[a := 0, b := 0])
  {
    var gets, observed := [Get(b, Always)], [Missing(None)];
    assert !Refused(dangling, gets);
    assert RegisterBatch(dangling, gets, observed).trx == RegisterLoaded(dangling, gets[0], observed[0]).trx;
  }

  lemma SingleEntryRequest(e: Entry, condition: Condition, mutation: Mutation)
    requires ConditionOf(e) == Some(condition) && MutationOf(e) == Ok(Some(mutation))
    ensures RequestOf([e]) == Ok(Request([condition], [mutation]))
  {
    assert [e][..0] == [];
    var noMutations: seq<Mutation> := [];
    assert MutationsOf([e][..0]) == Ok(noMutations);
    assert noMutations + [mutation] == [mutation];
    assert MutationsOf([e]) == Ok([mutation]);
    assert ConditionsOf([e]) == [condition];
  }
}

/**
 Any number of transaction attempts interleaved with plain puts and deletes on
 one backend, as a step system (doc-db/src/trx.rs:163-240, 309-345, 592-653).

 A closure is a deterministic function from the replies it has received so far to
 its next action. The keys of one batched read are loaded at separate instants and
 in any order; nothing else is shared between attempts but the backend.
 */
module Interleaving {
  import opened DocTypes
  import opened TrxState
  import opened Backends

  datatype Reply =
    | GotDocs(docs: seq<Option<Handle>>)
    | Created(slot: nat)
    | Ack
    | Refusal

  /** `escaping` are the slots whose handles outlive the closure; `out` names the returned value. */
  datatype Action =
    | ReadDocs(gets: seq<Get>)
    | MakeDoc(doc: Document)
    | SetDoc(slot: nat, bytes: Option<Data>)
    | DropDoc(slot: nat)
    | Finish(out: int, escaping: set<nat>)
    | Cancel(reason: int)
    | Abort

  type Closure = seq<Reply> -> Action

  datatype TrxResult =
    | Committed(out: int)
    | Cancelled(reason: int)
    | Conflicted(key: Key, expected: Option<Revision>)
    | Error

  predicate IsLocal(action: Action) {
    action.ReadDocs? || action.MakeDoc? || action.SetDoc? || action.DropDoc?
  }

  predicate AnyLoadError(loads: seq<Load>) {
    exists i :: 0 <= i < |loads| && loads[i].LoadError?
  }

  function ObservedOf(loads: seq<Load>): (observed: seq<Observed>)
    requires !AnyLoadError(loads)
    ensures |observed| == |loads|
  {
    seq(|loads|, i requires 0 <= i < |loads| => loads[i].observed)
  }

  datatype Answer = Answer(trx: Trx, reply: Reply)

  /** The batch a read action registers once all its loads have arrived. */
  function BatchOf(t: Trx, gets: seq<Get>, loads: seq<Load>): Batch
    requires |loads| == |gets| && !AnyLoadError(loads)
  {
    RegisterBatch(t, gets, ObservedOf(loads))
  }

  /** What a local action does to the bookkeeping and what the closure gets to see. */
  function Respond(t: Trx, action: Action, loads: seq<Load>): Answer
    requires IsLocal(action)
    requires action.ReadDocs? && !Refused(t, action.gets) ==> |loads| == |action.gets|
  {
    match action
    case ReadDocs(gets) =>
      if Refused(t, gets) || AnyLoadError(loads) then Answer(t, Refusal)
      else
        var batch := BatchOf(t, gets, loads);
        Answer(batch.trx, if batch.result.Done? then GotDocs(batch.result.value) else Refusal)
    case MakeDoc(doc) =>
      var creation := Create(t, doc);
      Answer(creation.trx, if creation.result.Done? then Created(creation.result.value) else Refusal)
    case SetDoc(slot, bytes) => Answer(Write(t, slot, bytes), Ack)
    case DropDoc(slot) => Answer(MarkDeleted(t, slot), Ack)
  }

  datatype Committing = Committing(result: TrxResult, backend: Backend)

  predicate HandleEscapes(t: Trx, escaping: set<nat>) {
    exists i :: 0 <= i < |t.entries| && t.entries[i].state.Managed? && i in escaping
  }

  /** `take_entries` followed by `commit_entries`. */
  function CommitTrx(b: Backend, t: Trx, out: int, escaping: set<nat>): Committing {
    if HandleEscapes(t, escaping) then Committing(Error, b)
    else match RequestOf(t.entries)
      case Err => Committing(Error, b)
      case Ok(request) =>
        if request.conditions == [] && request.mutations == [] then Committing(Committed(out), b)
        else
          var done := Transact(b, request);
          match done.outcome
          case Err => Committing(Error, done.backend)
          case Ok(Outcome(None)) => Committing(Committed(out), done.backend)
          case Ok(Outcome(Some(index))) =>
            if index >= |request.conditions| then Committing(Error, done.backend)
            else
              var condition := request.conditions[index];
              Committing(Conflicted(condition.key,
                                    if condition.RevisionEquals? then Some(condition.expected) else None),
                         done.backend)
  }

  /**
   `waiting` holds the loads of an outstanding read. `seen`, `asked` and `healthy`
   are history variables: the registered loads, the keys of all finished reads, and
   whether every load so far succeeded and deserialized.
   */
  datatype Attempt = Attempt(
    closure: Closure,
    trx: Trx,
    replies: seq<Reply>,
    waiting: Option<seq<Option<Load>>>,
    seen: map<Key, Load>,
    asked: set<Key>,
    healthy: bool,
    result: Option<TrxResult>)

  datatype World = World(db: Backend, attempts: map<nat, Attempt>)

  datatype Step =
    | PutStep(key: Key, data: Data)
    | DeleteStep(key: Key)
    | BeginStep(id: nat, closure: Closure)
    | ArriveStep(id: nat, position: nat)
    | ActStep(id: nat)
    | CommitStep(id: nat)

  function Fresh(closure: Closure): Attempt {
    Attempt(closure, EMPTY_TRX, [], None, map[], {}, true, None)
  }

  predicate AllArrived(loads: seq<Option<Load>>) {
    forall i :: 0 <= i < |loads| ==> loads[i].Some?
  }

  function Arrived(loads: seq<Option<Load>>): (arrived: seq<Load>)
    requires AllArrived(loads)
    ensures |arrived| == |loads|
    ensures forall i :: 0 <= i < |loads| ==> arrived[i] == loads[i].value
  {
    seq(|loads|, i requires 0 <= i < |loads| => loads[i].value)
  }

  function Remember(seen: map<Key, Load>, gets: seq<Get>, loads: seq<Load>, count: nat): map<Key, Load>
    requires count <= |gets| == |loads|
  {
    if count == 0 then seen
    else Remember(seen, gets, loads, count - 1)[gets[count - 1].key := loads[count - 1]]
  }

  function KeysOf(gets: seq<Get>): set<Key> {
    set i | 0 <= i < |gets| :: gets[i].key
  }

  /** All loads of the outstanding read have arrived: register them and resume the closure. */
  function FinishRead(a: Attempt, gets: seq<Get>, loads: seq<Load>): Attempt
    requires |gets| == |loads|
  {
    var answer := Respond(a.trx, ReadDocs(gets), loads);
    var resumed := a.(trx := answer.trx, replies := a.replies + [answer.reply], waiting := None);
    if Refused(a.trx, gets) then resumed
    else if AnyLoadError(loads) then resumed.(healthy := false)
    else
      var batch := BatchOf(a.trx, gets, loads);
      resumed.(seen := Remember(a.seen, gets, loads, batch.count),
               asked := a.asked + KeysOf(gets),
               healthy := a.healthy && batch.result != Failed(Undecodable))
  }

  function Act(a: Attempt): Attempt {
    var action := a.closure(a.replies);
    match a.waiting
    case Some(loads) =>
      if action.ReadDocs? && |loads| == |action.gets| && AllArrived(loads) then
        FinishRead(a, action.gets, Arrived(loads))
      else a
    case None =>
      match action
      case ReadDocs(gets) =>
        if Refused(a.trx, gets) then a.(replies := a.replies + [Refusal])
        else a.(waiting := Some(seq(|gets|, _ => None)))
      case Finish(_, _) => a
      case Cancel(reason) => a.(result := Some(Cancelled(reason)))
      case Abort => a.(result := Some(Error))
      case _ =>
        var answer := Respond(a.trx, action, []);
        a.(trx := answer.trx, replies := a.replies + [answer.reply])
  }

  function Arrive(a: Attempt, b: Backend, position: nat): Attempt {
    var action := a.closure(a.replies);
    if a.waiting.Some? && position < |a.waiting.value| && a.waiting.value[position].None?
       && action.ReadDocs? && |a.waiting.value| == |action.gets|
    then a.(waiting := Some(a.waiting.value[position := Some(ObserveAt(b, action.gets[position].key))]))
    else a
  }

  predicate Running(w: World, id: nat) {
    id in w.attempts && w.attempts[id].result.None?
  }

  /** The attempt is at its commit point. */
  predicate AtFinish(a: Attempt) {
    a.waiting.None? && a.closure(a.replies).Finish?
  }

  /** One step; a step that is not enabled changes nothing. */
  function Next(w: World, s: Step): World {
    match s
    case PutStep(key, data) => w.(db := PlainPut(w.db, key, data))
    case DeleteStep(key) => w.(db := PlainDelete(w.db, key))
    case BeginStep(id, closure) =>
      if id in w.attempts then w else w.(attempts := w.attempts[id := Fresh(closure)])
    case ArriveStep(id, position) =>
      if !Running(w, id) then w
      else w.(attempts := w.attempts[id := Arrive(w.attempts[id], w.db, position)])
    case ActStep(id) =>
      if !Running(w, id) then w
      else w.(attempts := w.attempts[id := Act(w.attempts[id])])
    case CommitStep(id) =>
      if !Running(w, id) || !AtFinish(w.attempts[id]) then w
      else
        var a := w.attempts[id];
        var action := a.closure(a.replies);
        var done := CommitTrx(w.db, a.trx, action.out, action.escaping);
        World(done.backend, w.attempts[id := a.(result := Some(done.result))])
  }

  function Run(w: World, steps: seq<Step>): World {
    if steps == [] then w else Next(Run(w, steps[..|steps| - 1]), steps[|steps| - 1])
  }

  // ---- The serial reference: one closure against one frozen backend ----------

  datatype SoloState = SoloState(trx: Trx, replies: seq<Reply>)

  function ObserveAll(b: Backend, gets: seq<Get>): (loads: seq<Load>)
    ensures |loads| == |gets|
    ensures forall i :: 0 <= i < |gets| ==> loads[i] == ObserveAt(b, gets[i].key)
  {
    seq(|gets|, i requires 0 <= i < |gets| => ObserveAt(b, gets[i].key))
  }

  /** The closure after `n` actions, every read answered from `b` at a single instant. */
  function Solo(closure: Closure, b: Backend, n: nat): SoloState {
    if n == 0 then SoloState(EMPTY_TRX, [])
    else
      var s := Solo(closure, b, n - 1);
      var action := closure(s.replies);
      if !IsLocal(action) then s
      else
        var answer := Respond(s.trx, action, if action.ReadDocs? then ObserveAll(b, action.gets) else []);
        SoloState(answer.trx, s.replies + [answer.reply])
  }

  /** The closure run from start to commit in one instant, with no one else running. */
  function SoloCommit(closure: Closure, b: Backend, n: nat): Committing {
    var s := Solo(closure, b, n);
    var action := closure(s.replies);
    if action.Finish? then CommitTrx(b, s.trx, action.out, action.escaping) else Committing(Error, b)
  }
}

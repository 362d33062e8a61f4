/**
 What every reachable interleaving keeps true of every attempt: its bookkeeping
 matches its loads, its loads still say something about the backend, and its
 closure would have done the same against any single backend state that agrees
 with what was loaded and loads what was asked for.
 */
module AttemptInvariant {
  import opened DocTypes
  import opened TrxState
  import opened Backends
  import opened Interleaving

  // ---- Registering a batch --------------------------------------------------

  /** Existing entries keep their slot, key and expectation. */
  ghost predicate KeepsHeads(t: Trx, u: Trx) {
    && |t.entries| <= |u.entries|
    && (forall i :: 0 <= i < |t.entries| ==>
          && u.entries[i].key == t.entries[i].key
          && u.entries[i].observed == t.entries[i].observed
          && u.entries[i].expected == t.entries[i].expected)
    && (forall key :: key in t.index ==> key in u.index && u.index[key] == t.index[key])
  }

  /** The first `count` loads occupy the slots after the entries of `t`, in order. */
  ghost predicate Appended(t: Trx, u: Trx, gets: seq<Get>, observed: seq<Observed>, count: nat)
    requires count <= |gets| == |observed|
  {
    && |u.entries| == |t.entries| + count
    && forall i :: 0 <= i < count ==>
         && gets[i].key !in t.index
         && gets[i].key in u.index
         && u.index[gets[i].key] == |t.entries| + i
         && u.entries[|t.entries| + i].key == gets[i].key
         && u.entries[|t.entries| + i].observed
         && u.entries[|t.entries| + i].expected == LoadedRevision(observed[i])
  }

  lemma {:induction false} BatchAppends(t: Trx, gets: seq<Get>, observed: seq<Observed>)
    requires |gets| == |observed|
    ensures var r := RegisterBatch(t, gets, observed);
            KeepsHeads(t, r.trx) && Appended(t, r.trx, gets, observed, r.count)
    decreases |gets|
  {
    if gets != [] {
      var first := RegisterLoaded(t, gets[0], observed[0]);
      if first.result.Done? {
        BatchAppends(first.trx, gets[1..], observed[1..]);
        var rest := RegisterBatch(first.trx, gets[1..], observed[1..]);
        AppendedShift(t, first.trx, rest.trx, gets, observed, rest.count);
      }
    }
  }

  lemma AppendedShift(t: Trx, mid: Trx, u: Trx, gets: seq<Get>, observed: seq<Observed>, count: nat)
    requires |gets| == |observed| && gets != [] && count < |gets|
    requires RegisterLoaded(t, gets[0], observed[0]).result.Done?
    requires mid == RegisterLoaded(t, gets[0], observed[0]).trx
    requires KeepsHeads(mid, u) && Appended(mid, u, gets[1..], observed[1..], count)
    ensures KeepsHeads(t, u) && Appended(t, u, gets, observed, count + 1)
  {
    forall i | 0 <= i < count + 1
      ensures && gets[i].key !in t.index
              && gets[i].key in u.index
              && u.index[gets[i].key] == |t.entries| + i
              && u.entries[|t.entries| + i].key == gets[i].key
              && u.entries[|t.entries| + i].observed
              && u.entries[|t.entries| + i].expected == LoadedRevision(observed[i])
    {
      if i > 0 {
        assert gets[i] == gets[1..][i - 1] && observed[i] == observed[1..][i - 1];
      }
    }
  }

  /** A batch depends only on the loads it registers, unless one fails to deserialize. */
  lemma {:induction false} BatchIgnoresRest(t: Trx, gets: seq<Get>, observed: seq<Observed>, other: seq<Observed>)
    requires |gets| == |observed| == |other|
    requires RegisterBatch(t, gets, observed).result != Failed(Undecodable)
    requires forall i :: 0 <= i < RegisterBatch(t, gets, observed).count ==> observed[i] == other[i]
    ensures RegisterBatch(t, gets, other) == RegisterBatch(t, gets, observed)
    decreases |gets|
  {
    if gets != [] {
      var first := RegisterLoaded(t, gets[0], observed[0]);
      if first.result.Done? {
        var rest := RegisterBatch(first.trx, gets[1..], observed[1..]);
        assert RegisterBatch(t, gets, observed).count == rest.count + 1;
        forall i | 0 <= i < rest.count ensures observed[1..][i] == other[1..][i] {
          assert observed[i + 1] == other[i + 1];
        }
        BatchIgnoresRest(first.trx, gets[1..], observed[1..], other[1..]);
      }
    }
  }

  // ---- The history of loads ---------------------------------------------------

  ghost predicate DistinctGets(gets: seq<Get>, count: nat)
    requires count <= |gets|
  {
    forall i, j :: 0 <= i < j < count ==> gets[i].key != gets[j].key
  }

  lemma {:induction false} RememberExactly(seen: map<Key, Load>, gets: seq<Get>, loads: seq<Load>, count: nat)
    requires count <= |gets| == |loads|
    requires DistinctGets(gets, count)
    requires forall i :: 0 <= i < count ==> gets[i].key !in seen
    ensures var r := Remember(seen, gets, loads, count);
            && (forall key :: key in seen ==> key in r && r[key] == seen[key])
            && (forall i :: 0 <= i < count ==> gets[i].key in r && r[gets[i].key] == loads[i])
            && (forall key :: key in r && key !in seen ==> exists i :: 0 <= i < count && gets[i].key == key)
  {
    if count > 0 {
      RememberExactly(seen, gets, loads, count - 1);
    }
  }

  /** Every remembered load has its observed entry, with the expectation it was loaded with. */
  ghost predicate Linked(t: Trx, seen: map<Key, Load>) {
    forall key :: key in seen ==>
      && seen[key].Loaded?
      && Settled(t, key)
      && t.entries[t.index[key]].observed
      && t.entries[t.index[key]].expected == LoadedRevision(seen[key].observed)
  }

  lemma HeadsKeepLinked(t: Trx, u: Trx, seen: map<Key, Load>)
    requires KeepsHeads(t, u) && Linked(t, seen)
    ensures Linked(u, seen)
  {
  }

  lemma LocalKeepsHeads(t: Trx, action: Action)
    requires action.MakeDoc? || action.SetDoc? || action.DropDoc?
    ensures KeepsHeads(t, Respond(t, action, []).trx)
  {
  }

  // ---- Replaying the closure against one backend state -------------------------

  /** None of the keys holds a version that cannot be loaded. */
  ghost predicate Loadable(b: Backend, keys: set<Key>) {
    forall key :: key in keys ==> ObserveAt(b, key).Loaded?
  }

  ghost predicate Agrees(b: Backend, seen: map<Key, Load>) {
    forall key :: key in seen ==>
      seen[key].Loaded? && ObserveAt(b, key).Loaded? && ObserveAt(b, key).observed == seen[key].observed
  }

  /** Against every backend state that agrees with the loads, the closure alone gets to the same point. */
  ghost predicate Replays(a: Attempt) {
    forall b :: Loadable(b, a.asked) && Agrees(b, a.seen) ==>
      Solo(a.closure, b, |a.replies|) == SoloState(a.trx, a.replies)
  }

  /** The read is answered the same way by any backend state that agrees with the registered loads. */
  lemma ReadAgrees(t: Trx, gets: seq<Get>, loads: seq<Load>, b: Backend)
    requires |gets| == |loads| && !Refused(t, gets) && !AnyLoadError(loads) && Loadable(b, KeysOf(gets))
    requires BatchOf(t, gets, loads).result != Failed(Undecodable)
    requires forall i :: 0 <= i < BatchOf(t, gets, loads).count ==>
               ObserveAt(b, gets[i].key).Loaded? && ObserveAt(b, gets[i].key).observed == loads[i].observed
    ensures Respond(t, ReadDocs(gets), ObserveAll(b, gets)) == Respond(t, ReadDocs(gets), loads)
  {
    var others := ObserveAll(b, gets);
    forall i | 0 <= i < |gets| ensures others[i].Loaded? {
      assert gets[i].key in KeysOf(gets);
    }
    BatchIgnoresRest(t, gets, ObservedOf(loads), ObservedOf(others));
  }

  // ---- The invariant -----------------------------------------------------------

  ghost predicate WaitingShape(a: Attempt) {
    a.waiting.Some? ==>
      && a.closure(a.replies).ReadDocs?
      && |a.waiting.value| == |a.closure(a.replies).gets|
      && !Refused(a.trx, a.closure(a.replies).gets)
  }

  ghost predicate LoadsGood(b: Backend, a: Attempt)
    requires WaitingShape(a)
  {
    && (forall key :: key in a.seen ==> StillGood(b, key, a.seen[key]))
    && (a.waiting.Some? ==>
          forall i :: 0 <= i < |a.waiting.value| && a.waiting.value[i].Some? ==>
            StillGood(b, a.closure(a.replies).gets[i].key, a.waiting.value[i].value))
  }

  ghost predicate AttemptInv(b: Backend, a: Attempt) {
    && WaitingShape(a)
    && Tracks(a.trx)
    && Linked(a.trx, a.seen)
    && LoadsGood(b, a)
    && (a.healthy ==> Replays(a))
  }

  ghost predicate Inv(w: World) {
    && Clocked(w.db)
    && forall id :: id in w.attempts ==> AttemptInv(w.db, w.attempts[id])
  }

  lemma FreshInv(b: Backend, closure: Closure)
    ensures AttemptInv(b, Fresh(closure))
  {
  }

  lemma GrowthKeepsAttempt(before: Backend, after: Backend, a: Attempt)
    requires Grows(before, after) && AttemptInv(before, a)
    ensures AttemptInv(after, a)
  {
    forall key | key in a.seen ensures StillGood(after, key, a.seen[key]) {
      GrowthKeepsGood(before, after, key, a.seen[key]);
    }
    if a.waiting.Some? {
      var gets := a.closure(a.replies).gets;
      forall i | 0 <= i < |a.waiting.value| && a.waiting.value[i].Some?
        ensures StillGood(after, gets[i].key, a.waiting.value[i].value)
      {
        GrowthKeepsGood(before, after, gets[i].key, a.waiting.value[i].value);
      }
    }
  }

  lemma ArriveKeeps(b: Backend, a: Attempt, position: nat)
    requires AttemptInv(b, a)
    ensures AttemptInv(b, Arrive(a, b, position))
  {
    var u := Arrive(a, b, position);
    if u != a {
      var gets := a.closure(a.replies).gets;
      FreshLoadIsGood(b, gets[position].key);
      assert u.seen == a.seen && u.asked == a.asked && u.trx == a.trx && u.replies == a.replies;
      assert Replays(a) ==> Replays(u);
    }
  }

  lemma LocalActKeeps(b: Backend, a: Attempt)
    requires AttemptInv(b, a) && a.waiting.None?
    requires var action := a.closure(a.replies); action.MakeDoc? || action.SetDoc? || action.DropDoc?
    ensures AttemptInv(b, Act(a))
  {
    var action := a.closure(a.replies);
    var u := Act(a);
    var answer := Respond(a.trx, action, []);
    LocalKeepsHeads(a.trx, action);
    HeadsKeepLinked(a.trx, u.trx, a.seen);
    LocalKeepsTracks(a.trx, action);
    if a.healthy {
      forall c | Loadable(c, u.asked) && Agrees(c, u.seen)
        ensures Solo(u.closure, c, |u.replies|) == SoloState(u.trx, u.replies)
      {
        assert Solo(a.closure, c, |a.replies|) == SoloState(a.trx, a.replies);
      }
    }
  }

  lemma LocalKeepsTracks(t: Trx, action: Action)
    requires Tracks(t)
    requires action.MakeDoc? || action.SetDoc? || action.DropDoc?
    ensures Tracks(Respond(t, action, []).trx)
  {
    match action
    case MakeDoc(doc) => CreateKeeps(t, doc);
    case SetDoc(slot, bytes) => UseKeeps(t, slot, bytes);
    case DropDoc(slot) => UseKeeps(t, slot, None);
  }

  lemma StartReadKeeps(b: Backend, a: Attempt)
    requires AttemptInv(b, a) && a.waiting.None? && a.closure(a.replies).ReadDocs?
    ensures AttemptInv(b, Act(a))
  {
    var gets := a.closure(a.replies).gets;
    var u := Act(a);
    if Refused(a.trx, gets) {
      if a.healthy {
        forall c | Loadable(c, u.asked) && Agrees(c, u.seen)
          ensures Solo(u.closure, c, |u.replies|) == SoloState(u.trx, u.replies)
        {
          assert Solo(a.closure, c, |a.replies|) == SoloState(a.trx, a.replies);
        }
      }
    } else {
      assert Replays(a) ==> Replays(u);
    }
  }

  /** The loads a finished batch adds to the history. */
  lemma BatchSeen(a: Attempt, gets: seq<Get>, loads: seq<Load>)
    requires Tracks(a.trx) && Linked(a.trx, a.seen)
    requires |gets| == |loads| && !Refused(a.trx, gets) && !AnyLoadError(loads)
    ensures var batch := BatchOf(a.trx, gets, loads);
            var seen := Remember(a.seen, gets, loads, batch.count);
            && Tracks(batch.trx)
            && Linked(batch.trx, seen)
            && (forall key :: key in a.seen ==> key in seen && seen[key] == a.seen[key])
            && (forall i :: 0 <= i < batch.count ==> gets[i].key in seen && seen[gets[i].key] == loads[i])
            && (forall key :: key in seen && key !in a.seen ==> exists i :: 0 <= i < batch.count && gets[i].key == key)
  {
    var observed := ObservedOf(loads);
    var batch := BatchOf(a.trx, gets, loads);
    BatchKeeps(a.trx, gets, observed);
    BatchAppends(a.trx, gets, observed);
    assert forall i :: 0 <= i < batch.count ==> gets[i].key !in a.seen;
    AppendedDistinct(a.trx, batch.trx, gets, observed, batch.count);
    RememberExactly(a.seen, gets, loads, batch.count);
    HeadsKeepLinked(a.trx, batch.trx, a.seen);
    BatchLinks(a.trx, batch.trx, a.seen, gets, loads, batch.count, batch.count);
  }

  lemma AppendedDistinct(t: Trx, u: Trx, gets: seq<Get>, observed: seq<Observed>, count: nat)
    requires count <= |gets| == |observed| && Appended(t, u, gets, observed, count)
    ensures DistinctGets(gets, count)
  {
    forall i, j | 0 <= i < j < count ensures gets[i].key != gets[j].key {
      assert u.index[gets[i].key] == |t.entries| + i;
    }
  }

  lemma {:induction false} BatchLinks(t: Trx, u: Trx, seen: map<Key, Load>, gets: seq<Get>, loads: seq<Load>, count: nat, i: nat)
    requires i <= count <= |gets| == |loads| && !AnyLoadError(loads)
    requires Linked(u, seen) && Appended(t, u, gets, ObservedOf(loads), count)
    ensures Linked(u, Remember(seen, gets, loads, i))
  {
    if i > 0 {
      BatchLinks(t, u, seen, gets, loads, count, i - 1);
      assert loads[i - 1].Loaded?;
      assert Settled(u, gets[i - 1].key);
      assert u.entries[|t.entries| + (i - 1)].expected == LoadedRevision(ObservedOf(loads)[i - 1]);
    }
  }

  lemma FinishReadReplays(a: Attempt, gets: seq<Get>, loads: seq<Load>)
    requires Tracks(a.trx) && Linked(a.trx, a.seen) && Replays(a)
    requires |gets| == |loads| && !Refused(a.trx, gets) && !AnyLoadError(loads)
    requires a.closure(a.replies) == ReadDocs(gets)
    requires BatchOf(a.trx, gets, loads).result != Failed(Undecodable)
    ensures Replays(FinishRead(a, gets, loads))
  {
    BatchSeen(a, gets, loads);
    var u := FinishRead(a, gets, loads);
    var batch := BatchOf(a.trx, gets, loads);
    forall c | Loadable(c, u.asked) && Agrees(c, u.seen)
      ensures Solo(u.closure, c, |u.replies|) == SoloState(u.trx, u.replies)
    {
      assert Agrees(c, a.seen) && Loadable(c, a.asked) && Loadable(c, KeysOf(gets));
      assert Solo(a.closure, c, |a.replies|) == SoloState(a.trx, a.replies);
      forall i | 0 <= i < batch.count
        ensures ObserveAt(c, gets[i].key).Loaded? && ObserveAt(c, gets[i].key).observed == loads[i].observed
      {
        assert gets[i].key in u.seen;
      }
      ReadAgrees(a.trx, gets, loads, c);
    }
  }

  lemma FinishReadLoads(b: Backend, a: Attempt, gets: seq<Get>, loads: seq<Load>)
    requires AttemptInv(b, a) && a.waiting.Some? && AllArrived(a.waiting.value)
    requires gets == a.closure(a.replies).gets && loads == Arrived(a.waiting.value) && !AnyLoadError(loads)
    ensures forall key :: key in FinishRead(a, gets, loads).seen ==>
              StillGood(b, key, FinishRead(a, gets, loads).seen[key])
  {
    BatchSeen(a, gets, loads);
    var u := FinishRead(a, gets, loads);
    forall key | key in u.seen ensures StillGood(b, key, u.seen[key]) {
      if key !in a.seen {
        var i :| 0 <= i < BatchOf(a.trx, gets, loads).count && gets[i].key == key;
        assert u.seen[key] == loads[i] == a.waiting.value[i].value;
      }
    }
  }

  lemma FinishReadKeeps(b: Backend, a: Attempt)
    requires AttemptInv(b, a) && a.waiting.Some? && AllArrived(a.waiting.value)
    ensures AttemptInv(b, Act(a))
  {
    var gets, loads := a.closure(a.replies).gets, Arrived(a.waiting.value);
    assert Act(a) == FinishRead(a, gets, loads);
    if !AnyLoadError(loads) {
      BatchSeen(a, gets, loads);
      FinishReadLoads(b, a, gets, loads);
      if Act(a).healthy {
        FinishReadReplays(a, gets, loads);
      }
    }
  }

  lemma ActKeeps(b: Backend, a: Attempt)
    requires AttemptInv(b, a)
    ensures AttemptInv(b, Act(a))
  {
    var action := a.closure(a.replies);
    if a.waiting.Some? {
      if AllArrived(a.waiting.value) {
        FinishReadKeeps(b, a);
      }
    } else if action.ReadDocs? {
      StartReadKeeps(b, a);
    } else if action.MakeDoc? || action.SetDoc? || action.DropDoc? {
      LocalActKeeps(b, a);
    } else {
      var u := Act(a);
      assert Replays(a) ==> Replays(u);
    }
  }

  lemma CommitGrows(b: Backend, t: Trx, out: int, escaping: set<nat>)
    requires Clocked(b)
    ensures Grows(b, CommitTrx(b, t, out, escaping).backend) && Clocked(CommitTrx(b, t, out, escaping).backend)
  {
    GrowsReflexive(b);
    if RequestOf(t.entries).Ok? {
      TransactGrows(b, RequestOf(t.entries).value);
    }
  }

  /** Every step of the system continues the backend. */
  lemma NextGrows(w: World, s: Step)
    requires Clocked(w.db)
    ensures Grows(w.db, Next(w, s).db) && Clocked(Next(w, s).db)
  {
    GrowsReflexive(w.db);
    match s
    case PutStep(key, data) => PutGrows(w.db, key, data);
    case DeleteStep(key) => DeleteGrows(w.db, key);
    case CommitStep(id) =>
      if Running(w, id) && AtFinish(w.attempts[id]) {
        var a := w.attempts[id];
        var action := a.closure(a.replies);
        CommitGrows(w.db, a.trx, action.out, action.escaping);
      }
    case _ =>
  }

  /** Every step keeps the invariant. */
  lemma NextKeeps(w: World, s: Step)
    requires Inv(w)
    ensures Inv(Next(w, s))
  {
    var v := Next(w, s);
    NextGrows(w, s);
    forall id | id in v.attempts ensures AttemptInv(v.db, v.attempts[id]) {
      if id !in w.attempts {
        FreshInv(v.db, v.attempts[id].closure);
      } else {
        var a := w.attempts[id];
        GrowthKeepsAttempt(w.db, v.db, a);
        if s.ActStep? && s.id == id {
          ActKeeps(w.db, a);
        } else if s.ArriveStep? && s.id == id {
          ArriveKeeps(w.db, a, s.position);
        } else if s.CommitStep? && s.id == id {
          assert Replays(a) ==> Replays(v.attempts[id]);
        }
      }
    }
  }

  lemma {:induction false} RunKeeps(w: World, steps: seq<Step>)
    requires Inv(w)
    ensures Inv(Run(w, steps))
  {
    if steps != [] {
      RunKeeps(w, steps[..|steps| - 1]);
      NextKeeps(Run(w, steps[..|steps| - 1]), steps[|steps| - 1]);
    }
  }
}

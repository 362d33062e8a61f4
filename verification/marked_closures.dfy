/**
 The converse of serializability: an attempt that commits although the store no longer
 holds what the closure was shown is not serial, for some closure that acts alike. The
 closure is the same one, returning 1 exactly when it has seen these replies.
 */
module MarkedClosures {
  import opened DocTypes
  import opened TrxState
  import opened Backends
  import opened Interleaving
  import opened Serializability

  /** Acts like `closure` and returns whether it has seen exactly `replies`. */
  function Marked(closure: Closure, replies: seq<Reply>): Closure {
    (rs: seq<Reply>) =>
      var action := closure(rs);
      if action.Finish? then Finish(if rs == replies then 1 else 0, action.escaping) else action
  }

  /** The two closures differ in nothing but what they return. */
  ghost predicate ActAlike(c: Closure, d: Closure) {
    forall rs :: ActionsAlike(c(rs), d(rs))
  }

  ghost predicate ActionsAlike(a: Action, b: Action) {
    if a.Finish? then b.Finish? && b.escaping == a.escaping else b == a
  }

  // ---- The same run with the other closure -----------------------------------------

  function SwapStep(s: Step, id: nat, d: Closure): Step {
    if s.BeginStep? && s.id == id then BeginStep(id, d) else s
  }

  function SwapSteps(steps: seq<Step>, id: nat, d: Closure): (swapped: seq<Step>)
    ensures |swapped| == |steps|
  {
    seq(|steps|, i requires 0 <= i < |steps| => SwapStep(steps[i], id, d))
  }

  function SwapIn(w: World, id: nat, d: Closure): World {
    if id in w.attempts then w.(attempts := w.attempts[id := w.attempts[id].(closure := d)]) else w
  }

  /** An attempt keeps its closure, and a finished one is never touched again. */
  lemma NextKeepsClosure(w: World, s: Step, id: nat)
    requires id in w.attempts
    ensures id in Next(w, s).attempts && Next(w, s).attempts[id].closure == w.attempts[id].closure
    ensures w.attempts[id].result.Some? ==> Next(w, s).attempts[id] == w.attempts[id]
  {
  }

  lemma UpdatesCommute<K, V>(m: map<K, V>, j: K, x: V, k: K, y: V)
    requires j != k
    ensures m[j := x][k := y] == m[k := y][j := x]
  {
  }

  lemma ActSwaps(a: Attempt, d: Closure)
    requires ActAlike(a.closure, d)
    ensures Act(a.(closure := d)) == Act(a).(closure := d)
  {
    assert ActionsAlike(a.closure(a.replies), d(a.replies));
  }

  lemma ArriveSwaps(a: Attempt, b: Backend, position: nat, d: Closure)
    requires ActAlike(a.closure, d)
    ensures Arrive(a.(closure := d), b, position) == Arrive(a, b, position).(closure := d)
  {
    assert ActionsAlike(a.closure(a.replies), d(a.replies));
  }

  lemma FinishSwaps(a: Attempt, d: Closure)
    requires ActAlike(a.closure, d)
    ensures AtFinish(a.(closure := d)) <==> AtFinish(a)
  {
    assert ActionsAlike(a.closure(a.replies), d(a.replies));
  }

  /** One step of the attempt itself. */
  lemma OwnStepSwaps(w: World, s: Step, id: nat, d: Closure)
    requires id in w.attempts && ActAlike(w.attempts[id].closure, d)
    requires (s.ArriveStep? || s.ActStep? || s.CommitStep?) && s.id == id
    requires Next(w, s).attempts[id].result.None?
    ensures Next(SwapIn(w, id, d), s) == SwapIn(Next(w, s), id, d)
  {
    var a := w.attempts[id];
    NextKeepsClosure(w, s, id);
    match s {
      case ArriveStep(_, position) => ArriveSwaps(a, w.db, position, d);
      case ActStep(_) => ActSwaps(a, d);
      case CommitStep(_) => FinishSwaps(a, d);
    }
    var left, right := Next(SwapIn(w, id, d), s), SwapIn(Next(w, s), id, d);
    assert left.attempts == right.attempts;
  }

  /** One step of anybody else. */
  lemma OtherStepSwaps(w: World, s: Step, id: nat, d: Closure)
    requires id in w.attempts && (s.PutStep? || s.DeleteStep? || s.id != id)
    ensures Next(SwapIn(w, id, d), s) == SwapIn(Next(w, s), id, d)
  {
    var a := w.attempts[id].(closure := d);
    var left, right := Next(SwapIn(w, id, d), s), SwapIn(Next(w, s), id, d);
    if !(s.PutStep? || s.DeleteStep?) && s.id in Next(w, s).attempts {
      UpdatesCommute(w.attempts, id, a, s.id, Next(w, s).attempts[s.id]);
    }
    assert left.attempts == right.attempts;
  }

  lemma NextSwaps(w: World, s: Step, id: nat, c: Closure, d: Closure)
    requires ActAlike(c, d) && (id in w.attempts ==> w.attempts[id].closure == c)
    requires id in Next(w, s).attempts ==> Next(w, s).attempts[id].result.None? && Next(w, s).attempts[id].closure == c
    ensures Next(SwapIn(w, id, d), SwapStep(s, id, d)) == SwapIn(Next(w, s), id, d)
  {
    if id in w.attempts {
      NextKeepsClosure(w, s, id);
      if s.PutStep? || s.DeleteStep? || s.id != id {
        OtherStepSwaps(w, s, id, d);
      } else if !s.BeginStep? {
        OwnStepSwaps(w, s, id, d);
      }
    } else if s.BeginStep? && s.id == id {
      assert Next(SwapIn(w, id, d), SwapStep(s, id, d)).attempts == SwapIn(Next(w, s), id, d).attempts;
    }
  }

  /** Beginning the attempt with the other closure gives the same run up to its commit. */
  lemma {:induction false} RunSwaps(w: World, steps: seq<Step>, id: nat, c: Closure, d: Closure)
    requires w.attempts == map[] && ActAlike(c, d)
    requires var v := Run(w, steps); id in v.attempts ==> v.attempts[id].result.None? && v.attempts[id].closure == c
    ensures Run(w, SwapSteps(steps, id, d)) == SwapIn(Run(w, steps), id, d)
  {
    if steps != [] {
      var init, last := steps[..|steps| - 1], steps[|steps| - 1];
      var before := Run(w, init);
      if id in before.attempts {
        NextKeepsClosure(before, last, id);
      }
      RunSwaps(w, init, id, c, d);
      assert SwapSteps(steps, id, d) == SwapSteps(init, id, d) + [SwapStep(last, id, d)];
      RunSnoc(w, SwapSteps(init, id, d), SwapStep(last, id, d));
      NextSwaps(before, last, id, c, d);
    }
  }

  // ---- The closure alone -------------------------------------------------------------

  /** The backend holds these contents under the key. */
  ghost predicate Shows(b: Backend, key: Key, contents: Data) {
    var load := ObserveAt(b, key);
    load.Loaded? && load.observed.Present? && load.observed.data == contents
  }

  /** A handle a batch returns carries the contents that were loaded. */
  lemma {:induction false} BatchShows(t: Trx, gets: seq<Get>, observed: seq<Observed>, j: nat)
    requires |gets| == |observed| && RegisterBatch(t, gets, observed).result.Done?
    ensures var docs := RegisterBatch(t, gets, observed).result.value;
            && |docs| == |gets|
            && (j < |docs| && docs[j].Some? ==> observed[j].Present? && observed[j].data == docs[j].value.contents)
    decreases |gets|
  {
    if gets != [] {
      var first := RegisterLoaded(t, gets[0], observed[0]);
      BatchShows(first.trx, gets[1..], observed[1..], if j > 0 then j - 1 else 0);
    }
  }

  /** Reply `i` answers a read and shows `contents` for its `j`th key. */
  ghost predicate Shown(closure: Closure, replies: seq<Reply>, i: nat, j: nat, key: Key, contents: Data) {
    && i < |replies| && closure(replies[..i]).ReadDocs? && j < |closure(replies[..i]).gets|
    && closure(replies[..i]).gets[j].key == key
    && replies[i].GotDocs? && j < |replies[i].docs|
    && replies[i].docs[j].Some? && replies[i].docs[j].value.contents == contents
  }

  lemma LastReplyShows(closure: Closure, b: Backend, s: SoloState, j: nat, key: Key, contents: Data)
    requires IsLocal(closure(s.replies))
    requires var action := closure(s.replies);
             var answer := Respond(s.trx, action, if action.ReadDocs? then ObserveAll(b, action.gets) else []);
             Shown(closure, s.replies + [answer.reply], |s.replies|, j, key, contents)
    ensures Shows(b, key, contents)
  {
    var action := closure(s.replies);
    var loads := if action.ReadDocs? then ObserveAll(b, action.gets) else [];
    var all := s.replies + [Respond(s.trx, action, loads).reply];
    assert all[..|s.replies|] == s.replies && all[|s.replies|] == Respond(s.trx, action, loads).reply;
    BatchShows(s.trx, action.gets, ObservedOf(loads), j);
  }

  /** Run against a frozen backend, a closure is shown only what that backend holds. */
  lemma {:induction false} SoloShows(closure: Closure, b: Backend, n: nat, i: nat, j: nat, key: Key, contents: Data)
    requires Shown(closure, Solo(closure, b, n).replies, i, j, key, contents)
    ensures Shows(b, key, contents)
  {
    if n > 0 {
      var s := Solo(closure, b, n - 1);
      var replies := Solo(closure, b, n).replies;
      if !IsLocal(closure(s.replies)) {
        SoloShows(closure, b, n - 1, i, j, key, contents);
      } else if i < |s.replies| {
        assert replies[..i] == s.replies[..i] && replies[i] == s.replies[i];
        SoloShows(closure, b, n - 1, i, j, key, contents);
      } else {
        LastReplyShows(closure, b, s, j, key, contents);
      }
    }
  }

  /** A marked closure that runs alone returns 1 only if it was shown the marked replies. */
  lemma MarkedAlone(closure: Closure, replies: seq<Reply>, b: Backend, n: nat, i: nat, j: nat, key: Key, contents: Data)
    requires Shown(closure, replies, i, j, key, contents) && !Shows(b, key, contents)
    ensures SoloCommit(Marked(closure, replies), b, n).result != Committed(1)
  {
    var marked := Marked(closure, replies);
    if Solo(marked, b, n).replies == replies {
      assert Shown(marked, replies, i, j, key, contents);
      SoloShows(marked, b, n, i, j, key, contents);
      assert false;
    }
  }

  // ---- The converse --------------------------------------------------------------------

  /**
   Whatever attempt commits in whatever reachable world: if the store no longer holds
   contents that its closure was shown, then the same run with a closure that acts alike
   commits with a result that this closure does not have alone, after any number of
   actions.
   */
  lemma StaleCommitIsNotSerial(w: World, steps: seq<Step>, id: nat, i: nat, j: nat, key: Key, contents: Data)
    requires Initial(w) && Commits(Run(w, steps), id)
    requires var a := Run(w, steps).attempts[id]; Shown(a.closure, a.replies, i, j, key, contents)
    requires !Shows(Run(w, steps).db, key, contents)
    ensures var a := Run(w, steps).attempts[id];
            var marked := Marked(a.closure, a.replies);
            var v := Run(w, SwapSteps(steps, id, marked));
            && ActAlike(a.closure, marked)
            && v.db == Run(w, steps).db
            && Commits(v, id)
            && CommitOf(v.db, v.attempts[id]).result == Committed(1)
            && forall n :: SoloCommit(marked, v.db, n).result != Committed(1)
  {
    var before := Run(w, steps);
    var a := before.attempts[id];
    var marked := Marked(a.closure, a.replies);
    RunSwaps(w, steps, id, a.closure, marked);
    FinishSwaps(a, marked);
    forall n: nat ensures SoloCommit(marked, before.db, n).result != Committed(1) {
      MarkedAlone(a.closure, a.replies, before.db, n, i, j, key, contents);
    }
  }
}

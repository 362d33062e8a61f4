/**
 The bounded retry loop of `trx::run` (doc-db/src/trx.rs:271-357) against every
 closure and every rival schedule.
 */
module Retry {
  import opened DocTypes
  import opened Interleaving
  import opened Serializability
  import opened SerialSchedule
  import opened Backoffs

  const MAX_ATTEMPTS: nat := 5
  const BACKOFF_BASE_MS: U64 := 50
  const BACKOFF_CAP_MS: U64 := 1000
  /** The most that can have been slept before each of the five attempts. */
  function SleptAtMost(attempt: nat): nat {
    if attempt == 0 then 0 else if attempt == 1 then 50 else if attempt == 2 then 150
    else if attempt == 3 then 350 else 750
  }

  lemma CeilingsInUse(attempt: nat)
    requires attempt < MAX_ATTEMPTS - 1
    ensures SleptAtMost(attempt + 1) == SleptAtMost(attempt) + Ceiling(BACKOFF_BASE_MS, BACKOFF_CAP_MS, attempt)
  {
    assert ShiftLeft(50, 0) == 50;
    assert ShiftLeft(50, 1) == 100;
    assert ShiftLeft(50, 2) == 200;
    assert ShiftLeft(50, 3) == 400;
  }

  /** `conflict_backoff` with the random bytes it drew. */
  method ConflictBackoff(attempt: nat, raw: nat) returns (ms: nat)
    requires attempt < MAX_ATTEMPTS - 1
    ensures SleptAtMost(attempt) + ms <= SleptAtMost(attempt + 1)
    ensures ms == Delay(BACKOFF_BASE_MS, BACKOFF_CAP_MS, attempt, raw)
  {
    ms := Delay(BACKOFF_BASE_MS, BACKOFF_CAP_MS, attempt, raw);
    CeilingsInUse(attempt);
  }

  // ---- Who changed the backend ------------------------------------------------

  /** The step is a commit by one of the attempts `lo..hi` and it changes the backend. */
  ghost predicate OwnChange(w: World, s: Step, lo: nat, hi: nat) {
    s.CommitStep? && lo <= s.id < hi && Next(w, s).db != w.db
  }

  ghost function OwnChanges(w: World, steps: seq<Step>, lo: nat, hi: nat): nat {
    if steps == [] then 0
    else
      var init := steps[..|steps| - 1];
      OwnChanges(w, init, lo, hi) + if OwnChange(Run(w, init), steps[|steps| - 1], lo, hi) then 1 else 0
  }

  predicate HasCommitted(w: World, id: nat) {
    id in w.attempts && w.attempts[id].result.Some? && w.attempts[id].result.value.Committed?
  }

  predicate HasConflicted(w: World, id: nat) {
    id in w.attempts && w.attempts[id].result.Some? && w.attempts[id].result.value.Conflicted?
  }

  function CommittedCount(w: World, lo: nat, hi: nat): nat
    requires lo <= hi
    decreases hi
  {
    if lo == hi then 0 else CommittedCount(w, lo, hi - 1) + if HasCommitted(w, hi - 1) then 1 else 0
  }

  /** A finished attempt never changes again. */
  lemma FinishedStays(w: World, s: Step, id: nat)
    requires id in w.attempts && w.attempts[id].result.Some?
    ensures id in Next(w, s).attempts && Next(w, s).attempts[id] == w.attempts[id]
  {
  }

  lemma {:induction false} FinishedStaysForever(w: World, steps: seq<Step>, id: nat)
    requires id in w.attempts && w.attempts[id].result.Some?
    ensures id in Run(w, steps).attempts && Run(w, steps).attempts[id] == w.attempts[id]
  {
    if steps != [] {
      FinishedStaysForever(w, steps[..|steps| - 1], id);
      FinishedStays(Run(w, steps[..|steps| - 1]), steps[|steps| - 1], id);
    }
  }

  lemma {:induction false} CountGrows(w: World, v: World, lo: nat, hi: nat)
    requires lo <= hi
    requires forall id :: lo <= id < hi && HasCommitted(w, id) ==> HasCommitted(v, id)
    ensures CommittedCount(w, lo, hi) <= CommittedCount(v, lo, hi)
    ensures (exists id :: lo <= id < hi && !HasCommitted(w, id) && HasCommitted(v, id)) ==>
              CommittedCount(w, lo, hi) < CommittedCount(v, lo, hi)
    decreases hi
  {
    if lo < hi {
      CountGrows(w, v, lo, hi - 1);
    }
  }

  lemma ChangeCommits(w: World, s: Step, lo: nat, hi: nat)
    requires lo <= hi
    ensures CommittedCount(w, lo, hi) + (if OwnChange(w, s, lo, hi) then 1 else 0) <= CommittedCount(Next(w, s), lo, hi)
  {
    var v := Next(w, s);
    forall id | lo <= id < hi && HasCommitted(w, id) ensures HasCommitted(v, id) {
      FinishedStays(w, s, id);
    }
    CountGrows(w, v, lo, hi);
    if OwnChange(w, s, lo, hi) {
      var a := w.attempts[s.id];
      if !HasCommitted(v, s.id) {
        FailedCommitChangesNothing(w.db, a.trx, a.closure(a.replies).out, a.closure(a.replies).escaping);
      }
    }
  }

  /** The attempts of a range change the backend at most once for each that committed. */
  lemma {:induction false} ChangesAreCommits(w: World, steps: seq<Step>, lo: nat, hi: nat)
    requires lo <= hi
    ensures CommittedCount(w, lo, hi) + OwnChanges(w, steps, lo, hi) <= CommittedCount(Run(w, steps), lo, hi)
  {
    if steps != [] {
      var init := steps[..|steps| - 1];
      ChangesAreCommits(w, init, lo, hi);
      ChangeCommits(Run(w, init), steps[|steps| - 1], lo, hi);
    }
  }

  // ---- The loop -----------------------------------------------------------------

  /** `Unfinished`: the schedule ended before the running attempt did. */
  datatype RunResult = Finished(result: TrxResult) | Unfinished

  ghost predicate NeverBegins(steps: seq<Step>, lo: nat, hi: nat) {
    forall i :: 0 <= i < |steps| && steps[i].BeginStep? ==> !(lo <= steps[i].id < hi)
  }

  lemma {:induction false} StaysUnbegun(w: World, steps: seq<Step>, id: nat)
    requires id !in w.attempts
    requires forall i :: 0 <= i < |steps| && steps[i].BeginStep? ==> steps[i].id != id
    ensures id !in Run(w, steps).attempts
  {
    if steps != [] {
      StaysUnbegun(w, steps[..|steps| - 1], id);
    }
  }

  /** Everything that happened up to and including attempt number `count - 1`. */
  function Trace(base: nat, closures: nat -> Closure, schedule: seq<seq<Step>>, count: nat): seq<Step>
    requires count <= |schedule|
  {
    if count == 0 then []
    else Trace(base, closures, schedule, count - 1)
         + ([BeginStep(base + count - 1, closures(count - 1))] + schedule[count - 1])
  }

  ghost predicate OwnIdsAreFree(w: World, base: nat, schedule: seq<seq<Step>>) {
    && (forall id :: base <= id < base + MAX_ATTEMPTS ==> id !in w.attempts)
    && (forall j :: 0 <= j < |schedule| ==> NeverBegins(schedule[j], base, base + MAX_ATTEMPTS))
  }

  /** One call of the closure, interleaved with the given steps. */
  function OneAttempt(w: World, id: nat, closure: Closure, steps: seq<Step>): World {
    Run(Next(w, BeginStep(id, closure)), steps)
  }

  /** The attempts before `next` have conflicted and those from `next` on have not begun. */
  ghost predicate OnlyConflictsBefore(v: World, base: nat, next: nat) {
    && (forall id :: base <= id < next ==> HasConflicted(v, id))
    && (forall id :: next <= id < base + MAX_ATTEMPTS ==> id !in v.attempts)
  }

  /** What `trx::run` returned: the outcome of its last attempt, all earlier ones having conflicted. */
  ghost predicate Returned(v: World, base: nat, result: RunResult, calls: nat) {
    var last := base + calls - 1;
    && 1 <= calls <= MAX_ATTEMPTS
    && (forall id :: base <= id < last ==> HasConflicted(v, id))
    && (forall id :: last < id < base + MAX_ATTEMPTS ==> id !in v.attempts)
    && last in v.attempts
    && v.attempts[last].result == (if result.Finished? then Some(result.result) else None)
    && (result.Finished? && result.result.Conflicted? ==> calls == MAX_ATTEMPTS)
  }

  datatype Ran = Ran(world: World, result: RunResult, calls: nat)

  /** The world after attempt number `k`, which interleaves `closures(k)` with `schedule[k]`. */
  type Attempts = (World, nat) -> World

  function AttemptsOf(base: nat, closures: nat -> Closure, schedule: seq<seq<Step>>): Attempts {
    (v: World, k: nat) => if k < |schedule| then OneAttempt(v, base + k, closures(k), schedule[k]) else v
  }

  /** The run from attempt number `attempt` on: go on after a conflict, unless it was the last attempt. */
  function RunFrom(v: World, base: nat, attempts: Attempts, attempt: nat): Ran
    requires attempt < MAX_ATTEMPTS
    decreases MAX_ATTEMPTS - attempt
  {
    var after := attempts(v, attempt);
    if base + attempt !in after.attempts || after.attempts[base + attempt].result.None? then
      Ran(after, Unfinished, attempt + 1)
    else
      var outcome := after.attempts[base + attempt].result.value;
      if outcome.Conflicted? && attempt + 1 < MAX_ATTEMPTS
      then RunFrom(after, base, attempts, attempt + 1)
      else Ran(after, Finished(outcome), attempt + 1)
  }

  /**
   `trx::run`: the closure is called until an attempt ends in anything but a conflict,
   with one drawn backoff after each conflict. `attempts` says where each attempt, interleaved with any
   steps of rivals, leaves the world. `random(k)` are the bytes the backoff after attempt
   `k` draws.
   */
  method RunTrx(w: World, base: nat, attempts: Attempts, random: nat -> nat) returns (ran: Ran, slept: nat)
    ensures ran == RunFrom(w, base, attempts, 0)
    ensures slept <= 750
    ensures ran.calls >= 1 && slept == Slept(BACKOFF_BASE_MS, BACKOFF_CAP_MS, random, ran.calls - 1)
  {
    var v := w;
    slept := 0;
    var attempt := 0;
    while true
      invariant attempt < MAX_ATTEMPTS
      invariant RunFrom(w, base, attempts, 0) == RunFrom(v, base, attempts, attempt)
      invariant slept <= SleptAtMost(attempt)
      invariant slept == Slept(BACKOFF_BASE_MS, BACKOFF_CAP_MS, random, attempt)
      decreases MAX_ATTEMPTS - attempt
    {
      v := attempts(v, attempt);
      if base + attempt !in v.attempts || v.attempts[base + attempt].result.None? {
        return Ran(v, Unfinished, attempt + 1), slept;
      }
      var outcome := v.attempts[base + attempt].result.value;
      if !outcome.Conflicted? || attempt + 1 >= MAX_ATTEMPTS {
        return Ran(v, Finished(outcome), attempt + 1), slept;
      }
      var ms := ConflictBackoff(attempt, random(attempt));
      slept := slept + ms;
      attempt := attempt + 1;
    }
  }

  ghost predicate Retrying(w: World, base: nat, closures: nat -> Closure, schedule: seq<seq<Step>>,
                           attempt: nat, v: World)
    requires attempt <= |schedule|
  {
    v == Run(w, Trace(base, closures, schedule, attempt)) && OnlyConflictsBefore(v, base, base + attempt)
  }

  ghost predicate Returns(w: World, base: nat, closures: nat -> Closure, schedule: seq<seq<Step>>,
                          v: World, result: RunResult, calls: nat)
  {
    && Returned(v, base, result, calls)
    && calls <= |schedule|
    && v == Run(w, Trace(base, closures, schedule, calls))
  }

  /** How the outcome of one attempt decides whether the loop returns or goes on. */
  ghost predicate Continues(w: World, base: nat, closures: nat -> Closure, schedule: seq<seq<Step>>,
                            attempt: nat, v: World)
    requires attempt < |schedule|
  {
    && base + attempt in v.attempts
    && match v.attempts[base + attempt].result
       case None => Returns(w, base, closures, schedule, v, Unfinished, attempt + 1)
       case Some(outcome) =>
         if outcome.Conflicted? && attempt + 1 < MAX_ATTEMPTS
         then Retrying(w, base, closures, schedule, attempt + 1, v)
         else Returns(w, base, closures, schedule, v, Finished(outcome), attempt + 1)
  }

  lemma AttemptEffects(w: World, base: nat, closures: nat -> Closure, schedule: seq<seq<Step>>, attempt: nat,
                       before: World)
    requires |schedule| == MAX_ATTEMPTS && attempt < MAX_ATTEMPTS && OwnIdsAreFree(w, base, schedule)
    requires Retrying(w, base, closures, schedule, attempt, before)
    ensures Continues(w, base, closures, schedule, attempt,
                      OneAttempt(before, base + attempt, closures(attempt), schedule[attempt]))
  {
    var begin := BeginStep(base + attempt, closures(attempt));
    RunOne(before, begin);
    RunConcat(before, [begin], schedule[attempt]);
    RunConcat(w, Trace(base, closures, schedule, attempt), [begin] + schedule[attempt]);
    assert NeverBegins(schedule[attempt], base, base + MAX_ATTEMPTS);
    OthersUnaffected(before, base, base + attempt, closures(attempt), schedule[attempt]);
    AttemptDecides(w, base, closures, schedule, attempt,
                   OneAttempt(before, base + attempt, closures(attempt), schedule[attempt]));
  }

  lemma AttemptDecides(w: World, base: nat, closures: nat -> Closure, schedule: seq<seq<Step>>, attempt: nat, v: World)
    requires |schedule| == MAX_ATTEMPTS && attempt < MAX_ATTEMPTS && base + attempt in v.attempts
    requires v == Run(w, Trace(base, closures, schedule, attempt + 1))
    requires forall id :: base + attempt < id < base + MAX_ATTEMPTS ==> id !in v.attempts
    requires forall id :: base <= id < base + attempt ==> HasConflicted(v, id)
    ensures Continues(w, base, closures, schedule, attempt, v)
  {
  }

  /** What one attempt has to establish: the loop's result, or its invariant for the next one. */
  ghost predicate Decides(after: World, base: nat, k: nat, retrying: (World, nat) -> bool, done: Ran -> bool) {
    && base + k in after.attempts
    && match after.attempts[base + k].result
       case None => done(Ran(after, Unfinished, k + 1))
       case Some(outcome) =>
         if outcome.Conflicted? && k + 1 < MAX_ATTEMPTS
         then retrying(after, k + 1)
         else done(Ran(after, Finished(outcome), k + 1))
  }

  /** The rule of the retry loop. */
  lemma {:induction false} LoopRule(v: World, base: nat, attempts: Attempts, attempt: nat,
                                    retrying: (World, nat) -> bool, done: Ran -> bool)
    requires attempt < MAX_ATTEMPTS && retrying(v, attempt)
    requires forall u: World, k: nat :: k < MAX_ATTEMPTS && retrying(u, k) ==>
                                          Decides(attempts(u, k), base, k, retrying, done)
    ensures done(RunFrom(v, base, attempts, attempt))
    decreases MAX_ATTEMPTS - attempt
  {
    var after := attempts(v, attempt);
    assert Decides(after, base, attempt, retrying, done);
    var result := after.attempts[base + attempt].result;
    if result.Some? && result.value.Conflicted? && attempt + 1 < MAX_ATTEMPTS {
      LoopRule(after, base, attempts, attempt + 1, retrying, done);
    }
  }

  lemma OthersUnaffected(before: World, base: nat, own: nat, closure: Closure, steps: seq<Step>)
    requires OnlyConflictsBefore(before, base, own) && base <= own < base + MAX_ATTEMPTS
    requires NeverBegins(steps, base, base + MAX_ATTEMPTS)
    ensures var after := OneAttempt(before, own, closure, steps);
            && (forall id :: own < id < base + MAX_ATTEMPTS ==> id !in after.attempts)
            && (forall id :: base <= id < own ==> HasConflicted(after, id))
            && own in after.attempts
  {
    var begin := BeginStep(own, closure);
    var begun := Next(before, begin);
    var after := OneAttempt(before, own, closure, steps);
    forall id | own < id < base + MAX_ATTEMPTS ensures id !in after.attempts {
      StaysUnbegun(begun, steps, id);
    }
    forall id | base <= id < own ensures HasConflicted(after, id) {
      assert HasConflicted(before, id);
      FinishedStays(before, begin, id);
      FinishedStaysForever(begun, steps, id);
    }
    BegunStays(begun, steps, own);
  }

  lemma {:induction false} BegunStays(w: World, steps: seq<Step>, id: nat)
    requires id in w.attempts
    ensures id in Run(w, steps).attempts
  {
    if steps != [] {
      BegunStays(w, steps[..|steps| - 1], id);
    }
  }

  ghost function WhileRetrying(w: World, base: nat, closures: nat -> Closure, schedule: seq<seq<Step>>): (World, nat) -> bool {
    (v: World, k: nat) => k <= |schedule| && Retrying(w, base, closures, schedule, k, v)
  }

  ghost function WhenReturned(w: World, base: nat, closures: nat -> Closure, schedule: seq<seq<Step>>): Ran -> bool {
    (ran: Ran) => Returns(w, base, closures, schedule, ran.world, ran.result, ran.calls)
  }

  lemma ContinuesDecides(w: World, base: nat, closures: nat -> Closure, schedule: seq<seq<Step>>, k: nat, after: World)
    requires |schedule| == MAX_ATTEMPTS && k < MAX_ATTEMPTS && Continues(w, base, closures, schedule, k, after)
    ensures Decides(after, base, k, WhileRetrying(w, base, closures, schedule), WhenReturned(w, base, closures, schedule))
  {
  }

  /** The world `trx::run` leaves behind is the run of its whole trace. */
  lemma RunTrxReturns(w: World, base: nat, closures: nat -> Closure, schedule: seq<seq<Step>>)
    requires |schedule| == MAX_ATTEMPTS && OwnIdsAreFree(w, base, schedule)
    ensures var ran := RunFrom(w, base, AttemptsOf(base, closures, schedule), 0);
            Returns(w, base, closures, schedule, ran.world, ran.result, ran.calls)
  {
    var attempts := AttemptsOf(base, closures, schedule);
    var retrying, done := WhileRetrying(w, base, closures, schedule), WhenReturned(w, base, closures, schedule);
    forall v: World, k: nat | k < MAX_ATTEMPTS && retrying(v, k)
      ensures Decides(attempts(v, k), base, k, retrying, done)
    {
      AttemptEffects(w, base, closures, schedule, k, v);
      ContinuesDecides(w, base, closures, schedule, k, attempts(v, k));
    }
    assert retrying(w, 0);
    LoopRule(w, base, attempts, 0, retrying, done);
  }

  /**
   For every closure and every rival schedule the closure is called at most five
   times, and `Conflict` comes out exactly when all five attempts conflicted.
   */
  lemma ConflictMeansAllConflicted(w: World, base: nat, closures: nat -> Closure, schedule: seq<seq<Step>>)
    requires |schedule| == MAX_ATTEMPTS && OwnIdsAreFree(w, base, schedule)
    ensures var ran := RunFrom(w, base, AttemptsOf(base, closures, schedule), 0);
            && 1 <= ran.calls <= MAX_ATTEMPTS
            && (ran.result.Finished? && ran.result.result.Conflicted? <==>
                  forall id :: base <= id < base + MAX_ATTEMPTS ==> HasConflicted(ran.world, id))
  {
    RunTrxReturns(w, base, closures, schedule);
    var ran := RunFrom(w, base, AttemptsOf(base, closures, schedule), 0);
    ReturnedConflict(ran.world, base, ran.result, ran.calls);
  }

  lemma ReturnedConflict(v: World, base: nat, result: RunResult, calls: nat)
    requires Returned(v, base, result, calls)
    ensures result.Finished? && result.result.Conflicted? <==>
            forall id :: base <= id < base + MAX_ATTEMPTS ==> HasConflicted(v, id)
  {
    if forall id :: base <= id < base + MAX_ATTEMPTS ==> HasConflicted(v, id) {
      assert HasConflicted(v, base + calls - 1);
    }
  }

  /** All attempts together change the backend at most once, and only if the result is `Committed`. */
  lemma AtMostOneChange(w: World, base: nat, closures: nat -> Closure, schedule: seq<seq<Step>>)
    requires |schedule| == MAX_ATTEMPTS && OwnIdsAreFree(w, base, schedule)
    ensures var ran := RunFrom(w, base, AttemptsOf(base, closures, schedule), 0);
            && ran.calls <= MAX_ATTEMPTS
            && ran.world == Run(w, Trace(base, closures, schedule, ran.calls))
            && OwnChanges(w, Trace(base, closures, schedule, ran.calls), base, base + MAX_ATTEMPTS)
               <= if ran.result.Finished? && ran.result.result.Committed? then 1 else 0
  {
    RunTrxReturns(w, base, closures, schedule);
    var ran := RunFrom(w, base, AttemptsOf(base, closures, schedule), 0);
    ReturnedChanges(w, base, Trace(base, closures, schedule, ran.calls), ran.world, ran.result, ran.calls);
  }

  lemma ReturnedChanges(w: World, base: nat, trace: seq<Step>, v: World, result: RunResult, calls: nat)
    requires v == Run(w, trace) && Returned(v, base, result, calls)
    ensures OwnChanges(w, trace, base, base + MAX_ATTEMPTS)
            <= if result.Finished? && result.result.Committed? then 1 else 0
  {
    forall id | base <= id < base + MAX_ATTEMPTS && id != base + calls - 1 ensures !HasCommitted(v, id) {
      if id < base + calls - 1 {
        assert HasConflicted(v, id);
      }
    }
    ChangesAreCommits(w, trace, base, base + MAX_ATTEMPTS);
    OnlyLastCounts(v, base, base + calls - 1, base + MAX_ATTEMPTS);
  }

  /** If only `last` can have committed, the count is at most one. */
  lemma {:induction false} OnlyLastCounts(v: World, lo: nat, last: nat, hi: nat)
    requires lo <= hi
    requires forall id :: lo <= id < hi && id != last ==> !HasCommitted(v, id)
    ensures CommittedCount(v, lo, hi) <= if lo <= last < hi && HasCommitted(v, last) then 1 else 0
    decreases hi
  {
    if lo < hi {
      OnlyLastCounts(v, lo, last, hi - 1);
    }
  }
}

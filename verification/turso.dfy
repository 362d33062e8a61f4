/**
 The Turso backend: the same `transact`, carried out as SQL statements inside a
 server-side transaction that the client addresses by a baton
 (doc-db/src/turso/transaction.rs:7-22, 135-398, doc-db/src/turso.rs:4).

 Every pipeline request can be lost, answered with errors for any of its
 statements, answered without some results (whether or not the statements behind them
 ran), or answered without a baton.
 */
module Turso {
  import opened DocTypes
  import opened MemoryStore

  // ---- The server ------------------------------------------------------------

  datatype Stmt =
    | SelectVersion(key: Key)
    | SelectOne(key: Key)
    | UpsertStmt(key: Key, data: Data)
    | DeleteStmt(key: Key)
    | CommitStmt
    | RollbackStmt
    | CloseStmt

  /** SQLite turns an integer sum that overflows into a floating-point value. */
  datatype Value = Integer(value: int) | Real

  datatype StmtResult = StmtResult(rows: seq<seq<Value>>)

  datatype StreamResult = ResultOk(result: StmtResult) | CloseOk | ResultError | ResultNone

  /** `working` is the state inside the open write transaction. */
  datatype Server = Server(committed: Store, working: Option<Store>)

  function VersionValue(version: int): Value {
    if I64_MIN <= version <= I64_MAX then Integer(version) else Real
  }

  /** `version + 1` in SQL: past `i64::MAX` the stored value is a float that no longer grows. */
  function SqlIncrement(version: int): int {
    if version <= I64_MAX then version + 1 else version
  }

  function SqlUpsert(store: Store, key: Key, data: Data): Store {
    store[key := MemDoc(data, if key in store then SqlIncrement(store[key].version) else 0)]
  }

  function Exec(server: Server, stmt: Stmt): Server {
    match server.working
    case None => server
    case Some(store) =>
      match stmt
      case UpsertStmt(key, data) => server.(working := Some(SqlUpsert(store, key, data)))
      case DeleteStmt(key) => server.(working := Some(store - {key}))
      case CommitStmt => Server(store, None)
      case RollbackStmt => server.(working := None)
      case _ => server
  }

  function Rows(store: Store, stmt: Stmt): seq<seq<Value>> {
    match stmt
    case SelectVersion(key) => if key in store then [[VersionValue(store[key].version)]] else []
    case SelectOne(key) => if key in store then [[Integer(1)]] else []
    case _ => []
  }

  function AnswerOf(server: Server, stmt: Stmt): StreamResult {
    if stmt.CloseStmt? then CloseOk
    else ResultOk(StmtResult(if server.working.Some? then Rows(server.working.value, stmt) else []))
  }

  /** The statements in order, without those that do not run. */
  function ExecAll(server: Server, stmts: seq<Stmt>, unrun: set<nat>): Server {
    if stmts == [] then server
    else
      var last := |stmts| - 1;
      var before := ExecAll(server, stmts[..last], unrun);
      if last in unrun then before else Exec(before, stmts[last])
  }

  /**
   What becomes of one pipeline request. Of the statements that were replied to, the
   `bad` ones report an error and have no effect, the `silent` ones run and have no
   result in the reply, and the `skipped` ones neither run nor have a result.
   */
  datatype Delivery =
    | Lost
    | ReplyLost(lost: set<nat>)
    | Replied(bad: set<nat>, silent: set<nat>, skipped: set<nat>, keepsBaton: bool)
  {
    /** The statements that did not run. */
    function Unrun(): set<nat>
      requires !Lost?
    {
      if ReplyLost? then lost else bad + skipped
    }
  }

  const CLEAN: Delivery := Replied({}, {}, {}, true)

  function Answers(server: Server, stmts: seq<Stmt>, d: Delivery): seq<StreamResult>
    requires d.Replied?
  {
    seq(|stmts|, i requires 0 <= i < |stmts| =>
      if i in d.bad then ResultError
      else if i in d.silent || i in d.skipped then ResultNone
      else AnswerOf(ExecAll(server, stmts[..i], d.Unrun()), stmts[i]))
  }

  // ---- What the statements are asked to decide ----------------------------------

  function ValidationStmt(condition: Condition): Stmt {
    if condition.NotExists? then SelectOne(condition.key) else SelectVersion(condition.key)
  }

  function WriteStmt(mutation: Mutation): Stmt {
    match mutation
    case PutDoc(key, data) => UpsertStmt(key, data)
    case DeleteDoc(key) => DeleteStmt(key)
  }

  /** `condition_holds` on the rows a validation statement returned. */
  function RowsSay(condition: Condition, result: StmtResult): Result<bool> {
    match condition
    case NotExists(_) => Ok(result.rows == [])
    case Exists(_) => Ok(result.rows != [])
    case RevisionEquals(_, expected) =>
      match RevisionToBackend(expected)
      case Err => Err
      case Ok(version) =>
        Ok(result.rows != [] && result.rows[0] != [] && result.rows[0][0] == Integer(version))
  }

  /** First condition, from `start`, that its own rows deny. */
  function CheckRows(conditions: seq<Condition>, results: seq<StmtResult>, start: nat): Result<Option<nat>>
    requires start <= |conditions| == |results|
    decreases |conditions| - start
  {
    if start == |conditions| then Ok(None)
    else match RowsSay(conditions[start], results[start])
      case Err => Err
      case Ok(holds) => if holds then CheckRows(conditions, results, start + 1) else Ok(Some(start))
  }

  function SelectAll(store: Store, conditions: seq<Condition>): seq<StmtResult> {
    seq(|conditions|, i requires 0 <= i < |conditions| => StmtResult(Rows(store, ValidationStmt(conditions[i]))))
  }

  function SqlCheck(store: Store, conditions: seq<Condition>): Result<Option<nat>> {
    CheckRows(conditions, SelectAll(store, conditions), 0)
  }

  function SqlApply(store: Store, mutations: seq<Mutation>): Store
    decreases |mutations|
  {
    if mutations == [] then store
    else
      var before := SqlApply(store, mutations[..|mutations| - 1]);
      match mutations[|mutations| - 1]
      case PutDoc(key, data) => SqlUpsert(before, key, data)
      case DeleteDoc(key) => before - {key}
  }

  /** What a run of the client without faults computes. */
  function SqlTransact(store: Store, request: Request): Transacted {
    match SqlCheck(store, request.conditions)
    case Err => Transacted(Err, store)
    case Ok(Some(index)) => Transacted(Ok(Outcome(Some(index))), store)
    case Ok(None) => Transacted(Ok(Outcome(None)), SqlApply(store, request.mutations))
  }

  // ---- Lemmas about pipelines ------------------------------------------------------

  function Validations(conditions: seq<Condition>): seq<Stmt> {
    seq(|conditions|, i requires 0 <= i < |conditions| => ValidationStmt(conditions[i]))
  }

  function Writes(mutations: seq<Mutation>): seq<Stmt> {
    seq(|mutations|, i requires 0 <= i < |mutations| => WriteStmt(mutations[i]))
  }

  ghost predicate Harmless(stmt: Stmt) {
    !stmt.CommitStmt?
  }

  /** Only COMMIT moves anything into the committed state. */
  lemma {:induction false} HarmlessKeepsCommitted(server: Server, stmts: seq<Stmt>, unrun: set<nat>)
    requires forall i :: 0 <= i < |stmts| ==> Harmless(stmts[i])
    ensures ExecAll(server, stmts, unrun).committed == server.committed
  {
    if stmts != [] {
      HarmlessKeepsCommitted(server, stmts[..|stmts| - 1], unrun);
    }
  }

  /** Only COMMIT and ROLLBACK end the server-side transaction. */
  lemma {:induction false} WritesKeepItOpen(server: Server, mutations: seq<Mutation>, unrun: set<nat>)
    requires server.working.Some?
    ensures ExecAll(server, Writes(mutations), unrun).working.Some?
    decreases |mutations|
  {
    if mutations != [] {
      var init := mutations[..|mutations| - 1];
      assert Writes(mutations)[..|mutations| - 1] == Writes(init);
      WritesKeepItOpen(server, init, unrun);
    }
  }

  lemma {:induction false} SelectsChangeNothing(server: Server, conditions: seq<Condition>, unrun: set<nat>, n: nat)
    requires n <= |conditions|
    ensures ExecAll(server, Validations(conditions)[..n], unrun) == server
  {
    if n > 0 {
      var stmts := Validations(conditions)[..n];
      assert stmts[..n - 1] == Validations(conditions)[..n - 1];
      SelectsChangeNothing(server, conditions, unrun, n - 1);
    }
  }

  lemma {:induction false} WritesApply(server: Server, store: Store, mutations: seq<Mutation>)
    requires server.working == Some(store)
    ensures ExecAll(server, Writes(mutations), {}) == server.(working := Some(SqlApply(store, mutations)))
    decreases |mutations|
  {
    if mutations != [] {
      var init := mutations[..|mutations| - 1];
      assert Writes(mutations)[..|mutations| - 1] == Writes(init);
      WritesApply(server, store, init);
    }
  }

  /** The results `execute_statements` collects from a response. */
  function Collected(results: seq<StreamResult>): (r: Result<seq<StmtResult>>)
    ensures r.Ok? ==> |r.value| <= |results|
  {
    if results == [] then Ok([])
    else match Collected(results[..|results| - 1])
      case Err => Err
      case Ok(rest) =>
        match results[|results| - 1]
        case ResultOk(result) => Ok(rest + [result])
        case ResultError => Err
        case _ => Ok(rest)
  }

  lemma {:induction false} CollectedAll(results: seq<StreamResult>)
    requires Collected(results).Ok? && |Collected(results).value| == |results|
    ensures forall i :: 0 <= i < |results| ==> results[i] == ResultOk(Collected(results).value[i])
  {
    if results != [] {
      CollectedAll(results[..|results| - 1]);
    }
  }

  lemma {:induction false} CollectedNoErrors(results: seq<StreamResult>, i: nat)
    requires Collected(results).Ok? && i < |results|
    ensures !results[i].ResultError?
  {
    if i < |results| - 1 {
      CollectedNoErrors(results[..|results| - 1], i);
    }
  }

  lemma NoBadAnswers(server: Server, stmts: seq<Stmt>, d: Delivery)
    requires d.Replied? && Collected(Answers(server, stmts, d)).Ok?
    ensures !Faulty(d, |stmts|)
  {
    forall i | 0 <= i < |stmts| ensures i !in d.bad {
      CollectedNoErrors(Answers(server, stmts, d), i);
    }
  }

  lemma {:induction false} CollectedFails(results: seq<StreamResult>, i: nat)
    requires i < |results| && results[i].ResultError?
    ensures Collected(results).Err?
  {
    if i < |results| - 1 {
      CollectedFails(results[..|results| - 1], i);
    }
  }

  lemma {:induction false} CollectedClean(results: seq<StreamResult>)
    requires forall i :: 0 <= i < |results| ==> results[i].ResultOk?
    ensures Collected(results).Ok? && |Collected(results).value| == |results|
  {
    if results != [] {
      CollectedClean(results[..|results| - 1]);
    }
  }

  /** The loop of `execute_statements`: the results of a response, or an error at the first one reported. */
  method Collect(all: seq<StreamResult>) returns (collected: Result<seq<StmtResult>>)
    ensures collected == Collected(all)
  {
    var results: seq<StmtResult> := [];
    for i := 0 to |all|
      invariant Collected(all[..i]) == Ok(results)
    {
      assert all[..i + 1][..i] == all[..i];
      match all[i]
      case ResultOk(result) => results := results + [result];
      case ResultError =>
        CollectedFails(all, i);
        return Err;
      case _ =>
    }
    assert all[..|all|] == all;
    return Ok(results);
  }

  // ---- The client ----------------------------------------------------------------

  /** COMMIT took effect although the client is told that something went wrong. */
  ghost predicate Unacknowledged(delivery: Delivery) {
    && !delivery.Lost? && 0 !in delivery.Unrun()
    && (delivery.Replied? ==> 1 in delivery.bad)
  }

  /** The client is told of no error although COMMIT did not run. */
  ghost predicate Unperformed(delivery: Delivery) {
    && delivery.Replied?
    && 0 in delivery.skipped && 0 !in delivery.bad && 1 !in delivery.bad
  }

  ghost predicate Faulty(delivery: Delivery, count: nat) {
    !delivery.Replied? || exists i :: 0 <= i < count && i in delivery.bad
  }

  /** The first statement of the request, COMMIT or ROLLBACK, took effect. */
  predicate Ran(delivery: Delivery) {
    !delivery.Lost? && 0 !in delivery.Unrun()
  }

  predicate LosesBaton(delivery: Delivery) {
    !delivery.Replied? || !delivery.keepsBaton
  }

  /** The requests sent before COMMIT: one for the conditions and one for the mutations, if there are any. */
  function Requests(request: Request): nat {
    (if request.conditions == [] then 0 else 1) + (if request.mutations == [] then 0 else 1)
  }

  ghost predicate CleanFor(delivery: nat -> Delivery, from: nat, count: nat) {
    forall n :: from <= n < from + count ==> delivery(n) == CLEAN
  }

  ghost predicate AlwaysClean(delivery: nat -> Delivery) {
    forall n :: delivery(n) == CLEAN
  }

  datatype Response = Response(results: seq<StreamResult>, baton: bool)

  class TursoTransaction {
    var baton: bool
    var server: Server
    const delivery: nat -> Delivery
    var calls: nat
    /** The fate of the COMMIT request, once one was sent. */
    ghost var committing: Option<Delivery>
    /** The fate of the ROLLBACK request, once one was sent. */
    ghost var rolling: Option<Delivery>
    /** Some request was lost or some statement reported an error. */
    ghost var faulted: bool

    constructor (store: Store, delivery: nat -> Delivery)
      ensures baton && server == Server(store, Some(store)) && calls == 0
      ensures this.delivery == delivery && committing == None && rolling == None && !faulted
    {
      baton := true;
      server := Server(store, Some(store));
      this.delivery := delivery;
      calls := 0;
      committing, rolling := None, None;
      faulted := false;
    }

    /** The baton is gone while the request is out and comes back only with a reply. */
    method ExecuteInTx(stmts: seq<Stmt>) returns (response: Result<Response>)
      modifies `baton, `server, `calls, `faulted
      ensures !old(baton) ==> response.Err? && server == old(server) && calls == old(calls) && !baton && faulted == old(faulted)
      ensures old(baton) ==>
                && calls == old(calls) + 1
                && faulted == (old(faulted) || Faulty(delivery(old(calls)), |stmts|))
                && var d := delivery(old(calls));
                   && server == (if d.Lost? then old(server) else ExecAll(old(server), stmts, d.Unrun()))
                   && (response.Ok? <==> d.Replied?)
                   && (d.Replied? ==> response.value == Response(Answers(old(server), stmts, d), d.keepsBaton))
                   && baton == (d.Replied? && d.keepsBaton)
    {
      if !baton {
        return Err;
      }
      baton := false;
      var d := delivery(calls);
      faulted := faulted || Faulty(d, |stmts|);
      calls := calls + 1;
      match d
      case Lost =>
        return Err;
      case ReplyLost(_) =>
        server := ExecAll(server, stmts, d.Unrun());
        return Err;
      case Replied(_, _, _, keepsBaton) =>
        var results := Answers(server, stmts, d);
        server := ExecAll(server, stmts, d.Unrun());
        baton := keepsBaton;
        return Ok(Response(results, keepsBaton));
    }

    method ExecuteStatements(stmts: seq<Stmt>) returns (collected: Result<seq<StmtResult>>)
      modifies `baton, `server, `calls, `faulted
      ensures !old(baton) ==> collected.Err? && server == old(server) && calls == old(calls) && !baton && faulted == old(faulted)
      ensures old(baton) ==>
                && calls == old(calls) + 1
                && faulted == (old(faulted) || Faulty(delivery(old(calls)), |stmts|))
                && var d := delivery(old(calls));
                   && server == (if d.Lost? then old(server) else ExecAll(old(server), stmts, d.Unrun()))
                   && baton == (d.Replied? && d.keepsBaton)
                   && collected == (if d.Replied? then Collected(Answers(old(server), stmts, d)) else Err)
      ensures collected.Ok? ==> faulted == old(faulted)
    {
      var response := ExecuteInTx(stmts);
      if response.Err? {
        return Err;
      }
      collected := Collect(response.value.results);
      if collected.Ok? {
        NoBadAnswers(old(server), stmts, delivery(old(calls)));
      }
    }

    method ValidateConditions(conditions: seq<Condition>) returns (conflict: Result<Option<nat>>)
      requires server.working.Some?
      modifies `baton, `server, `calls, `faulted
      ensures server == old(server)
      ensures conflict.Ok? ==> conflict == SqlCheck(server.working.value, conditions) && faulted == old(faulted)
      ensures conditions == [] ==> conflict == Ok(None) && baton == old(baton) && calls == old(calls)
      ensures !old(baton) ==> !baton && calls == old(calls)
      ensures old(baton) && conditions != [] ==> calls == old(calls) + 1 && baton == !LosesBaton(delivery(old(calls)))
      ensures old(baton) && delivery(old(calls)) == CLEAN && conditions != [] ==>
                conflict == SqlCheck(server.working.value, conditions) && baton && calls == old(calls) + 1
    {
      if conditions == [] {
        return Ok(None);
      }
      var stmts := Validations(conditions);
      assert stmts[..|conditions|] == stmts;
      ghost var d := delivery(calls);
      var store := server.working.value;
      if d.ReplyLost? || d.Replied? {
        SelectsChangeNothing(server, conditions, d.Unrun(), |conditions|);
      }
      if d.Replied? {
        ValidationAnswers(server, store, conditions, d);
      }
      var results := ExecuteStatements(stmts);
      if results.Err? || |results.value| != |conditions| {
        return Err;
      }
      assert results.value == SelectAll(store, conditions);
      for i := 0 to |conditions|
        invariant SqlCheck(store, conditions) == CheckRows(conditions, results.value, i)
      {
        var holds := RowsSay(conditions[i], results.value[i]);
        match holds
        case Err => return Err;
        case Ok(h) =>
          if !h {
            return Ok(Some(i));
          }
      }
      return Ok(None);
    }

    method ApplyMutations(mutations: seq<Mutation>) returns (applied: Result<()>)
      requires server.working.Some?
      modifies `baton, `server, `calls, `faulted
      ensures server.committed == old(server).committed
      ensures applied.Ok? ==> server == old(server).(working := Some(SqlApply(old(server).working.value, mutations)))
      ensures applied.Ok? ==> faulted == old(faulted)
      ensures server.working.Some?
      ensures mutations == [] ==> applied.Ok? && baton == old(baton) && calls == old(calls)
      ensures !old(baton) ==> !baton && calls == old(calls)
      ensures old(baton) && mutations != [] ==> calls == old(calls) + 1 && baton == !LosesBaton(delivery(old(calls)))
      ensures old(baton) && delivery(old(calls)) == CLEAN && mutations != [] ==>
                applied.Ok? && baton && calls == old(calls) + 1
    {
      if mutations == [] {
        return Ok(());
      }
      var stmts := Writes(mutations);
      ghost var d := delivery(calls);
      ghost var store := server.working.value;
      if d.ReplyLost? || d.Replied? {
        HarmlessKeepsCommitted(server, stmts, d.Unrun());
        WritesKeepItOpen(server, mutations, d.Unrun());
      }
      WritesApply(server, store, mutations);
      if d.Replied? {
        WriteAnswers(server, store, mutations, d);
      }
      var results := ExecuteStatements(stmts);
      if results.Err? || |results.value| != |mutations| {
        return Err;
      }
      return Ok(());
    }

    method Commit() returns (done: Result<()>)
      requires server.working.Some?
      modifies `baton, `server, `calls, `faulted, `committing
      ensures committing == if old(baton) then Some(delivery(old(calls))) else old(committing)
      ensures calls == old(calls) + if old(baton) then 1 else 0
      ensures !old(baton) || done.Ok? ==> !baton
      ensures server == if old(baton) && Ran(delivery(old(calls))) then Server(old(server).working.value, None)
                        else old(server)
      ensures done.Ok? ==> old(baton) && faulted == old(faulted)
      ensures done.Ok? ==> (Ran(committing.value) <==> !Unperformed(committing.value))
      ensures old(baton) && Unperformed(committing.value) ==> done.Ok?
      ensures done.Err? && old(baton) ==> (Ran(committing.value) <==> Unacknowledged(committing.value))
      ensures old(baton) && Unacknowledged(committing.value) ==> done.Err?
      ensures old(baton) && delivery(old(calls)) == CLEAN ==> done.Ok?
    {
      var stmts := [CommitStmt, CloseStmt];
      if baton {
        committing := Some(delivery(calls));
      }
      CommitPipeline(server, if delivery(calls).Lost? then {} else delivery(calls).Unrun());
      var response := ExecuteInTx(stmts);
      if response.Err? {
        return Err;
      }
      for i := 0 to |response.value.results|
        invariant forall j :: 0 <= j < i ==> !response.value.results[j].ResultError?
      {
        if response.value.results[i].ResultError? {
          return Err;
        }
      }
      assert !response.value.results[0].ResultError? && !response.value.results[1].ResultError?;
      baton := false;
      return Ok(());
    }

    /** One request that discards the open transaction wherever it takes effect. */
    method Rollback() returns (done: Result<()>)
      modifies `baton, `server, `calls, `faulted, `rolling
      ensures rolling == if old(baton) then Some(delivery(old(calls))) else old(rolling)
      ensures calls == old(calls) + if old(baton) then 1 else 0
      ensures !old(baton) || done.Ok? ==> !baton
      ensures server == if old(baton) && Ran(delivery(old(calls))) then old(server).(working := None) else old(server)
      ensures done.Ok? <==> old(baton) && !Faulty(delivery(old(calls)), 2)
      ensures done.Ok? ==> faulted == old(faulted)
    {
      var stmts := [RollbackStmt, CloseStmt];
      if baton {
        rolling := Some(delivery(calls));
      }
      RollbackPipeline(server, if delivery(calls).Lost? then {} else delivery(calls).Unrun());
      var response := ExecuteInTx(stmts);
      if response.Err? {
        return Err;
      }
      for i := 0 to |response.value.results|
        invariant forall j :: 0 <= j < i ==> !response.value.results[j].ResultError?
      {
        if response.value.results[i].ResultError? {
          return Err;
        }
      }
      assert !response.value.results[0].ResultError? && !response.value.results[1].ResultError?;
      baton := false;
      return Ok(());
    }

    /**
     Validate, apply, commit, rolling back after any failure. A reported outcome is the
     outcome and effect of `SqlTransact`, except when the reply to COMMIT had no result
     for it because it did not run: `commit` does not count results, so a commit is
     reported and nothing was changed. A reported error leaves the committed state
     unchanged, except when COMMIT ran and the client is told of an error or of nothing;
     then all of the mutations are in. Any lost request and any statement error is
     reported as an error, and without faults the two agree on errors as well.

     The server-side transaction is closed exactly when a COMMIT or a ROLLBACK ran. One
     of the two is always sent unless there is no baton to send it with, because there
     was none to begin with or the last request did not bring it back. A conflict is
     only reported after a ROLLBACK without an error.
     */
    method Transact(request: Request) returns (outcome: Result<Outcome>)
      requires server.working == Some(server.committed) && committing.None? && rolling.None?
      modifies this
      ensures server.working.None? <==>
              || (committing.Some? && Ran(committing.value))
              || (rolling.Some? && Ran(rolling.value))
      ensures committing.None? && rolling.None? ==>
                !baton && (old(baton) ==> old(calls) < calls && LosesBaton(delivery(calls - 1)))
      ensures outcome.Ok? && outcome.value.conflict.Some? ==> rolling.Some? && !Faulty(rolling.value, 2)
      ensures outcome == Ok(Outcome(None)) ==> committing.Some?
      ensures outcome.Ok? ==>
                && outcome == SqlTransact(old(server).committed, request).outcome
                && server.committed == (if committing.Some? && Unperformed(committing.value) then old(server).committed
                                        else SqlTransact(old(server).committed, request).store)
      ensures outcome.Err? ==>
                server.committed == if committing.Some? && Unacknowledged(committing.value)
                                    then SqlTransact(old(server).committed, request).store else old(server).committed
      ensures committing.Some? ==> SqlTransact(old(server).committed, request).outcome == Ok(Outcome(None))
      ensures committing.Some? && Unacknowledged(committing.value) ==> outcome.Err?
      ensures committing.Some? && Unperformed(committing.value) ==> outcome == Ok(Outcome(None))
      ensures outcome.Ok? ==> faulted == old(faulted)
      ensures old(baton) && AlwaysClean(delivery) ==>
                outcome == SqlTransact(old(server).committed, request).outcome
      ensures old(baton) && SqlTransact(old(server).committed, request).outcome == Ok(Outcome(None))
              && CleanFor(delivery, old(calls), Requests(request)) ==>
                committing == Some(delivery(old(calls) + Requests(request)))
    {
      ghost var clean := baton && AlwaysClean(delivery);
      assert clean ==> delivery(calls) == CLEAN;
      var validation := ValidateConditions(request.conditions);
      assert clean ==> validation == SqlCheck(old(server).committed, request.conditions);
      if validation.Err? {
        var rolledBack := Rollback();
        return Err;
      }
      if validation.value.Some? {
        var rolledBack := Rollback();
        if rolledBack.Err? {
          return Err;
        }
        return Ok(Outcome(validation.value));
      }
      var applied := ApplyMutations(request.mutations);
      if applied.Err? {
        var rolledBack := Rollback();
        return Err;
      }
      var done := Commit();
      if done.Err? {
        return Err;
      }
      return Ok(Outcome(None));
    }
  }

  /**
   A reply without a result for COMMIT, which did not run, makes the client report a
   commit that never happened, for every store and every document.
   */
  method CommitReportedWithoutResult(store: Store, key: Key, data: Data) returns (outcome: Result<Outcome>, committed: Store)
    requires key in store ==> store[key].version <= I64_MAX
    ensures outcome == Ok(Outcome(None)) && committed == store
    ensures SqlTransact(store, Request([], [PutDoc(key, data)])).store != store
  {
    var request := Request([], [PutDoc(key, data)]);
    var delivery := (n: nat) => if n == 0 then CLEAN else Replied({}, {}, {0}, true);
    var tx := new TursoTransaction(store, delivery);
    assert Requests(request) == 1 && Unperformed(delivery(1));
    outcome := tx.Transact(request);
    committed := tx.server.committed;
    UpsertChanges(store, key, data);
  }

  lemma UpsertChanges(store: Store, key: Key, data: Data)
    requires key in store ==> store[key].version <= I64_MAX
    ensures SqlApply(store, [PutDoc(key, data)]) != store
  {
    assert [PutDoc(key, data)][..0] == [];
    assert SqlApply(store, []) == store;
    var after := SqlUpsert(store, key, data);
    assert key in after && (key in store ==> after[key].version != store[key].version);
  }

  lemma CommitPipeline(server: Server, unrun: set<nat>)
    requires server.working.Some?
    ensures var after := ExecAll(server, [CommitStmt, CloseStmt], unrun);
            after == if 0 in unrun then server else Server(server.working.value, None)
  {
    var stmts := [CommitStmt, CloseStmt];
    assert stmts[..1] == [CommitStmt] && stmts[..1][..0] == [];
    assert ExecAll(server, stmts[..1][..0], unrun) == server;
    assert ExecAll(server, stmts[..1], unrun) == if 0 in unrun then server else Server(server.working.value, None);
  }

  lemma RollbackPipeline(server: Server, unrun: set<nat>)
    ensures var after := ExecAll(server, [RollbackStmt, CloseStmt], unrun);
            after == if 0 in unrun then server else server.(working := None)
  {
    var stmts := [RollbackStmt, CloseStmt];
    assert stmts[..1] == [RollbackStmt] && stmts[..1][..0] == [];
    assert ExecAll(server, stmts[..1][..0], unrun) == server;
    assert ExecAll(server, stmts[..1], unrun) == if 0 in unrun then server else server.(working := None);
  }

  lemma ValidationAnswers(server: Server, store: Store, conditions: seq<Condition>, d: Delivery)
    requires server.working == Some(store) && d.Replied?
    ensures var collected := Collected(Answers(server, Validations(conditions), d));
            && (collected.Ok? && |collected.value| == |conditions| ==> collected.value == SelectAll(store, conditions))
            && (d == CLEAN ==> collected == Ok(SelectAll(store, conditions)))
  {
    var stmts := Validations(conditions);
    var answers := Answers(server, stmts, d);
    forall i | 0 <= i < |stmts| && i !in d.bad && i !in d.silent && i !in d.skipped
      ensures answers[i] == ResultOk(SelectAll(store, conditions)[i])
    {
      SelectsChangeNothing(server, conditions, d.Unrun(), i);
    }
    var collected := Collected(answers);
    if d == CLEAN {
      CollectedClean(answers);
    }
    if collected.Ok? && |collected.value| == |conditions| {
      CollectedAll(answers);
      forall i | 0 <= i < |conditions| ensures collected.value[i] == SelectAll(store, conditions)[i] {
        assert answers[i] == ResultOk(collected.value[i]);
      }
    }
  }

  /** As many results as statements mean that every statement ran. */
  lemma WriteAnswers(server: Server, store: Store, mutations: seq<Mutation>, d: Delivery)
    requires server.working == Some(store) && d.Replied?
    ensures var collected := Collected(Answers(server, Writes(mutations), d));
            && (collected.Ok? && |collected.value| == |mutations| ==>
                  ExecAll(server, Writes(mutations), d.Unrun()) == server.(working := Some(SqlApply(store, mutations))))
            && (d == CLEAN ==> collected.Ok? && |collected.value| == |mutations|)
  {
    var stmts := Writes(mutations);
    var answers := Answers(server, stmts, d);
    if d == CLEAN {
      CollectedClean(answers);
    }
    if Collected(answers).Ok? && |Collected(answers).value| == |mutations| {
      CollectedAll(answers);
      forall i | 0 <= i < |stmts| ensures i !in d.Unrun() {
        assert answers[i].ResultOk?;
      }
      NoErrorsNoDifference(server, stmts, d.Unrun());
      WritesApply(server, store, mutations);
    }
  }

  lemma {:induction false} NoErrorsNoDifference(server: Server, stmts: seq<Stmt>, unrun: set<nat>)
    requires forall i :: 0 <= i < |stmts| ==> i !in unrun
    ensures ExecAll(server, stmts, unrun) == ExecAll(server, stmts, {})
  {
    if stmts != [] {
      NoErrorsNoDifference(server, stmts[..|stmts| - 1], unrun);
    }
  }
}

/**
 One `transact`, two backends: what the SQL statements of the Turso client compute
 is what the in-memory backend computes, and exactly where the two part ways.
 */
module TursoRefinement {
  import opened DocTypes
  import opened MemoryStore
  import opened Turso

  /** All versions are ones that `i64` can hold; plain puts can wrap them below zero. */
  ghost predicate InRange(store: Store) {
    forall key :: key in store ==> I64_MIN <= store[key].version <= I64_MAX
  }

  predicate Unrepresentable(condition: Condition) {
    condition.RevisionEquals? && condition.expected > I64_MAX
  }

  /** What the rows say of one condition; a negative version is just another one that does not match. */
  lemma RowsAgree(store: Store, condition: Condition)
    requires InRange(store)
    ensures var memory := ConditionHolds(store, condition);
            RowsSay(condition, StmtResult(Rows(store, ValidationStmt(condition))))
            == if Unrepresentable(condition) then Err else if memory.Err? then Ok(false) else memory
    ensures Unrepresentable(condition) ==> ConditionHolds(store, condition) != Ok(true)
  {
  }

  /** What the statements make of the first condition that does not hold. */
  function Verdict(conditions: seq<Condition>, i: nat): Result<Option<nat>>
    requires i < |conditions|
  {
    if Unrepresentable(conditions[i]) then Err else Ok(Some(i))
  }

  /**
   The statements stop at the same condition as the memory backend and report it as the
   conflict, unless it names a revision no `i64` can hold. Where memory fails on a
   negative version, they report a conflict.
   */
  lemma {:induction false} CheckAgrees(store: Store, conditions: seq<Condition>, start: nat)
    requires InRange(store) && start <= |conditions|
    ensures var rows := CheckRows(conditions, SelectAll(store, conditions), start);
            match CheckConditions(store, conditions, start)
            case Ok(None) => rows == Ok(None)
            case Ok(Some(i)) => i < |conditions| && rows == Verdict(conditions, i)
            case Err => exists i :: FirstUnreadable(store, conditions, start, i) && rows == Verdict(conditions, i)
    decreases |conditions| - start
  {
    if start < |conditions| {
      RowsAgree(store, conditions[start]);
      CheckAgrees(store, conditions, start + 1);
      if ConditionHolds(store, conditions[start]).Err? {
        assert FirstUnreadable(store, conditions, start, start);
      } else if CheckConditions(store, conditions, start).Err? {
        var i :| FirstUnreadable(store, conditions, start + 1, i)
                 && CheckRows(conditions, SelectAll(store, conditions), start + 1) == Verdict(conditions, i);
        assert FirstUnreadable(store, conditions, start, i);
      }
    }
  }

  function SqlEffect(before: Option<MemDoc>, mutation: Option<Mutation>): Option<MemDoc> {
    match mutation
    case None => before
    case Some(DeleteDoc(_)) => None
    case Some(PutDoc(_, data)) => Some(MemDoc(data, if before.Some? then SqlIncrement(before.value.version) else 0))
  }

  lemma {:induction false} SqlApplyIsPointwise(store: Store, mutations: seq<Mutation>, key: Key)
    requires DistinctMutationKeys(mutations)
    ensures Lookup(SqlApply(store, mutations), key) == SqlEffect(Lookup(store, key), MutationOn(mutations, key))
    decreases |mutations|
  {
    if mutations != [] {
      var init, last := mutations[..|mutations| - 1], mutations[|mutations| - 1];
      SqlApplyIsPointwise(store, init, key);
      MutationOnLast(mutations, key);
    }
  }

  lemma MutationOnLast(mutations: seq<Mutation>, key: Key)
    requires DistinctMutationKeys(mutations) && mutations != []
    ensures var init, last := mutations[..|mutations| - 1], mutations[|mutations| - 1];
            && MutationOn(mutations, key) == (if last.key == key then Some(last) else MutationOn(init, key))
            && (last.key == key ==> MutationOn(init, key) == None)
  {
    var init, last := mutations[..|mutations| - 1], mutations[|mutations| - 1];
    MutationOnFinds(mutations, key);
    MutationOnFinds(init, key);
    assert mutations == init + [last];
    assert last in mutations;
    if last.key != key && MutationOn(init, key).Some? {
      assert MutationOn(init, key).value in mutations;
    }
  }

  lemma ApplyAgrees(store: Store, mutations: seq<Mutation>)
    requires DistinctMutationKeys(mutations) && !Overflows(store, mutations)
    ensures MemoryStore.ApplyMutations(store, mutations) == Ok(SqlApply(store, mutations))
  {
    ApplyIsPointwise(store, mutations);
    forall key
      ensures Lookup(MemoryStore.ApplyMutations(store, mutations).value, key) == Lookup(SqlApply(store, mutations), key)
    {
      SqlApplyIsPointwise(store, mutations, key);
      MutationOnFinds(mutations, key);
    }
    SameLookupsSameStore(MemoryStore.ApplyMutations(store, mutations).value, SqlApply(store, mutations));
  }

  /** The first condition to fail names a revision above `i64::MAX`. */
  ghost predicate FailsOnHugeRevision(store: Store, conditions: seq<Condition>) {
    exists i: nat :: LeastFailing(store, conditions, 0, i) && Unrepresentable(conditions[i])
  }

  /** Every condition holds and some put would raise a version past `i64::MAX`. */
  ghost predicate CommitsPastMax(store: Store, request: Request) {
    AllHold(store, request.conditions, 0) && Overflows(store, request.mutations)
  }

  /** The first condition not to hold asks for a representable revision where a negative version is stored. */
  ghost predicate FailsOnNegativeVersion(store: Store, conditions: seq<Condition>) {
    exists i: nat :: FirstUnreadable(store, conditions, 0, i) && !Unrepresentable(conditions[i])
  }

  lemma OneStoppingPlace(store: Store, conditions: seq<Condition>, i: nat, j: nat)
    requires FirstUnreadable(store, conditions, 0, i)
    requires FirstUnreadable(store, conditions, 0, j) || LeastFailing(store, conditions, 0, j)
    ensures i == j && !LeastFailing(store, conditions, 0, j)
  {
  }

  lemma AgreeWhenUnreadable(store: Store, request: Request)
    requires InRange(store) && CheckConditions(store, request.conditions, 0).Err?
    ensures SqlTransact(store, request) == MemoryStore.Transact(store, request) <==>
            !FailsOnNegativeVersion(store, request.conditions)
    ensures !FailsOnHugeRevision(store, request.conditions) && !AllHold(store, request.conditions, 0)
  {
    CheckAgrees(store, request.conditions, 0);
    var i: nat :| FirstUnreadable(store, request.conditions, 0, i)
                  && SqlCheck(store, request.conditions) == Verdict(request.conditions, i);
    forall j: nat | FirstUnreadable(store, request.conditions, 0, j) || LeastFailing(store, request.conditions, 0, j)
      ensures i == j && !LeastFailing(store, request.conditions, 0, j)
    {
      OneStoppingPlace(store, request.conditions, i, j);
    }
  }

  lemma AgreeWhenConflicting(store: Store, request: Request, index: nat)
    requires InRange(store) && CheckConditions(store, request.conditions, 0) == Ok(Some(index))
    ensures SqlTransact(store, request) == MemoryStore.Transact(store, request) <==>
            !FailsOnHugeRevision(store, request.conditions)
    ensures !FailsOnNegativeVersion(store, request.conditions) && !AllHold(store, request.conditions, 0)
  {
    CheckIsLeast(store, request.conditions, 0);
    CheckAgrees(store, request.conditions, 0);
    forall i: nat | LeastFailing(store, request.conditions, 0, i) ensures i == index {
    }
    forall i: nat ensures !FirstUnreadable(store, request.conditions, 0, i) {
    }
  }

  lemma AgreeWhenAllHold(store: Store, request: Request)
    requires InRange(store) && ValidRequest(request) && CheckConditions(store, request.conditions, 0) == Ok(None)
    ensures SqlTransact(store, request) == MemoryStore.Transact(store, request) <==> !CommitsPastMax(store, request)
    ensures !FailsOnHugeRevision(store, request.conditions) && !FailsOnNegativeVersion(store, request.conditions)
  {
    CheckIsLeast(store, request.conditions, 0);
    CheckAgrees(store, request.conditions, 0);
    ApplyIsPointwise(store, request.mutations);
    if !Overflows(store, request.mutations) {
      ApplyAgrees(store, request.mutations);
    }
    forall i: nat ensures !FirstUnreadable(store, request.conditions, 0, i) && !LeastFailing(store, request.conditions, 0, i) {
    }
  }

  /**
   On every store of `i64` versions and every valid request the two backends give the
   same outcome, the same conflict index and the same store, exactly when none of three
   boundaries is hit: a revision above `i64::MAX`, a version pushed past it, and a
   negative version.
   */
  lemma BackendsAgreeIff(store: Store, request: Request)
    requires InRange(store) && ValidRequest(request)
    ensures SqlTransact(store, request) == MemoryStore.Transact(store, request) <==>
            && !FailsOnHugeRevision(store, request.conditions)
            && !CommitsPastMax(store, request)
            && !FailsOnNegativeVersion(store, request.conditions)
  {
    match CheckConditions(store, request.conditions, 0)
    case Err =>
      AgreeWhenUnreadable(store, request);
    case Ok(Some(index)) =>
      AgreeWhenConflicting(store, request, index);
    case Ok(None) =>
      AgreeWhenAllHold(store, request);
  }

  /** The statements too give the same store and outcome in whatever order the mutations are listed. */
  lemma SqlOrderIrrelevant(store: Store, request: Request, permuted: seq<Mutation>)
    requires ValidRequest(request) && multiset(request.mutations) == multiset(permuted)
    ensures SqlTransact(store, request) == SqlTransact(store, request.(mutations := permuted))
  {
    PermutedKeysStayDistinct(request.mutations, permuted);
    forall key
      ensures Lookup(SqlApply(store, request.mutations), key) == Lookup(SqlApply(store, permuted), key)
    {
      SqlApplyIsPointwise(store, request.mutations, key);
      SqlApplyIsPointwise(store, permuted, key);
      SameMutationOn(request.mutations, permuted, key);
    }
    SameLookupsSameStore(SqlApply(store, request.mutations), SqlApply(store, permuted));
  }
}

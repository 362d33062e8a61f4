/**
 Shared value types of the document database: optional values, fallible results,
 document keys, revisions and the request and outcome types of one atomic
 `transact` call (doc-db/src/transaction.rs).
 */
module DocTypes {

  datatype Option<+T> = None | Some(value: T)

  /** A Rust `Result`; the text of an error is not modelled. */
  datatype Result<+T> = Ok(value: T) | Err

  newtype byte = x: int | 0 <= x < 256

  type Data = seq<byte>

  datatype Key = Key(pk: string, sk: string)

  /** A `DocDbRevision`: the `u64` a caller sees. */
  type Revision = nat

  const I64_MAX: int := 0x7FFF_FFFF_FFFF_FFFF
  const I64_MIN: int := -0x8000_0000_0000_0000
  /** One more than `u64` can hold. */
  const U64_LIMIT: nat := 0x1_0000_0000_0000_0000

  datatype Observed =
    | Present(data: Data, revision: Revision)
    | Missing(missingRevision: Option<Revision>)

  datatype Condition =
    | RevisionEquals(key: Key, expected: Revision)
    | Exists(key: Key)
    | NotExists(key: Key)

  datatype Mutation =
    | PutDoc(key: Key, data: Data)
    | DeleteDoc(key: Key)

  datatype Request = Request(conditions: seq<Condition>, mutations: seq<Mutation>)

  /** `TransactOutcome`: `conflict` carries the index of the condition that failed. */
  datatype Outcome = Outcome(conflict: Option<nat>)

  /** `revision_from_backend`: a negative stored version is an error. */
  function RevisionFromBackend(version: int): Result<Revision> {
    if version < 0 then Err else Ok(version)
  }

  /** `revision_to_backend`: a revision above `i64::MAX` cannot be represented. */
  function RevisionToBackend(revision: Revision): Result<int> {
    if revision > I64_MAX then Err else Ok(revision)
  }

  predicate DistinctConditionKeys(conditions: seq<Condition>) {
    forall i, j :: 0 <= i < j < |conditions| ==> conditions[i].key != conditions[j].key
  }

  predicate DistinctMutationKeys(mutations: seq<Mutation>) {
    forall i, j :: 0 <= i < j < |mutations| ==> mutations[i].key != mutations[j].key
  }

  predicate ValidRequest(request: Request) {
    DistinctConditionKeys(request.conditions) && DistinctMutationKeys(request.mutations)
  }

  /**
   `validate_transact_request`: two passes, each growing a set of keys already
   seen. It accepts exactly the requests whose condition keys are pairwise
   distinct and whose mutation keys are pairwise distinct.
   */
  method ValidateTransactRequest(request: Request) returns (result: Result<()>)
    ensures result.Ok? <==> ValidRequest(request)
  {
    var conditionKeys: set<Key> := {};
    for i := 0 to |request.conditions|
      invariant conditionKeys == set j | 0 <= j < i :: request.conditions[j].key
      invariant DistinctConditionKeys(request.conditions[..i])
    {
      var key := request.conditions[i].key;
      if key in conditionKeys {
        return Err;
      }
      conditionKeys := conditionKeys + {key};
    }
    assert request.conditions[..|request.conditions|] == request.conditions;

    var mutationKeys: set<Key> := {};
    for i := 0 to |request.mutations|
      invariant mutationKeys == set j | 0 <= j < i :: request.mutations[j].key
      invariant DistinctMutationKeys(request.mutations[..i])
    {
      var key := request.mutations[i].key;
      if key in mutationKeys {
        return Err;
      }
      mutationKeys := mutationKeys + {key};
    }
    assert request.mutations[..|request.mutations|] == request.mutations;
    return Ok(());
  }
}

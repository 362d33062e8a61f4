/**
 The document database as a guest reaches it: a remote client (doc-db/src/remote.rs)
 posts one frame per call, the runtime intercepts it (fn0/fn0/src/doc_db_hijack.rs), and
 the host database executes the operation (doc-db/src/lib.rs) and frames its answer.

 The host backend is any collection of operations on any state, and the JSON codec is any
 pair of printers and parsers that undo each other. Every frame that is posted arrives.
 */
module Rpc {
  import opened DocTypes

  const PROTOCOL_VERSION: nat := 1
  const MAX_FRAME_SIZE: nat := 16 * 1024 * 1024

  // ---- The database interface ----------------------------------------------------------

  datatype Call =
    | Get(key: Key)
    | Put(key: Key, data: Data)
    | Delete(key: Key)
    | Query(pk: string, afterSk: Option<string>, limit: nat)
    | Scan(after: Option<Key>, limit: nat)
    | GetObserved(key: Key)
    | Transact(request: Request)

  datatype Answer =
    | Found(document: Option<Data>)
    | Stored
    | Removed
    | Rows(rows: seq<(string, Data)>)
    | AllRows(allRows: seq<(Key, Data)>)
    | Saw(observed: Observed)
    | Decided(outcome: Outcome)

  /** A host backend: each operation may change the state and may fail. */
  datatype Host<!S> = Host(
    get: (S, Key) -> (S, Result<Option<Data>>),
    put: (S, Key, Data) -> (S, Result<()>),
    delete: (S, Key) -> (S, Result<()>),
    query: (S, string, Option<string>, nat) -> (S, Result<seq<(string, Data)>>),
    scan: (S, Option<Key>, nat) -> (S, Result<seq<(Key, Data)>>),
    getObserved: (S, Key) -> (S, Result<Observed>),
    transact: (S, Request) -> (S, Result<Outcome>))

  function MapResult<T, U>(r: Result<T>, f: T -> U): Result<U> {
    match r
    case Ok(value) => Ok(f(value))
    case Err => Err
  }

  /** A call made on the host database itself. */
  function Direct<S>(host: Host<S>, s: S, call: Call): (S, Result<Answer>) {
    match call
    case Get(key) => var (t, r) := host.get(s, key); (t, MapResult(r, v => Found(v)))
    case Put(key, data) => var (t, r) := host.put(s, key, data); (t, MapResult(r, v => Stored))
    case Delete(key) => var (t, r) := host.delete(s, key); (t, MapResult(r, v => Removed))
    case Query(pk, afterSk, limit) =>
      var (t, r) := host.query(s, pk, afterSk, limit); (t, MapResult(r, v => Rows(v)))
    case Scan(after, limit) =>
      var (t, r) := host.scan(s, after, limit); (t, MapResult(r, v => AllRows(v)))
    case GetObserved(key) => var (t, r) := host.getObserved(s, key); (t, MapResult(r, v => Saw(v)))
    case Transact(request) =>
      if !ValidRequest(request) then (s, Err)
      else var (t, r) := host.transact(s, request); (t, MapResult(r, v => Decided(v)))
  }

  // ---- The wire ------------------------------------------------------------------------

  datatype WireCondition =
    | WireRevisionEquals(key: Key, expected: Revision)
    | WireExists(key: Key)
    | WireNotExists(key: Key)

  datatype WireMutation = WirePut(key: Key, data: Data) | WireDelete(key: Key)

  datatype WireDocument = WireDocument(key: Key, data: Data)

  datatype WireObserved = WirePresent(data: Data, revision: Revision) | WireMissing(revision_: Option<Revision>)

  datatype WireOutcome = Committed | Conflict(conditionIndex: nat)

  datatype WireError = InvalidRequest | BackendFailed | UnsupportedVersion(version: nat) | Forbidden

  datatype Operation =
    | OpGet(key: Key)
    | OpPut(key: Key, data: Data)
    | OpDelete(key: Key)
    | OpQuery(pk: string, afterSk: Option<string>, limit: nat)
    | OpScan(after: Option<Key>, limit: nat)
    | OpGetObserved(key: Key)
    | OpTransact(conditions: seq<WireCondition>, mutations: seq<WireMutation>)
    | OpAdminPurge(projectId: string)

  datatype WireResult =
    | GetResult(data: Option<Data>)
    | PutResult
    | DeleteResult
    | QueryResult(documents: seq<WireDocument>)
    | ScanResult(documents: seq<WireDocument>)
    | ObservedResult(document: WireObserved)
    | TransactResult(outcome: WireOutcome)
    | PurgeResult(deletedRows: nat)
    | ErrorResult(error: WireError)

  datatype DocDbRequest = DocDbRequest(version: nat, operation: Operation)
  datatype DocDbResponse = DocDbResponse(version: nat, result: WireResult)

  function Respond(result: WireResult): DocDbResponse {
    DocDbResponse(PROTOCOL_VERSION, result)
  }

  /** `tooLarge` is the plain text of a refused frame. */
  datatype Codec = Codec(
    printRequest: DocDbRequest -> Result<seq<byte>>,
    parseRequest: seq<byte> -> Result<DocDbRequest>,
    printResponse: DocDbResponse -> Result<seq<byte>>,
    parseResponse: seq<byte> -> Result<DocDbResponse>,
    tooLarge: seq<byte>)

  ghost predicate Inverse(codec: Codec) {
    && (forall r :: codec.printRequest(r).Ok? ==> codec.parseRequest(codec.printRequest(r).value) == Ok(r))
    && (forall r :: codec.printResponse(r).Ok? ==> codec.parseResponse(codec.printResponse(r).value) == Ok(r))
    && codec.parseResponse(codec.tooLarge).Err?
  }

  // ---- The client's and the host's translations ------------------------------------------

  function ToWireCondition(c: Condition): WireCondition {
    match c
    case RevisionEquals(key, expected) => WireRevisionEquals(key, expected)
    case Exists(key) => WireExists(key)
    case NotExists(key) => WireNotExists(key)
  }

  function FromWireCondition(c: WireCondition): Condition {
    match c
    case WireRevisionEquals(key, expected) => RevisionEquals(key, expected)
    case WireExists(key) => Exists(key)
    case WireNotExists(key) => NotExists(key)
  }

  function ToWireMutation(m: Mutation): WireMutation {
    match m
    case PutDoc(key, data) => WirePut(key, data)
    case DeleteDoc(key) => WireDelete(key)
  }

  function FromWireMutation(m: WireMutation): Mutation {
    match m
    case WirePut(key, data) => PutDoc(key, data)
    case WireDelete(key) => DeleteDoc(key)
  }

  function Map<T, U>(xs: seq<T>, f: T -> U): seq<U> {
    seq(|xs|, i requires 0 <= i < |xs| => f(xs[i]))
  }

  function FromWireRequest(conditions: seq<WireCondition>, mutations: seq<WireMutation>): Request {
    Request(Map(conditions, FromWireCondition), Map(mutations, FromWireMutation))
  }

  function ToOperation(call: Call): Operation {
    match call
    case Get(key) => OpGet(key)
    case Put(key, data) => OpPut(key, data)
    case Delete(key) => OpDelete(key)
    case Query(pk, afterSk, limit) => OpQuery(pk, afterSk, limit)
    case Scan(after, limit) => OpScan(after, limit)
    case GetObserved(key) => OpGetObserved(key)
    case Transact(request) =>
      OpTransact(Map(request.conditions, ToWireCondition), Map(request.mutations, ToWireMutation))
  }

  function ToWireObserved(observed: Observed): WireObserved {
    match observed
    case Present(data, revision) => WirePresent(data, revision)
    case Missing(revision) => WireMissing(revision)
  }

  function ToWireOutcome(outcome: Outcome): WireOutcome {
    match outcome.conflict
    case Some(index) => Conflict(index)
    case None => Committed
  }

  /**
   `execute_semantic`: a limit that does not fit the host's `usize` and a request that
   does not validate are answered, not failed.
   */
  function ExecuteSemantic<S>(host: Host<S>, hostMax: nat, s: S, operation: Operation): (S, Result<DocDbResponse>) {
    match operation
    case OpGet(key) =>
      var (t, r) := host.get(s, key); (t, MapResult(r, v => Respond(GetResult(v))))
    case OpPut(key, data) =>
      var (t, r) := host.put(s, key, data); (t, MapResult(r, v => Respond(PutResult)))
    case OpDelete(key) =>
      var (t, r) := host.delete(s, key); (t, MapResult(r, v => Respond(DeleteResult)))
    case OpQuery(pk, afterSk, limit) =>
      if limit > hostMax then (s, Ok(Respond(ErrorResult(InvalidRequest)))) else
      var (t, r) := host.query(s, pk, afterSk, limit);
      (t, MapResult(r, v => Respond(QueryResult(Map(v, (row: (string, Data)) => WireDocument(Key(pk, row.0), row.1))))))
    case OpScan(after, limit) =>
      if limit > hostMax then (s, Ok(Respond(ErrorResult(InvalidRequest)))) else
      var (t, r) := host.scan(s, after, limit);
      (t, MapResult(r, v => Respond(ScanResult(Map(v, (row: (Key, Data)) => WireDocument(row.0, row.1))))))
    case OpGetObserved(key) =>
      var (t, r) := host.getObserved(s, key); (t, MapResult(r, v => Respond(ObservedResult(ToWireObserved(v)))))
    case OpTransact(conditions, mutations) =>
      var request := FromWireRequest(conditions, mutations);
      if !ValidRequest(request) then (s, Ok(Respond(ErrorResult(InvalidRequest)))) else
      var (t, r) := host.transact(s, request); (t, MapResult(r, v => Respond(TransactResult(ToWireOutcome(v)))))
    case OpAdminPurge(_) => (s, Ok(Respond(ErrorResult(InvalidRequest))))
  }

  // ---- The path of one frame -------------------------------------------------------------

  function Handle<S>(codec: Codec, host: Host<S>, hostMax: nat, s: S, body: seq<byte>): (S, DocDbResponse) {
    match codec.parseRequest(body)
    case Err => (s, Respond(ErrorResult(InvalidRequest)))
    case Ok(request) =>
      if request.version != PROTOCOL_VERSION then (s, Respond(ErrorResult(UnsupportedVersion(request.version))))
      else
        var (t, r) := ExecuteSemantic(host, hostMax, s, request.operation);
        match r
        case Ok(response) => (t, response)
        case Err => (t, Respond(ErrorResult(BackendFailed)))
  }

  function ResponseStatus(response: DocDbResponse): nat {
    match response.result
    case ErrorResult(InvalidRequest) => 400
    case ErrorResult(BackendFailed) => 500
    case ErrorResult(UnsupportedVersion(_)) => 505
    case ErrorResult(Forbidden) => 403
    case TransactResult(Conflict(_)) => 409
    case _ => 200
  }

  /**
   Which responses carry which status: only a conflict is answered with 409, only an
   error with 400, 403, 500 or 505, each kind with its own, and everything else with 200.
   */
  lemma StatusTells(response: DocDbResponse)
    ensures ResponseStatus(response) == 409 <==> response.result.TransactResult? && response.result.outcome.Conflict?
    ensures ResponseStatus(response) == 400 <==> response.result == ErrorResult(InvalidRequest)
    ensures ResponseStatus(response) == 403 <==> response.result == ErrorResult(Forbidden)
    ensures ResponseStatus(response) == 500 <==> response.result == ErrorResult(BackendFailed)
    ensures ResponseStatus(response) == 505 <==> response.result.ErrorResult? && response.result.error.UnsupportedVersion?
    ensures 200 <= ResponseStatus(response) < 300 <==> ResponseStatus(response) == 200
    ensures ResponseStatus(response) == 200 <==>
            !response.result.ErrorResult? && (response.result.TransactResult? ==> response.result.outcome.Committed?)
  {
  }

  /** The intercepted post: a status and a body, or no reply at all. */
  function Serve<S>(codec: Codec, host: Host<S>, hostMax: nat, s: S, body: seq<byte>): (S, Result<(nat, seq<byte>)>) {
    if |body| > MAX_FRAME_SIZE then (s, Ok((413, codec.tooLarge)))
    else
      var (t, response) := Handle(codec, host, hostMax, s, body);
      match codec.printResponse(response)
      case Err => (t, Err)
      case Ok(bytes) =>
        if |bytes| > MAX_FRAME_SIZE then (t, Ok((413, codec.tooLarge)))
        else (t, Ok((ResponseStatus(response), bytes)))
  }

  function ReadReply(codec: Codec, status: nat, body: seq<byte>): Result<DocDbResponse> {
    if |body| > MAX_FRAME_SIZE then Err
    else match codec.parseResponse(body)
      case Err => Err
      case Ok(response) =>
        if response.version != PROTOCOL_VERSION then Err
        else if !(200 <= status < 300) && !(response.result.TransactResult? && response.result.outcome.Conflict?) then Err
        else Ok(response)
  }

  function Execute<S>(codec: Codec, host: Host<S>, hostMax: nat, s: S, operation: Operation): (S, Result<DocDbResponse>) {
    match codec.printRequest(DocDbRequest(PROTOCOL_VERSION, operation))
    case Err => (s, Err)
    case Ok(body) =>
      if |body| > MAX_FRAME_SIZE then (s, Err)
      else
        var (t, reply) := Serve(codec, host, hostMax, s, body);
        match reply
        case Err => (t, Err)
        case Ok(statusAndBody) => (t, ReadReply(codec, statusAndBody.0, statusAndBody.1))
  }

  /** What the client makes of a response: any but the expected kind is an error. */
  function ToAnswer(call: Call, result: WireResult): Result<Answer> {
    match call
    case Get(_) => if result.GetResult? then Ok(Found(result.data)) else Err
    case Put(_, _) => if result.PutResult? then Ok(Stored) else Err
    case Delete(_) => if result.DeleteResult? then Ok(Removed) else Err
    case Query(pk, _, _) =>
      if !result.QueryResult? || exists i :: 0 <= i < |result.documents| && result.documents[i].key.pk != pk then Err
      else Ok(Rows(Map(result.documents, (d: WireDocument) => (d.key.sk, d.data))))
    case Scan(_, _) =>
      if !result.ScanResult? then Err
      else Ok(AllRows(Map(result.documents, (d: WireDocument) => (d.key, d.data))))
    case GetObserved(_) =>
      if !result.ObservedResult? then Err
      else (match result.document
            case WirePresent(data, revision) => Ok(Saw(Present(data, revision)))
            case WireMissing(revision) => Ok(Saw(Missing(revision))))
    case Transact(_) =>
      if !result.TransactResult? then Err
      else (match result.outcome
            case Committed => Ok(Decided(Outcome(None)))
            case Conflict(index) => Ok(Decided(Outcome(Some(index)))))
  }

  /** The same call made by a guest. */
  function Remote<S>(codec: Codec, host: Host<S>, hostMax: nat, s: S, call: Call): (S, Result<Answer>) {
    if call.Transact? && !ValidRequest(call.request) then (s, Err)
    else
      var (t, r) := Execute(codec, host, hostMax, s, ToOperation(call));
      match r
      case Err => (t, Err)
      case Ok(response) => (t, ToAnswer(call, response.result))
  }

  // ---- Transparency ------------------------------------------------------------------------

  lemma RequestSurvives(request: Request)
    ensures FromWireRequest(Map(request.conditions, ToWireCondition), Map(request.mutations, ToWireMutation)) == request
  {
    var conditions, mutations := Map(request.conditions, ToWireCondition), Map(request.mutations, ToWireMutation);
    assert Map(conditions, FromWireCondition) == request.conditions;
    assert Map(mutations, FromWireMutation) == request.mutations;
  }

  /** The limit of a call is a `usize` of the host. */
  predicate LimitFits(call: Call, hostMax: nat) {
    (call.Query? || call.Scan? ==> call.limit <= hostMax)
  }

  /** What the client would read if the host's response reached it. */
  function ReadResponse(call: Call, r: Result<DocDbResponse>): Result<Answer> {
    if r.Ok? && !r.value.result.ErrorResult? then ToAnswer(call, r.value.result) else Err
  }

  /** The translations undo each other around every operation, whatever the backend does. */
  lemma SemanticIsDirect<S>(host: Host<S>, hostMax: nat, s: S, call: Call)
    requires LimitFits(call, hostMax)
    ensures var (t, r) := ExecuteSemantic(host, hostMax, s, ToOperation(call));
            (t, ReadResponse(call, r)) == Direct(host, s, call)
    ensures var r := ExecuteSemantic(host, hostMax, s, ToOperation(call)).1;
            r.Ok? ==> r.value.version == PROTOCOL_VERSION
  {
    var (t, r) := ExecuteSemantic(host, hostMax, s, ToOperation(call));
    match call {
      case Query(pk, afterSk, limit) =>
        var rows := host.query(s, pk, afterSk, limit).1;
        if rows.Ok? {
          var documents := r.value.result.documents;
          assert Map(documents, (d: WireDocument) => (d.key.sk, d.data)) == rows.value;
        }
      case Scan(after, limit) =>
        var rows := host.scan(s, after, limit).1;
        if rows.Ok? {
          var documents := r.value.result.documents;
          assert Map(documents, (d: WireDocument) => (d.key, d.data)) == rows.value;
        }
      case Transact(request) =>
        RequestSurvives(request);
      case _ =>
    }
  }

  predicate RequestFits(codec: Codec, call: Call) {
    var body := codec.printRequest(DocDbRequest(PROTOCOL_VERSION, ToOperation(call)));
    body.Ok? && |body.value| <= MAX_FRAME_SIZE
  }

  /** The response the host frames for a call. */
  function Reply<S>(host: Host<S>, hostMax: nat, s: S, call: Call): DocDbResponse {
    match ExecuteSemantic(host, hostMax, s, ToOperation(call)).1
    case Ok(response) => response
    case Err => Respond(ErrorResult(BackendFailed))
  }

  predicate ReplyFits<S>(codec: Codec, host: Host<S>, hostMax: nat, s: S, call: Call) {
    var body := codec.printResponse(Reply(host, hostMax, s, call));
    body.Ok? && |body.value| <= MAX_FRAME_SIZE
  }

  lemma FrameArrives<S>(codec: Codec, host: Host<S>, hostMax: nat, s: S, call: Call)
    requires Inverse(codec) && RequestFits(codec, call)
    ensures var (t, r) := Execute(codec, host, hostMax, s, ToOperation(call));
            var reply := Reply(host, hostMax, s, call);
            && t == ExecuteSemantic(host, hostMax, s, ToOperation(call)).0
            && (!ReplyFits(codec, host, hostMax, s, call) ==> r.Err?)
            && (ReplyFits(codec, host, hostMax, s, call) ==>
                 r == ReadReply(codec, ResponseStatus(reply), codec.printResponse(reply).value)
                 && codec.parseResponse(codec.printResponse(reply).value) == Ok(reply))
  {
    var request := DocDbRequest(PROTOCOL_VERSION, ToOperation(call));
    assert codec.parseRequest(codec.printRequest(request).value) == Ok(request);
  }

  /**
   A call through the frames has the effect of the call made directly, and the same
   result exactly when both frames are within the size limit or the call fails anyway. A
   request that cannot be framed is refused before it reaches the host.
   */
  lemma RemoteIsDirect<S>(codec: Codec, host: Host<S>, hostMax: nat, s: S, call: Call)
    requires Inverse(codec) && LimitFits(call, hostMax)
    ensures var (t, direct) := Direct(host, s, call);
            var (u, remote) := Remote(codec, host, hostMax, s, call);
            && (RequestFits(codec, call) ==> u == t)
            && (!RequestFits(codec, call) ==> u == s && remote.Err?)
            && (remote == direct <==>
                 direct.Err? || (RequestFits(codec, call) && ReplyFits(codec, host, hostMax, s, call)))
  {
    SemanticIsDirect(host, hostMax, s, call);
    if RequestFits(codec, call) {
      FrameArrives(codec, host, hostMax, s, call);
    }
  }

  /** Purging a tenant is not an operation of the host database: it fails and changes nothing. */
  lemma PurgeIsRefused<S>(codec: Codec, host: Host<S>, hostMax: nat, s: S, projectId: string)
    requires Inverse(codec)
    ensures Execute(codec, host, hostMax, s, OpAdminPurge(projectId)) == (s, Err)
  {
    var request := DocDbRequest(PROTOCOL_VERSION, OpAdminPurge(projectId));
    var reply := Respond(ErrorResult(InvalidRequest));
    if codec.printRequest(request).Ok? && codec.printResponse(reply).Ok? {
      assert codec.parseRequest(codec.printRequest(request).value) == Ok(request);
      assert codec.parseResponse(codec.printResponse(reply).value) == Ok(reply);
    }
  }
}

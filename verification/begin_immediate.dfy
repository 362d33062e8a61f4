/** Opening a Turso write transaction (doc-db/src/turso/database.rs:126-135, 774-835). */
module BeginImmediate {
  import opened DocTypes
  import opened Backoffs

  const MAX_BUSY_ATTEMPTS: nat := 8
  const BUSY_BASE_MS: U64 := 5
  const BUSY_CAP_MS: U64 := 200

  /** The first error of a reply; one message can match both patterns. */
  datatype Fault = Fault(schema: bool, busy: bool)

  datatype Reply = TransportError | Answered(error: Option<Fault>, baton: bool)

  /** What the server does in one iteration: both table creations and the BEGIN itself. */
  datatype Turn = Turn(ensured: bool, reply: Reply, created: bool)

  predicate Grants(turn: Turn) {
    turn.ensured && turn.reply.Answered? && turn.reply.error.None? && turn.reply.baton
  }

  predicate Retryable(turn: Turn) {
    && turn.ensured && turn.reply.Answered? && turn.reply.error.Some?
    && (turn.reply.error.value.schema || turn.reply.error.value.busy)
  }

  predicate SchemaFault(turn: Turn) {
    turn.ensured && turn.reply.Answered? && turn.reply.error.Some? && turn.reply.error.value.schema
  }

  /** Some turn before the `n`-th reported the missing table. */
  ghost predicate SchemaSeen(turn: nat -> Turn, n: nat) {
    exists i :: 0 <= i < n && SchemaFault(turn(i))
  }

  lemma SchemaSeenMore(turn: nat -> Turn, n: nat)
    ensures SchemaSeen(turn, n + 1) <==> SchemaSeen(turn, n) || SchemaFault(turn(n))
  {
  }

  /** Up to the `n`-th turn, the table could be created when it was first reported missing. */
  ghost predicate FirstCreated(turn: nat -> Turn, n: nat) {
    forall i :: 0 <= i < n && SchemaFault(turn(i)) && !SchemaSeen(turn, i) ==> turn(i).created
  }

  lemma FirstCreatedMore(turn: nat -> Turn, n: nat)
    requires FirstCreated(turn, n) && (SchemaFault(turn(n)) && !SchemaSeen(turn, n) ==> turn(n).created)
    ensures FirstCreated(turn, n + 1)
  {
  }

  ghost predicate AllRetryable(turn: nat -> Turn, n: nat) {
    forall i :: 0 <= i < n ==> Retryable(turn(i))
  }

  lemma AllRetryableMore(turn: nat -> Turn, n: nat)
    requires AllRetryable(turn, n) && Retryable(turn(n))
    ensures AllRetryable(turn, n + 1)
  {
  }

  /** The most that can have been slept before each busy attempt. */
  function SleptAtMost(busy: nat): nat {
    if busy == 0 then 0 else if busy == 1 then 5 else if busy == 2 then 15 else if busy == 3 then 35
    else if busy == 4 then 75 else if busy == 5 then 155 else if busy == 6 then 315 else 515
  }

  lemma CeilingsInUse(busy: nat)
    requires busy < MAX_BUSY_ATTEMPTS - 1
    ensures SleptAtMost(busy + 1) == SleptAtMost(busy) + Ceiling(BUSY_BASE_MS, BUSY_CAP_MS, busy)
  {
    assert ShiftLeft(5, 0) == 5;
    assert ShiftLeft(5, 1) == 10;
    assert ShiftLeft(5, 2) == 20;
    assert ShiftLeft(5, 3) == 40;
    assert ShiftLeft(5, 4) == 80;
    assert ShiftLeft(5, 5) == 160;
    assert ShiftLeft(5, 6) == 320;
  }

  /** The sleeps after the first `busy` busy replies together. */
  function BusySlept(random: nat -> nat, busy: nat): nat {
    Slept(BUSY_BASE_MS, BUSY_CAP_MS, random, busy)
  }

  lemma {:induction false} BusySleptIsBounded(random: nat -> nat, busy: nat)
    requires busy < MAX_BUSY_ATTEMPTS
    ensures BusySlept(random, busy) <= SleptAtMost(busy) <= 515
  {
    if busy > 0 {
      BusySleptIsBounded(random, busy - 1);
      CeilingsInUse(busy - 1);
    }
  }

  method BusyBackoff(busy: nat, raw: nat) returns (ms: nat)
    requires busy < MAX_BUSY_ATTEMPTS - 1
    ensures SleptAtMost(busy) + ms <= SleptAtMost(busy + 1)
    ensures ms == Delay(BUSY_BASE_MS, BUSY_CAP_MS, busy, raw)
  {
    ms := Delay(BUSY_BASE_MS, BUSY_CAP_MS, busy, raw);
    CeilingsInUse(busy);
  }

  /** The sleep after a busy reply, with the random bytes drawn for it. */
  method SleepWhenBusy(busy: nat, random: nat -> nat) returns (ms: nat)
    requires busy < MAX_BUSY_ATTEMPTS - 1
    ensures BusySlept(random, busy) + ms == BusySlept(random, busy + 1)
  {
    ms := BusyBackoff(busy, random(busy));
  }

  /**
   For every sequence of server turns the loop ends after at most nine attempts and
   515 ms of sleep. It succeeds exactly on a turn that grants the transaction, every
   earlier turn was retryable, and it gives up on a lock held by others only after
   eight busy replies. The first report of a missing table is followed by another
   attempt exactly when the table could be created; later ones are not. Every other
   retry is preceded by one drawn sleep.
   */
  method BeginImmediate(turn: nat -> Turn, random: nat -> nat)
    returns (result: Result<()>, attempts: nat, slept: nat)
    ensures 1 <= attempts <= MAX_BUSY_ATTEMPTS + 1
    ensures slept <= 515
    ensures var retries := attempts - 1;
            slept == BusySlept(random, if SchemaSeen(turn, retries) then retries - 1 else retries)
    ensures result.Ok? <==> Grants(turn(attempts - 1))
    ensures AllRetryable(turn, attempts - 1)
    ensures FirstCreated(turn, attempts - 1)
    ensures SchemaFault(turn(attempts - 1)) && !SchemaSeen(turn, attempts - 1) ==> !turn(attempts - 1).created
    ensures Retryable(turn(attempts - 1)) && turn(attempts - 1).reply.error.value.busy
            && (!SchemaFault(turn(attempts - 1)) || SchemaSeen(turn, attempts - 1)) ==>
              attempts == MAX_BUSY_ATTEMPTS + if SchemaSeen(turn, attempts - 1) then 1 else 0
  {
    var busy := 0;
    var schemaRetried := false;
    attempts := 0;
    slept := 0;
    while true
      invariant busy < MAX_BUSY_ATTEMPTS
      invariant attempts == busy + if schemaRetried then 1 else 0
      invariant slept == BusySlept(random, busy)
      invariant AllRetryable(turn, attempts)
      invariant schemaRetried <==> SchemaSeen(turn, attempts)
      invariant FirstCreated(turn, attempts)
      decreases !schemaRetried, MAX_BUSY_ATTEMPTS - busy
    {
      BusySleptIsBounded(random, busy);
      SchemaSeenMore(turn, attempts);
      var now := turn(attempts);
      attempts := attempts + 1;
      if !now.ensured || now.reply.TransportError? {
        return Err, attempts, slept;
      }
      match now.reply.error
      case None =>
        return if now.reply.baton then Ok(()) else Err, attempts, slept;
      case Some(fault) =>
        if !schemaRetried && fault.schema {
          if !now.created {
            return Err, attempts, slept;
          }
          schemaRetried := true;
          FirstCreatedMore(turn, attempts - 1);
          AllRetryableMore(turn, attempts - 1);
        } else if fault.busy {
          if busy + 1 >= MAX_BUSY_ATTEMPTS {
            return Err, attempts, slept;
          }
          var ms := SleepWhenBusy(busy, random);
          slept := slept + ms;
          busy := busy + 1;
          FirstCreatedMore(turn, attempts - 1);
          AllRetryableMore(turn, attempts - 1);
        } else {
          return Err, attempts, slept;
        }
    }
  }
}

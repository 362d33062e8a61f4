/**
 Request bodies collected into memory under a limit each, and the semaphore
 that bounds them together (`fn0/fn0/src/body_limit.rs`).
 */
module BodyBudget {
  import opened DocTypes

  const CHUNK_SIZE: nat := 64 * 1024
  const BUDGET_SIZE: nat := 32 * 1024 * 1024
  const BUDGET_PERMITS: nat := BUDGET_SIZE / CHUNK_SIZE
  const U32_RANGE: nat := 0x1_0000_0000

  /**
   Queue, vault, static page cache, singleton connect and activation, OTLP
   and document RPC bodies.
   */
  const CONFIGURED_LIMITS: set<nat> :=
    {128 * 1024, 16 * 1024, 256 * 1024, 8 * 1024 * 1024, 16 * 1024 * 1024}

  /**
   A frame of a body: data, with whether the buffer can grow to hold it, a
   frame without data, or an error.
   */
  datatype Frame = Chunk(bytes: seq<byte>, fits: bool) | NoData | Broken

  /** The collected bytes, or why there are none. */
  datatype Collected = Accepted(bytes: seq<byte>) | TooLarge | Body

  predicate Clean(frames: seq<Frame>) {
    forall i :: 0 <= i < |frames| ==> !frames[i].Broken? && (frames[i].Chunk? ==> frames[i].fits)
  }

  function Payload(frames: seq<Frame>): seq<byte> {
    if frames == [] then []
    else
      var last := frames[|frames| - 1];
      if last.Chunk? then Payload(frames[..|frames| - 1]) + last.bytes else Payload(frames[..|frames| - 1])
  }

  /** Frame `k` is the first to go wrong, and it is data past the limit. */
  predicate Overflows(frames: seq<Frame>, limit: nat, k: nat) {
    && k < |frames| && Clean(frames[..k]) && frames[k].Chunk?
    && |Payload(frames[..k])| <= limit < |Payload(frames[..k])| + |frames[k].bytes|
  }

  /** Frame `k` is the first to go wrong, by an error or for want of memory. */
  predicate Breaks(frames: seq<Frame>, limit: nat, k: nat) {
    && k < |frames| && Clean(frames[..k]) && |Payload(frames[..k])| <= limit
    && (frames[k].Broken? ||
        (frames[k].Chunk? && !frames[k].fits && |Payload(frames[..k])| + |frames[k].bytes| <= limit))
  }

  lemma PayloadSnoc(frames: seq<Frame>, k: nat)
    requires k < |frames|
    ensures Payload(frames[..k + 1]) == if frames[k].Chunk? then Payload(frames[..k]) + frames[k].bytes else Payload(frames[..k])
  {
    assert frames[..k + 1][..k] == frames[..k];
  }

  lemma {:induction false} PayloadGrows(frames: seq<Frame>, k: nat)
    requires k <= |frames|
    ensures |Payload(frames[..k])| <= |Payload(frames)|
    decreases |frames| - k
  {
    if k < |frames| {
      PayloadSnoc(frames, k);
      PayloadGrows(frames, k + 1);
    } else {
      assert frames[..k] == frames;
    }
  }

  /**
   A body is accepted exactly when it is clean and its data is within the
   limit, and then the bytes are its data in order; otherwise the first frame
   to go wrong decides the error.
   */
  method CollectBodyLimited(frames: seq<Frame>, limit: nat) returns (r: Collected)
    ensures r.Accepted? <==> Clean(frames) && |Payload(frames)| <= limit
    ensures r.Accepted? ==> r.bytes == Payload(frames)
    ensures r.TooLarge? <==> exists k :: Overflows(frames, limit, k)
    ensures r.Body? <==> exists k :: Breaks(frames, limit, k)
  {
    var collected := [];
    var k := 0;
    while k < |frames|
      invariant 0 <= k <= |frames|
      invariant Clean(frames[..k]) && collected == Payload(frames[..k]) && |collected| <= limit
    {
      PayloadSnoc(frames, k);
      PayloadGrows(frames, k + 1);
      if frames[k].Broken? {
        FirstDecides(frames, limit, k);
        assert Breaks(frames, limit, k);
        return Body;
      }
      if frames[k].Chunk? {
        var data := frames[k].bytes;
        if |data| > (if |collected| <= limit then limit - |collected| else 0) {
          FirstDecides(frames, limit, k);
          assert Overflows(frames, limit, k);
          return TooLarge;
        }
        if !frames[k].fits {
          FirstDecides(frames, limit, k);
          assert Breaks(frames, limit, k);
          return Body;
        }
        collected := collected + data;
      }
      assert frames[..k + 1] == frames[..k] + [frames[k]];
      k := k + 1;
    }
    assert frames[..k] == frames;
    NothingWrong(frames, limit);
    return Accepted(collected);
  }

  /** No frame other than the first that goes wrong counts. */
  lemma FirstDecides(frames: seq<Frame>, limit: nat, k: nat)
    requires Overflows(frames, limit, k) || Breaks(frames, limit, k)
    ensures forall j :: Overflows(frames, limit, j) || Breaks(frames, limit, j) ==> j == k
    ensures !Overflows(frames, limit, k) || !Breaks(frames, limit, k)
    ensures !(Clean(frames) && |Payload(frames)| <= limit)
  {
    PayloadSnoc(frames, k);
    PayloadGrows(frames, k + 1);
    forall j | Overflows(frames, limit, j) || Breaks(frames, limit, j)
      ensures j == k
    {
      NotBefore(frames, limit, j, k);
      NotBefore(frames, limit, k, j);
    }
  }

  lemma NotBefore(frames: seq<Frame>, limit: nat, j: nat, k: nat)
    requires Overflows(frames, limit, j) || Breaks(frames, limit, j)
    requires Overflows(frames, limit, k) || Breaks(frames, limit, k)
    ensures k <= j
  {
    if j < k {
      PayloadSnoc(frames, j);
      assert frames[..k][..j + 1] == frames[..j + 1];
      PayloadGrows(frames[..k], j + 1);
      assert false;
    }
  }

  lemma NothingWrong(frames: seq<Frame>, limit: nat)
    requires Clean(frames) && |Payload(frames)| <= limit
    ensures forall k :: !Overflows(frames, limit, k) && !Breaks(frames, limit, k)
  {
    forall k: nat | k < |frames|
      ensures !Overflows(frames, limit, k) && !Breaks(frames, limit, k)
    {
      PayloadSnoc(frames, k);
      PayloadGrows(frames, k + 1);
    }
  }

  // ----- The shared budget -----

  /**
   A body being collected, or collected and not yet dropped: both hold the
   permits of their limit.
   */
  datatype Collection = Collection(limit: nat, buffered: nat, finished: bool)

  datatype World = World(available: nat, live: seq<Collection>)

  const IDLE: World := World(BUDGET_PERMITS, [])

  function DivCeil(n: nat, d: nat): nat
    requires d > 0
  {
    if n % d == 0 then n / d else n / d + 1
  }

  /** The permits asked for, cut to 32 bits. */
  function Permits(limit: nat): nat {
    DivCeil(limit, CHUNK_SIZE) % U32_RANGE
  }

  /**
   The steps of concurrent collections: one gets its permits, takes a data
   frame, reaches the end of its body, or is dropped, which a broken frame, a
   cancelled request and a consumed body all come to.
   */
  datatype Step = Acquire(limit: nat) | Take(i: nat, n: nat) | Finish(i: nat) | Drop(i: nat)

  predicate Enabled(w: World, step: Step) {
    match step
    case Acquire(limit) => Permits(limit) <= w.available
    case Take(i, _) => i < |w.live| && !w.live[i].finished
    case Finish(i) => i < |w.live| && !w.live[i].finished
    case Drop(i) => i < |w.live|
  }

  function Dropped(w: World, i: nat): World
    requires i < |w.live|
  {
    World(w.available + Permits(w.live[i].limit), w.live[..i] + w.live[i + 1..])
  }

  function Next(w: World, step: Step): World
    requires Enabled(w, step)
  {
    match step
    case Acquire(limit) => World(w.available - Permits(limit), w.live + [Collection(limit, 0, false)])
    case Take(i, n) =>
      var c := w.live[i];
      if n > (if c.buffered <= c.limit then c.limit - c.buffered else 0) then Dropped(w, i)
      else w.(live := w.live[i := c.(buffered := c.buffered + n)])
    case Finish(i) => w.(live := w.live[i := w.live[i].(finished := true)])
    case Drop(i) => Dropped(w, i)
  }

  predicate Possible(w: World, steps: seq<Step>)
    decreases |steps|
  {
    steps == [] || (Enabled(w, steps[0]) && Possible(Next(w, steps[0]), steps[1..]))
  }

  function After(w: World, steps: seq<Step>): World
    requires Possible(w, steps)
    decreases |steps|
  {
    if steps == [] then w else After(Next(w, steps[0]), steps[1..])
  }

  function HeldPermits(live: seq<Collection>): nat {
    if live == [] then 0 else Permits(live[0].limit) + HeldPermits(live[1..])
  }

  function Buffered(live: seq<Collection>): nat {
    if live == [] then 0 else live[0].buffered + Buffered(live[1..])
  }

  /** A limit whose permits cover it, or that can never be granted. */
  predicate Accounted(limit: nat) {
    limit <= BUDGET_SIZE || Permits(limit) > BUDGET_PERMITS
  }

  ghost predicate Inv(w: World) {
    && w.available + HeldPermits(w.live) == BUDGET_PERMITS
    && forall c :: c in w.live ==> c.buffered <= c.limit <= BUDGET_SIZE
  }

  predicate UsesLimits(steps: seq<Step>, limits: set<nat>) {
    forall i :: 0 <= i < |steps| && steps[i].Acquire? ==> steps[i].limit in limits
  }

  lemma PermitsCover(limit: nat)
    requires limit <= BUDGET_SIZE
    ensures Permits(limit) <= BUDGET_PERMITS && limit <= Permits(limit) * CHUNK_SIZE
  {
    assert DivCeil(limit, CHUNK_SIZE) <= BUDGET_PERMITS;
  }

  /** The permits of a limit are the fewest chunks that cover it. */
  lemma PermitsAreLeast(limit: nat, chunks: nat)
    requires limit <= BUDGET_SIZE
    ensures Permits(limit) <= chunks <==> limit <= chunks * CHUNK_SIZE
  {
    PermitsCover(limit);
    if Permits(limit) <= chunks {
      assert Permits(limit) * CHUNK_SIZE <= chunks * CHUNK_SIZE;
    } else {
      assert chunks * CHUNK_SIZE <= (Permits(limit) - 1) * CHUNK_SIZE < limit;
    }
  }

  function Acquires(limits: seq<nat>): seq<Step> {
    seq(|limits|, i requires 0 <= i < |limits| => Acquire(limits[i]))
  }

  function Sum(numbers: seq<nat>): nat {
    if numbers == [] then 0 else numbers[0] + Sum(numbers[1..])
  }

  lemma {:induction false} GrantedFrom(w: World, limits: seq<nat>, chunks: seq<nat>)
    requires |limits| == |chunks| && Sum(chunks) <= w.available
    requires forall i :: 0 <= i < |limits| ==> limits[i] <= BUDGET_SIZE && limits[i] <= chunks[i] * CHUNK_SIZE
    ensures Possible(w, Acquires(limits))
    decreases |limits|
  {
    if limits != [] {
      PermitsAreLeast(limits[0], chunks[0]);
      assert Acquires(limits)[1..] == Acquires(limits[1..]);
      GrantedFrom(Next(w, Acquire(limits[0])), limits[1..], chunks[1..]);
    }
  }

  /** Bodies whose limits fit into chunks that are together no more than the budget are granted together. */
  lemma WhatFitsIsGranted(limits: seq<nat>, chunks: seq<nat>)
    requires |limits| == |chunks| && Sum(chunks) <= BUDGET_PERMITS
    requires forall i :: 0 <= i < |limits| ==> limits[i] <= chunks[i] * CHUNK_SIZE
    ensures Possible(IDLE, Acquires(limits))
  {
    forall i | 0 <= i < |limits| ensures limits[i] <= BUDGET_SIZE {
      SumCovers(chunks, i);
      assert chunks[i] * CHUNK_SIZE <= BUDGET_PERMITS * CHUNK_SIZE;
    }
    GrantedFrom(IDLE, limits, chunks);
  }

  lemma {:induction false} SumCovers(numbers: seq<nat>, i: nat)
    requires i < |numbers|
    ensures numbers[i] <= Sum(numbers)
  {
    if i > 0 {
      SumCovers(numbers[1..], i - 1);
    }
  }

  lemma {:induction false} HeldConcat(a: seq<Collection>, b: seq<Collection>)
    ensures HeldPermits(a + b) == HeldPermits(a) + HeldPermits(b)
  {
    if a == [] {
      assert a + b == b;
    } else {
      HeldConcat(a[1..], b);
      assert (a + b)[1..] == a[1..] + b;
    }
  }

  lemma HeldAt(live: seq<Collection>, i: nat, c: Collection)
    requires i < |live| && c.limit == live[i].limit
    ensures HeldPermits(live[i := c]) == HeldPermits(live)
    ensures HeldPermits(live) == HeldPermits(live[..i] + live[i + 1..]) + Permits(live[i].limit)
  {
    HeldConcat(live[..i], live[i + 1..]);
    assert live == live[..i] + ([live[i]] + live[i + 1..]);
    HeldConcat(live[..i], [live[i]] + live[i + 1..]);
    assert live[i := c] == live[..i] + ([c] + live[i + 1..]);
    HeldConcat(live[..i], [c] + live[i + 1..]);
  }

  lemma AcquireKeeps(w: World, limit: nat)
    requires Inv(w) && Enabled(w, Acquire(limit)) && Accounted(limit)
    ensures Inv(Next(w, Acquire(limit)))
  {
    var c := Collection(limit, 0, false);
    HeldConcat(w.live, [c]);
    assert HeldPermits([c]) == Permits(limit) + HeldPermits([]);
  }

  lemma DropKeeps(w: World, i: nat)
    requires Inv(w) && i < |w.live|
    ensures Inv(Dropped(w, i))
  {
    HeldAt(w.live, i, w.live[i]);
  }

  lemma UpdateKeeps(w: World, i: nat, c: Collection)
    requires Inv(w) && i < |w.live| && c.limit == w.live[i].limit && c.buffered <= c.limit
    ensures Inv(w.(live := w.live[i := c]))
  {
    HeldAt(w.live, i, c);
    assert w.live[i] in w.live;
  }

  lemma NextKeeps(w: World, step: Step)
    requires Inv(w) && Enabled(w, step)
    requires step.Acquire? ==> Accounted(step.limit)
    ensures Inv(Next(w, step))
  {
    match step {
      case Acquire(limit) =>
        AcquireKeeps(w, limit);
      case Take(i, n) =>
        var c := w.live[i];
        if c.buffered + n <= c.limit {
          UpdateKeeps(w, i, c.(buffered := c.buffered + n));
        } else {
          DropKeeps(w, i);
        }
      case Finish(i) =>
        assert w.live[i] in w.live;
        UpdateKeeps(w, i, w.live[i].(finished := true));
      case Drop(i) =>
        DropKeeps(w, i);
    }
  }

  lemma {:induction false} RunKeeps(w: World, steps: seq<Step>, limits: set<nat>)
    requires Inv(w) && Possible(w, steps) && UsesLimits(steps, limits)
    requires forall limit :: limit in limits ==> Accounted(limit)
    ensures Inv(After(w, steps))
    decreases |steps|
  {
    if steps != [] {
      NextKeeps(w, steps[0]);
      assert UsesLimits(steps[1..], limits);
      RunKeeps(Next(w, steps[0]), steps[1..], limits);
    }
  }

  lemma {:induction false} BufferedIsCovered(live: seq<Collection>)
    requires forall c :: c in live ==> c.buffered <= c.limit <= BUDGET_SIZE
    ensures Buffered(live) <= HeldPermits(live) * CHUNK_SIZE
  {
    if live != [] {
      assert live[0] in live;
      PermitsCover(live[0].limit);
      BufferedIsCovered(live[1..]);
    }
  }

  /**
   Whatever collections run beside each other, they hold at most the budget
   between them.
   */
  lemma BudgetHolds(steps: seq<Step>, limits: set<nat>)
    requires Possible(IDLE, steps) && UsesLimits(steps, limits)
    requires forall limit :: limit in limits ==> Accounted(limit)
    ensures Buffered(After(IDLE, steps).live) <= BUDGET_SIZE
  {
    RunKeeps(IDLE, steps, limits);
    BufferedIsCovered(After(IDLE, steps).live);
  }

  /**
   The condition is needed: one body under any other limit takes more than
   the budget.
   */
  lemma UnaccountedLimitEscapes(limit: nat)
    requires !Accounted(limit)
    ensures var steps := [Acquire(limit), Take(0, limit)];
            Possible(IDLE, steps) && Buffered(After(IDLE, steps).live) > BUDGET_SIZE
  {
    var steps := [Acquire(limit), Take(0, limit)];
    var w := Next(IDLE, steps[0]);
    assert w.live == [Collection(limit, 0, false)];
    assert Enabled(w, steps[1]);
    assert steps[1..] == [steps[1]] && steps[1..][1..] == [];
    var v := Next(w, steps[1]);
    assert v.live == [Collection(limit, limit, false)];
    assert Possible(v, []) && Possible(w, steps[1..]);
    assert After(IDLE, steps) == After(w, steps[1..]) == After(v, []) == v;
    assert Buffered(v.live) == limit + Buffered(v.live[1..]);
  }

  /** There are such limits: the cut to 32 bits can leave no permit at all. */
  lemma CutLimitIsUnaccounted()
    ensures Permits(U32_RANGE * CHUNK_SIZE) == 0 && !Accounted(U32_RANGE * CHUNK_SIZE)
  {
    assert DivCeil(U32_RANGE * CHUNK_SIZE, CHUNK_SIZE) == U32_RANGE;
  }

  function DropAll(n: nat): seq<Step> {
    seq(n, _ => Drop(0))
  }

  lemma {:induction false} DropAllDrains(w: World)
    requires Inv(w)
    ensures Possible(w, DropAll(|w.live|)) && After(w, DropAll(|w.live|)) == IDLE
    decreases |w.live|
  {
    var steps := DropAll(|w.live|);
    if w.live != [] {
      NextKeeps(w, steps[0]);
      assert steps[1..] == DropAll(|w.live| - 1);
      DropAllDrains(Next(w, steps[0]));
    }
  }

  /**
   From every reachable state, once the live bodies are dropped the budget is
   whole again, and then every configured limit is granted.
   */
  lemma EveryLimitIsGrantable(steps: seq<Step>, limit: nat)
    requires Possible(IDLE, steps) && UsesLimits(steps, CONFIGURED_LIMITS)
    requires limit in CONFIGURED_LIMITS
    ensures var w := After(IDLE, steps);
            && Buffered(w.live) <= BUDGET_SIZE
            && Possible(w, DropAll(|w.live|)) && After(w, DropAll(|w.live|)) == IDLE
            && Enabled(IDLE, Acquire(limit))
  {
    BudgetHolds(steps, CONFIGURED_LIMITS);
    RunKeeps(IDLE, steps, CONFIGURED_LIMITS);
    DropAllDrains(After(IDLE, steps));
    PermitsCover(limit);
  }
}

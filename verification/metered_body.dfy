/**
 The response body that charges a project's egress budget for every frame it
 lets through (`fn0/fn0/src/egress.rs`). The wrapped body and the budget are
 scripts of poll answers, so a schedule is any pair of scripts.
 */
module MeteredBody {
  import opened DocTypes

  /**
   What a body hands out: a data frame, a frame without data, an error of the
   wrapped body, the budget's refusal, or the end.
   */
  datatype Item = Data(bytes: seq<byte>) | Trailers | Failure | Refused | End

  datatype InnerPoll = Wait | Give(item: Item)
  datatype ChargePoll = Undecided | Granted | Denied
  datatype Poll = Pending | Ready(item: Item)

  /**
   The metered body with its history: what it took from the wrapped body, the
   charges it started, the charges granted and what it handed out.
   */
  datatype State = State(
    inner: seq<InnerPoll>,
    charges: seq<ChargePoll>,
    pending: Option<seq<byte>>,
    denied: bool,
    consumed: seq<Item>,
    charged: seq<nat>,
    paid: seq<nat>,
    output: seq<Item>)

  predicate Metered(item: Item) {
    item.Data? && item.bytes != []
  }

  /** The sizes of the data frames that must be paid for, in order. */
  function Sizes(items: seq<Item>): seq<nat> {
    if items == [] then []
    else if Metered(items[|items| - 1]) then Sizes(items[..|items| - 1]) + [|items[|items| - 1].bytes|]
    else Sizes(items[..|items| - 1])
  }

  function Ends(n: nat): seq<Item> {
    seq(n, _ => End)
  }

  ghost predicate FromInner(inner: seq<InnerPoll>) {
    forall i :: 0 <= i < |inner| && inner[i].Give? ==> inner[i].item != Refused
  }

  function Start(inner: seq<InnerPoll>, charges: seq<ChargePoll>): State {
    State(inner, charges, None, false, [], [], [], [])
  }

  function HandOut(s: State, item: Item): State {
    s.(output := s.output + [item])
  }

  /** Polling the charge of the frame being held. */
  function Settle(s: State): (State, Poll)
    requires s.pending.Some?
  {
    if s.charges == [] || s.charges[0].Undecided? then
      (s.(charges := if s.charges == [] then [] else s.charges[1..]), Pending)
    else
      var t := s.(charges := s.charges[1..], pending := None);
      if s.charges[0].Granted? then
        (HandOut(t.(paid := s.paid + [|s.pending.value|]), Data(s.pending.value)), Ready(Data(s.pending.value)))
      else (HandOut(t.(denied := true), Refused), Ready(Refused))
  }

  /** One poll, as a single step. */
  function PollOnce(s: State): (State, Poll) {
    if s.denied then (HandOut(s, End), Ready(End))
    else if s.pending.Some? then Settle(s)
    else if s.inner == [] then (s, Pending)
    else if s.inner[0].Wait? then (s.(inner := s.inner[1..]), Pending)
    else
      var item := s.inner[0].item;
      var t := s.(inner := s.inner[1..], consumed := s.consumed + [item]);
      if Metered(item) then
        Settle(t.(pending := Some(item.bytes), charged := s.charged + [|item.bytes|]))
      else (HandOut(t, item), Ready(item))
  }

  function Polls(s: State, n: nat): State {
    if n == 0 then s else PollOnce(Polls(s, n - 1)).0
  }

  /** What the caller of `n` polls gets to see. */
  function Answers(s: State, n: nat): seq<Poll> {
    if n == 0 then [] else Answers(s, n - 1) + [PollOnce(Polls(s, n - 1)).1]
  }

  /** The items among the answers. */
  function Released(answers: seq<Poll>): seq<Item> {
    if answers == [] then []
    else
      var rest, last := Released(answers[..|answers| - 1]), answers[|answers| - 1];
      if last.Ready? then rest + [last.item] else rest
  }

  /** The items the wrapped body gave in these polls. */
  function Given(polls: seq<InnerPoll>): seq<Item> {
    if polls == [] then []
    else
      var rest, last := Given(polls[..|polls| - 1]), polls[|polls| - 1];
      if last.Give? then rest + [last.item] else rest
  }

  function Grants(polls: seq<ChargePoll>): nat {
    if polls == [] then 0
    else Grants(polls[..|polls| - 1]) + if polls[|polls| - 1].Granted? then 1 else 0
  }

  /**
   How the histories hang together. Until a refusal, what was handed out is
   what was taken, less a frame held for its charge. At a refusal that frame
   is replaced by one error, and nothing but the end follows.
   */
  ghost predicate Inv(s: State) {
    && FromInner(s.inner) && Refused !in s.consumed
    && s.charged == Sizes(s.consumed)
    && (s.pending.Some? || s.denied ==>
         && s.consumed != [] && Metered(s.consumed[|s.consumed| - 1])
         && s.paid == Sizes(s.consumed[..|s.consumed| - 1]))
    && (s.pending.Some? ==>
         && !s.denied && s.consumed[|s.consumed| - 1] == Data(s.pending.value)
         && s.output == s.consumed[..|s.consumed| - 1])
    && (s.denied ==>
         && |s.output| >= |s.consumed|
         && s.output == s.consumed[..|s.consumed| - 1] + [Refused] + Ends(|s.output| - |s.consumed|))
    && (s.pending.None? && !s.denied ==> s.output == s.consumed && s.paid == s.charged)
  }

  lemma SizesSnoc(items: seq<Item>, item: Item)
    ensures Sizes(items + [item]) == Sizes(items) + (if Metered(item) then [|item.bytes|] else [])
  {
    var all := items + [item];
    assert all[..|all| - 1] == items;
  }

  lemma SettleKeeps(s: State)
    requires Inv(s) && s.pending.Some?
    ensures Inv(Settle(s).0)
  {
    var n := |s.consumed| - 1;
    assert s.consumed == s.consumed[..n] + [s.consumed[n]];
    SizesSnoc(s.consumed[..n], s.consumed[n]);
    if s.charges != [] && s.charges[0].Denied? {
      var t := Settle(s).0;
      assert t.output == s.consumed[..n] + [Refused] + Ends(0);
    }
  }

  lemma PullKeeps(s: State)
    requires Inv(s) && s.pending.None? && !s.denied && s.inner != [] && s.inner[0].Give?
    ensures Inv(PollOnce(s).0)
  {
    var item := s.inner[0].item;
    SizesSnoc(s.consumed, item);
    if Metered(item) {
      var t := s.(inner := s.inner[1..], consumed := s.consumed + [item],
                  pending := Some(item.bytes), charged := s.charged + [|item.bytes|]);
      assert t.consumed[..|s.consumed|] == s.consumed;
      SettleKeeps(t);
    }
  }

  lemma PollKeeps(s: State)
    requires Inv(s)
    ensures Inv(PollOnce(s).0)
  {
    if s.denied {
      var before, n := s.consumed[..|s.consumed| - 1], |s.output| - |s.consumed|;
      assert before + [Refused] + Ends(n) + [End] == before + [Refused] + Ends(n + 1);
    } else if s.pending.Some? {
      SettleKeeps(s);
    } else if s.inner != [] && s.inner[0].Give? {
      PullKeeps(s);
    }
  }

  /**
   The invariant holds after any number of polls, whatever the wrapped body
   and the budget answer.
   */
  lemma {:induction false} PollsKeep(inner: seq<InnerPoll>, charges: seq<ChargePoll>, n: nat)
    requires FromInner(inner)
    ensures Inv(Polls(Start(inner, charges), n))
  {
    if n > 0 {
      PollsKeep(inner, charges, n - 1);
      PollKeeps(Polls(Start(inner, charges), n - 1));
    }
  }

  // ---- The answers are the history ------------------------------------------------

  lemma LastIsIt(items: seq<Item>, x: Item, y: Item)
    requires items + [x] == items + [y]
    ensures x == y
  {
    assert (items + [x])[|items|] == (items + [y])[|items|];
  }

  /** A poll answers with an item exactly when that item is added to what was handed out. */
  lemma AnswerIsHistory(s: State)
    ensures forall item :: PollOnce(s).1 == Ready(item) <==> PollOnce(s).0.output == s.output + [item]
    ensures PollOnce(s).1 == Pending <==> PollOnce(s).0.output == s.output
  {
    var t, poll := PollOnce(s).0, PollOnce(s).1;
    assert t.output == s.output + if poll.Ready? then [poll.item] else [];
    forall item | t.output == s.output + [item] ensures poll == Ready(item) {
      LastIsIt(s.output, poll.item, item);
    }
  }

  lemma {:induction false} AnswersAreHistory(s: State, n: nat)
    ensures Polls(s, n).output == s.output + Released(Answers(s, n))
  {
    if n > 0 {
      AnswersAreHistory(s, n - 1);
      AnswerIsHistory(Polls(s, n - 1));
      var answers := Answers(s, n);
      assert answers[..|answers| - 1] == Answers(s, n - 1);
    }
  }

  /** The part of the script that has been played when `rest` is left. */
  function Played<T>(script: seq<T>, rest: seq<T>): seq<T>
    requires |rest| <= |script|
  {
    script[..|script| - |rest|]
  }

  /** The history is what the wrapped body and the budget have answered so far. */
  ghost predicate Follows(s: State, inner: seq<InnerPoll>, charges: seq<ChargePoll>) {
    && |s.inner| <= |inner| && s.inner == inner[|inner| - |s.inner|..]
    && |s.charges| <= |charges| && s.charges == charges[|charges| - |s.charges|..]
    && s.consumed == Given(Played(inner, s.inner))
    && |s.paid| == Grants(Played(charges, s.charges))
    && (s.denied <==> Denied in Played(charges, s.charges))
  }

  lemma PlayedMore<T>(script: seq<T>, rest: seq<T>)
    requires |rest| <= |script| && rest == script[|script| - |rest|..] && rest != []
    ensures rest[1..] == script[|script| - |rest[1..]|..]
    ensures Played(script, rest[1..]) == Played(script, rest) + [rest[0]]
  {
  }

  lemma GivenMore(polls: seq<InnerPoll>, poll: InnerPoll)
    ensures Given(polls + [poll]) == Given(polls) + if poll.Give? then [poll.item] else []
  {
    assert (polls + [poll])[..|polls|] == polls;
  }

  lemma GrantsMore(polls: seq<ChargePoll>, poll: ChargePoll)
    ensures Grants(polls + [poll]) == Grants(polls) + if poll.Granted? then 1 else 0
  {
    assert (polls + [poll])[..|polls|] == polls;
  }

  lemma SettleFollows(s: State, inner: seq<InnerPoll>, charges: seq<ChargePoll>)
    requires Follows(s, inner, charges) && s.pending.Some? && !s.denied
    ensures Follows(Settle(s).0, inner, charges)
  {
    if s.charges != [] {
      PlayedMore(charges, s.charges);
      GrantsMore(Played(charges, s.charges), s.charges[0]);
    }
  }

  lemma PollFollows(s: State, inner: seq<InnerPoll>, charges: seq<ChargePoll>)
    requires Follows(s, inner, charges)
    ensures Follows(PollOnce(s).0, inner, charges)
  {
    if s.denied {
      return;
    }
    if s.pending.Some? {
      SettleFollows(s, inner, charges);
    } else if s.inner != [] {
      PlayedMore(inner, s.inner);
      GivenMore(Played(inner, s.inner), s.inner[0]);
      if s.inner[0].Give? && Metered(s.inner[0].item) {
        var item := s.inner[0].item;
        var t := s.(inner := s.inner[1..], consumed := s.consumed + [item],
                    pending := Some(item.bytes), charged := s.charged + [|item.bytes|]);
        SettleFollows(t, inner, charges);
      }
    }
  }

  lemma {:induction false} PollsFollow(inner: seq<InnerPoll>, charges: seq<ChargePoll>, n: nat)
    ensures Follows(Polls(Start(inner, charges), n), inner, charges)
  {
    if n > 0 {
      PollsFollow(inner, charges, n - 1);
      PollFollows(Polls(Start(inner, charges), n - 1), inner, charges);
    }
  }

  lemma {:induction false} SizesOfEnds(items: seq<Item>, n: nat)
    ensures Sizes(items + [Refused] + Ends(n)) == Sizes(items)
  {
    var all := items + [Refused] + Ends(n);
    if n == 0 {
      assert all == items + [Refused];
      SizesSnoc(items, Refused);
    } else {
      SizesOfEnds(items, n - 1);
      assert all == (items + [Refused] + Ends(n - 1)) + [End];
      SizesSnoc(items + [Refused] + Ends(n - 1), End);
    }
  }

  lemma PaidIsReleased(s: State)
    requires Inv(s)
    ensures Sizes(s.output) == s.paid
    ensures s.paid <= s.charged && |s.charged| <= |s.paid| + 1
  {
    if s.pending.Some? || s.denied {
      var m := |s.consumed| - 1;
      assert s.consumed == s.consumed[..m] + [s.consumed[m]];
      SizesSnoc(s.consumed[..m], s.consumed[m]);
      if s.denied {
        SizesOfEnds(s.consumed[..m], |s.output| - |s.consumed|);
      }
    }
  }

  /**
   Over the answers of any number of polls: every frame the wrapped body gave is
   charged once, in order and for its own size; the caller has been given exactly as
   many frames with data as charges were granted, and they are, size by size, the
   frames that were charged, but for at most the last.
   */
  lemma PaidBeforeReleased(inner: seq<InnerPoll>, charges: seq<ChargePoll>, n: nat)
    requires FromInner(inner)
    ensures var s := Polls(Start(inner, charges), n);
            var released := Sizes(Released(Answers(Start(inner, charges), n)));
            && |s.inner| <= |inner| && |s.charges| <= |charges|
            && s.charged == Sizes(Given(Played(inner, s.inner)))
            && released == s.paid && |released| == Grants(Played(charges, s.charges))
            && released <= s.charged && |s.charged| <= |released| + 1
  {
    PollsKeep(inner, charges, n);
    PollsFollow(inner, charges, n);
    PaidIsReleased(Polls(Start(inner, charges), n));
    ReleasedFromStart(inner, charges, n);
  }

  lemma ReleasedFromStart(inner: seq<InnerPoll>, charges: seq<ChargePoll>, n: nat)
    ensures Polls(Start(inner, charges), n).output == Released(Answers(Start(inner, charges), n))
  {
    AnswersAreHistory(Start(inner, charges), n);
    var none: seq<Item> := [];
    assert none + Released(Answers(Start(inner, charges), n)) == Released(Answers(Start(inner, charges), n));
  }

  /** What was handed out, told from what was given and whether the budget refused. */
  ghost predicate PrefixUntilRefusal(released: seq<Item>, given: seq<Item>, refused: bool) {
    && (Refused in released <==> refused)
    && (!refused ==> released <= given && |given| <= |released| + 1)
    && (refused ==>
         && 0 < |given| <= |released|
         && released == given[..|given| - 1] + [Refused] + Ends(|released| - |given|))
  }

  lemma HandedOutIsAPrefix(s: State)
    requires Inv(s)
    ensures PrefixUntilRefusal(s.output, s.consumed, s.denied)
  {
    if s.denied {
      assert s.output[|s.consumed| - 1] == Refused;
    } else {
      assert forall item :: item in s.output ==> item in s.consumed;
    }
  }

  /**
   What the caller is given is a prefix of what the wrapped body gave, until a
   refusal of the budget puts one error in the place of the refused frame. From then
   on nothing more is taken and the caller is only told that the body has ended.
   */
  lemma ReleasedIsAPrefix(inner: seq<InnerPoll>, charges: seq<ChargePoll>, n: nat)
    requires FromInner(inner)
    ensures var s := Polls(Start(inner, charges), n);
            && |s.inner| <= |inner| && |s.charges| <= |charges|
            && PrefixUntilRefusal(Released(Answers(Start(inner, charges), n)),
                                  Given(Played(inner, s.inner)), Denied in Played(charges, s.charges))
  {
    PollsKeep(inner, charges, n);
    PollsFollow(inner, charges, n);
    ReleasedFromStart(inner, charges, n);
    HandedOutIsAPrefix(Polls(Start(inner, charges), n));
  }

  // ---- Everything arrives ------------------------------------------------------------

  /** The poll has nothing left to ask: no budget answer for the frame it holds, or no frame to hold. */
  predicate Starved(s: State) {
    if s.pending.Some? then s.charges == [] else s.inner == []
  }

  lemma PollsAdvance(s: State)
    requires !s.denied && !Starved(s)
    ensures var t := PollOnce(s).0; |t.inner| + |t.charges| < |s.inner| + |s.charges|
  {
  }

  lemma StarvedStays(s: State)
    requires !s.denied && Starved(s)
    ensures PollOnce(s) == (s, Pending)
  {
  }

  lemma {:induction false} PollsExhaust(inner: seq<InnerPoll>, charges: seq<ChargePoll>, n: nat)
    ensures var s := Polls(Start(inner, charges), n);
            s.denied || Starved(s) || |s.inner| + |s.charges| + n <= |inner| + |charges|
  {
    if n > 0 {
      PollsExhaust(inner, charges, n - 1);
      var s := Polls(Start(inner, charges), n - 1);
      if !s.denied && !Starved(s) {
        PollsAdvance(s);
      } else if !s.denied {
        StarvedStays(s);
      }
    }
  }

  lemma {:induction false} GivenGrows(polls: seq<InnerPoll>, k: nat)
    requires k <= |polls|
    ensures |Sizes(Given(polls[..k]))| <= |Sizes(Given(polls))|
    decreases |polls| - k
  {
    if k < |polls| {
      GivenGrows(polls, k + 1);
      assert polls[..k + 1] == polls[..k] + [polls[k]];
      GivenMore(polls[..k], polls[k]);
      if polls[k].Give? {
        SizesSnoc(Given(polls[..k]), polls[k].item);
      } else {
        assert Given(polls[..k]) + [] == Given(polls[..k]);
      }
    } else {
      assert polls[..k] == polls;
    }
  }

  /** A held frame is one more charge than were granted. */
  lemma HeldIsUnpaid(s: State)
    requires Inv(s) && s.pending.Some?
    ensures |s.paid| < |s.charged|
  {
    var m := |s.consumed| - 1;
    assert s.consumed == s.consumed[..m] + [s.consumed[m]];
    SizesSnoc(s.consumed[..m], s.consumed[m]);
  }

  lemma NothingHeld(s: State, inner: seq<InnerPoll>, charges: seq<ChargePoll>)
    requires Inv(s) && Follows(s, inner, charges) && Starved(s)
    requires |Sizes(Given(inner))| <= Grants(charges)
    ensures s.pending.None?
  {
    if s.pending.Some? {
      assert Played(charges, s.charges) == charges;
      HeldIsUnpaid(s);
      GivenGrows(inner, |inner| - |s.inner|);
    }
  }

  /**
   Nothing is withheld. A budget that refuses no charge and grants one for every frame
   with data lets the caller have, after as many polls as both scripts are long,
   exactly what the wrapped body gave.
   */
  lemma EverythingArrives(inner: seq<InnerPoll>, charges: seq<ChargePoll>, n: nat)
    requires FromInner(inner) && |inner| + |charges| < n
    requires Denied !in charges && |Sizes(Given(inner))| <= Grants(charges)
    ensures Released(Answers(Start(inner, charges), n)) == Given(inner)
  {
    PollsKeep(inner, charges, n);
    PollsFollow(inner, charges, n);
    PollsExhaust(inner, charges, n);
    ReleasedFromStart(inner, charges, n);
    var s := Polls(Start(inner, charges), n);
    NothingHeld(s, inner, charges);
    assert Played(inner, s.inner) == inner;
  }

  /** After a refusal the body is at its end, however often it is polled. */
  lemma {:induction false} RefusalIsFinal(s: State, n: nat)
    requires s.denied
    ensures Polls(s, n) == s.(output := s.output + Ends(n))
    ensures PollOnce(Polls(s, n)).1 == Ready(End)
  {
    if n > 0 {
      RefusalIsFinal(s, n - 1);
      assert s.output + Ends(n - 1) + [End] == s.output + Ends(n);
    } else {
      assert s.output + Ends(0) == s.output;
    }
  }

  class EgressMeteredBody {
    var inner: seq<InnerPoll>
    var charges: seq<ChargePoll>
    var pendingCharge: Option<seq<byte>>
    var denied: bool

    ghost var consumed: seq<Item>
    ghost var charged: seq<nat>
    ghost var paid: seq<nat>
    ghost var output: seq<Item>

    ghost function Model(): State
      reads this
    {
      State(inner, charges, pendingCharge, denied, consumed, charged, paid, output)
    }

    constructor (inner: seq<InnerPoll>, charges: seq<ChargePoll>)
      ensures Model() == Start(inner, charges)
    {
      this.inner, this.charges := inner, charges;
      pendingCharge, denied := None, false;
      consumed, charged, paid, output := [], [], [], [];
    }

    /** The wrapped body's answer to its next poll. */
    method PollInner() returns (poll: InnerPoll)
      modifies `inner, `consumed
      ensures poll == if old(inner) == [] then Wait else old(inner)[0]
      ensures inner == if old(inner) == [] then [] else old(inner)[1..]
      ensures consumed == if poll.Give? then old(consumed) + [poll.item] else old(consumed)
    {
      if inner == [] {
        return Wait;
      }
      poll, inner := inner[0], inner[1..];
      if poll.Give? {
        consumed := consumed + [poll.item];
      }
    }

    /** The budget's answer to a poll of the charge in flight. */
    method PollCharge() returns (poll: ChargePoll)
      modifies `charges
      ensures poll == if old(charges) == [] then Undecided else old(charges)[0]
      ensures charges == if old(charges) == [] then [] else old(charges)[1..]
    {
      if charges == [] {
        return Undecided;
      }
      poll, charges := charges[0], charges[1..];
    }

    method PollFrame() returns (poll: Poll)
      modifies this
      ensures (Model(), poll) == PollOnce(old(Model()))
    {
      if denied {
        output := output + [End];
        return Ready(End);
      }
      while true
        invariant !denied && PollOnce(Model()) == PollOnce(old(Model()))
        decreases if pendingCharge.Some? then 0 else 1
      {
        if pendingCharge.Some? {
          var charge := PollCharge();
          if charge.Undecided? {
            return Pending;
          }
          var data := pendingCharge.value;
          pendingCharge := None;
          if charge.Granted? {
            paid, output := paid + [|data|], output + [Data(data)];
            return Ready(Data(data));
          }
          denied, output := true, output + [Refused];
          return Ready(Refused);
        }
        var answer := PollInner();
        if answer.Wait? {
          return Pending;
        }
        if !Metered(answer.item) {
          output := output + [answer.item];
          return Ready(answer.item);
        }
        charged := charged + [|answer.item.bytes|];
        pendingCharge := Some(answer.item.bytes);
      }
    }
  }
}

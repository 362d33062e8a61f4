/** Randomised exponential backoff (doc-db/src/trx.rs:347-357, doc-db/src/turso/database.rs:126-135). */
module Backoffs {
  import opened DocTypes

  type U64 = x: nat | x < U64_LIMIT

  /** `value << shift` on `u64`: the high bits are lost. */
  function ShiftLeft(value: U64, shift: nat): U64 {
    if shift == 0 then value
    else
      var half := ShiftLeft(value, shift - 1);
      if 2 * half >= U64_LIMIT then 2 * half - U64_LIMIT else 2 * half
  }

  /** The longest sleep after the given attempt; a shift of 64 or more yields the cap. */
  function Ceiling(base: U64, cap: U64, attempt: nat): (ms: nat)
    ensures ms <= cap
  {
    var shifted := if attempt >= 64 then cap else ShiftLeft(base, attempt);
    if shifted < cap then shifted else cap
  }

  /** One random sleep. */
  function Delay(base: U64, cap: U64, attempt: nat, raw: nat): (ms: nat)
    ensures ms <= Ceiling(base, cap, attempt)
  {
    raw % (Ceiling(base, cap, attempt) + 1)
  }

  /** The sleeps after the first `count` attempts together. */
  function Slept(base: U64, cap: U64, random: nat -> nat, count: nat): nat {
    if count == 0 then 0 else Slept(base, cap, random, count - 1) + Delay(base, cap, count - 1, random(count - 1))
  }

  /** Every sleep up to the ceiling is drawn, and as often as any other: the draws repeat. */
  lemma EveryDelayIsDrawn(base: U64, cap: U64, attempt: nat, raw: nat)
    ensures raw <= Ceiling(base, cap, attempt) ==> Delay(base, cap, attempt, raw) == raw
    ensures Delay(base, cap, attempt, raw + Ceiling(base, cap, attempt) + 1) == Delay(base, cap, attempt, raw)
  {
    var n := Ceiling(base, cap, attempt) + 1;
    RemainderRepeats(raw, n);
  }

  lemma RemainderRepeats(raw: nat, n: nat)
    requires n > 0
    ensures (raw + n) % n == raw % n
    ensures raw < n ==> raw % n == raw
  {
    var q, r := raw / n, raw % n;
    assert raw + n == (q + 1) * n + r;
    RemainderUnique(q + 1, r, n);
  }

  lemma RemainderUnique(q: nat, r: nat, n: nat)
    requires r < n
    ensures (q * n + r) % n == r
  {
    var x := q * n + r;
    var k := x / n - q;
    assert x == (x / n) * n + x % n;
    assert k * n == r - x % n;
    MultipleIsFar(k, n);
  }

  lemma MultipleIsFar(k: int, n: nat)
    ensures k >= 1 ==> k * n >= n
    ensures k <= -1 ==> k * n <= 0 - n
  {
  }
}

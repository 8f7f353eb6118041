/** The token bucket that limits the signals of one websocket: 20 a second, 40 at once. */
module SignalRate {
  const RATE := 20.0
  const BURST := 40.0

  datatype Bucket = Bucket(tokens: real, lastRefill: real)

  /** Refill for the time since the last call, at most up to the burst limit. */
  function Refilled(b: Bucket, now: real): real {
    var tokens := b.tokens + (now - b.lastRefill) * RATE;
    if tokens > BURST then BURST else tokens
  }

  function Allows(b: Bucket, now: real): bool {
    Refilled(b, now) >= 1.0
  }

  function After(b: Bucket, now: real): Bucket {
    Bucket(if Allows(b, now) then Refilled(b, now) - 1.0 else Refilled(b, now), now)
  }

  class SignalRateLimiter {
    var tokens: real
    var lastRefill: real

    function Contents(): Bucket
      reads this
    {
      Bucket(tokens, lastRefill)
    }

    constructor (now: real)
      ensures Contents() == Bucket(BURST, now)
    {
      tokens, lastRefill := BURST, now;
    }

    method Allow(now: real) returns (ok: bool)
      modifies this
      ensures ok == Allows(old(Contents()), now)
      ensures Contents() == After(old(Contents()), now)
    {
      var elapsed := now - lastRefill;
      lastRefill := now;
      tokens := tokens + elapsed * RATE;
      if tokens > BURST {
        tokens := BURST;
      }
      if tokens < 1.0 {
        return false;
      }
      tokens := tokens - 1.0;
      ok := true;
    }
  }

  predicate Ordered(times: seq<real>) {
    forall i, j | 0 <= i < j < |times| :: times[i] <= times[j]
  }

  /** The bucket after the first n calls; it was filled at time start. */
  function BucketAt(start: real, times: seq<real>, n: nat): Bucket
    requires n <= |times|
  {
    if n == 0 then Bucket(BURST, start) else After(BucketAt(start, times, n - 1), times[n - 1])
  }

  predicate Allowed(start: real, times: seq<real>, n: nat)
    requires n < |times|
  {
    Allows(BucketAt(start, times, n), times[n])
  }

  /** The number of calls let through among those numbered from, ..., end - 1. */
  function CountAllowed(start: real, times: seq<real>, from: nat, end: nat): nat
    requires from <= end <= |times|
    decreases end - from
  {
    if from == end then 0
    else
      var before := CountAllowed(start, times, from, end - 1);
      if Allowed(start, times, end - 1) then before + 1 else before
  }

  /** The tokens that call n finds. */
  function Level(start: real, times: seq<real>, n: nat): real
    requires n < |times|
  {
    Refilled(BucketAt(start, times, n), times[n])
  }

  /** What the limit leaves for call n, counting from call i. */
  function Credit(start: real, times: seq<real>, i: nat, n: nat): real
    requires i <= n < |times|
  {
    BURST - CountAllowed(start, times, i, n) as real + RATE * (times[n] - times[i])
  }

  lemma LevelStep(start: real, times: seq<real>, n: nat)
    requires n + 1 < |times|
    ensures var spent := if Allowed(start, times, n) then 1.0 else 0.0;
            var refilled := Level(start, times, n) - spent + (times[n + 1] - times[n]) * RATE;
            Level(start, times, n + 1) == if refilled > BURST then BURST else refilled
  {
  }

  lemma CreditStep(start: real, times: seq<real>, i: nat, n: nat)
    requires i <= n && n + 1 < |times|
    ensures var spent := if Allowed(start, times, n) then 1.0 else 0.0;
            Credit(start, times, i, n + 1) == Credit(start, times, i, n) - spent + (times[n + 1] - times[n]) * RATE
  {
    hide Allowed;
  }

  lemma CreditOfSelf(start: real, times: seq<real>, n: nat)
    requires n < |times|
    ensures Credit(start, times, n, n) == BURST
  {
  }

  lemma FirstLevel(start: real, times: seq<real>)
    requires times != [] && start <= times[0]
    ensures Level(start, times, 0) == BURST
  {
  }

  /** A call finds the least of what the limits from all calls up to it leave. */
  lemma {:induction false} LevelIsLeastCredit(start: real, times: seq<real>, n: nat)
    requires n < |times| && Ordered(times) && start <= times[0]
    ensures forall i | 0 <= i <= n :: Level(start, times, n) <= Credit(start, times, i, n)
    ensures exists i :: 0 <= i <= n && Level(start, times, n) == Credit(start, times, i, n)
  {
    hide Level, Credit, Allowed;
    CreditOfSelf(start, times, n);
    if n > 0 {
      LevelIsLeastCredit(start, times, n - 1);
      var best :| 0 <= best <= n - 1 && Level(start, times, n - 1) == Credit(start, times, best, n - 1);
      LevelStep(start, times, n - 1);
      CreditStep(start, times, best, n - 1);
      forall i | 0 <= i <= n ensures Level(start, times, n) <= Credit(start, times, i, n) {
        if i < n {
          CreditStep(start, times, i, n - 1);
        }
      }
      assert Level(start, times, n) == Credit(start, times, if Level(start, times, n) == BURST then n else best, n);
    } else {
      FirstLevel(start, times);
    }
  }

  /**
   A call is let through exactly if, from every call i up to it, it and those let through since
   are at most 40 and 20 for each second.
   */
  lemma AllowedExactly(start: real, times: seq<real>, n: nat)
    requires n < |times| && Ordered(times) && start <= times[0]
    ensures Allowed(start, times, n) <==>
            forall i | 0 <= i <= n ::
                (CountAllowed(start, times, i, n) + 1) as real <= BURST + RATE * (times[n] - times[i])
  {
    LevelIsLeastCredit(start, times, n);
    assert Allowed(start, times, n) <==> Level(start, times, n) >= 1.0;
    hide Level, Allowed, CountAllowed;
    var best :| 0 <= best <= n && Level(start, times, n) == Credit(start, times, best, n);
    assert forall i | 0 <= i <= n :: Credit(start, times, i, n) >= 1.0 <==>
             (CountAllowed(start, times, i, n) + 1) as real <= BURST + RATE * (times[n] - times[i]);
  }

  /** From call i to call j at most 40 are let through, and 20 for each second between them. */
  lemma {:induction false} AllowedIsBounded(start: real, times: seq<real>, i: nat, j: nat)
    requires i <= j < |times| && Ordered(times) && start <= times[0]
    ensures CountAllowed(start, times, i, j + 1) as real <= BURST + RATE * (times[j] - times[i])
    decreases j - i
  {
    AllowedExactly(start, times, j);
    hide Allowed;
    if !Allowed(start, times, j) && i < j {
      AllowedIsBounded(start, times, i, j - 1);
    }
  }

  /** The tokens stay within 0 and 40. */
  lemma {:induction false} TokensStayInRange(start: real, times: seq<real>, n: nat)
    requires n <= |times| && Ordered(times) && (times != [] ==> start <= times[0])
    ensures 0.0 <= BucketAt(start, times, n).tokens <= BURST
    ensures BucketAt(start, times, n).lastRefill == if n == 0 then start else times[n - 1]
  {
    if n > 0 {
      TokensStayInRange(start, times, n - 1);
    }
  }
}

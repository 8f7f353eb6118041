/** The limit on login attempts: a sliding window for each IP, and a background cleanup. */
module LoginLimiter {
  const MINUTE := 60_000_000_000       // in nanoseconds
  const CLEANUP_AGE := 15 * MINUTE

  type Limits = map<string, seq<int>>

  /** The timestamps after a cutoff. */
  function Fresh(times: seq<int>, cutoff: int): seq<int> {
    if times == [] then []
    else
      var before, t := Fresh(times[..|times| - 1], cutoff), times[|times| - 1];
      if t > cutoff then before + [t] else before
  }

  function TimesOf(limits: Limits, ip: string): seq<int> {
    if ip in limits then limits[ip] else []
  }

  predicate Allows(limits: Limits, ip: string, now: int, maxAttempts: int, window: int) {
    |Fresh(TimesOf(limits, ip), now - window)| < maxAttempts
  }

  function AfterAttempt(limits: Limits, ip: string, now: int, maxAttempts: int, window: int): Limits {
    if Allows(limits, ip, now, maxAttempts, window)
    then limits[ip := Fresh(TimesOf(limits, ip), now - window) + [now]]
    else limits
  }

  function AfterCleanup(limits: Limits, now: int): Limits {
    map ip | ip in limits && Fresh(limits[ip], now - CLEANUP_AGE) != [] :: Fresh(limits[ip], now - CLEANUP_AGE)
  }

  class RateLimits {
    var limits: Limits

    method CollectFresh(times: seq<int>, cutoff: int) returns (kept: seq<int>)
      ensures kept == Fresh(times, cutoff)
    {
      kept := [];
      for i := 0 to |times|
        invariant kept == Fresh(times[..i], cutoff)
      {
        assert times[..i + 1][..i] == times[..i];
        if times[i] > cutoff {
          kept := kept + [times[i]];
        }
      }
      assert times[..|times|] == times;
    }

    /** One request through the login middleware. */
    method Attempt(ip: string, now: int, maxAttempts: int, window: int) returns (ok: bool)
      modifies this
      ensures ok == Allows(old(limits), ip, now, maxAttempts, window)
      ensures limits == AfterAttempt(old(limits), ip, now, maxAttempts, window)
    {
      var recent := CollectFresh(TimesOf(limits, ip), now - window);
      if |recent| >= maxAttempts {
        return false;
      }
      limits := limits[ip := recent + [now]];
      ok := true;
    }

    /** One pass of the background cleanup. */
    method Cleanup(now: int)
      modifies this
      ensures limits == AfterCleanup(old(limits), now)
    {
      var todo := limits.Keys;
      while todo != {}
        invariant todo <= old(limits).Keys
        invariant forall ip | ip in todo :: ip in limits && limits[ip] == old(limits)[ip]
        invariant forall ip | ip !in todo :: (ip in limits <==> ip in AfterCleanup(old(limits), now))
                                          && (ip in limits ==> limits[ip] == AfterCleanup(old(limits), now)[ip])
        decreases |todo|
      {
        var ip :| ip in todo;
        var recent := CollectFresh(limits[ip], now - CLEANUP_AGE);
        if |recent| == 0 {
          limits := limits - {ip};
        } else {
          limits := limits[ip := recent];
        }
        todo := todo - {ip};
      }
    }
  }

  // ---- runs ----

  datatype Event = Attempt(ip: string, at: int) | Cleanup(at: int)

  predicate InOrder(events: seq<Event>) {
    forall i, j | 0 <= i < j < |events| :: events[i].at <= events[j].at
  }

  datatype Policy = Policy(maxAttempts: int, window: int, cleans: bool)

  /** The table after a history; a policy that does not clean ignores the cleanups. */
  function After(events: seq<Event>, p: Policy): Limits {
    if events == [] then map[]
    else
      var before := After(events[..|events| - 1], p);
      match events[|events| - 1]
      case Attempt(ip, at) => AfterAttempt(before, ip, at, p.maxAttempts, p.window)
      case Cleanup(at) => if p.cleans then AfterCleanup(before, at) else before
  }

  predicate LetThrough(events: seq<Event>, p: Policy, n: nat)
    requires n < |events|
  {
    events[n].Attempt? && Allows(After(events[..n], p), events[n].ip, events[n].at, p.maxAttempts, p.window)
  }

  /** When an IP's attempts were let through. */
  function History(events: seq<Event>, p: Policy, ip: string): seq<int> {
    if events == [] then []
    else
      var n := |events| - 1;
      var before := History(events[..n], p, ip);
      if events[n].Attempt? && events[n].ip == ip && LetThrough(events, p, n) then before + [events[n].at] else before
  }

  lemma {:induction false} FreshOfFresh(times: seq<int>, early: int, late: int)
    requires early <= late
    ensures Fresh(Fresh(times, early), late) == Fresh(times, late)
  {
    if times != [] {
      var n := |times| - 1;
      FreshOfFresh(times[..n], early, late);
      FreshOneMore(Fresh(times[..n], early), times[n], late);
    }
  }

  lemma FreshOneMore(times: seq<int>, t: int, cutoff: int)
    ensures Fresh(times + [t], cutoff) == Fresh(times, cutoff) + if t > cutoff then [t] else []
  {
    assert (times + [t])[..|times|] == times;
  }

  lemma AttemptKnows(limits: Limits, history: seq<int>, ip: string, other: string, at: int, p: Policy, cutoff: int)
    requires Fresh(TimesOf(limits, ip), cutoff) == Fresh(history, cutoff) && cutoff >= at - p.window
    ensures var let := other == ip && Allows(limits, other, at, p.maxAttempts, p.window);
            Fresh(TimesOf(AfterAttempt(limits, other, at, p.maxAttempts, p.window), ip), cutoff)
            == Fresh(if let then history + [at] else history, cutoff)
  {
    hide Fresh;
    if other == ip && Allows(limits, ip, at, p.maxAttempts, p.window) {
      FreshOneMore(Fresh(TimesOf(limits, ip), at - p.window), at, cutoff);
      FreshOfFresh(TimesOf(limits, ip), at - p.window, cutoff);
      FreshOneMore(history, at, cutoff);
    }
  }

  lemma CleanupKnows(limits: Limits, ip: string, at: int, cutoff: int)
    requires cutoff >= at - CLEANUP_AGE
    ensures Fresh(TimesOf(AfterCleanup(limits, at), ip), cutoff) == Fresh(TimesOf(limits, ip), cutoff)
  {
    FreshOfFresh(TimesOf(limits, ip), at - CLEANUP_AGE, cutoff);
  }

  /** The table knows enough of the history for any window that ends now or later. */
  lemma {:induction false} TableKnowsHistory(events: seq<Event>, p: Policy, ip: string, cutoff: int)
    requires InOrder(events) && (p.cleans ==> p.window <= CLEANUP_AGE)
    requires events != [] ==> cutoff >= events[|events| - 1].at - p.window
    ensures Fresh(TimesOf(After(events, p), ip), cutoff) == Fresh(History(events, p, ip), cutoff)
    decreases |events|
  {
    if events != [] {
      hide Fresh, AfterAttempt, AfterCleanup, Allows;
      var n := |events| - 1;
      var before := After(events[..n], p);
      TableKnowsHistory(events[..n], p, ip, cutoff);
      match events[n]
      case Attempt(other, at) => AttemptKnows(before, History(events[..n], p, ip), ip, other, at, p, cutoff);
      case Cleanup(at) =>
        if p.cleans {
          CleanupKnows(before, ip, at, cutoff);
        }
    }
  }

  /** A decision depends only on what was let through within the window. */
  lemma DecidedByHistory(events: seq<Event>, p: Policy, n: nat)
    requires n < |events| && events[n].Attempt? && InOrder(events) && (p.cleans ==> p.window <= CLEANUP_AGE)
    ensures LetThrough(events, p, n) <==>
              |Fresh(History(events[..n], p, events[n].ip), events[n].at - p.window)| < p.maxAttempts
  {
    TableKnowsHistory(events[..n], p, events[n].ip, events[n].at - p.window);
  }

  /** The timestamps in a span: after its start, up to its end. */
  function Within(times: seq<int>, start: int, end: int): seq<int> {
    if times == [] then []
    else
      var before, t := Within(times[..|times| - 1], start, end), times[|times| - 1];
      if start < t <= end then before + [t] else before
  }

  lemma {:induction false} SpanIsFresh(times: seq<int>, start: int, end: int, cutoff: int)
    requires cutoff <= start
    ensures |Within(times, start, end)| <= |Fresh(times, cutoff)|
  {
    if times != [] {
      SpanIsFresh(times[..|times| - 1], start, end, cutoff);
    }
  }

  lemma HistoryStep(events: seq<Event>, p: Policy, ip: string)
    requires events != []
    ensures var n := |events| - 1;
            History(events, p, ip) == History(events[..n], p, ip) +
              if events[n].Attempt? && events[n].ip == ip && LetThrough(events, p, n) then [events[n].at] else []
  {
    hide LetThrough;
  }

  /** No span as long as the window has more than the allowed number of attempts from one IP. */
  lemma {:induction false} SpanIsLimited(events: seq<Event>, p: Policy, ip: string, start: int)
    requires InOrder(events) && (p.cleans ==> p.window <= CLEANUP_AGE)
    ensures |Within(History(events, p, ip), start, start + p.window)| <= if p.maxAttempts < 0 then 0 else p.maxAttempts
    decreases |events|
  {
    if events != [] {
      hide LetThrough, Fresh, History;
      var n := |events| - 1;
      var before, t := History(events[..n], p, ip), events[n].at;
      HistoryStep(events, p, ip);
      SpanIsLimited(events[..n], p, ip, start);
      if events[n].Attempt? && events[n].ip == ip && LetThrough(events, p, n) {
        DecidedByHistory(events, p, n);
        assert (before + [t])[..|before|] == before;
        if start < t <= start + p.window {
          SpanIsFresh(before, start, start + p.window, t - p.window);
        }
      }
    }
  }

  // ---- the cleanup ----

  predicate SameDecisions(events: seq<Event>, maxAttempts: int, window: int) {
    forall n | 0 <= n < |events| ::
      LetThrough(events, Policy(maxAttempts, window, true), n) ==
          LetThrough(events, Policy(maxAttempts, window, false), n)
  }

  lemma EmptyHistory(p: Policy, ip: string)
    ensures History([], p, ip) == []
  {
  }

  lemma {:induction false} SameHistory(events: seq<Event>, maxAttempts: int, window: int, ip: string)
    requires InOrder(events) && window <= CLEANUP_AGE
    ensures History(events, Policy(maxAttempts, window, true), ip) ==
              History(events, Policy(maxAttempts, window, false), ip)
    decreases |events|
  {
    hide LetThrough, History, Fresh;
    var cleaning, plain := Policy(maxAttempts, window, true), Policy(maxAttempts, window, false);
    if events != [] {
      var n := |events| - 1;
      SameHistory(events[..n], maxAttempts, window, ip);
      HistoryStep(events, cleaning, ip);
      HistoryStep(events, plain, ip);
      if events[n].Attempt? && events[n].ip == ip {
        DecidedByHistory(events, cleaning, n);
        DecidedByHistory(events, plain, n);
      }
    } else {
      EmptyHistory(cleaning, ip);
      EmptyHistory(plain, ip);
    }
  }

  lemma ShortWindowAgrees(events: seq<Event>, maxAttempts: int, window: int)
    requires InOrder(events) && window <= CLEANUP_AGE
    ensures SameDecisions(events, maxAttempts, window)
  {
    hide Fresh, After, History, Allows;
    var cleaning, plain := Policy(maxAttempts, window, true), Policy(maxAttempts, window, false);
    forall n | 0 <= n < |events| ensures LetThrough(events, cleaning, n) == LetThrough(events, plain, n) {
      if events[n].Attempt? {
        SameHistory(events[..n], maxAttempts, window, events[n].ip);
        DecidedByHistory(events, cleaning, n);
        DecidedByHistory(events, plain, n);
      }
    }
  }

  /** So many attempts of one IP at time 0. */
  function Burst(ip: string, n: nat): seq<Event> {
    if n == 0 then [] else Burst(ip, n - 1) + [Attempt(ip, 0)]
  }

  lemma {:induction false} BurstIsOrdered(ip: string, n: nat)
    ensures |Burst(ip, n)| == n && forall i | 0 <= i < n :: Burst(ip, n)[i].at == 0
  {
    if n > 0 {
      BurstIsOrdered(ip, n - 1);
    }
  }

  lemma OneMoreAttempt(events: seq<Event>, ip: string, at: int, p: Policy)
    ensures After(events + [Attempt(ip, at)], p) == AfterAttempt(After(events, p), ip, at, p.maxAttempts, p.window)
  {
    hide AfterAttempt;
    assert (events + [Attempt(ip, at)])[..|events|] == events;
  }

  predicate Zeros(times: seq<int>, n: nat) {
    |times| == n && forall i | 0 <= i < n :: times[i] == 0
  }

  lemma FillsOneMore(limits: Limits, ip: string, n: nat, p: Policy)
    requires n < p.maxAttempts && p.window > 0 && Zeros(TimesOf(limits, ip), n)
    ensures Zeros(TimesOf(AfterAttempt(limits, ip, 0, p.maxAttempts, p.window), ip), n + 1)
  {
    hide Fresh;
    AllFresh(TimesOf(limits, ip), 0 - p.window);
  }

  lemma {:induction false} BurstFills(ip: string, n: nat, p: Policy)
    requires n <= p.maxAttempts && p.window > 0
    ensures Zeros(TimesOf(After(Burst(ip, n), p), ip), n)
  {
    if n > 0 {
      hide After, Zeros, AfterAttempt, TimesOf;
      BurstFills(ip, n - 1, p);
      OneMoreAttempt(Burst(ip, n - 1), ip, 0, p);
      FillsOneMore(After(Burst(ip, n - 1), p), ip, n - 1, p);
    }
  }

  lemma {:induction false} AllFresh(times: seq<int>, cutoff: int)
    requires forall i | 0 <= i < |times| :: times[i] == 0
    ensures Fresh(times, cutoff) == if cutoff < 0 then times else []
  {
    if times != [] {
      AllFresh(times[..|times| - 1], cutoff);
      assert times == times[..|times| - 1] + [0];
    }
  }

  lemma OneMoreCleanup(events: seq<Event>, at: int, p: Policy)
    ensures After(events + [Cleanup(at)], p) ==
              if p.cleans then AfterCleanup(After(events, p), at) else After(events, p)
  {
    hide AfterCleanup;
    assert (events + [Cleanup(at)])[..|events|] == events;
  }

  lemma CleanupForgetsZeros(limits: Limits, ip: string, n: nat)
    requires Zeros(TimesOf(limits, ip), n)
    ensures TimesOf(AfterCleanup(limits, CLEANUP_AGE), ip) == []
  {
    AllFresh(TimesOf(limits, ip), 0);
  }

  lemma ZerosStayFresh(limits: Limits, ip: string, n: nat, window: int)
    requires Zeros(TimesOf(limits, ip), n) && window > CLEANUP_AGE
    ensures !Allows(limits, ip, CLEANUP_AGE, n, window)
  {
    AllFresh(TimesOf(limits, ip), CLEANUP_AGE - window);
  }

  lemma DecisionAfter(events: seq<Event>, ip: string, at: int, p: Policy)
    ensures LetThrough(events + [Attempt(ip, at)], p, |events|)
         == Allows(After(events, p), ip, at, p.maxAttempts, p.window)
  {
    hide Allows, After;
    assert (events + [Attempt(ip, at)])[..|events|] == events;
  }

  lemma BurstThenMoreIsOrdered(ip: string, n: nat)
    ensures InOrder(Burst(ip, n) + [Cleanup(CLEANUP_AGE)] + [Attempt(ip, CLEANUP_AGE)])
  {
    BurstIsOrdered(ip, n);
    hide Burst;
  }

  lemma CleanedBurstAllows(ip: string, n: nat, p: Policy)
    requires n >= 1 && p.maxAttempts == n && p.window > 0
    ensures p.cleans ==> Allows(After(Burst(ip, n) + [Cleanup(CLEANUP_AGE)], p), ip, CLEANUP_AGE, n, p.window)
    ensures !p.cleans && p.window > CLEANUP_AGE ==>
              !Allows(After(Burst(ip, n) + [Cleanup(CLEANUP_AGE)], p), ip, CLEANUP_AGE, n, p.window)
  {
    BurstFills(ip, n, p);
    OneMoreCleanup(Burst(ip, n), CLEANUP_AGE, p);
    NothingFresh(CLEANUP_AGE - p.window);
    hide After, Burst, Fresh, AfterCleanup, TimesOf, Zeros;
    if p.cleans {
      CleanupForgetsZeros(After(Burst(ip, n), p), ip, n);
    } else if p.window > CLEANUP_AGE {
      ZerosStayFresh(After(Burst(ip, n), p), ip, n, p.window);
    }
  }

  /** With a longer window the cleanup lets an attempt through that the window would refuse. */
  lemma LongWindowDiffers(ip: string, maxAttempts: int, window: int)
    requires maxAttempts >= 1 && window > CLEANUP_AGE
    ensures var events := Burst(ip, maxAttempts) + [Cleanup(CLEANUP_AGE)] + [Attempt(ip, CLEANUP_AGE)];
            InOrder(events) && !SameDecisions(events, maxAttempts, window)
  {
    hide After, Burst, LetThrough, InOrder, Allows;
    var cleaned := Burst(ip, maxAttempts) + [Cleanup(CLEANUP_AGE)];
    var cleaning, plain := Policy(maxAttempts, window, true), Policy(maxAttempts, window, false);
    BurstThenMoreIsOrdered(ip, maxAttempts);
    CleanedBurstAllows(ip, maxAttempts, cleaning);
    CleanedBurstAllows(ip, maxAttempts, plain);
    DecisionAfter(cleaned, ip, CLEANUP_AGE, cleaning);
    DecisionAfter(cleaned, ip, CLEANUP_AGE, plain);
  }

  lemma NothingFresh(cutoff: int)
    ensures Fresh([], cutoff) == []
  {
  }

  /** The cleanup changes no decision exactly if the window is at most 15 minutes, or nothing is let through anyway. */
  lemma CleanupIsTransparent(maxAttempts: int, window: int)
    ensures (forall events | InOrder(events) :: SameDecisions(events, maxAttempts, window))
            <==> window <= CLEANUP_AGE || maxAttempts < 1
  {
    hide SameDecisions;
    if window <= CLEANUP_AGE {
      forall events | InOrder(events) ensures SameDecisions(events, maxAttempts, window) {
        ShortWindowAgrees(events, maxAttempts, window);
      }
    } else if maxAttempts < 1 {
      forall events: seq<Event> ensures SameDecisions(events, maxAttempts, window) {
        AlwaysRefused(events, maxAttempts, window);
      }
    } else {
      LongWindowDiffers("", maxAttempts, window);
    }
  }

  lemma AlwaysRefused(events: seq<Event>, maxAttempts: int, window: int)
    requires maxAttempts < 1
    ensures SameDecisions(events, maxAttempts, window)
  {
  }
}

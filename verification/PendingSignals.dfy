/** The list of signals kept for a session until it connects: at most 64, the oldest go first. */
module PendingSignals {
  const MAX_PENDING := 64

  datatype Event = Queue(payload: string) | Claim

  /** LTRIM key -64 -1 */
  function Trim<T>(s: seq<T>): seq<T> {
    if |s| > MAX_PENDING then s[|s| - MAX_PENDING..] else s
  }

  /** RPUSH and LTRIM. */
  function Push<T>(pending: seq<T>, x: T): seq<T> {
    Trim(pending + [x])
  }

  /** LRANGE key 0 63 */
  function Drained<T>(pending: seq<T>): seq<T> {
    if |pending| > MAX_PENDING then pending[..MAX_PENDING] else pending
  }

  /** The list after a history, each payload named by the position of its event. */
  function Pending(events: seq<Event>): seq<nat> {
    if events == [] then []
    else
      var before := events[..|events| - 1];
      match events[|events| - 1]
      case Queue(_) => Push(Pending(before), |before|)
      case Claim => []
  }

  /** Everything queued since the last claim. */
  function SinceClaim(events: seq<Event>): seq<nat> {
    if events == [] then []
    else
      var before := events[..|events| - 1];
      match events[|events| - 1]
      case Queue(_) => SinceClaim(before) + [|before|]
      case Claim => []
  }

  lemma OneMoreEvent(events: seq<Event>)
    requires events != []
    ensures var before := events[..|events| - 1];
            match events[|events| - 1]
            case Queue(_) => Pending(events) == Push(Pending(before), |before|)
                && SinceClaim(events) == SinceClaim(before) + [|before|]
            case Claim => Pending(events) == [] && SinceClaim(events) == []
  {
  }

  /** The list is the last 64 of what was queued since the last claim, in order. */
  lemma {:induction false} PendingIsLast(events: seq<Event>)
    ensures Pending(events) == Trim(SinceClaim(events))
  {
    if events != [] {
      hide Pending, SinceClaim;
      var before := events[..|events| - 1];
      PendingIsLast(before);
      OneMoreEvent(events);
      TrimOnce<nat>(SinceClaim(before), |before|);
    }
  }

  lemma TrimOnce<T>(s: seq<T>, x: T)
    ensures Push(Trim(s), x) == Trim(s + [x])
  {
  }

  /** The number of payloads queued at positions from, ..., end - 1. */
  function QueuedIn(events: seq<Event>, from: nat, end: nat): nat
    requires end <= |events|
    decreases end
  {
    if end <= from then 0
    else
      var before := QueuedIn(events, from, end - 1);
      if events[end - 1].Queue? then before + 1 else before
  }

  ghost predicate NoClaimIn(events: seq<Event>, from: nat, end: nat)
    requires end <= |events|
  {
    forall i | from <= i < end :: !events[i].Claim?
  }

  /** What SinceClaim holds, and where. */
  lemma {:induction false} SinceClaimHolds(events: seq<Event>, n: nat, k: nat)
    requires n <= |events|
    ensures var s := SinceClaim(events[..n]);
            && (k in s <==> k < n && events[k].Queue? && NoClaimIn(events, k, n))
            && (forall i, j | 0 <= i < j < |s| :: s[i] < s[j])
            && (k in s ==> |s| > QueuedIn(events, k + 1, n) && s[|s| - 1 - QueuedIn(events, k + 1, n)] == k)
    decreases n
  {
    if n > 0 {
      var before := events[..n][..n - 1];
      assert before == events[..n - 1];
      SinceClaimHolds(events, n - 1, k);
      var s := SinceClaim(before);
      forall i | 0 <= i < |s| ensures s[i] < n - 1 {
        SinceClaimHolds(events, n - 1, s[i]);
      }
    }
  }

  /** What the claim at position c returns. */
  function ClaimAt(events: seq<Event>, c: nat): seq<nat>
    requires c < |events| && events[c].Claim?
  {
    Drained(Pending(events[..c]))
  }

  /**
   A payload is returned by the first claim after it, unless 64 newer ones displaced it, and by
   no other claim.
   */
  lemma ReturnedOnce(events: seq<Event>, k: nat, c: nat)
    requires k < |events| && events[k].Queue? && c < |events| && events[c].Claim?
    ensures k in ClaimAt(events, c) <==> k < c && NoClaimIn(events, k, c) && QueuedIn(events, k + 1, c) < MAX_PENDING
  {
    var s, behind := SinceClaim(events[..c]), QueuedIn(events, k + 1, c);
    PendingIsLast(events[..c]);
    SinceClaimHolds(events, c, k);
    assert ClaimAt(events, c) == Trim(s);
    if k in s {
      InTrimmed(s, |s| - 1 - behind);
    } else {
      assert forall x | x in Trim(s) :: x in s;
    }
  }

  lemma InTrimmed(s: seq<nat>, i: nat)
    requires i < |s| && forall i, j | 0 <= i < j < |s| :: s[i] < s[j]
    ensures s[i] in Trim(s) <==> |s| - 1 - i < MAX_PENDING
  {
    if |s| > MAX_PENDING && i >= |s| - MAX_PENDING {
      assert Trim(s)[i - (|s| - MAX_PENDING)] == s[i];
    }
  }

  /** A claim returns only positions at which something was queued. */
  lemma ClaimedWasQueued(events: seq<Event>, c: nat, k: nat)
    requires c < |events| && events[c].Claim? && k in ClaimAt(events, c)
    ensures k < c && events[k].Queue?
  {
    PendingIsLast(events[..c]);
    SinceClaimHolds(events, c, k);
    assert k in SinceClaim(events[..c]);
  }

  /** Claims return payloads in the order in which they were queued. */
  lemma ReturnedInOrder(events: seq<Event>, c: nat, i: nat, j: nat)
    requires c < |events| && events[c].Claim? && i < j < |ClaimAt(events, c)|
    ensures ClaimAt(events, c)[i] < ClaimAt(events, c)[j]
  {
    PendingIsLast(events[..c]);
    SinceClaimHolds(events, c, 0);
  }

  /** The list itself after a history. */
  function ListAfter(events: seq<Event>): seq<string> {
    if events == [] then []
    else
      match events[|events| - 1]
      case Queue(payload) => Push(ListAfter(events[..|events| - 1]), payload)
      case Claim => []
  }

  lemma OneMoreQueued(events: seq<Event>, payload: string)
    ensures ListAfter(events + [Queue(payload)]) == Push(ListAfter(events), payload)
    ensures ListAfter(events + [Claim]) == []
  {
    assert (events + [Queue(payload)])[..|events|] == events;
  }

  /** The positions name the payloads: entry i of the list is what was queued at position Pending(events)[i]. */
  lemma {:induction false} ListIsPending(events: seq<Event>)
    ensures |ListAfter(events)| == |Pending(events)|
    ensures forall i | 0 <= i < |Pending(events)| ::
              Pending(events)[i] < |events| && events[Pending(events)[i]] == Queue(ListAfter(events)[i])
  {
    if events != [] {
      var before := events[..|events| - 1];
      ListIsPending(before);
    }
  }
}

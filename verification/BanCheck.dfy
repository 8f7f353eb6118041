/**
 Which of a list of session IPs are banned. On a Redis cluster the lookups are sent in one
 batch for each hash slot; the batches run at the same time and finish in any order.
 */
module BanCheck {
  import opened Options
  import opened Text
  import RedisKeys

  datatype Error = ValidationBackend

  /** The trimmed, non-blank values of a list, each where it first occurs. */
  function Normalized(ips: seq<string>): (r: seq<string>) {
    if ips == [] then []
    else
      var before := Normalized(ips[..|ips| - 1]);
      var ip := TrimSpace(ips[|ips| - 1]);
      if ip == "" || ip in before then before else before + [ip]
  }

  function Keep<T(!new)>(s: seq<T>, keep: T -> bool): (r: seq<T>)
    ensures forall x :: x in r <==> x in s && keep(x)
  {
    if s == [] then []
    else
      var before := Keep(s[..|s| - 1], keep);
      if keep(s[|s| - 1]) then before + [s[|s| - 1]] else before
  }

  predicate NoDuplicates<T(==)>(s: seq<T>) {
    forall i, j | 0 <= i < j < |s| :: s[i] != s[j]
  }

  /** Position i holds the first occurrence of a value. */
  predicate FirstAt(ips: seq<string>, i: nat, ip: string) {
    && i < |ips| && TrimSpace(ips[i]) == ip
    && forall j | 0 <= j < i :: TrimSpace(ips[j]) != ip
  }

  predicate Occurs(ips: seq<string>, ip: string) {
    exists i :: 0 <= i < |ips| && TrimSpace(ips[i]) == ip
  }

  lemma OccursGrows(ips: seq<string>, last: string, ip: string)
    ensures Occurs(ips + [last], ip) <==> Occurs(ips, ip) || TrimSpace(last) == ip
  {
    var longer := ips + [last];
    if Occurs(ips, ip) {
      var i :| 0 <= i < |ips| && TrimSpace(ips[i]) == ip;
      assert TrimSpace(longer[i]) == ip;
    }
    assert longer[|ips|] == last;
  }

  /** Normalising keeps exactly the non-blank values, trimmed and once each. */
  lemma {:induction false} NormalizedMeaning(ips: seq<string>)
    ensures NoDuplicates(Normalized(ips))
    ensures forall ip :: ip in Normalized(ips) <==> ip != "" && Occurs(ips, ip)
    ensures forall ip | ip in Normalized(ips) :: Trimmed(ip)
  {
    if ips != [] {
      var rest, last := ips[..|ips| - 1], ips[|ips| - 1];
      NormalizedMeaning(rest);
      TrimSpaceTrims(last);
      assert ips == rest + [last];
      forall ip ensures ip in Normalized(ips) <==> ip != "" && Occurs(ips, ip) {
        OccursGrows(rest, last, ip);
      }
    }
  }

  /** Normalising keeps the order of first occurrence. */
  lemma {:induction false} NormalizedKeepsOrder(ips: seq<string>, a: nat, b: nat, i: nat, j: nat)
    requires a < b < |Normalized(ips)|
    requires FirstAt(ips, i, Normalized(ips)[a]) && FirstAt(ips, j, Normalized(ips)[b])
    ensures i < j
    decreases |ips|
  {
    var rest := ips[..|ips| - 1];
    var x, y := Normalized(ips)[a], Normalized(ips)[b];
    NormalizedMeaning(rest);
    assert x in Normalized(rest);
    assert FirstAt(rest, i, x) by {
      var k :| 0 <= k < |rest| && TrimSpace(rest[k]) == x;
      assert TrimSpace(ips[k]) == x;
    }
    if b < |Normalized(rest)| {
      assert y in Normalized(rest);
      var k :| 0 <= k < |rest| && TrimSpace(rest[k]) == y;
      assert TrimSpace(ips[k]) == y;
      assert FirstAt(rest, j, y);
      NormalizedKeepsOrder(rest, a, b, i, j);
    } else if j < |rest| {
      assert TrimSpace(rest[j]) == y && Occurs(rest, y);
      assert false;
    }
  }

  method NormalizeSessionIPs(ips: seq<string>) returns (normalized: seq<string>)
    ensures normalized == Normalized(ips)
  {
    normalized := [];
    var seen: set<string> := {};
    for i := 0 to |ips|
      invariant normalized == Normalized(ips[..i])
      invariant forall ip :: ip in seen <==> ip in normalized
    {
      assert ips[..i + 1][..i] == ips[..i];
      var ip := TrimSpace(ips[i]);
      if ip != "" && ip !in seen {
        seen := seen + {ip};
        normalized := normalized + [ip];
      }
    }
    assert ips[..|ips|] == ips;
  }

  predicate SlotIs(slot: string -> nat, n: nat, ip: string) {
    slot(RedisKeys.BanIPKey(ip)) == n
  }

  /** The part of the list whose ban keys have one slot. */
  function GroupOf(ips: seq<string>, slot: string -> nat, n: nat): seq<string> {
    Keep(ips, ip => SlotIs(slot, n, ip))
  }

  /** The groups partition the list, and the keys of one group share its slot. */
  ghost predicate Grouped(ips: seq<string>, slot: string -> nat, groups: map<nat, seq<string>>) {
    && (forall ip | ip in ips :: slot(RedisKeys.BanIPKey(ip)) in groups)
    && (forall n | n in groups :: groups[n] != [] && groups[n] == GroupOf(ips, slot, n))
  }

  lemma GroupGrows(ips: seq<string>, slot: string -> nat, last: string, n: nat)
    ensures GroupOf(ips + [last], slot, n) ==
            if SlotIs(slot, n, last) then GroupOf(ips, slot, n) + [last] else GroupOf(ips, slot, n)
  {
    var longer := ips + [last];
    assert longer[..|longer| - 1] == ips;
  }

  lemma {:induction false} KeepsNothing<T(!new)>(s: seq<T>, keep: T -> bool)
    requires forall x | x in s :: !keep(x)
    ensures Keep(s, keep) == []
  {
    if Keep(s, keep) != [] {
      assert Keep(s, keep)[0] in Keep(s, keep);
    }
  }

  method GroupByClusterSlot(ips: seq<string>, slot: string -> nat) returns (groups: map<nat, seq<string>>)
    ensures Grouped(ips, slot, groups)
  {
    groups := map[];
    for i := 0 to |ips|
      invariant Grouped(ips[..i], slot, groups)
    {
      var ip, n := ips[i], slot(RedisKeys.BanIPKey(ips[i]));
      assert ips[..i + 1] == ips[..i] + [ip];
      forall m ensures GroupOf(ips[..i + 1], slot, m) ==
                       if m == n then GroupOf(ips[..i], slot, m) + [ip] else GroupOf(ips[..i], slot, m) {
        GroupGrows(ips[..i], slot, ip, m);
      }
      if n !in groups {
        KeepsNothing(ips[..i], x => SlotIs(slot, n, x));
      }
      groups := groups[n := (if n in groups then groups[n] else []) + [ip]];
    }
    assert ips[..|ips|] == ips;
  }

  predicate IsBanned(banKeys: set<string>, ip: string) {
    RedisKeys.BanIPKey(ip) in banKeys
  }

  /** One batch: the script asks for each key in turn. */
  method RunBatch(ips: seq<string>, banKeys: set<string>) returns (banned: seq<string>)
    requires forall ip | ip in ips :: Trimmed(ip) && ip != ""
    ensures banned == Keep(ips, ip => IsBanned(banKeys, ip))
  {
    banned := [];
    for i := 0 to |ips|
      invariant banned == Keep(ips[..i], ip => IsBanned(banKeys, ip))
    {
      assert ips[..i + 1][..i] == ips[..i];
      if RedisKeys.BanIPKey(ips[i]) in banKeys {
        TrimSpaceTrims(ips[i]);
        var value := TrimSpace(ips[i]);
        if value != "" {
          banned := banned + [value];
        }
      }
    }
    assert ips[..|ips|] == ips;
  }

  /** The reference: look each address up by itself. */
  function Banned(ips: seq<string>, banKeys: set<string>): seq<string> {
    Keep(Normalized(ips), ip => IsBanned(banKeys, ip))
  }

  predicate SomeBatchFails(ips: seq<string>, slot: string -> nat, failing: set<nat>) {
    exists ip :: ip in ips && slot(RedisKeys.BanIPKey(ip)) in failing
  }

  /** The set so far holds the banned addresses of the batches that are done, and no other. */
  predicate Collected(ips: seq<string>, banKeys: set<string>, slot: string -> nat,
                      done: set<nat>, bannedSet: set<string>) {
    && (forall ip | ip in bannedSet :: ip in ips && IsBanned(banKeys, ip))
    && (forall ip | ip in ips && slot(RedisKeys.BanIPKey(ip)) in done && IsBanned(banKeys, ip) :: ip in bannedSet)
  }

  /** All batches, in whatever order they finish; none of them sees another's result. */
  method RunBatches(ips: seq<string>, banKeys: set<string>, slot: string -> nat, failing: set<nat>)
    returns (failed: bool, bannedSet: set<string>)
    requires forall ip | ip in ips :: Trimmed(ip) && ip != ""
    ensures failed == SomeBatchFails(ips, slot, failing)
    ensures !failed ==> forall ip :: ip in bannedSet <==> ip in ips && IsBanned(banKeys, ip)
  {
    var groups := GroupByClusterSlot(ips, slot);
    assert forall ip | ip in ips :: SlotIs(slot, slot(RedisKeys.BanIPKey(ip)), ip);
    var running := groups.Keys;
    ghost var done: set<nat> := {};
    failed, bannedSet := false, {};
    while running != {}
      invariant done + running == groups.Keys
      invariant failed <==> exists n :: n in done && n in failing
      invariant !failed ==> Collected(ips, banKeys, slot, done, bannedSet)
      decreases running
    {
      var n :| n in running;
      if n in failing {
        failed := true;
      } else {
        var banned := RunBatch(groups[n], banKeys);
        bannedSet := bannedSet + (set ip | ip in banned);
        forall ip | ip in ips && slot(RedisKeys.BanIPKey(ip)) == n && IsBanned(banKeys, ip) ensures ip in banned {
          assert ip in GroupOf(ips, slot, n);
        }
      }
      running, done := running - {n}, done + {n};
    }
    if failed {
      var n :| n in groups && n in failing;
      assert groups[n][0] in groups[n];
    }
  }

  method KeepMembers(ips: seq<string>, members: set<string>) returns (kept: seq<string>)
    ensures kept == Keep(ips, ip => ip in members)
  {
    kept := [];
    for i := 0 to |ips|
      invariant kept == Keep(ips[..i], ip => ip in members)
    {
      assert ips[..i + 1][..i] == ips[..i];
      if ips[i] in members {
        kept := kept + [ips[i]];
      }
    }
    assert ips[..|ips|] == ips;
  }

  lemma {:induction false} KeepDependsOnMembersOnly<T(!new)>(s: seq<T>, p: T -> bool, q: T -> bool)
    requires forall x | x in s :: p(x) == q(x)
    ensures Keep(s, p) == Keep(s, q)
  {
    if s != [] {
      KeepDependsOnMembersOnly(s[..|s| - 1], p, q);
      assert s[|s| - 1] in s;
    }
  }

  /**
   The batched check is the simple one, for every slot function and every order in which the
   batches finish. One failing batch fails the whole check.
   */
  method CheckBannedSessionIPs(ips: seq<string>, banKeys: set<string>, cluster: bool,
                               slot: string -> nat, failing: set<nat>)
    returns (result: Result<seq<string>, Error>)
    ensures result == if cluster && SomeBatchFails(Normalized(ips), slot, failing)
                      then Err(ValidationBackend)
                      else Ok(Banned(ips, banKeys))
  {
    var normalized := NormalizeSessionIPs(ips);
    NormalizedMeaning(ips);
    if normalized == [] {
      return Ok([]);
    }
    var bannedSet: set<string>;
    if cluster {
      var failed;
      failed, bannedSet := RunBatches(normalized, banKeys, slot, failing);
      if failed {
        return Err(ValidationBackend);
      }
    } else {
      var banned := RunBatch(normalized, banKeys);
      bannedSet := set ip | ip in banned;
    }
    var kept := KeepMembers(normalized, bannedSet);
    KeepDependsOnMembersOnly(normalized, ip => ip in bannedSet, ip => IsBanned(banKeys, ip));
    return Ok(kept);
  }
}

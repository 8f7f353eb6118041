/** The table of live allocations one relay keeps under its mutex. */
module AllocationTable {
  import opened Options
  import opened Text
  import opened AllocationIndex
  import BanCheck
  import RedisKeys

  const REMEMBERED_TTL := 60_000   // rememberedSessionIPTTL, in milliseconds

  datatype Remembered = Remembered(ip: string, seenAt: int)

  function Upper(s: string): string {
    if s == "" then "" else [if 'a' <= s[0] <= 'z' then s[0] - 32 as char else s[0]] + Upper(s[1..])
  }

  datatype FiveTuple = FiveTuple(source: string, destination: string, protocol: string)
  {
    /** activeAllocationKey */
    function Key(): Key {
      Upper(TrimSpace(protocol)) + "|" + source + "|" + destination
    }
  }

  type Memory = map<string, Remembered>

  function RememberedIP(memory: Memory, user: string): string {
    if user in memory then memory[user].ip else ""
  }

  predicate NamesOf(a: Allocation) {
    && Trimmed(a.username) && a.username != ""
    && Trimmed(a.sessionIP)
    && Trimmed(a.operation) && a.operation != ""
  }

  /** User names come authenticated, so trimmed and not blank; operations are issued that way. */
  predicate Named(active: Table) {
    forall key | key in active :: NamesOf(active[key])
  }

  predicate SameOperations(lookup: Table, active: Table) {
    && lookup.Keys == active.Keys
    && (forall key | key in active :: lookup[key].operation == active[key].operation)
  }

  /** All allocations of one user carry the session IP remembered for that user. */
  predicate SameSessionIP(active: Table, memory: Memory) {
    forall key | key in active ::
      active[key].sessionIP == RememberedIP(memory, active[key].username)
  }

  /** What is remembered is the address the user last authenticated with. */
  predicate Latest(memory: Memory, lastAuthenticated: map<string, string>) {
    && (forall user | user in memory ::
          && memory[user].ip != "" && Trimmed(memory[user].ip)
          && user in lastAuthenticated && lastAuthenticated[user] == memory[user].ip)
    && (forall user | user in lastAuthenticated :: lastAuthenticated[user] != "")
  }

  /** Forgetting the address of a user without allocations. */
  lemma ForgetKeeps(active: Table, memory: Memory, user: string)
    requires Named(active) && SameSessionIP(active, memory)
    requires KeysWith(active, User, user) == {}
    ensures SameSessionIP(active, memory - {user})
  {
    forall key | key in active
      ensures active[key].sessionIP == RememberedIP(memory - {user}, active[key].username)
    {
      assert active[key].username == user ==> key in KeysWith(active, User, user);
    }
  }

  /** The memory when a user may just have lost an allocation. */
  function MemoryWithout(memory: Memory, active: Table, user: string): Memory {
    if KeysWith(active, User, user) == {} then memory - {user} else memory
  }

  /** The memory when some users may have lost allocations. */
  function MemoryWithoutAll(memory: Memory, active: Table, users: set<string>): Memory {
    map user | user in memory && !(user in users && KeysWith(active, User, user) == {}) :: memory[user]
  }

  lemma NobodyForgotten(memory: Memory, active: Table)
    ensures MemoryWithoutAll(memory, active, {}) == memory
  {
  }

  lemma OneMoreForgotten(memory: Memory, active: Table, users: set<string>, key: Key)
    requires key in active
    ensures var user := active[key].username;
            MemoryWithout(MemoryWithoutAll(memory, active, users), active - {key}, user)
            == MemoryWithoutAll(memory, active - {key}, users + {user})
  {
    var user := active[key].username;
    forall other ensures KeysWith(active - {key}, User, other) == KeysWith(active, User, other) - {key} {
    }
    forall other | other != user ensures KeysWith(active - {key}, User, other) == KeysWith(active, User, other) {
    }
    var one := MemoryWithout(MemoryWithoutAll(memory, active, users), active - {key}, user);
    var two := MemoryWithoutAll(memory, active - {key}, users + {user});
    assert forall other :: other in one <==> other in two;
  }

  predicate IsRecent(remembered: Remembered, count: int, now: int) {
    now - remembered.seenAt < REMEMBERED_TTL || count > 0
  }

  /** A list of allocations from the table, each named by its key and none twice. */
  predicate Snapshot(active: Table, found: seq<Allocation>, keys: seq<Key>) {
    && |found| == |keys| && BanCheck.NoDuplicates(keys)
    && forall i | 0 <= i < |keys| :: keys[i] in active && found[i] == active[keys[i]]
  }

  function UsersOf(table: Table, keys: set<Key>): set<string> {
    set key | key in keys && key in table :: table[key].username
  }

  lemma UsersOfOneMore(table: Table, keys: set<Key>, key: Key)
    requires key in table
    ensures UsersOf(table, keys + {key}) == UsersOf(table, keys) + {table[key].username}
  {
  }

  lemma UsersOfNone(table: Table)
    ensures UsersOf(table, {}) == {}
  {
  }

  predicate FoundMissing(probe: map<Key, bool>, key: Key) {
    key in probe && !probe[key]
  }

  lemma DropNone(table: Table)
    ensures table - {} == table
  {
  }

  lemma DropOneMore(table: Table, keys: set<Key>, key: Key)
    ensures table - keys - {key} == table - (keys + {key})
  {
  }

  predicate UsesOneOf(active: Table, ips: seq<string>, key: Key) {
    key in active && active[key].sessionIP != "" && active[key].sessionIP in ips
  }

  lemma EmptySnapshot(active: Table)
    ensures Snapshot(active, [], []) && forall key :: !UsesOneOf(active, [], key)
  {
  }

  lemma UsesOneMore(active: Table, ips: seq<string>, ip: string)
    ensures forall key :: UsesOneOf(active, ips + [ip], key) <==>
              UsesOneOf(active, ips, key) || (ip != "" && key in KeysWith(active, SessionIP, ip))
  {
  }

  /** A snapshot of the allocations on some addresses lists each of them, as often as there are keys. */
  lemma SnapshotLists(active: Table, ips: seq<string>, found: seq<Allocation>, keys: seq<Key>)
    requires Snapshot(active, found, keys) && forall key :: key in keys <==> UsesOneOf(active, ips, key)
    ensures forall a :: a in found <==> exists key :: UsesOneOf(active, ips, key) && active[key] == a
    ensures |found| == |set key | key in active && UsesOneOf(active, ips, key)|
  {
    hide UsesOneOf;
    forall a ensures a in found <==> exists key :: UsesOneOf(active, ips, key) && key in active && active[key] == a {
      if a in found {
        var i :| 0 <= i < |found| && found[i] == a;
        assert keys[i] in keys;
      }
      if key :| UsesOneOf(active, ips, key) && key in active && active[key] == a {
        var i :| 0 <= i < |keys| && keys[i] == key;
        assert found[i] == a;
      }
    }
    UsesAreActive(active, ips);
    assert (set key | key in active && UsesOneOf(active, ips, key)) == (set key | key in keys);
    AsManyAsListed(keys);
  }

  lemma UsesAreActive(active: Table, ips: seq<string>)
    ensures forall key | UsesOneOf(active, ips, key) :: key in active
  {
  }

  lemma {:induction false} AsManyAsListed(keys: seq<Key>)
    requires BanCheck.NoDuplicates(keys)
    ensures |set key | key in keys| == |keys|
  {
    if keys != [] {
      var rest, last := keys[..|keys| - 1], keys[|keys| - 1];
      AsManyAsListed(rest);
      assert keys == rest + [last];
      assert (set key | key in keys) == (set key | key in rest) + {last};
    }
  }

  predicate UsesBanned(active: Table, banKeys: set<string>, key: Key) {
    key in active && active[key].sessionIP != "" && BanCheck.IsBanned(banKeys, active[key].sessionIP)
  }

  lemma IndexedAreTrimmed(index: Index, active: Table)
    requires Named(active) && Agrees(index, active, SessionIP)
    ensures forall ip | ip in index :: Trimmed(ip)
  {
    forall ip | ip in index ensures Trimmed(ip) {
      var key :| key in index[ip];
      assert NamesOf(active[key]);
    }
  }

  /** Whatever the snapshot found is in the set of trimmed banned addresses. */
  lemma FoundAreBanned(active: Table, ips: seq<string>, found: seq<Allocation>, keys: seq<Key>)
    requires Snapshot(active, found, keys)
    requires forall ip | ip in ips :: Trimmed(ip)
    requires forall key | key in keys :: UsesOneOf(active, ips, key)
    ensures forall a | a in found :: a.sessionIP in set ip | ip in ips :: TrimSpace(ip)
  {
    forall a | a in found ensures a.sessionIP in set ip | ip in ips :: TrimSpace(ip) {
      var i :| 0 <= i < |found| && found[i] == a;
      assert keys[i] in keys;
      TrimSpaceTrims(a.sessionIP);
    }
  }

  /** The session IPs of the table are trimmed already. */
  lemma NormalizedAlready(ips: seq<string>, active: Table)
    requires forall ip | ip in ips :: Trimmed(ip)
    requires forall ip :: ip in ips <==> ip in Values(active, SessionIP)
    ensures forall ip :: ip in BanCheck.Normalized(ips) <==> ip in Values(active, SessionIP)
    ensures forall ip | ip in BanCheck.Normalized(ips) :: Trimmed(ip)
  {
    BanCheck.NormalizedMeaning(ips);
    forall ip ensures ip in BanCheck.Normalized(ips) <==> ip in Values(active, SessionIP) {
      if ip in ips {
        var i :| 0 <= i < |ips| && ips[i] == ip;
        TrimSpaceTrims(ip);
        assert TrimSpace(ips[i]) == ip;
      }
      if ip in BanCheck.Normalized(ips) {
        var i :| 0 <= i < |ips| && TrimSpace(ips[i]) == ip;
        assert ips[i] in ips;
        TrimSpaceTrims(ips[i]);
      }
    }
  }

  /** What is remembered for the last minute or for a user with allocations. */
  function Recent(memory: Memory, counts: map<string, int>, now: int): Memory {
    map user | user in memory && IsRecent(memory[user], if user in counts then counts[user] else 0, now) :: memory[user]
  }

  /** Some of the allocations with a new session IP. */
  function WithSessionIP(table: Table, keys: set<Key>, ip: string): Table {
    map key | key in table :: if key in keys then table[key].(sessionIP := ip) else table[key]
  }

  lemma WithSessionIPOfNone(table: Table, ip: string)
    ensures WithSessionIP(table, {}, ip) == table
  {
  }

  lemma WithSessionIPOfOneMore(table: Table, keys: set<Key>, key: Key, ip: string)
    requires key in table
    ensures WithSessionIP(table, keys + {key}, ip)
         == WithSessionIP(table, keys, ip)[key := WithSessionIP(table, keys, ip)[key].(sessionIP := ip)]
  {
  }

  lemma WithSessionIPKeepsIndex(index: Index, table: Table, keys: set<Key>, ip: string)
    requires Agrees(index, table, User)
    ensures Agrees(index, WithSessionIP(table, keys, ip), User)
  {
    var table' := WithSessionIP(table, keys, ip);
    assert forall key | key in table' :: User.Of(table'[key]) == User.Of(table[key]);
  }

  lemma WithSessionIPKeepsNames(table: Table, keys: set<Key>, ip: string)
    requires Trimmed(ip) && Named(table)
    ensures Named(WithSessionIP(table, keys, ip))
  {
    hide Trimmed;
    forall key | key in table ensures NamesOf(WithSessionIP(table, keys, ip)[key]) {
      assert NamesOf(table[key]);
    }
  }

  /** A new session IP changes neither names nor operations, and no user index. */
  lemma WithSessionIPKeeps(index: Index, lookup: Table, table: Table, keys: set<Key>, ip: string)
    requires Trimmed(ip)
    requires Agrees(index, table, User) && SameOperations(lookup, table) && Named(table)
    ensures Agrees(index, WithSessionIP(table, keys, ip), User)
    ensures SameOperations(lookup, WithSessionIP(table, keys, ip))
    ensures Named(WithSessionIP(table, keys, ip))
  {
    hide Agrees, Named, Trimmed;
    WithSessionIPKeepsIndex(index, table, keys, ip);
    WithSessionIPKeepsNames(table, keys, ip);
  }

  lemma RememberKeeps(active: Table, memory: Memory, user: string, remembered: Remembered)
    requires Named(active) && SameSessionIP(active, memory)
    ensures SameSessionIP(WithSessionIP(active, KeysWith(active, User, user), remembered.ip),
              memory[user := remembered])
  {
    forall key | key in active ensures key in KeysWith(active, User, user) <==> active[key].username == user {
    }
  }

  lemma InsertKeeps(active: Table, memory: Memory, key: Key, a: Allocation)
    requires SameSessionIP(active, memory) && a.sessionIP == RememberedIP(memory, a.username)
    ensures SameSessionIP(active[key := a], memory)
  {
  }

  lemma InsertSameOperations(lookup: Table, active: Table, key: Key, a: Allocation)
    requires SameOperations(lookup, active)
    ensures SameOperations(lookup[key := a], active[key := a])
  {
  }

  lemma DropSameOperations(lookup: Table, active: Table, key: Key)
    requires SameOperations(lookup, active)
    ensures SameOperations(lookup - {key}, active - {key})
  {
  }

  lemma DropKeepsNames(active: Table, key: Key)
    requires Named(active)
    ensures Named(active - {key})
  {
  }

  lemma DropKeepsSessionIPs(active: Table, memory: Memory, key: Key)
    requires Named(active) && SameSessionIP(active, memory) && key in active
    ensures SameSessionIP(active - {key}, MemoryWithout(memory, active - {key}, active[key].username))
  {
    var active', user := active - {key}, active[key].username;
    if KeysWith(active', User, user) == {} {
      ForgetKeeps(active', memory, user);
    }
  }

  lemma DropKeepsMemory(active: Table, memory: Memory, key: Key)
    requires SameSessionIP(active, memory)
    ensures SameSessionIP(active - {key}, memory)
  {
  }

  lemma LatestWithout(memory: Memory, lastAuthenticated: map<string, string>, active: Table, user: string)
    requires Latest(memory, lastAuthenticated)
    ensures Latest(MemoryWithout(memory, active, user), lastAuthenticated)
  {
    hide Trimmed;
  }

  lemma ForgetLatest(memory: Memory, lastAuthenticated: map<string, string>, user: string)
    requires Latest(memory, lastAuthenticated)
    ensures Latest(memory - {user}, lastAuthenticated)
  {
    hide Trimmed;
  }

  /** A user who is not counted has no allocations. */
  lemma CountedIffUsed(counts: map<string, int>, index: Index, active: Table, user: string)
    requires Counts(counts, index) && Agrees(index, active, User) && Named(active)
    requires (if user in counts then counts[user] else 0) <= 0
    ensures KeysWith(active, User, user) == {}
  {
    IndexedIffUsed(index, active, User, user);
    assert forall key | key in active :: NamesOf(active[key]);
  }

  /** Storing again what is, or until now was, remembered. */
  lemma PutBack(memory: Memory, user: string)
    requires user in memory
    ensures memory[user := memory[user]] == memory
    ensures (memory - {user})[user := memory[user]] == memory
  {
  }

  lemma DropMissing(active: Table, key: Key)
    requires key !in active
    ensures active - {key} == active
  {
  }

  /** A user without allocations has none to give an address to. */
  lemma NoneToChange(active: Table, user: string, ip: string)
    requires KeysWith(active, User, user) == {}
    ensures WithSessionIP(active, KeysWith(active, User, user), ip) == active
  {
    WithSessionIPOfNone(active, ip);
  }

  lemma DropInserted(active: Table, key: Key, a: Allocation)
    requires key !in active
    ensures active[key := a] - {key} == active
  {
  }

  lemma ForgetUnknown(memory: Memory, user: string)
    requires user !in memory
    ensures memory - {user} == memory
  {
  }

  lemma DropThenInsert(active: Table, key: Key, a: Allocation)
    ensures (active - {key})[key := a] == active[key := a]
  {
  }

  class Relay {
    var active: Table                             // activeAllocations
    var releaseLookup: Table                      // allocationReleaseLookup
    var keysByUser: Index                         // allocationKeysByUserID
    var keysBySession: Index                      // allocationKeysBySession
    var countByUser: map<string, int>             // allocationCountByUserID
    var sessionIPByUser: map<string, Remembered>  // sessionIPByUserID
    ghost var lastAuthenticated: map<string, string>

    function CountOf(user: string): int
      reads this
    {
      if user in countByUser then countByUser[user] else 0
    }

    /** Both indexes agree with a scan, and the counts with the user index. */
    ghost predicate IndexesOk()
      reads this
    {
      && Agrees(keysByUser, active, User)
      && Agrees(keysBySession, active, SessionIP)
      && Counts(countByUser, keysByUser)
    }

    /** The release lookup is a second copy of the table, good for keys and operations. */
    ghost predicate LookupOk()
      reads this
    {
      SameOperations(releaseLookup, active)
    }

    ghost predicate NamesOk()
      reads this
    {
      Named(active)
    }

    ghost predicate SessionIPsOk()
      reads this
    {
      SameSessionIP(active, sessionIPByUser) && Latest(sessionIPByUser, lastAuthenticated)
    }

    ghost predicate Valid()
      reads this
    {
      IndexesOk() && LookupOk() && NamesOk() && SessionIPsOk()
    }

    constructor ()
      ensures Valid() && active == map[] && sessionIPByUser == map[]
    {
      active, releaseLookup := map[], map[];
      keysByUser, keysBySession, countByUser := map[], map[], map[];
      sessionIPByUser := map[];
      lastAuthenticated := map[];
    }

    // addAllocationKeyToSessionIPLocked
    method AddKeyToSessionIP(sessionIP: string, key: Key)
      requires Trimmed(sessionIP)
      modifies this`keysBySession
      ensures keysBySession == Add(old(keysBySession), sessionIP, key)
    {
      TrimSpaceTrims(sessionIP);
      var ip := TrimSpace(sessionIP);
      if ip == "" {
        return;
      }
      if ip !in keysBySession {
        keysBySession := keysBySession[ip := {}];
      }
      keysBySession := keysBySession[ip := keysBySession[ip] + {key}];
    }

    // removeAllocationKeyFromSessionIPLocked
    method RemoveKeyFromSessionIP(sessionIP: string, key: Key)
      requires "" !in keysBySession && Trimmed(sessionIP)
      modifies this`keysBySession
      ensures keysBySession == Remove(old(keysBySession), sessionIP, key)
    {
      TrimSpaceTrims(sessionIP);
      var ip := TrimSpace(sessionIP);
      if ip == "" || ip !in keysBySession {
        return;
      }
      var keys := keysBySession[ip] - {key};
      keysBySession := keysBySession[ip := keys];
      if |keys| == 0 {
        keysBySession := keysBySession - {ip};
      }
    }

    // the part of addAllocationIndexesLocked that is about the user
    method AddUserIndexes(key: Key, user: string)
      requires user != "" && Counts(countByUser, keysByUser) && (user in keysByUser ==> key !in keysByUser[user])
      modifies this`keysByUser, this`countByUser
      ensures keysByUser == Add(old(keysByUser), user, key) && Counts(countByUser, keysByUser)
    {
      AddCounts(countByUser, keysByUser, user, key);
      if user !in keysByUser {
        keysByUser := keysByUser[user := {}];
      }
      keysByUser := keysByUser[user := keysByUser[user] + {key}];
      countByUser := countByUser[user := CountOf(user) + 1];
    }

    // addAllocationIndexesLocked, after the allocation was put into the table
    method AddIndexes(key: Key, a: Allocation, ghost before: Table)
      requires key !in before && active == before[key := a] && NamesOf(a) && Counts(countByUser, keysByUser)
      requires Agrees(keysByUser, before, User) && Agrees(keysBySession, before, SessionIP)
      modifies this`keysByUser, this`keysBySession, this`countByUser
      ensures IndexesOk()
    {
      AddAgrees(keysByUser, before, User, key, a);
      AddAgrees(keysBySession, before, SessionIP, key, a);
      TrimSpaceTrims(a.username);
      var user := TrimSpace(a.username);
      if user != "" {
        AddUserIndexes(key, user);
      }
      AddKeyToSessionIP(a.sessionIP, key);
    }

    // the part of removeAllocationIndexesLocked that is about the user
    method RemoveUserIndexes(key: Key, user: string)
      requires user in keysByUser && key in keysByUser[user] && Counts(countByUser, keysByUser)
      modifies this`keysByUser, this`countByUser, this`sessionIPByUser
      ensures keysByUser == Remove(old(keysByUser), user, key)
      ensures Counts(countByUser, keysByUser)
      ensures sessionIPByUser == if user in keysByUser then old(sessionIPByUser) else old(sessionIPByUser) - {user}
    {
      RemoveCounts(countByUser, keysByUser, user, key);
      var keys := keysByUser[user] - {key};
      keysByUser := keysByUser[user := keys];
      if |keys| == 0 {
        keysByUser := keysByUser - {user};
      }
      var remaining := countByUser[user] - 1;
      if remaining > 0 {
        countByUser := countByUser[user := remaining];
      } else {
        countByUser := countByUser - {user};
        sessionIPByUser := sessionIPByUser - {user};
      }
    }

    // removeAllocationIndexesLocked
    method RemoveIndexes(key: Key, a: Allocation)
      requires key in active && active[key] == a && NamesOf(a) && IndexesOk()
      modifies this`active, this`keysByUser, this`keysBySession, this`countByUser, this`sessionIPByUser
      ensures IndexesOk()
      ensures active == old(active) - {key}
      ensures sessionIPByUser == MemoryWithout(old(sessionIPByUser), active, a.username)
    {
      TrimSpaceTrims(a.username);
      RemoveAgrees(keysByUser, active, User, key);
      RemoveAgrees(keysBySession, active, SessionIP, key);
      active := active - {key};
      var user := TrimSpace(a.username);
      if user != "" {
        RemoveUserIndexes(key, user);
        IndexedIffUsed(keysByUser, active, User, user);
      }
      RemoveKeyFromSessionIP(a.sessionIP, key);
    }

    /** Taking one allocation out of the table and out of the release lookup. */
    method Drop(key: Key)
      requires Valid() && key in active
      modifies this`active, this`keysByUser, this`keysBySession, this`countByUser, this`sessionIPByUser,
               this`releaseLookup
      ensures Valid()
      ensures active == old(active) - {key} && releaseLookup == old(releaseLookup) - {key}
      ensures sessionIPByUser == MemoryWithout(old(sessionIPByUser), active, old(active[key]).username)
    {
      hide Agrees, Counts, SameSessionIP, SameOperations, Latest, NamesOf, MemoryWithout;
      var a := active[key];
      assert NamesOf(a);
      DropSameOperations(releaseLookup, active, key);
      DropKeepsNames(active, key);
      DropKeepsSessionIPs(active, sessionIPByUser, key);
      LatestWithout(sessionIPByUser, lastAuthenticated, active - {key}, a.username);
      hide Named;
      RemoveIndexes(key, a);
      releaseLookup := releaseLookup - {key};
    }

    /** Putting a new allocation into the table and the release lookup. */
    method Insert(key: Key, a: Allocation)
      requires Valid() && key !in active && NamesOf(a)
      requires Named(active[key := a]) && a.sessionIP == RememberedIP(sessionIPByUser, a.username)
      modifies this`active, this`releaseLookup, this`keysByUser, this`keysBySession, this`countByUser
      ensures Valid() && active == old(active)[key := a]
    {
      hide Agrees, Counts, SameSessionIP, SameOperations, Latest, Named, NamesOf;
      InsertKeeps(active, sessionIPByUser, key, a);
      InsertSameOperations(releaseLookup, active, key, a);
      ghost var before := active;
      active := active[key := a];
      releaseLookup := releaseLookup[key := a];
      AddIndexes(key, a, before);
    }

    /**
     Taking out the allocation that a new one replaces. With nothing remembered for the same
     user, trackActiveAllocation goes by the replaced allocation's address; that one is blank too.
     */
    method TakeOut(key: Key, user: string, known: Remembered, now: int) returns (remembered: Remembered)
      requires Valid() && Trimmed(user)
      requires known == if user in sessionIPByUser then sessionIPByUser[user] else Remembered("", 0)
      modifies this`active, this`keysByUser, this`keysBySession, this`countByUser, this`sessionIPByUser,
               this`releaseLookup
      ensures Valid() && active == old(active) - {key}
      ensures remembered.ip == known.ip && (known.ip != "" ==> remembered == known)
      ensures sessionIPByUser == if key in old(active)
                then MemoryWithout(old(sessionIPByUser), active, old(active)[key].username)
                else old(sessionIPByUser)
    {
      remembered := known;
      if key in active {
        var previous := active[key];
        TrimSpaceTrims(user);
        TrimSpaceTrims(known.ip);
        TrimSpaceTrims(previous.username);
        if TrimSpace(remembered.ip) == "" && TrimSpace(previous.username) == TrimSpace(user) {
          remembered := Remembered(TrimSpace(previous.sessionIP), now);
        }
        Drop(key);
      } else {
        DropMissing(active, key);
      }
    }

    /** The session IP for a new allocation; an allocation it replaces is taken out. */
    method TakeOver(key: Key, user: string, now: int) returns (ip: string)
      requires Valid() && Trimmed(user) && user != ""
      modifies this`active, this`keysByUser, this`keysBySession, this`countByUser, this`sessionIPByUser,
               this`releaseLookup
      ensures Valid() && active == old(active) - {key}
      ensures ip == RememberedIP(old(sessionIPByUser), user) == RememberedIP(sessionIPByUser, user)
      ensures sessionIPByUser == if key in old(active) && old(active)[key].username != user
                then MemoryWithout(old(sessionIPByUser), active, old(active)[key].username)
                else old(sessionIPByUser)
    {
      hide TrimSpace, Agrees, Counts, SameOperations, Named, SameSessionIP, KeysWith;
      DropKeepsMemory(active, sessionIPByUser, key);
      var known := if user in sessionIPByUser then sessionIPByUser[user] else Remembered("", 0);
      var remembered := TakeOut(key, user, known, now);
      TrimSpaceTrims(remembered.ip);
      if TrimSpace(remembered.ip) != "" {
        PutBack(old(sessionIPByUser), user);
        PutBack(if user in sessionIPByUser then sessionIPByUser else old(sessionIPByUser), user);
        sessionIPByUser := sessionIPByUser[user := remembered];
      } else {
        ForgetUnknown(old(sessionIPByUser), user);
      }
      ip := remembered.ip;
    }

    /**
     A create callback: the five-tuple is tracked under a new operation, with the session IP
     remembered for its user. An allocation it replaces takes its index entries along.
     */
    method TrackActiveAllocation(tuple: FiveTuple, user: string, operation: string, now: int)
      requires Valid() && Trimmed(user) && user != "" && Trimmed(operation) && operation != ""
      modifies this`active, this`keysByUser, this`keysBySession, this`countByUser, this`sessionIPByUser,
               this`releaseLookup
      ensures Valid()
      ensures active == old(active)[tuple.Key() := Allocation(user, RememberedIP(old(sessionIPByUser), user),
                          tuple.source, tuple.destination, Upper(TrimSpace(tuple.protocol)), operation)]
      ensures sessionIPByUser == if tuple.Key() in old(active) && old(active)[tuple.Key()].username != user
                then MemoryWithout(old(sessionIPByUser), old(active) - {tuple.Key()}, old(active)[tuple.Key()].username)
                else old(sessionIPByUser)
    {
      var key := tuple.Key();
      var ip := TakeOver(key, user, now);
      var allocation := Allocation(user, ip, tuple.source, tuple.destination,
                                   Upper(TrimSpace(tuple.protocol)), operation);
      DropThenInsert(old(active), key, allocation);
      Insert(key, allocation);
    }

    /** A delete callback: the fallback to the release lookup is never needed. */
    method UntrackActiveAllocation(tuple: FiveTuple) returns (found: Option<Allocation>)
      requires Valid()
      modifies this`active, this`keysByUser, this`keysBySession, this`countByUser, this`sessionIPByUser,
               this`releaseLookup
      ensures Valid()
      ensures found == if tuple.Key() in old(active) then Some(old(active)[tuple.Key()]) else None
      ensures active == old(active) - {tuple.Key()}
      ensures sessionIPByUser == if found.Some? then MemoryWithout(old(sessionIPByUser), active, found.value.username)
                                 else old(sessionIPByUser)
    {
      hide FiveTuple.Key, Agrees, Counts, SameSessionIP, Latest, Named, NamesOf, MemoryWithout;
      var key := tuple.Key();
      if key !in active {
        if key !in releaseLookup {
          return None;
        }
        assert false;
        return None;
      }
      var allocation := active[key];
      Drop(key);
      return Some(allocation);
    }

    /** The reconciler's removal, for the operation it saw and no other. */
    method RemoveTrackedAllocationByKey(key: Key, operation: string) returns (found: Option<Allocation>)
      requires Valid()
      modifies this`active, this`keysByUser, this`keysBySession, this`countByUser, this`sessionIPByUser,
               this`releaseLookup
      ensures Valid()
      ensures found.Some? <==>
                key in old(active) && (TrimSpace(operation) == "" || old(active)[key].operation == operation)
      ensures found.Some? ==> found.value == old(active)[key] && active == old(active) - {key}
      ensures found.None? ==> active == old(active) && sessionIPByUser == old(sessionIPByUser)
      ensures found.Some? ==> sessionIPByUser == MemoryWithout(old(sessionIPByUser), active, found.value.username)
    {
      hide TrimSpace, Agrees, Counts, SameSessionIP, Latest, SameOperations, Named, MemoryWithout;
      if key !in active {
        return None;
      }
      var allocation := active[key];
      if TrimSpace(operation) != "" && allocation.operation != operation {
        return None;
      }
      Drop(key);
      return Some(allocation);
    }

    // cleanupRememberedSessionIPsLocked
    method CleanupRememberedSessionIPs(now: int)
      requires Valid()
      modifies this`sessionIPByUser
      ensures Valid()
      ensures sessionIPByUser == Recent(old(sessionIPByUser), countByUser, now)
    {
      hide Agrees, Counts, SameSessionIP, SameOperations, Latest, Named;
      var users := sessionIPByUser.Keys;
      while users != {}
        invariant users <= sessionIPByUser.Keys <= old(sessionIPByUser).Keys
        invariant forall user | user in sessionIPByUser :: sessionIPByUser[user] == old(sessionIPByUser)[user]
        invariant forall user | user in old(sessionIPByUser) && user !in users ::
                    user in sessionIPByUser <==> IsRecent(old(sessionIPByUser)[user], CountOf(user), now)
        invariant Valid()
        decreases users
      {
        var user :| user in users;
        users := users - {user};
        if now - sessionIPByUser[user].seenAt < REMEMBERED_TTL {
        } else if CountOf(user) > 0 {
        } else {
          CountedIffUsed(countByUser, keysByUser, active, user);
          ForgetKeeps(active, sessionIPByUser, user);
          ForgetLatest(sessionIPByUser, lastAuthenticated, user);
          sessionIPByUser := sessionIPByUser - {user};
        }
      }
    }

    /** One allocation gets the new session IP, in the table and in the index. */
    method ChangeSessionIP(key: Key, ip: string)
      requires Trimmed(ip) && ip != ""
      requires key in active && Trimmed(active[key].sessionIP) && Agrees(keysBySession, active, SessionIP)
      modifies this`active, this`keysBySession
      ensures active == old(active)[key := old(active)[key].(sessionIP := ip)]
      ensures Agrees(keysBySession, active, SessionIP)
    {
      var allocation := active[key];
      TrimSpaceTrims(allocation.sessionIP);
      var previous := TrimSpace(allocation.sessionIP);
      var changed := allocation.(sessionIP := ip);
      MoveAgrees(keysBySession, active, SessionIP, key, changed);
      if previous != "" && previous != ip {
        RemoveKeyFromSessionIP(previous, key);
      }
      active := active[key := changed];
      AddKeyToSessionIP(ip, key);
    }

    /** The same for each of a set of keys, one after the other. */
    method ChangeSessionIPs(keys: set<Key>, ip: string)
      requires Trimmed(ip) && ip != "" && keys <= active.Keys
      requires Agrees(keysBySession, active, SessionIP)
      requires forall key | key in keys :: Trimmed(active[key].sessionIP)
      modifies this`active, this`keysBySession
      ensures active == WithSessionIP(old(active), keys, ip)
      ensures Agrees(keysBySession, active, SessionIP)
    {
      ghost var table, done: set<Key> := active, {};
      var todo := keys;
      WithSessionIPOfNone(table, ip);
      while todo != {}
        invariant done + todo == keys
        invariant active == WithSessionIP(table, done, ip)
        invariant Agrees(keysBySession, active, SessionIP)
        decreases todo
      {
        var key :| key in todo;
        WithSessionIPOfOneMore(table, done, key, ip);
        ChangeSessionIP(key, ip);
        todo, done := todo - {key}, done + {key};
      }
    }

    method GiveSessionIP(user: string, ip: string)
      requires Trimmed(ip) && ip != "" && user != ""
      requires IndexesOk() && LookupOk() && NamesOk()
      modifies this`active, this`keysBySession
      ensures active == WithSessionIP(old(active), KeysWith(old(active), User, user), ip)
      ensures IndexesOk() && LookupOk() && NamesOk()
    {
      ghost var table := active;
      var keys := if user in keysByUser then keysByUser[user] else {};
      LookupIsScan(keysByUser, active, User, user);
      assert forall key | key in keys :: NamesOf(active[key]);
      WithSessionIPKeeps(keysByUser, releaseLookup, table, keys, ip);
      ChangeSessionIPs(keys, ip);
    }

    /** Authentication: the address is remembered and given to all allocations of the user. */
    method RememberSessionIP(user: string, sessionIP: string, now: int)
      requires Valid() && Trimmed(user) && user != ""
      modifies this`active, this`keysBySession, this`sessionIPByUser, this`lastAuthenticated
      ensures Valid()
      ensures TrimSpace(sessionIP) == "" ==>
                active == old(active) && sessionIPByUser == old(sessionIPByUser)
                    && lastAuthenticated == old(lastAuthenticated)
      ensures TrimSpace(sessionIP) != "" ==>
                && lastAuthenticated == old(lastAuthenticated)[user := TrimSpace(sessionIP)]
                && active == WithSessionIP(old(active), KeysWith(old(active), User, user), TrimSpace(sessionIP))
                && sessionIPByUser ==
                    Recent(old(sessionIPByUser)[user := Remembered(TrimSpace(sessionIP), now)], countByUser, now)
    {
      var ip := TrimSpace(sessionIP);
      if ip == "" {
        return;
      }
      TrimSpaceTrims(sessionIP);
      sessionIPByUser := sessionIPByUser[user := Remembered(ip, now)];
      lastAuthenticated := lastAuthenticated[user := ip];
      RememberKeeps(active, old(sessionIPByUser), user, Remembered(ip, now));
      GiveSessionIP(user, ip);
      CleanupRememberedSessionIPs(now);
    }

    // snapshotSessionIPs
    method SnapshotSessionIPs(now: int) returns (ips: seq<string>)
      requires Valid()
      modifies this`sessionIPByUser
      ensures Valid()
      ensures BanCheck.NoDuplicates(ips)
      ensures forall ip :: ip in ips <==> ip in Values(active, SessionIP)
      ensures forall ip | ip in ips :: Trimmed(ip)
      ensures sessionIPByUser == Recent(old(sessionIPByUser), countByUser, now)
    {
      CleanupRememberedSessionIPs(now);
      IndexedAreTrimmed(keysBySession, active);
      AgreesIsScan(keysBySession, active, SessionIP);
      ips := NonBlank(keysBySession.Keys);
    }

    /** The allocations of one session IP that are not on the list yet. */
    method AddAllocationsOf(ip: string, before: seq<Allocation>, ghost keysBefore: seq<Key>, seenBefore: set<Key>)
      returns (found: seq<Allocation>, ghost keys: seq<Key>, seen: set<Key>)
      requires Agrees(keysBySession, active, SessionIP)
      requires Snapshot(active, before, keysBefore) && seenBefore == set key | key in keysBefore
      ensures Snapshot(active, found, keys) && seen == set key | key in keys
      ensures seen == seenBefore + if ip == "" then {} else KeysWith(active, SessionIP, ip)
    {
      found, keys, seen := before, keysBefore, seenBefore;
      if ip != "" {
        LookupIsScan(keysBySession, active, SessionIP, ip);
      }
      var todo := if ip in keysBySession then keysBySession[ip] else {};
      ghost var all := todo;
      ghost var done: set<Key> := {};
      while todo != {}
        invariant done + todo == all
        invariant Snapshot(active, found, keys) && seen == set key | key in keys
        invariant seen == seenBefore + done
        decreases todo
      {
        var key :| key in todo;
        todo, done := todo - {key}, done + {key};
        if key !in seen && key in active {
          seen := seen + {key};
          found, keys := found + [active[key]], keys + [key];
        }
      }
    }

    /** The allocations of some session IPs: each once, named by its key. */
    method SnapshotAllocationsForSessionIPs(ips: seq<string>)
      returns (found: seq<Allocation>, ghost keys: seq<Key>)
      requires Valid() && forall ip | ip in ips :: Trimmed(ip)
      ensures Snapshot(active, found, keys)
      ensures forall key :: key in keys <==> UsesOneOf(active, ips, key)
      ensures forall a :: a in found <==> exists key :: UsesOneOf(active, ips, key) && active[key] == a
      ensures |found| == |set key | key in active && UsesOneOf(active, ips, key)|
    {
      hide TrimSpace, Trimmed, Agrees, Counts, SameOperations, SameSessionIP, Latest, Named, Snapshot, UsesOneOf;
      found, keys := [], [];
      var seen: set<Key> := {};
      EmptySnapshot(active);
      for i := 0 to |ips|
        invariant Snapshot(active, found, keys) && seen == set key | key in keys
        invariant forall key :: key in seen <==> UsesOneOf(active, ips[..i], key)
      {
        TrimSpaceTrims(ips[i]);
        UsesOneMore(active, ips[..i], ips[i]);
        found, keys, seen := AddAllocationsOf(TrimSpace(ips[i]), found, keys, seen);
        assert ips[..i + 1] == ips[..i] + [ips[i]];
      }
      assert ips[..|ips|] == ips;
      assert forall key :: key in keys <==> key in seen;
      SnapshotLists(active, ips, found, keys);
    }

    predicate BatchFails(cluster: bool, slot: string -> nat, failingSlots: set<nat>)
      reads this
    {
      cluster && exists ip :: ip in Values(active, SessionIP) && slot(RedisKeys.BanIPKey(ip)) in failingSlots
    }

    /**
     One reconciliation with no other thread in between. Each allocation the server does not
     have is removed and its release launched once; one whose probe fails is left alone.
     */
    method ReconcileTrackedAllocations(probe: map<Key, bool>)
      returns (launched: seq<Allocation>, ok: bool, ghost keys: set<Key>)
      requires Valid()
      modifies this`active, this`keysByUser, this`keysBySession, this`countByUser, this`sessionIPByUser,
               this`releaseLookup
      ensures Valid()
      ensures forall key :: key in keys <==> key in old(active) && FoundMissing(probe, key)
      ensures active == old(active) - keys
      ensures sessionIPByUser == MemoryWithoutAll(old(sessionIPByUser), active, UsersOf(old(active), keys))
      ensures |launched| == |keys| && forall key | key in keys :: old(active)[key] in launched
      ensures ok == forall key | key in old(active) :: key in probe
    {
      hide Valid, MemoryWithoutAll, MemoryWithout, UsersOf, TrimSpace;
      launched, ok, keys := [], true, {};
      var snapshot := active;
      var todo := snapshot.Keys;
      ghost var done: set<Key> := {};
      DropNone(snapshot);
      NobodyForgotten(sessionIPByUser, active);
      UsersOfNone(snapshot);
      while todo != {}
        invariant Valid()
        invariant done == snapshot.Keys - todo && todo <= snapshot.Keys
        invariant forall key :: key in keys <==> key in done && FoundMissing(probe, key)
        invariant active == snapshot - keys && keys <= snapshot.Keys
        invariant sessionIPByUser == MemoryWithoutAll(old(sessionIPByUser), active, UsersOf(snapshot, keys))
        invariant |launched| == |keys| && forall key | key in keys :: snapshot[key] in launched
        invariant ok == forall key | key in done :: key in probe
        decreases todo
      {
        var key :| key in todo;
        todo, done := todo - {key}, done + {key};
        if key !in probe {
          ok := false;
        } else if !probe[key] {
          DropOneMore(snapshot, keys, key);
          OneMoreForgotten(old(sessionIPByUser), active, UsersOf(snapshot, keys), key);
          UsersOfOneMore(snapshot, keys, key);
          var found := RemoveTrackedAllocationByKey(key, snapshot[key].operation);
          if found.Some? {
            launched, keys := launched + [found.value], keys + {key};
          }
        }
      }
    }

    /** The banned ones among the session IPs in use; None if the check failed. */
    method BannedSessionIPs(now: int, banKeys: set<string>, cluster: bool, slot: string -> nat, failingSlots: set<nat>)
      returns (banned: Option<seq<string>>)
      requires Valid()
      modifies this`sessionIPByUser
      ensures Valid()
      ensures banned.None? <==> BatchFails(cluster, slot, failingSlots)
      ensures banned.Some? ==>
                && (forall ip | ip in banned.value :: Trimmed(ip))
                && forall ip :: ip in banned.value <==>
                    ip in Values(active, SessionIP) && BanCheck.IsBanned(banKeys, ip)
      ensures sessionIPByUser == Recent(old(sessionIPByUser), countByUser, now)
    {
      var ips := SnapshotSessionIPs(now);
      NormalizedAlready(ips, active);
      var result := BanCheck.CheckBannedSessionIPs(ips, banKeys, cluster, slot, failingSlots);
      banned := if result.Ok? then Some(result.value) else None;
    }

    /**
     One ban sweep. Revoking is called exactly once for each allocation whose session IP is
     banned and for no other, also when some of the calls fail.
     */
    method RevokeBannedAllocations(now: int, banKeys: set<string>, cluster: bool, slot: string -> nat,
                                   failingSlots: set<nat>, failingOperations: set<string>)
      returns (revoked: seq<Allocation>, ok: bool, ghost keys: seq<Key>)
      requires Valid()
      modifies this`sessionIPByUser
      ensures Valid()
      ensures Snapshot(active, revoked, keys)
      ensures BatchFails(cluster, slot, failingSlots) ==> revoked == [] && !ok
      ensures !BatchFails(cluster, slot, failingSlots) ==>
                && (forall key :: key in keys <==> UsesBanned(active, banKeys, key))
                && ok == (forall a | a in revoked :: a.operation !in failingOperations)
      ensures sessionIPByUser == Recent(old(sessionIPByUser), countByUser, now)
    {
      hide TrimSpace, Trimmed, Agrees, Counts, SameOperations, SameSessionIP, Latest, Named, Snapshot;
      var banned := BannedSessionIPs(now, banKeys, cluster, slot, failingSlots);
      if banned.None? {
        EmptySnapshot(active);
        return [], false, [];
      }
      var bannedSet := set ip | ip in banned.value :: TrimSpace(ip);
      var found, foundKeys := SnapshotAllocationsForSessionIPs(banned.value);
      FoundAreBanned(active, banned.value, found, foundKeys);
      keys := foundKeys;
      revoked, ok := RevokeAll(found, bannedSet, failingOperations);
    }

    /**
     A user whose only allocation has ended is forgotten: the next one carries no session IP,
     so no ban on the address the user authenticated with can find it.
     */
    method AllocateTwice(user: string, sessionIP: string, first: FiveTuple, second: FiveTuple,
                         operation: string, nextOperation: string, now: int)
      requires Valid() && Trimmed(user) && user != "" && KeysWith(active, User, user) == {}
                && TrimSpace(sessionIP) != ""
      requires Trimmed(operation) && operation != "" && Trimmed(nextOperation) && nextOperation != ""
      requires first.Key() !in active && second.Key() !in active
      modifies this
      ensures Valid() && lastAuthenticated[user := TrimSpace(sessionIP)] == lastAuthenticated
      ensures second.Key() in active && active[second.Key()].username == user && active[second.Key()].sessionIP == ""
    {
      hide Valid, TrimSpace, FiveTuple.Key, Recent;
      RememberSessionIP(user, sessionIP, now);
      ghost var before := active;
      NoneToChange(old(active), user, TrimSpace(sessionIP));
      TrackActiveAllocation(first, user, operation, now);
      DropInserted(before, first.Key(), active[first.Key()]);
      var _ := UntrackActiveAllocation(first);
      assert KeysWith(active, User, user) == {};
      assert user !in sessionIPByUser;
      TrackActiveAllocation(second, user, nextOperation, now);
    }
  }

  lemma CountsAreScan(counts: map<string, int>, index: Index, active: Table)
    requires Counts(counts, index) && index == Scan(active, User)
    ensures counts == map user | user in Values(active, User) :: |KeysWith(active, User, user)|
  {
    assert counts.Keys == Values(active, User);
  }

  /** The derived indexes are what a scan of the table gives, and the lookup never differs. */
  lemma IndexesEqualScans(r: Relay)
    requires r.Valid()
    ensures r.keysByUser == Scan(r.active, User)
    ensures r.keysBySession == Scan(r.active, SessionIP)
    ensures r.countByUser == map user | user in Values(r.active, User) :: |KeysWith(r.active, User, user)|
    ensures r.releaseLookup.Keys == r.active.Keys
    ensures forall key | key in r.active :: r.releaseLookup[key].operation == r.active[key].operation
  {
    AgreesIsScan(r.keysByUser, r.active, User);
    AgreesIsScan(r.keysBySession, r.active, SessionIP);
    CountsAreScan(r.countByUser, r.keysByUser, r.active);
  }

  /**
   All live allocations of one user carry one session IP: the last authenticated one exactly if
   the user is still remembered, else a blank one.
   */
  lemma OneSessionIPPerUser(r: Relay, a: Key)
    requires r.Valid() && a in r.active
    ensures var user := r.active[a].username;
            && (user in r.sessionIPByUser ==> user in r.lastAuthenticated)
            && r.active[a].sessionIP == (if user in r.sessionIPByUser then r.lastAuthenticated[user] else "")
            && (user in r.lastAuthenticated ==>
                  (r.active[a].sessionIP == r.lastAuthenticated[user] <==> user in r.sessionIPByUser))
  {
    hide Agrees, Counts, SameOperations, Trimmed;
    assert r.active[a].sessionIP == RememberedIP(r.sessionIPByUser, r.active[a].username);
  }

  /** A set of trimmed strings as a list, without the blank one. */
  method NonBlank(values: set<string>) returns (list: seq<string>)
    requires forall value | value in values :: Trimmed(value)
    ensures BanCheck.NoDuplicates(list)
    ensures forall value :: value in list <==> value in values && value != ""
  {
    var todo := values;
    list := [];
    while todo != {}
      invariant todo <= values
      invariant forall value :: value in list <==> value in values && value != "" && value !in todo
      invariant BanCheck.NoDuplicates(list)
      decreases todo
    {
      var value :| value in todo;
      todo := todo - {value};
      TrimSpaceTrims(value);
      if TrimSpace(value) != "" {
        list := list + [value];
      }
    }
  }

  /** Calls revoke for each allocation on the list that is still in a banned place. */
  method RevokeAll(found: seq<Allocation>, bannedSet: set<string>, failingOperations: set<string>)
    returns (revoked: seq<Allocation>, ok: bool)
    ensures (forall a | a in found :: a.sessionIP in bannedSet) ==> revoked == found
    ensures forall a :: a in revoked <==> a in found && a.sessionIP in bannedSet
    ensures ok == forall a | a in revoked :: a.operation !in failingOperations
  {
    revoked, ok := [], true;
    for i := 0 to |found|
      invariant (forall a | a in found :: a.sessionIP in bannedSet) ==> revoked == found[..i]
      invariant forall a :: a in revoked <==> a in found[..i] && a.sessionIP in bannedSet
      invariant ok == forall a | a in revoked :: a.operation !in failingOperations
    {
      assert found[i] in found;
      if found[i].sessionIP in bannedSet {
        revoked := revoked + [found[i]];
        if found[i].operation in failingOperations {
          ok := false;
        }
      }
    }
  }
}

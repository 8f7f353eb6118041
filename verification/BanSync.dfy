/** The periodic sync that makes the Redis keys and their index follow the rows again. */
module BanSync {
  import opened Options
  import opened BanRegistry
  import opened BanStore
  import RedisKeys

  /** The rows a query for the bans in force gives, in whatever order. */
  ghost predicate Loaded(rows: seq<Ban>, bans: Bans, t: int) {
    && (forall b | b in rows :: b.active && exists id :: id in bans && InForce(bans[id], t) && bans[id] == b)
    && forall id | id in bans && InForce(bans[id], t) :: bans[id] in rows
  }

  /** The keys of those rows that have not ended. */
  function KeysInForce(rows: seq<Ban>, t: int): set<string> {
    set b, key | b in rows && Lasts(b.expiresAt, t) && key in KeysOf(b) :: key
  }

  /** What the loop over the rows leaves in Redis: a later row writes over an earlier one. */
  function SyncedKeys(keys: Keys, rows: seq<Ban>, t: int): Keys {
    if rows == [] then keys
    else
      var before, b := SyncedKeys(keys, rows[..|rows| - 1], t), rows[|rows| - 1];
      if Lasts(b.expiresAt, t) then Written(before, b, t) else before
  }

  predicate RowWrites(b: Ban, key: string, t: int) {
    Lasts(b.expiresAt, t) && Covers(b, key)
  }

  lemma KeysOfCovers(b: Ban, key: string)
    ensures key in KeysOf(b) <==> Covers(b, key)
  {
  }

  lemma InKeysInForce(rows: seq<Ban>, t: int, key: string)
    ensures key in KeysInForce(rows, t) <==> exists b :: b in rows && RowWrites(b, key, t)
  {
    forall b ensures key in KeysOf(b) <==> Covers(b, key) {
      KeysOfCovers(b, key);
    }
    if key in KeysInForce(rows, t) {
      var b :| b in rows && Lasts(b.expiresAt, t) && key in KeysOf(b);
      assert RowWrites(b, key, t);
    }
    if b :| b in rows && RowWrites(b, key, t) {
      assert key in KeysOf(b);
    }
  }

  /** Every key is as one of the rows that cover it has it, or as it was. */
  lemma {:induction false} SyncedKeyIsOfRow(keys: Keys, rows: seq<Ban>, t: int, key: string)
    ensures var after := SyncedKeys(keys, rows, t);
            if exists b :: b in rows && RowWrites(b, key, t)
            then key in after && exists b ::
                b in rows && RowWrites(b, key, t) && after[key] == Entry(b.reason, b.expiresAt)
            else (key in after <==> key in keys) && (key in keys ==> after[key] == keys[key])
  {
    hide Written, Covers;
    if rows != [] {
      var rest, b := rows[..|rows| - 1], rows[|rows| - 1];
      assert forall x :: x in rows <==> x in rest || x == b by { assert rows == rest + [b]; }
      SyncedKeyIsOfRow(keys, rest, t, key);
      WrittenIsWritten(SyncedKeys(keys, rest, t), b, t, key);
      if x :| x in rest && RowWrites(x, key, t) {
        assert x in rows;
      }
      assert b in rows && (RowWrites(b, key, t) <==> Lasts(b.expiresAt, t) && Covers(b, key));
    }
  }

  lemma SomeRowWrites(rows: seq<Ban>, bans: Bans, loadedAt: int, t: int, key: string)
    requires Loaded(rows, bans, loadedAt) && loadedAt <= t
    ensures (exists b :: b in rows && RowWrites(b, key, t)) <==> Covered(bans, key, t)
  {
    hide Covers;
    if b :| b in rows && RowWrites(b, key, t) {
      var id :| id in bans && InForce(bans[id], loadedAt) && bans[id] == b;
      assert InForce(bans[id], t);
    }
    if Covered(bans, key, t) {
      var id :| id in bans && InForce(bans[id], t) && Covers(bans[id], key);
      assert InForce(bans[id], loadedAt);
      assert RowWrites(bans[id], key, t);
    }
  }

  /** Two plain bans in force on one key are the same. */
  lemma OneBanOnKey(bans: Bans, i: Id, j: Id, key: string, t: int)
    requires Unique(bans, t) && AllPlain(bans)
    requires i in bans && j in bans && InForce(bans[i], t) && InForce(bans[j], t)
    requires Covers(bans[i], key) && Covers(bans[j], key)
    ensures i == j
  {
    if bans[i].session != "" && key == RedisKeys.BanSessionKey(bans[i].session) {
      SessionKeyCovers(bans[j], bans[i].session);
    } else {
      IPKeyCovers(bans[j], bans[i].ip);
    }
  }

  /** A key some ban covers is written with that ban's end and reason. */
  lemma CoveredKeyIsWritten(keys: Keys, rows: seq<Ban>, bans: Bans, loadedAt: int, t: int, key: string, id: Id)
    requires Loaded(rows, bans, loadedAt) && loadedAt <= t && Unique(bans, t) && AllPlain(bans)
    requires id in bans && InForce(bans[id], t) && Covers(bans[id], key)
    ensures key in SyncedKeys(keys, rows, t)
    ensures SyncedKeys(keys, rows, t)[key] == Entry(bans[id].reason, bans[id].expiresAt)
  {
    hide Covers, SyncedKeys, Unique;
    assert Covered(bans, key, t);
    SomeRowWrites(rows, bans, loadedAt, t, key);
    SyncedKeyIsOfRow(keys, rows, t, key);
    var b :| b in rows && RowWrites(b, key, t) && SyncedKeys(keys, rows, t)[key] == Entry(b.reason, b.expiresAt);
    var other :| other in bans && InForce(bans[other], loadedAt) && bans[other] == b;
    OneBanOnKey(bans, id, other, key, t);
  }

  /** The order in which the rows come makes no difference. */
  lemma SyncIgnoresOrder(keys: Keys, rows: seq<Ban>, rows': seq<Ban>, bans: Bans, loadedAt: int, t: int)
    requires Loaded(rows, bans, loadedAt) && Loaded(rows', bans, loadedAt) && loadedAt <= t
    requires Unique(bans, t) && AllPlain(bans)
    ensures SyncedKeys(keys, rows, t) == SyncedKeys(keys, rows', t)
  {
    hide Covers, SyncedKeys, Unique, AllPlain, Loaded;
    var one, two := SyncedKeys(keys, rows, t), SyncedKeys(keys, rows', t);
    forall key ensures (key in one <==> key in two) && (key in one ==> one[key] == two[key]) {
      SyncedKeyIsOfRow(keys, rows, t, key);
      SyncedKeyIsOfRow(keys, rows', t, key);
      SomeRowWrites(rows, bans, loadedAt, t, key);
      SomeRowWrites(rows', bans, loadedAt, t, key);
      if Covered(bans, key, t) {
        var id :| id in bans && InForce(bans[id], t) && Covers(bans[id], key);
        CoveredKeyIsWritten(keys, rows, bans, loadedAt, t, key, id);
        CoveredKeyIsWritten(keys, rows', bans, loadedAt, t, key, id);
      }
    }
    assert one == two;
  }

  // ---- the outcome ----

  /** A scan gives every member that stays in the set from its start to its end, and only members. */
  ghost predicate ScanOf(returned: set<string>, before: set<string>, after: set<string>) {
    returned <= before && forall key | key in before && key in after :: key in returned
  }

  /** Redis after a sync at time t and a reconciliation at a later time, when no command failed. */
  ghost predicate SyncStep(keys: Keys, index: set<string>, keys': Keys, index': set<string>,
                           rows: seq<Ban>, t: int, later: int, returned: set<string>)
  {
    var stale := returned - KeysInForce(rows, later);
    && keys' == SyncedKeys(keys, rows, t) - stale
    && index' == index + KeysInForce(rows, t) - stale
    && ScanOf(returned, index + KeysInForce(rows, t), index')
  }

  lemma KeysInForceShrink(rows: seq<Ban>, t: int, later: int)
    requires t <= later
    ensures KeysInForce(rows, later) <= KeysInForce(rows, t)
  {
    forall key | key in KeysInForce(rows, later) ensures key in KeysInForce(rows, t) {
      InKeysInForce(rows, later, key);
      InKeysInForce(rows, t, key);
      var b :| b in rows && RowWrites(b, key, later);
      assert RowWrites(b, key, t);
    }
  }

  /** The index names the keys of the bans in force, and no others. */
  lemma SyncHealsIndex(keys: Keys, index: set<string>, keys': Keys, index': set<string>, rows: seq<Ban>,
                       bans: Bans, loadedAt: int, t: int, later: int, returned: set<string>)
    requires SyncStep(keys, index, keys', index', rows, t, later, returned)
    requires Loaded(rows, bans, loadedAt) && loadedAt <= t <= later
    ensures forall key :: key in index' <==> Covered(bans, key, later)
  {
    KeysInForceShrink(rows, t, later);
    forall key ensures key in KeysInForce(rows, later) <==> Covered(bans, key, later) {
      InKeysInForce(rows, later, key);
      SomeRowWrites(rows, bans, loadedAt, later, key);
    }
    hide KeysInForce, Loaded, Covered;
    forall key | key in index' ensures key in KeysInForce(rows, later) {
      assert key in returned;
    }
  }

  lemma CoveredBefore(bans: Bans, key: string, t: int, later: int)
    requires t <= later
    ensures Covered(bans, key, later) ==> Covered(bans, key, t)
  {
    forall id | id in bans && InForce(bans[id], later) ensures InForce(bans[id], t) {
    }
  }

  lemma GoneKeyIsRight(bans: Bans, keys: Keys, key: string, now: int)
    requires !Present(keys, key, now)
    ensures Right(bans, keys, key, now) <==> !Covered(bans, key, now)
  {
    if Right(bans, keys, key, now) {
      assert !Covered(bans, key, now);
    } else {
      var t :| t >= now && (Present(keys, key, t) || Covered(bans, key, t));
      assert !Present(keys, key, t);
      var id :| id in bans && InForce(bans[id], t) && Covers(bans[id], key);
      assert InForce(bans[id], now);
    }
  }

  /** A key some ban covered when the rows were written comes out right. */
  lemma SyncedKeyIsRight(keys: Keys, index: set<string>, keys': Keys, index': set<string>, rows: seq<Ban>,
                         bans: Bans, loadedAt: int, t: int, later: int, returned: set<string>, key: string)
    requires SyncStep(keys, index, keys', index', rows, t, later, returned)
    requires Loaded(rows, bans, loadedAt) && loadedAt <= t <= later && Unique(bans, t) && AllPlain(bans)
    requires Covered(bans, key, t)
    ensures Right(bans, keys', key, later)
  {
    hide Right, OutlastsAll, Covers, SyncedKeys, Unique, AllPlain, Loaded, KeysInForce, ScanOf;
    var id :| id in bans && InForce(bans[id], t) && Covers(bans[id], key);
    CoveredKeyIsWritten(keys, rows, bans, loadedAt, t, key, id);
    UniqueLater(bans, t, later);
    SomeRowWrites(rows, bans, loadedAt, later, key);
    InKeysInForce(rows, later, key);
    if InForce(bans[id], later) {
      assert Covered(bans, key, later);
      PlainBansShareNoKey(bans, id, key, later);
      WrittenKeyIsRight(bans, keys', key, id, later);
    } else {
      forall other | other in bans ensures !(InForce(bans[other], later) && Covers(bans[other], key)) {
        if InForce(bans[other], later) && Covers(bans[other], key) {
          assert InForce(bans[other], t);
          OneBanOnKey(bans, id, other, key, t);
        }
      }
      GoneKeyIsRight(bans, keys', key, later);
    }
  }

  /** A key no ban covers is gone, unless the scan could not find it. */
  lemma StrayKeyIsRight(keys: Keys, index: set<string>, keys': Keys, index': set<string>, rows: seq<Ban>,
                        bans: Bans, loadedAt: int, t: int, later: int, returned: set<string>, key: string)
    requires SyncStep(keys, index, keys', index', rows, t, later, returned)
    requires Loaded(rows, bans, loadedAt) && loadedAt <= t <= later && !Covered(bans, key, t)
    ensures Right(bans, keys', key, later) <==> key in index || !Present(keys, key, later)
  {
    hide Covers, SyncedKeys, Loaded, KeysInForce;
    SomeRowWrites(rows, bans, loadedAt, t, key);
    SyncedKeyIsOfRow(keys, rows, t, key);
    InKeysInForce(rows, t, key);
    KeysInForceShrink(rows, t, later);
    CoveredBefore(bans, key, t, later);
    if key in index || !Present(keys, key, later) {
      assert !Present(keys', key, later);
      GoneKeyIsRight(bans, keys', key, later);
    } else {
      assert Present(keys', key, later);
    }
  }

  /**
   One sync without failures makes Redis right again, exactly if each key that the index had
   lost either has run out or is written by the sync.
   */
  lemma SyncHeals(keys: Keys, index: set<string>, keys': Keys, index': set<string>, rows: seq<Ban>,
                  bans: Bans, loadedAt: int, t: int, later: int, returned: set<string>)
    requires SyncStep(keys, index, keys', index', rows, t, later, returned)
    requires Loaded(rows, bans, loadedAt) && loadedAt <= t <= later && Unique(bans, t) && AllPlain(bans)
    ensures Agrees(bans, keys', later) <==>
            forall key | key !in index && Present(keys, key, later) :: Covered(bans, key, t)
  {
    hide Right, SyncStep, Loaded, Unique, AllPlain, Covered, Present;
    forall key
      ensures Right(bans, keys', key, later) <==> (key !in index && Present(keys, key, later) ==> Covered(bans, key, t))
    {
      if Covered(bans, key, t) {
        SyncedKeyIsRight(keys, index, keys', index', rows, bans, loadedAt, t, later, returned, key);
      } else {
        StrayKeyIsRight(keys, index, keys', index', rows, bans, loadedAt, t, later, returned, key);
      }
    }
  }

  // ---- the code ----

  /** syncActiveBansToRedis, the loop over the rows; without failures the result is exact. */
  method WriteRows(store: Store, rows: seq<Ban>, t: int, reliable: bool)
    modifies store`keys, store`index
    ensures reliable ==> store.keys == SyncedKeys(old(store.keys), rows, t)
    ensures reliable ==> store.index == old(store.index) + KeysInForce(rows, t)
    ensures SameOutside(old(store.keys), store.keys, KeysInForce(rows, t))
  {
    hide Written, KeysOf, KeysAfterBan;
    assert rows[..0] == [];
    for i := 0 to |rows|
      invariant reliable ==> store.keys == SyncedKeys(old(store.keys), rows[..i], t)
      invariant reliable ==> store.index == old(store.index) + KeysInForce(rows[..i], t)
      invariant SameOutside(old(store.keys), store.keys, KeysInForce(rows[..i], t))
    {
      KeysOneMore(rows[..i], rows[i], t);
      assert rows[..i + 1] == rows[..i] + [rows[i]];
      assert rows[..i + 1][..i] == rows[..i];
      if Lasts(rows[i].expiresAt, t) {
        var onSession: Fates, onIP: Fates := *, *;
        if reliable {
          onSession, onIP := Fates(Worked, Worked, Worked, Worked), Fates(Worked, Worked, Worked, Worked);
        }
        OthersSame(store.keys, rows[i], t, onSession, onIP);
        var ok := store.PropagateBan(rows[i], t, onSession, onIP);
      }
    }
    assert rows[..|rows|] == rows;
  }

  /** Whatever fails, only the keys of some ban are touched. */
  predicate SameOutside(before: Keys, after: Keys, touched: set<string>) {
    && (forall key | key in before && key !in touched :: key in after && after[key] == before[key])
    && (forall key | key in after && key !in touched :: key in before)
  }

  lemma OthersSame(keys: Keys, b: Ban, t: int, onSession: Fates, onIP: Fates)
    ensures SameOutside(keys, KeysAfterBan(keys, b, t, onSession, onIP), KeysOf(b))
  {
  }

  lemma KeysOneMore(rows: seq<Ban>, b: Ban, t: int)
    ensures KeysInForce(rows + [b], t) == KeysInForce(rows, t) + if Lasts(b.expiresAt, t) then KeysOf(b) else {}
  {
    hide KeysOf;
    assert forall x :: x in rows + [b] <==> x in rows || x == b;
  }

  method ActiveKeys(rows: seq<Ban>, t: int) returns (active: set<string>)
    ensures active == KeysInForce(rows, t)
  {
    hide KeysOf;
    active := {};
    for i := 0 to |rows|
      invariant active == KeysInForce(rows[..i], t)
    {
      KeysOneMore(rows[..i], rows[i], t);
      assert rows[..i + 1] == rows[..i] + [rows[i]];
      if Lasts(rows[i].expiresAt, t) {
        active := active + KeysOf(rows[i]);
      }
    }
    assert rows[..|rows|] == rows;
  }

  /** Deletes the stale keys of one batch. It stops at the first failure. */
  method DeleteStale(store: Store, batch: seq<string>, active: set<string>, reliable: bool) returns (ok: bool)
    modifies store`keys, store`index
    ensures reliable ==> ok
    ensures ok ==> store.keys == old(store.keys) - (InSeq(batch) - active)
    ensures ok ==> store.index == old(store.index) - (InSeq(batch) - active)
    ensures Spared(old(store.keys), store.keys, active)
  {
    ok := true;
    for i := 0 to |batch|
      invariant ok
      invariant store.keys == old(store.keys) - (InSeq(batch[..i]) - active)
      invariant store.index == old(store.index) - (InSeq(batch[..i]) - active)
      invariant Spared(old(store.keys), store.keys, active)
    {
      assert InSeq(batch[..i + 1]) == InSeq(batch[..i]) + {batch[i]};
      if batch[i] !in active {
        var del: Fate, rem: Fate := *, *;
        if reliable {
          del, rem := Worked, Worked;
        }
        ok := store.DeleteIndexedKey(batch[i], del, rem);
        if !ok {
          return;
        }
      }
    }
    assert batch[..|batch|] == batch;
  }

  function InSeq(s: seq<string>): set<string> {
    set x | x in s
  }

  /** The keys of bans in force are as they were. */
  ghost predicate Spared(before: Keys, after: Keys, active: set<string>) {
    forall key | key in active :: (key in after <==> key in before) && (key in before ==> after[key] == before[key])
  }

  function Union(batches: seq<seq<string>>): set<string> {
    set batch, key | batch in batches && key in batch :: key
  }

  /** reconcileBanKeys over the batches of one scan. Whatever fails, no key of a ban in force is touched. */
  method ReconcileBanKeys(store: Store, rows: seq<Ban>, t: int, batches: seq<seq<string>>, reliable: bool)
      returns (ok: bool)
    modifies store`keys, store`index
    ensures reliable ==> ok
    ensures ok ==> store.keys == old(store.keys) - (Union(batches) - KeysInForce(rows, t))
    ensures ok ==> store.index == old(store.index) - (Union(batches) - KeysInForce(rows, t))
    ensures Spared(old(store.keys), store.keys, KeysInForce(rows, t))
  {
    hide KeysInForce;
    var active := ActiveKeys(rows, t);
    ok := true;
    for i := 0 to |batches|
      invariant ok
      invariant store.keys == old(store.keys) - (Union(batches[..i]) - active)
      invariant store.index == old(store.index) - (Union(batches[..i]) - active)
      invariant Spared(old(store.keys), store.keys, active)
    {
      UnionOneMore(batches[..i], batches[i]);
      assert batches[..i + 1] == batches[..i] + [batches[i]];
      ok := DeleteStale(store, batches[i], active, reliable);
      if !ok {
        return;
      }
    }
    assert batches[..|batches|] == batches;
  }

  lemma UnionOneMore(batches: seq<seq<string>>, batch: seq<string>)
    ensures Union(batches + [batch]) == Union(batches) + InSeq(batch)
  {
    assert forall x :: x in batches + [batch] <==> x in batches || x == batch;
  }

  /** syncActiveBansToRedis, with the rows loaded before. */
  method SyncActiveBans(store: Store, rows: seq<Ban>, t: int, later: int, batches: seq<seq<string>>, reliable: bool)
    modifies store`keys, store`index
    ensures reliable && ScanOf(Union(batches), old(store.index) + KeysInForce(rows, t), store.index)
            ==> SyncStep(old(store.keys), old(store.index), store.keys, store.index, rows, t, later, Union(batches))
  {
    hide KeysInForce, Union, SyncedKeys;
    WriteRows(store, rows, t, reliable);
    var ok := ReconcileBanKeys(store, rows, later, batches, reliable);
  }
}

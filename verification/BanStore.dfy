/** The operations on bans, with Redis commands that may fail. */
module BanStore {
  import opened Options
  import opened RedisKeys
  import opened Text
  import opened BanRegistry

  /** An address as sanitizeIPAddress sorts it; a Public one is normalized. */
  datatype Address = Unparsable | Private | Public(ip: string)
  {
    function IP(): string {
      if Public? then ip else ""
    }
  }

  /** The SET, the SADD, the DEL that undoes the SET, and the message that tells the other services. */
  datatype Fates = Fates(put: Fate, add: Fate, rollback: Fate, announce: Fate)
  {
    predicate Ok() {
      put.Worked? && add.Worked?
    }

    predicate OkAndAnnounced() {
      Ok() && announce.Worked?
    }
  }

  function KeysAfterSet(keys: Keys, key: string, e: Entry, f: Fates): Keys {
    if f.put.Failed? then keys
    else if f.put.InDoubt? || f.add.Worked? || f.rollback.Failed? then keys[key := e]
    else keys - {key}
  }

  function IndexAfterSet(index: set<string>, key: string, f: Fates): set<string> {
    if f.put.Worked? && f.add.Applied() then index + {key} else index
  }

  /** Every key can be found by the reconciliation. */
  ghost predicate Indexed(keys: Keys, index: set<string>) {
    forall key | key in keys :: key in index
  }

  /** When a key can get lost to the index: a SET in doubt, or an SADD that failed and whose rollback failed too. */
  lemma SetKeepsIndexed(keys: Keys, index: set<string>, key: string, e: Entry, f: Fates)
    requires Indexed(keys, index)
    ensures Indexed(KeysAfterSet(keys, key, e, f), IndexAfterSet(index, key, f)) <==>
            key in index || !(f.put.InDoubt? || (f.put.Worked? && f.add.Failed? && f.rollback.Failed?))
  {
    var after, indexAfter := KeysAfterSet(keys, key, e, f), IndexAfterSet(index, key, f);
    if key !in index && (f.put.InDoubt? || (f.put.Worked? && f.add.Failed? && f.rollback.Failed?)) {
      assert key in after && key !in indexAfter;
    }
  }

  /** What a failed refresh of a key does to it: the rollback removes even a key that was there before. */
  lemma RollbackRemovesOldKey(keys: Keys, key: string, e: Entry, f: Fates)
    requires key in keys
    ensures key !in KeysAfterSet(keys, key, e, f) <==> f.put.Worked? && !f.add.Worked? && f.rollback.Applied()
  {
  }

  function KeysOf(b: Ban): set<string> {
    (if b.session == "" then {} else {BanSessionKey(b.session)}) + (if b.ip == "" then {} else {BanIPKey(b.ip)})
  }

  function KeysAfterBan(keys: Keys, b: Ban, now: int, onSession: Fates, onIP: Fates): Keys {
    var withSession := if b.session == "" then keys
                       else KeysAfterSet(keys, BanSessionKey(b.session), EntryOf(b, now), onSession);
    if b.ip == "" then withSession else KeysAfterSet(withSession, BanIPKey(b.ip), EntryOf(b, now), onIP)
  }

  function ActiveOf(bans: Bans, session: string): set<Id> {
    set id | id in bans && bans[id].active && bans[id].session == session
  }

  class Store {
    var bans: Bans
    var keys: Keys
    var index: set<string>

    method SetIndexedValue(key: string, e: Entry, f: Fates) returns (ok: bool)
      modifies this`keys, this`index
      ensures ok == f.Ok()
      ensures keys == KeysAfterSet(old(keys), key, e, f)
      ensures index == IndexAfterSet(old(index), key, f)
    {
      if f.put.Applied() {
        keys := keys[key := e];
      }
      if !f.put.Worked? {
        return false;
      }
      if f.add.Applied() {
        index := index + {key};
      }
      if !f.add.Worked? {
        if f.rollback.Applied() {
          keys := keys - {key};
          assert keys == old(keys) - {key};
        }
        return false;
      }
      ok := true;
    }

    method DeleteIndexedKey(key: string, del: Fate, rem: Fate) returns (ok: bool)
      modifies this`keys, this`index
      ensures ok == (del.Worked? && rem.Worked?)
      ensures keys == if del.Applied() then old(keys) - {key} else old(keys)
      ensures index == if del.Worked? && rem.Applied() then old(index) - {key} else old(index)
      ensures Indexed(old(keys), old(index)) ==> Indexed(keys, index)
    {
      if del.Applied() {
        keys := keys - {key};
      }
      if !del.Worked? {
        return false;
      }
      if rem.Applied() {
        index := index - {key};
      }
      ok := rem.Worked?;
    }

    method PropagateBan(b: Ban, now: int, onSession: Fates, onIP: Fates) returns (ok: bool)
      modifies this`keys, this`index
      ensures ok == ((b.session == "" || onSession.OkAndAnnounced()) && (b.ip == "" || onIP.OkAndAnnounced()))
      ensures keys == KeysAfterBan(old(keys), b, now, onSession, onIP)
      ensures ok ==> keys == Written(old(keys), b, now) && index == old(index) + KeysOf(b)
    {
      ok := true;
      if b.session != "" {
        var stored := SetIndexedValue(BanSessionKey(b.session), EntryOf(b, now), onSession);
        ok := stored && onSession.announce.Worked?;
      }
      if b.ip != "" {
        var stored := SetIndexedValue(BanIPKey(b.ip), EntryOf(b, now), onIP);
        ok := ok && stored && onIP.announce.Worked?;
      }
    }

    /** One key of a ban that was lifted; only a target that is free again is announced. */
    method Refresh(key: string, remaining: Option<Ban>, now: int, f: Fates) returns (ok: bool)
      modifies this`keys, this`index
      ensures ok == (f.Ok() && (remaining.Some? || f.announce.Worked?))
      ensures f.Ok() ==> keys == Refreshed(old(keys), key, remaining, now)
      ensures f.Ok() ==> index == if remaining.Some? then old(index) + {key} else old(index) - {key}
      ensures forall k | k != key :: (k in keys <==> k in old(keys)) && (k in keys ==> keys[k] == old(keys)[k])
    {
      if remaining.Some? {
        ok := SetIndexedValue(key, EntryOf(remaining.value, now), f);
      } else {
        ok := DeleteIndexedKey(key, f.put, f.add);
        ok := ok && f.announce.Worked?;
      }
    }

    method PropagateUnban(b: Ban, forSession: Option<Ban>, forIP: Option<Ban>, now: int, onSession: Fates, onIP: Fates)
      returns (ok: bool)
      modifies this`keys, this`index
      ensures ok == ((b.session == "" || (onSession.Ok() && (forSession.Some? || onSession.announce.Worked?)))
                     && (b.ip == "" || (onIP.Ok() && (forIP.Some? || onIP.announce.Worked?))))
      ensures ok ==> keys == Unwritten(old(keys), b, forSession, forIP, now)
      ensures forall k | !Covers(b, k) :: (k in keys <==> k in old(keys)) && (k in keys ==> keys[k] == old(keys)[k])
    {
      ok := true;
      if b.session != "" {
        ok := Refresh(BanSessionKey(b.session), forSession, now, onSession);
      }
      if b.ip != "" {
        var done := Refresh(BanIPKey(b.ip), forIP, now, onIP);
        ok := ok && done;
      }
    }

    /** ORDER BY created_at DESC LIMIT 1. */
    method Latest(ids: set<Id>) returns (found: Option<Id>)
      requires ids <= bans.Keys
      ensures IsLatest(bans, ids, found)
    {
      found := None;
      var todo := ids;
      while todo != {}
        invariant todo <= ids && IsLatest(bans, ids - todo, found)
        decreases |todo|
      {
        var id :| id in todo;
        if found.None? || bans[found.value].createdAt < bans[id].createdAt {
          found := Some(id);
        }
        todo := todo - {id};
      }
    }

    method CreateOrRefreshBan(givenSession: string, address: Address, givenReason: string, expiresAt: Option<int>,
                              now: int, freshId: Id, databaseUp: bool, onSession: Fates, onIP: Fates)
      returns (error: Option<BanError>, id: Id, found: Option<Id>)
      requires freshId !in bans
      modifies this
      ensures var b := Ban(TrimSpace(givenSession), address.IP(), TrimSpace(givenReason), now, expiresAt, true);
              if b.session == "" && b.ip == "" then
                && error == Some(if address.Private? then PrivateIPAddress else MissingBanTarget)
                && bans == old(bans) && keys == old(keys) && index == old(index)
              else if !databaseUp then
                error == Some(Database) && bans == old(bans) && keys == old(keys) && index == old(index)
              else
                && CreateRows(old(bans), bans, id, found, b, now)
                && keys == KeysAfterBan(old(keys), bans[id], now, onSession, onIP)
                && (error == None || error == Some(Propagation))
                && (error == None <==>
                      ((bans[id].session == "" || onSession.OkAndAnnounced())
                       && (bans[id].ip == "" || onIP.OkAndAnnounced())))
                && (error == None ==> CreateStep(old(bans), old(keys), bans, keys, id, found, b, now)
                                      && index == old(index) + KeysOf(bans[id]))
    {
      hide TrimSpace, Written, KeysAfterBan;
      var session, ip := TrimSpace(givenSession), address.IP();
      id, found := "", None;
      if session == "" && ip == "" {
        error := Some(if address.Private? then PrivateIPAddress else MissingBanTarget);
        return;
      }
      if !databaseUp {
        error := Some(Database);
        return;
      }
      found := Latest(Matching(bans, session, ip, now));
      if found.Some? {
        id := found.value;
      } else {
        id := freshId;
        bans := bans[id := Ban(session, ip, TrimSpace(givenReason), now, expiresAt, true)];
      }
      var ok := PropagateBan(bans[id], now, onSession, onIP);
      error := if ok then None else Some(Propagation);
    }

    /** By the ban's ID, else the latest active ban of that session, whether or not it has ended. */
    method FindActive(identifier: string) returns (found: Option<Id>)
      ensures identifier in bans && bans[identifier].active ==> found == Some(identifier)
      ensures !(identifier in bans && bans[identifier].active) ==>
              IsLatest(bans, ActiveOf(bans, identifier), found)
    {
      if identifier in bans && bans[identifier].active {
        found := Some(identifier);
      } else {
        found := Latest(ActiveOf(bans, identifier));
      }
    }

    method DeleteBan(givenIdentifier: string, now: int, databaseUp: bool, onSession: Fates, onIP: Fates)
      returns (error: Option<BanError>, id: Id, forSession: Option<Id>, forIP: Option<Id>)
      modifies this
      ensures var identifier := TrimSpace(givenIdentifier);
              if !databaseUp then
                error == Some(Database) && bans == old(bans) && keys == old(keys) && index == old(index)
              else if !(identifier in old(bans) && old(bans)[identifier].active)
                  && ActiveOf(old(bans), identifier) == {} then
                error == Some(NotFound) && bans == old(bans) && keys == old(keys) && index == old(index)
              else
                && DeleteRows(old(bans), bans, id, forSession, forIP, now)
                && (if identifier in old(bans) && old(bans)[identifier].active then id == identifier
                    else IsLatest(old(bans), ActiveOf(old(bans), identifier), Some(id)))
                && (error == None || error == Some(Propagation))
                && (error == None <==>
                      && (bans[id].session == ""
                          || (onSession.Ok() && (forSession.Some? || onSession.announce.Worked?)))
                      && (bans[id].ip == "" || (onIP.Ok() && (forIP.Some? || onIP.announce.Worked?))))
                && (error == None ==> DeleteStep(old(bans), old(keys), bans, keys, id, forSession, forIP, now))
                && (forall k | !Covers(old(bans)[id], k) ::
                      (k in keys <==> k in old(keys)) && (k in keys ==> keys[k] == old(keys)[k]))
    {
      hide TrimSpace, Unwritten, Covers;
      id, forSession, forIP := "", None, None;
      if !databaseUp {
        error := Some(Database);
        return;
      }
      var identifier := TrimSpace(givenIdentifier);
      var target := FindActive(identifier);
      if target.None? {
        error := Some(NotFound);
        return;
      }
      id := target.value;
      var b := bans[id];
      bans := bans[id := b.(active := false)];
      if b.session != "" {
        forSession := Latest(RemainingForSession(bans, b.session, now));
      }
      if b.ip != "" {
        forIP := Latest(RemainingForIP(bans, b.ip, now));
      }
      var ok := PropagateUnban(b, BanAt(bans, forSession), BanAt(bans, forIP), now, onSession, onIP);
      error := if ok then None else Some(Propagation);
    }
  }
}

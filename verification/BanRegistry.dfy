/**
 Bans: rows in Postgres, and for each banned session and IP a Redis key that the other
 services read, with an index set naming those keys.
 */
module BanRegistry {
  import opened Options
  import opened RedisKeys

  const SECOND := 1_000_000_000   // in nanoseconds

  type Id = string

  datatype Ban = Ban(session: string, ip: string, reason: string, createdAt: int, expiresAt: Option<int>, active: bool)

  type Bans = map<Id, Ban>

  datatype Entry = Entry(value: string, deadline: Option<int>)

  type Keys = map<string, Entry>

  datatype BanError = MissingBanTarget | PrivateIPAddress | NotFound | Database | Propagation

  predicate Lasts(deadline: Option<int>, t: int) {
    deadline.None? || deadline.value > t
  }

  predicate InForce(b: Ban, t: int) {
    b.active && Lasts(b.expiresAt, t)
  }

  predicate Covers(b: Ban, key: string) {
    (b.session != "" && key == BanSessionKey(b.session)) || (b.ip != "" && key == BanIPKey(b.ip))
  }

  predicate Present(keys: Keys, key: string, t: int) {
    key in keys && Lasts(keys[key].deadline, t)
  }

  ghost predicate Covered(bans: Bans, key: string, t: int) {
    exists id :: id in bans && InForce(bans[id], t) && Covers(bans[id], key)
  }

  /** The entry is the one of a ban in force. */
  ghost predicate Explained(bans: Bans, key: string, entry: Entry, now: int) {
    exists id :: id in bans && InForce(bans[id], now) && Covers(bans[id], key)
              && entry == Entry(bans[id].reason, bans[id].expiresAt)
  }

  /** From now on, the key is there exactly while a ban in force covers it, and with that ban's reason. */
  ghost predicate Right(bans: Bans, keys: Keys, key: string, now: int) {
    && (forall t | t >= now :: Present(keys, key, t) <==> Covered(bans, key, t))
    && (Present(keys, key, now) ==> Explained(bans, key, keys[key], now))
  }

  ghost predicate Agrees(bans: Bans, keys: Keys, now: int) {
    forall key :: Right(bans, keys, key, now)
  }

  /** At most one ban in force for a session, and one for an IP. */
  ghost predicate Unique(bans: Bans, now: int) {
    forall i, j | i in bans && j in bans && i != j && InForce(bans[i], now) && InForce(bans[j], now) ::
      && (bans[i].session == "" || bans[i].session != bans[j].session)
      && (bans[i].ip == "" || bans[i].ip != bans[j].ip)
  }

  /** A session key never looks like an IP key. */
  predicate Plain(session: string) {
    !("ip:" <= session)
  }

  ghost predicate AllPlain(bans: Bans) {
    forall id | id in bans :: Plain(bans[id].session)
  }

  // ---- one key ----

  /** No earlier end than the other deadline. */
  predicate Outlasts(d: Option<int>, e: Option<int>) {
    d.None? || (e.Some? && e.value <= d.value)
  }

  ghost predicate OutlastsAll(bans: Bans, key: string, d: Option<int>, now: int) {
    forall id | id in bans && InForce(bans[id], now) && Covers(bans[id], key) :: Outlasts(d, bans[id].expiresAt)
  }

  /** A key written for a ban in force is right exactly if no ban on the same key lasts longer. */
  lemma WrittenKeyIsRight(bans: Bans, keys: Keys, key: string, id: Id, now: int)
    requires id in bans && InForce(bans[id], now) && Covers(bans[id], key)
    requires key in keys && keys[key] == Entry(bans[id].reason, bans[id].expiresAt)
    ensures Right(bans, keys, key, now) <==> OutlastsAll(bans, key, bans[id].expiresAt, now)
  {
    var d := bans[id].expiresAt;
    if OutlastsAll(bans, key, d, now) {
      forall t | t >= now ensures Present(keys, key, t) <==> Covered(bans, key, t) {
        if Covered(bans, key, t) {
          var other :| other in bans && InForce(bans[other], t) && Covers(bans[other], key);
          assert InForce(bans[other], now);
        }
      }
    } else {
      var other :| other in bans && InForce(bans[other], now) && Covers(bans[other], key)
          && !Outlasts(d, bans[other].expiresAt);
      assert !Present(keys, key, d.value);
      assert InForce(bans[other], d.value);
      assert Covered(bans, key, d.value);
    }
  }

  /** A key that is absent is right exactly if no ban in force covers it. */
  lemma AbsentKeyIsRight(bans: Bans, keys: Keys, key: string, now: int)
    requires key !in keys
    ensures Right(bans, keys, key, now) <==> !Covered(bans, key, now)
  {
    if Right(bans, keys, key, now) {
      assert !Present(keys, key, now);
    } else {
      var t :| t >= now && Covered(bans, key, t);
      var id :| id in bans && InForce(bans[id], t) && Covers(bans[id], key);
      assert InForce(bans[id], now);
    }
  }

  /** Only bans that cover a key, and its entry, matter to it. */
  lemma UntouchedKeyStaysRight(bans: Bans, keys: Keys, bans': Bans, keys': Keys, key: string, now: int)
    requires Right(bans, keys, key, now)
    requires forall id | id in bans && Covers(bans[id], key) :: id in bans' && bans'[id] == bans[id]
    requires forall id | id in bans' && Covers(bans'[id], key) :: id in bans && bans'[id] == bans[id]
    requires key in keys <==> key in keys'
    requires key in keys ==> keys[key] == keys'[key]
    ensures Right(bans', keys', key, now)
  {
    forall t | t >= now ensures Present(keys', key, t) <==> Covered(bans', key, t) {
      assert Present(keys', key, t) <==> Present(keys, key, t);
      assert Covered(bans', key, t) <==> Covered(bans, key, t);
    }
    if Present(keys', key, now) {
      assert Present(keys, key, now);
      assert Explained(bans, key, keys[key], now);
    }
  }

  /** What agrees now agrees later. */
  lemma AgreesLater(bans: Bans, keys: Keys, now: int, later: int)
    requires Agrees(bans, keys, now) && now <= later
    ensures Agrees(bans, keys, later)
  {
    hide Right;
    forall key ensures Right(bans, keys, key, later) {
      RightLater(bans, keys, key, now, later);
    }
  }

  lemma RightLater(bans: Bans, keys: Keys, key: string, now: int, later: int)
    requires Right(bans, keys, key, now) && now <= later
    ensures Right(bans, keys, key, later)
  {
    if Present(keys, key, later) {
      assert Present(keys, key, now);
    }
  }

  lemma UniqueLater(bans: Bans, now: int, later: int)
    requires Unique(bans, now) && now <= later
    ensures Unique(bans, later)
  {
    forall id | id in bans && InForce(bans[id], later) ensures InForce(bans[id], now) {
    }
  }

  lemma SessionKeyCovers(b: Ban, session: string)
    requires session != "" && Plain(session)
    ensures Covers(b, BanSessionKey(session)) <==> b.session == session
  {
    var key := BanSessionKey(session);
    assert key[4..] == session;
    assert BanSessionKey(b.session)[4..] == b.session && BanIPKey(b.ip)[4..] == "ip:" + b.ip;
  }

  lemma IPKeyCovers(b: Ban, ip: string)
    requires ip != "" && Plain(b.session)
    ensures Covers(b, BanIPKey(ip)) <==> b.ip == ip
  {
    var key := BanIPKey(ip);
    assert key[7..] == ip && key[4..] == "ip:" + ip;
    assert BanSessionKey(b.session)[4..] == b.session && BanIPKey(b.ip)[7..] == b.ip;
  }

  // ---- creating ----

  /** What propagateBan writes for a ban: an end in the past becomes one second from now. */
  function EntryOf(b: Ban, now: int): Entry {
    Entry(b.reason, if Lasts(b.expiresAt, now) then b.expiresAt else Some(now + SECOND))
  }

  /** One value at the keys of a ban. */
  function Put<T>(m: map<string, T>, b: Ban, x: T): map<string, T> {
    var withSession := if b.session == "" then m else m[BanSessionKey(b.session) := x];
    if b.ip == "" then withSession else withSession[BanIPKey(b.ip) := x]
  }

  lemma PutAt<T>(m: map<string, T>, b: Ban, x: T, key: string)
    ensures key in Put(m, b, x) <==> key in m || Covers(b, key)
    ensures key in Put(m, b, x) ==> Put(m, b, x)[key] == if Covers(b, key) then x else m[key]
  {
  }

  function Written(keys: Keys, b: Ban, now: int): Keys {
    Put(keys, b, EntryOf(b, now))
  }

  lemma WrittenIsWritten(keys: Keys, b: Ban, now: int, key: string)
    ensures Covers(b, key) ==> key in Written(keys, b, now) && Written(keys, b, now)[key] == EntryOf(b, now)
    ensures !Covers(b, key) ==> (key in Written(keys, b, now) <==> key in keys)
    ensures !Covers(b, key) && key in keys ==> Written(keys, b, now)[key] == keys[key]
  {
  }

  predicate Matches(b: Ban, session: string, ip: string, now: int) {
    InForce(b, now) && ((session != "" && b.session == session) || (ip != "" && b.ip == ip))
  }

  ghost predicate IsLatest(bans: Bans, ids: set<Id>, found: Option<Id>) {
    match found
    case None => ids == {}
    case Some(id) => id in ids && forall other | other in ids && other in bans && id in bans ::
        bans[other].createdAt <= bans[id].createdAt
  }

  function Matching(bans: Bans, session: string, ip: string, now: int): set<Id> {
    set id | id in bans && Matches(bans[id], session, ip, now)
  }

  /** The rows after CreateOrRefreshBan: found is the ban in force already, else b is added. */
  ghost predicate CreateRows(bans: Bans, bans': Bans, id: Id, found: Option<Id>, b: Ban, now: int) {
    && (b.session != "" || b.ip != "") && b.createdAt == now && b.active
    && IsLatest(bans, Matching(bans, b.session, b.ip, now), found)
    && (match found
        case Some(old') => id == old' && bans' == bans
        case None => id !in bans && bans' == bans[id := b])
    && id in bans'
  }

  /** The rows and keys after a successful CreateOrRefreshBan. */
  ghost predicate CreateStep(bans: Bans, keys: Keys, bans': Bans, keys': Keys, id: Id, found: Option<Id>,
                             b: Ban, now: int)
  {
    CreateRows(bans, bans', id, found, b, now) && keys' == Written(keys, bans'[id], now)
  }

  /** Whatever becomes of the Redis commands. */
  lemma CreateKeepsUnique(bans: Bans, bans': Bans, id: Id, found: Option<Id>, b: Ban, now: int)
    requires CreateRows(bans, bans', id, found, b, now) && Unique(bans, now)
    ensures Unique(bans', now)
  {
    if found.None? {
      forall other | other in bans && InForce(bans[other], now)
        ensures (b.session == "" || b.session != bans[other].session) && (b.ip == "" || b.ip != bans[other].ip)
      {
        assert other !in Matching(bans, b.session, b.ip, now);
      }
    }
  }

  /** A ban in force, written or written again, is right exactly if no ban on one of its keys lasts longer. */
  lemma CreateAgreesExactly(bans: Bans, keys: Keys, bans': Bans, keys': Keys, id: Id, found: Option<Id>,
                            b: Ban, now: int)
    requires CreateStep(bans, keys, bans', keys', id, found, b, now) && Agrees(bans, keys, now)
    requires found.Some? || Lasts(b.expiresAt, now)
    ensures Agrees(bans', keys', now) <==>
            forall key | Covers(bans'[id], key) :: OutlastsAll(bans', key, bans'[id].expiresAt, now)
  {
    hide Right, OutlastsAll, Written, Covers;
    assert InForce(bans'[id], now);
    forall key ensures Right(bans', keys', key, now) <==>
                       (Covers(bans'[id], key) ==> OutlastsAll(bans', key, bans'[id].expiresAt, now))
    {
      WrittenIsWritten(keys, bans'[id], now, key);
      if Covers(bans'[id], key) {
        WrittenKeyIsRight(bans', keys', key, id, now);
      } else {
        assert Right(bans, keys, key, now);
        UntouchedKeyStaysRight(bans, keys, bans', keys', key, now);
      }
    }
  }

  /** On plain sessions, two bans in force never share a key. */
  lemma PlainBansShareNoKey(bans: Bans, id: Id, key: string, now: int)
    requires Unique(bans, now) && AllPlain(bans) && id in bans && InForce(bans[id], now) && Covers(bans[id], key)
    ensures OutlastsAll(bans, key, bans[id].expiresAt, now)
  {
    var b := bans[id];
    forall other | other in bans && InForce(bans[other], now) && Covers(bans[other], key) ensures other == id {
      if b.session != "" && key == BanSessionKey(b.session) {
        SessionKeyCovers(bans[other], b.session);
      } else {
        IPKeyCovers(bans[other], b.ip);
      }
    }
  }

  /**
   Creating keeps Redis right exactly if some ban on the target is in force or the new one does not end in
   the past.
   */
  lemma CreateAgrees(bans: Bans, keys: Keys, bans': Bans, keys': Keys, id: Id, found: Option<Id>, b: Ban, now: int)
    requires CreateStep(bans, keys, bans', keys', id, found, b, now)
    requires Unique(bans, now) && Agrees(bans, keys, now) && AllPlain(bans')
    ensures Agrees(bans', keys', now) <==> Matching(bans, b.session, b.ip, now) != {} || Lasts(b.expiresAt, now)
  {
    hide Right, OutlastsAll, Written;
    if found.Some? || Lasts(b.expiresAt, now) {
      CreateAgreesExactly(bans, keys, bans', keys', id, found, b, now);
      CreateKeepsUnique(bans, bans', id, found, b, now);
      forall key | Covers(bans'[id], key) ensures OutlastsAll(bans', key, bans'[id].expiresAt, now) {
        PlainBansShareNoKey(bans', id, key, now);
      }
    } else {
      PastBanIsWrong(bans, keys, bans', keys', id, b, now);
    }
  }

  /** The key of a ban that ends in the past is there for a second though nothing is banned. */
  lemma PastBanIsWrong(bans: Bans, keys: Keys, bans': Bans, keys': Keys, id: Id, b: Ban, now: int)
    requires CreateStep(bans, keys, bans', keys', id, None, b, now) && AllPlain(bans') && !Lasts(b.expiresAt, now)
    ensures !Agrees(bans', keys', now)
  {
    hide Written;
    var key := if b.session != "" then BanSessionKey(b.session) else BanIPKey(b.ip);
    WrittenIsWritten(keys, b, now, key);
    forall other | other in bans ensures !(InForce(bans[other], now) && Covers(bans[other], key)) {
      assert bans'[other] == bans[other];
      if b.session != "" { SessionKeyCovers(bans[other], b.session); } else { IPKeyCovers(bans[other], b.ip); }
      assert other !in Matching(bans, b.session, b.ip, now);
    }
    assert !Covered(bans', key, now);
    assert Present(keys', key, now);
    assert !Right(bans', keys', key, now);
  }

  // ---- deleting ----

  predicate ForSession(b: Ban, session: string, now: int) {
    InForce(b, now) && b.session == session
  }

  predicate ForIP(b: Ban, ip: string, now: int) {
    InForce(b, now) && b.ip == ip
  }

  function RemainingForSession(bans: Bans, session: string, now: int): set<Id> {
    set id | id in bans && ForSession(bans[id], session, now)
  }

  function RemainingForIP(bans: Bans, ip: string, now: int): set<Id> {
    set id | id in bans && ForIP(bans[id], ip, now)
  }

  /** What propagateUnban does to one key. */
  function Refreshed(keys: Keys, key: string, remaining: Option<Ban>, now: int): Keys {
    match remaining
    case Some(b) => keys[key := EntryOf(b, now)]
    case None => keys - {key}
  }

  function BanAt(bans: Bans, id: Option<Id>): Option<Ban> {
    if id.Some? && id.value in bans then Some(bans[id.value]) else None
  }

  function Unwritten(keys: Keys, b: Ban, forSession: Option<Ban>, forIP: Option<Ban>, now: int): Keys {
    var withSession := if b.session == "" then keys else Refreshed(keys, BanSessionKey(b.session), forSession, now);
    if b.ip == "" then withSession else Refreshed(withSession, BanIPKey(b.ip), forIP, now)
  }

  /** The rows after DeleteBan, and the bans that remain on its session and on its IP. */
  ghost predicate DeleteRows(bans: Bans, bans': Bans, id: Id, forSession: Option<Id>, forIP: Option<Id>, now: int) {
    && id in bans && bans[id].active && bans' == bans[id := bans[id].(active := false)]
    && (bans[id].session != "" ==> IsLatest(bans', RemainingForSession(bans', bans[id].session, now), forSession))
    && (bans[id].ip != "" ==> IsLatest(bans', RemainingForIP(bans', bans[id].ip, now), forIP))
  }

  /** The rows and keys after a successful DeleteBan. */
  ghost predicate DeleteStep(bans: Bans, keys: Keys, bans': Bans, keys': Keys, id: Id,
                             forSession: Option<Id>, forIP: Option<Id>, now: int)
  {
    && DeleteRows(bans, bans', id, forSession, forIP, now)
    && keys' == Unwritten(keys, bans[id], BanAt(bans', forSession), BanAt(bans', forIP), now)
  }

  lemma DeleteKeepsUnique(bans: Bans, bans': Bans, id: Id, now: int)
    requires id in bans && bans' == bans[id := bans[id].(active := false)] && Unique(bans, now)
    ensures Unique(bans', now)
  {
    forall other | other in bans' && InForce(bans'[other], now) ensures other in bans && bans'[other] == bans[other] {
    }
  }

  /** The key of a session is right after the refresh, by the bans that remain. */
  lemma RefreshedSessionIsRight(bans: Bans, keys: Keys, session: string, found: Option<Id>, now: int)
    requires Unique(bans, now) && AllPlain(bans) && session != "" && Plain(session)
    requires IsLatest(bans, RemainingForSession(bans, session, now), found)
    requires BanSessionKey(session) in keys <==> found.Some?
    requires found.Some? ==> found.value in bans && keys[BanSessionKey(session)] == EntryOf(bans[found.value], now)
    ensures Right(bans, keys, BanSessionKey(session), now)
  {
    hide Right, OutlastsAll;
    var key := BanSessionKey(session);
    if found.Some? {
      assert ForSession(bans[found.value], session, now);
      PlainBansShareNoKey(bans, found.value, key, now);
      WrittenKeyIsRight(bans, keys, key, found.value, now);
    } else {
      forall id | id in bans ensures !(InForce(bans[id], now) && Covers(bans[id], key)) {
        SessionKeyCovers(bans[id], session);
        assert id !in RemainingForSession(bans, session, now);
      }
      AbsentKeyIsRight(bans, keys, key, now);
    }
  }

  lemma RefreshedIPIsRight(bans: Bans, keys: Keys, ip: string, found: Option<Id>, now: int)
    requires Unique(bans, now) && AllPlain(bans) && ip != ""
    requires IsLatest(bans, RemainingForIP(bans, ip, now), found)
    requires BanIPKey(ip) in keys <==> found.Some?
    requires found.Some? ==> found.value in bans && keys[BanIPKey(ip)] == EntryOf(bans[found.value], now)
    ensures Right(bans, keys, BanIPKey(ip), now)
  {
    hide Right, OutlastsAll;
    var key := BanIPKey(ip);
    if found.Some? {
      assert ForIP(bans[found.value], ip, now);
      PlainBansShareNoKey(bans, found.value, key, now);
      WrittenKeyIsRight(bans, keys, key, found.value, now);
    } else {
      forall id | id in bans ensures !(InForce(bans[id], now) && Covers(bans[id], key)) {
        IPKeyCovers(bans[id], ip);
        assert id !in RemainingForIP(bans, ip, now);
      }
      AbsentKeyIsRight(bans, keys, key, now);
    }
  }

  lemma UnwrittenIsRefreshed(keys: Keys, b: Ban, forSession: Option<Ban>, forIP: Option<Ban>, now: int)
    requires Plain(b.session)
    ensures var after := Unwritten(keys, b, forSession, forIP, now);
            && (forall key | !Covers(b, key) ::
                (key in after <==> key in keys) && (key in keys ==> after[key] == keys[key]))
            && (b.session != "" ==> var key := BanSessionKey(b.session);
                  (key in after <==> forSession.Some?)
                      && (forSession.Some? ==> after[key] == EntryOf(forSession.value, now)))
            && (b.ip != "" ==> var key := BanIPKey(b.ip);
                  (key in after <==> forIP.Some?) && (forIP.Some? ==> after[key] == EntryOf(forIP.value, now)))
  {
    if b.session != "" && b.ip != "" {
      assert BanSessionKey(b.session)[4..] == b.session && BanIPKey(b.ip)[4..] == "ip:" + b.ip;
    }
  }

  /** Deleting a ban, in force or long expired, keeps Redis right: it never lifts another ban. */
  lemma DeleteAgrees(bans: Bans, keys: Keys, bans': Bans, keys': Keys, id: Id,
                     forSession: Option<Id>, forIP: Option<Id>, now: int)
    requires DeleteStep(bans, keys, bans', keys', id, forSession, forIP, now)
    requires Unique(bans, now) && Agrees(bans, keys, now) && AllPlain(bans)
    ensures Agrees(bans', keys', now)
  {
    hide Right, Unwritten;
    var b := bans[id];
    DeleteKeepsUnique(bans, bans', id, now);
    UnwrittenIsRefreshed(keys, b, BanAt(bans', forSession), BanAt(bans', forIP), now);
    forall key ensures Right(bans', keys', key, now) {
      if !Covers(b, key) {
        assert Right(bans, keys, key, now);
        UntouchedKeyStaysRight(bans, keys, bans', keys', key, now);
      } else if b.session != "" && key == BanSessionKey(b.session) {
        RefreshedSessionIsRight(bans', keys', b.session, forSession, now);
      } else {
        RefreshedIPIsRight(bans', keys', b.ip, forIP, now);
      }
    }
  }

  /**
   With any session IDs: deleting keeps Redis right exactly if each key of the ban that is left
   lasts as long as all bans on it, and each that is gone has none.
   */
  lemma DeleteAgreesExactly(bans: Bans, keys: Keys, bans': Bans, keys': Keys, id: Id,
                            forSession: Option<Id>, forIP: Option<Id>, now: int)
    requires DeleteStep(bans, keys, bans', keys', id, forSession, forIP, now) && Agrees(bans, keys, now)
    ensures Agrees(bans', keys', now) <==>
            forall key | Covers(bans[id], key) ::
              if key in keys' then OutlastsAll(bans', key, keys'[key].deadline, now) else !Covered(bans', key, now)
  {
    hide Right, OutlastsAll, Unwritten, Covers, Covered;
    forall key ensures Right(bans', keys', key, now) <==>
                       (Covers(bans[id], key) ==>
                          if key in keys' then OutlastsAll(bans', key, keys'[key].deadline, now)
                          else !Covered(bans', key, now))
    {
      UnwrittenKey(bans, keys, bans', keys', id, forSession, forIP, now, key);
      if !Covers(bans[id], key) {
        assert Right(bans, keys, key, now);
        UntouchedKeyStaysRight(bans, keys, bans', keys', key, now);
      } else if key in keys' {
        var kept :| kept in bans' && InForce(bans'[kept], now) && Covers(bans'[kept], key)
                 && keys'[key] == Entry(bans'[kept].reason, bans'[kept].expiresAt);
        WrittenKeyIsRight(bans', keys', key, kept, now);
      } else {
        AbsentKeyIsRight(bans', keys', key, now);
      }
    }
  }

  /** A key of the deleted ban is gone, or it is that of a ban in force. */
  lemma UnwrittenKey(bans: Bans, keys: Keys, bans': Bans, keys': Keys, id: Id,
                     forSession: Option<Id>, forIP: Option<Id>, now: int, key: string)
    requires DeleteStep(bans, keys, bans', keys', id, forSession, forIP, now)
    ensures Covers(bans[id], key) && key in keys' ==> Explained(bans', key, keys'[key], now)
    ensures !Covers(bans[id], key) ==> (key in keys' <==> key in keys) && (key in keys ==> keys'[key] == keys[key])
    ensures !Covers(bans[id], key) ==>
            && (forall other | other in bans && Covers(bans[other], key) ::
                other in bans' && bans'[other] == bans[other])
            && (forall other | other in bans' && Covers(bans'[other], key) ::
                other in bans && bans'[other] == bans[other])
  {
    var b := bans[id];
    if b.session != "" && forSession.Some? { assert ForSession(bans'[forSession.value], b.session, now); }
    if b.ip != "" && forIP.Some? { assert ForIP(bans'[forIP.value], b.ip, now); }
    if b.ip != "" && key == BanIPKey(b.ip) && key in keys' {
      assert keys'[key] == EntryOf(bans'[forIP.value], now);
      assert Covers(bans'[forIP.value], key);
    } else if b.session != "" && key == BanSessionKey(b.session) && key in keys' {
      assert keys'[key] == EntryOf(bans'[forSession.value], now);
      assert Covers(bans'[forSession.value], key);
    }
  }

  // ---- runs ----

  datatype Moment = Moment(bans: Bans, keys: Keys, now: int)
  {
    ghost predicate Sound() {
      Unique(bans, now) && Agrees(bans, keys, now) && AllPlain(bans)
    }
  }

  ghost predicate Creates(m: Moment, m': Moment, id: Id, found: Option<Id>, b: Ban) {
    && CreateStep(m.bans, m.keys, m'.bans, m'.keys, id, found, b, m'.now)
    && Plain(b.session) && (Matching(m.bans, b.session, b.ip, m'.now) != {} || Lasts(b.expiresAt, m'.now))
  }

  /** Time passes, and then a ban is created, a ban is deleted, or nothing happens. */
  ghost predicate Step(m: Moment, m': Moment) {
    && m.now <= m'.now
    && (|| (exists id, found, b :: Creates(m, m', id, found, b))
        || (exists id, forSession, forIP :: DeleteStep(m.bans, m.keys, m'.bans, m'.keys, id, forSession, forIP, m'.now))
        || (m'.bans == m.bans && m'.keys == m.keys))
  }

  ghost predicate Run(ms: seq<Moment>) {
    && ms != [] && ms[0].bans == map[] && ms[0].keys == map[]
    && forall i | 0 < i < |ms| :: Step(ms[i - 1], ms[i])
  }

  lemma StepIsSound(m: Moment, m': Moment)
    requires m.Sound() && Step(m, m')
    ensures m'.Sound()
  {
    hide Unique, Agrees, CreateRows, DeleteStep;
    UniqueLater(m.bans, m.now, m'.now);
    AgreesLater(m.bans, m.keys, m.now, m'.now);
    if id, found, b :| Creates(m, m', id, found, b) {
      StillPlain(m, m', id, found, b);
      CreateKeepsUnique(m.bans, m'.bans, id, found, b, m'.now);
      CreateAgrees(m.bans, m.keys, m'.bans, m'.keys, id, found, b, m'.now);
    } else if id, s, i :| DeleteStep(m.bans, m.keys, m'.bans, m'.keys, id, s, i, m'.now) {
      StillPlainWithout(m, m', id, s, i);
      DeleteKeepsUnique(m.bans, m'.bans, id, m'.now);
      DeleteAgrees(m.bans, m.keys, m'.bans, m'.keys, id, s, i, m'.now);
    }
  }

  lemma StillPlain(m: Moment, m': Moment, id: Id, found: Option<Id>, b: Ban)
    requires AllPlain(m.bans) && Creates(m, m', id, found, b)
    ensures AllPlain(m'.bans)
  {
    hide Plain;
  }

  lemma StillPlainWithout(m: Moment, m': Moment, id: Id, s: Option<Id>, i: Option<Id>)
    requires AllPlain(m.bans) && DeleteStep(m.bans, m.keys, m'.bans, m'.keys, id, s, i, m'.now)
    ensures AllPlain(m'.bans) && id in m.bans && m'.bans == m.bans[id := m.bans[id].(active := false)]
  {
    hide Plain;
  }

  /**
   Over every sequence of creations and deletions: one ban for each target, and Redis right at every time
   from then on.
   */
  lemma {:induction false} RunAgrees(ms: seq<Moment>)
    requires Run(ms)
    ensures ms[|ms| - 1].Sound()
    decreases |ms|
  {
    if |ms| > 1 {
      var before := ms[..|ms| - 1];
      forall i | 0 < i < |before| ensures Step(before[i - 1], before[i]) {
        assert Step(ms[i - 1], ms[i]);
      }
      RunAgrees(before);
      assert Step(ms[|ms| - 2], ms[|ms| - 1]);
      StepIsSound(ms[|ms| - 2], ms[|ms| - 1]);
    } else {
      assert forall key, t :: !Present(ms[0].keys, key, t) && !Covered(ms[0].bans, key, t);
    }
  }

  /**
   The key of a session named "ip:" plus an IP is also the key of that IP: unbanning such a
   session takes the key away from the ban on the IP.
   */
  lemma ClashLiftsBan(ip: string, now: int)
    requires ip != ""
    ensures exists before: Moment, after: Moment, id ::
              && Unique(before.bans, now) && Agrees(before.bans, before.keys, now)
              && DeleteStep(before.bans, before.keys, after.bans, after.keys, id, None, None, now)
              && Covered(after.bans, BanIPKey(ip), now) && !Present(after.keys, BanIPKey(ip), now)
  {
    var s, a := Ban("ip:" + ip, "", "spam", now, None, true), Ban("", ip, "spam", now, None, true);
    var key, e := BanIPKey(ip), Entry("spam", None);
    assert key == BanSessionKey(s.session);
    var before := Moment(map["s" := s, "a" := a], map[key := e], now);
    var after := Moment(before.bans["s" := s.(active := false)], map[], now);
    assert Covers(s, key) && Covers(a, key);
    forall k ensures Right(before.bans, before.keys, k, now) {
      if k == key {
        assert before.bans["a"] == a;
        WrittenKeyIsRight(before.bans, before.keys, key, "a", now);
      } else {
        assert !Covers(s, k) && !Covers(a, k);
        AbsentKeyIsRight(before.bans, before.keys, k, now);
      }
    }
    assert InForce(after.bans["a"], now);
    assert RemainingForSession(after.bans, s.session, now) == {};
    assert DeleteStep(before.bans, before.keys, after.bans, after.keys, "s", None, None, now);
  }
}

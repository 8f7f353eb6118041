/**
 Calls that create and delete bans at the same time, also on one target: the locks of a call end
 with its transaction, and its Redis commands come one by one later, after other calls.
 */
module BanOverlaps {
  import opened Options
  import opened RedisKeys
  import opened BanRegistry
  import opened BanSync
  import opened BanSyncRuns

  /** What a committed call is still to do to a key: to write the entry of a ban, or to delete it. */
  datatype Write = Write(key: string, ban: Option<Ban>)

  /** A write that Redis carried out: by which call, and whether its ban was still in force. */
  datatype Mark = Mark(call: nat, timely: bool)

  datatype Calls = Calls(
    bans: Bans,
    keys: Keys,
    now: int,
    next: nat,                      // the number of the next call
    todo: map<nat, seq<Write>>,     // by call
    committed: map<string, nat>,    // by key, the last call whose rows are about it
    written: map<string, Mark>)     // by key, the last write to it
  {
    /** The last write to a key was that of the last call about it. */
    predicate Settled(key: string) {
      key in committed ==> key in written && written[key] == Mark(committed[key], true)
    }
  }

  datatype Step =
    | CommitCreate(id: Id, found: Option<Id>, ban: Ban, at: int)
    | CommitDelete(id: Id, forSession: Option<Id>, forIP: Option<Id>, at: int)
    | Propagate(call: nat, fate: Fate, at: int)
    | Stop(call: nat)

  function Start(now: int): Calls {
    Calls(map[], map[], now, 0, map[], map[], map[])
  }

  function Lifted(bans: Bans, id: Id): Bans
    requires id in bans
  {
    bans[id := bans[id].(active := false)]
  }

  function Inserted(bans: Bans, id: Id, found: Option<Id>, b: Ban): Bans {
    if found.Some? then bans else bans[id := b]
  }

  /** The rows of a DeleteBan; another call may have lifted the ban since it was looked up. */
  ghost predicate LiftsRow(bans: Bans, id: Id, forSession: Option<Id>, forIP: Option<Id>, now: int) {
    && id in bans
    && (bans[id].session != "" ==>
          IsLatest(Lifted(bans, id), RemainingForSession(Lifted(bans, id), bans[id].session, now), forSession))
    && (bans[id].ip != "" ==>
          IsLatest(Lifted(bans, id), RemainingForIP(Lifted(bans, id), bans[id].ip, now), forIP))
  }

  ghost predicate Can(s: Calls, e: Step) {
    match e
    case CommitCreate(id, found, b, at) =>
      s.now <= at && Plain(b.session) && CreateRows(s.bans, Inserted(s.bans, id, found, b), id, found, b, at)
    case CommitDelete(id, forSession, forIP, at) => s.now <= at && LiftsRow(s.bans, id, forSession, forIP, at)
    case Propagate(call, _, at) => s.now <= at && call in s.todo && s.todo[call] != []
    case Stop(call) => call in s.todo
  }

  function Writes(b: Ban, forSession: Option<Ban>, forIP: Option<Ban>): seq<Write> {
    (if b.session == "" then [] else [Write(BanSessionKey(b.session), forSession)])
    + (if b.ip == "" then [] else [Write(BanIPKey(b.ip), forIP)])
  }

  /** The rows are committed, and the call has its writes ahead of it. */
  function Committed(s: Calls, bans: Bans, b: Ban, forSession: Option<Ban>, forIP: Option<Ban>, at: int): Calls {
    s.(bans := bans, now := at, next := s.next + 1, todo := s.todo[s.next := Writes(b, forSession, forIP)],
       committed := Put(s.committed, b, s.next))
  }

  predicate Timely(w: Write, now: int) {
    w.ban.Some? ==> InForce(w.ban.value, now)
  }

  /** One Redis command of a call; whether or not it works, the call goes on. */
  function Propagated(s: Calls, call: nat, fate: Fate, at: int): Calls
    requires call in s.todo && s.todo[call] != []
  {
    var w := s.todo[call][0];
    s.(now := at, todo := s.todo[call := s.todo[call][1..]],
       keys := if fate.Applied() then Refreshed(s.keys, w.key, w.ban, at) else s.keys,
       written := if fate.Applied() then s.written[w.key := Mark(call, Timely(w, at))] else s.written)
  }

  ghost function Done(s: Calls, e: Step): Calls
    requires Can(s, e)
  {
    match e
    case CommitCreate(id, found, b, at) =>
      var bans := Inserted(s.bans, id, found, b);
      Committed(s, bans, bans[id], Some(bans[id]), Some(bans[id]), at)
    case CommitDelete(id, forSession, forIP, at) =>
      var bans := Lifted(s.bans, id);
      Committed(s, bans, s.bans[id], BanAt(bans, forSession), BanAt(bans, forIP), at)
    case Propagate(call, fate, at) => Propagated(s, call, fate, at)
    case Stop(call) => s.(todo := s.todo - {call})
  }

  ghost predicate Legal(s: Calls, steps: seq<Step>)
    decreases |steps|
  {
    steps == [] || (Can(s, steps[0]) && Legal(Done(s, steps[0]), steps[1..]))
  }

  ghost function Run(s: Calls, steps: seq<Step>): Calls
    requires Legal(s, steps)
    decreases |steps|
  {
    if steps == [] then s else Run(Done(s, steps[0]), steps[1..])
  }

  // ---- one write ----

  /** The write says what the rows say: the ban it is about is active, or none is in force. */
  ghost predicate Current(bans: Bans, w: Write, now: int) {
    match w.ban
    case None => !Covered(bans, w.key, now)
    case Some(b) => exists id :: id in bans && bans[id] == b && b.active && Covers(b, w.key)
  }

  lemma RefreshedAt(keys: Keys, w: Write, now: int, key: string)
    ensures var after := Refreshed(keys, w.key, w.ban, now);
            && (key in after <==> if key == w.key then w.ban.Some? else key in keys)
            && (key in after ==> after[key] == if key == w.key then EntryOf(w.ban.value, now) else keys[key])
  {
  }

  /**
   However late it comes, a write makes its key right exactly if it deletes a key that no ban in
   force covers, or writes the entry of a ban in force.
   */
  lemma LateWriteIsRight(bans: Bans, keys: Keys, w: Write, now: int)
    requires Unique(bans, now) && AllPlain(bans)
    ensures Right(bans, Refreshed(keys, w.key, w.ban, now), w.key, now) <==>
            match w.ban
            case None => !Covered(bans, w.key, now)
            case Some(b) => Explained(bans, w.key, EntryOf(b, now), now)
  {
    var after := Refreshed(keys, w.key, w.ban, now);
    RefreshedAt(keys, w, now, w.key);
    hide Right, Unique, AllPlain, Covered, Explained;
    match w.ban
    case None => AbsentKeyIsRight(bans, after, w.key, now);
    case Some(b) => RightIffExplained(bans, after, w.key, now);
  }

  /** All of Redis is right after a write exactly if its key is, and the others were. */
  lemma LateWriteAgrees(s: Calls, call: nat, at: int)
    requires Can(s, Propagate(call, Worked, at)) && Unique(s.bans, at) && AllPlain(s.bans)
    requires Agrees(s.bans, s.keys, at)
    ensures var s', w := Propagated(s, call, Worked, at), s.todo[call][0];
            Agrees(s'.bans, s'.keys, at) <==>
            match w.ban
            case None => !Covered(s.bans, w.key, at)
            case Some(b) => Explained(s.bans, w.key, EntryOf(b, at), at)
  {
    var s', w := Propagated(s, call, Worked, at), s.todo[call][0];
    LateWriteIsRight(s.bans, s.keys, w, at);
    hide Right, Unique, AllPlain, Covered, Explained, Covers;
    forall key | key != w.key ensures Right(s'.bans, s'.keys, key, at) {
      RefreshedAt(s.keys, w, at, key);
      assert Right(s.bans, s.keys, key, at);
      UntouchedKeyStaysRight(s.bans, s.keys, s'.bans, s'.keys, key, at);
    }
  }

  lemma CurrentIsRight(bans: Bans, keys: Keys, w: Write, now: int)
    requires Unique(bans, now) && AllPlain(bans) && Current(bans, w, now) && Timely(w, now)
    ensures Right(bans, Refreshed(keys, w.key, w.ban, now), w.key, now)
  {
    LateWriteIsRight(bans, keys, w, now);
  }

  // ---- what every step keeps ----

  /** A key that no call was about is blank; a settled one is right. */
  ghost predicate KeyFits(s: Calls, key: string) {
    && (key !in s.committed ==> key !in s.keys && forall id | id in s.bans :: !Covers(s.bans[id], key))
    && (s.Settled(key) ==> Right(s.bans, s.keys, key, s.now))
  }

  /** The writes that the last call about a key is to make still say what the rows say. */
  ghost predicate WriteFits(s: Calls, call: nat, w: Write) {
    w.key in s.committed && (s.committed[w.key] == call ==> Current(s.bans, w, s.now))
  }

  ghost predicate WritesFit(s: Calls) {
    forall call | call in s.todo :: call < s.next && forall w | w in s.todo[call] :: WriteFits(s, call, w)
  }

  ghost predicate Numbered(s: Calls) {
    forall key | key in s.written :: s.written[key].call < s.next
  }

  ghost predicate Invariant(s: Calls) {
    Unique(s.bans, s.now) && AllPlain(s.bans) && Numbered(s) && WritesFit(s) && forall key :: KeyFits(s, key)
  }

  /** The bans on a key are the same. */
  ghost predicate SameBansOn(bans: Bans, bans': Bans, key: string) {
    && (forall id | id in bans && Covers(bans[id], key) :: id in bans' && bans'[id] == bans[id])
    && (forall id | id in bans' && Covers(bans'[id], key) :: id in bans && bans'[id] == bans[id])
  }

  lemma CurrentLater(bans: Bans, bans': Bans, w: Write, now: int, later: int)
    requires Current(bans, w, now) && now <= later && SameBansOn(bans, bans', w.key)
    ensures Current(bans', w, later)
  {
  }

  /** What a commit does to the rows, whichever it is. */
  ghost predicate Rows(s: Calls, bans: Bans, b: Ban, forSession: Option<Ban>, forIP: Option<Ban>, at: int) {
    && s.now <= at && Unique(bans, at) && AllPlain(bans)
    && (forall key | !Covers(b, key) :: SameBansOn(s.bans, bans, key))
    && (forall w | w in Writes(b, forSession, forIP) :: Covers(b, w.key) && Current(bans, w, at))
  }

  lemma CreatedRows(s: Calls, id: Id, found: Option<Id>, b: Ban, at: int)
    requires Invariant(s) && Can(s, CommitCreate(id, found, b, at))
    ensures var bans := Inserted(s.bans, id, found, b);
            Rows(s, bans, bans[id], Some(bans[id]), Some(bans[id]), at)
  {
    hide KeyFits, WritesFit, Unique, Plain;
    var bans := Inserted(s.bans, id, found, b);
    UniqueLater(s.bans, s.now, at);
    CreateKeepsUnique(s.bans, bans, id, found, b, at);
  }

  lemma LiftedRows(s: Calls, id: Id, forSession: Option<Id>, forIP: Option<Id>, at: int)
    requires Invariant(s) && Can(s, CommitDelete(id, forSession, forIP, at))
    ensures var bans := Lifted(s.bans, id);
            Rows(s, bans, s.bans[id], BanAt(bans, forSession), BanAt(bans, forIP), at)
  {
    hide KeyFits, WritesFit, Unique, Plain;
    var bans, b := Lifted(s.bans, id), s.bans[id];
    UniqueLater(s.bans, s.now, at);
    DeleteKeepsUnique(s.bans, bans, id, at);
    if b.session != "" { RemainingIsCurrent(bans, b.session, forSession, at); }
    if b.ip != "" { RemainingIPIsCurrent(bans, b.ip, forIP, at); }
  }

  lemma RemainingIsCurrent(bans: Bans, session: string, found: Option<Id>, now: int)
    requires session != "" && Plain(session) && IsLatest(bans, RemainingForSession(bans, session, now), found)
    ensures Current(bans, Write(BanSessionKey(session), BanAt(bans, found)), now)
  {
    var key := BanSessionKey(session);
    if found.Some? {
      assert ForSession(bans[found.value], session, now);
    } else {
      forall id | id in bans ensures !(InForce(bans[id], now) && Covers(bans[id], key)) {
        SessionKeyCovers(bans[id], session);
        assert id !in RemainingForSession(bans, session, now);
      }
    }
  }

  lemma RemainingIPIsCurrent(bans: Bans, ip: string, found: Option<Id>, now: int)
    requires ip != "" && AllPlain(bans) && IsLatest(bans, RemainingForIP(bans, ip, now), found)
    ensures Current(bans, Write(BanIPKey(ip), BanAt(bans, found)), now)
  {
    var key := BanIPKey(ip);
    if found.Some? {
      assert ForIP(bans[found.value], ip, now);
    } else {
      forall id | id in bans ensures !(InForce(bans[id], now) && Covers(bans[id], key)) {
        IPKeyCovers(bans[id], ip);
        assert id !in RemainingForIP(bans, ip, now);
      }
    }
  }

  lemma CommitKeeps(s: Calls, bans: Bans, b: Ban, forSession: Option<Ban>, forIP: Option<Ban>, at: int)
    requires Invariant(s) && Rows(s, bans, b, forSession, forIP, at)
    ensures Invariant(Committed(s, bans, b, forSession, forIP, at))
  {
    var s' := Committed(s, bans, b, forSession, forIP, at);
    CommitKeepsWrites(s, bans, b, forSession, forIP, at);
    hide Unique, AllPlain, Right, WriteFits, Covers;
    forall key ensures KeyFits(s', key) {
      assert KeyFits(s, key);
      PutAt(s.committed, b, s.next, key);
      if !Covers(b, key) {
        assert SameBansOn(s.bans, bans, key);
        if s.Settled(key) {
          RightLater(s.bans, s.keys, key, s.now, at);
          UntouchedKeyStaysRight(s.bans, s.keys, bans, s.keys, key, at);
        }
      }
    }
  }

  lemma CommitKeepsWrites(s: Calls, bans: Bans, b: Ban, forSession: Option<Ban>, forIP: Option<Ban>, at: int)
    requires Invariant(s) && Rows(s, bans, b, forSession, forIP, at)
    ensures WritesFit(Committed(s, bans, b, forSession, forIP, at))
  {
    var s' := Committed(s, bans, b, forSession, forIP, at);
    hide KeyFits, Unique, AllPlain, Covers, Current, SameBansOn, Writes;
    forall call, w | call in s'.todo && w in s'.todo[call] ensures WriteFits(s', call, w) {
      PutAt(s.committed, b, s.next, w.key);
      if call != s.next {
        assert WriteFits(s, call, w);
        if s.committed[w.key] == call && !Covers(b, w.key) {
          CurrentLater(s.bans, bans, w, s.now, at);
        }
      }
    }
  }

  lemma PropagateKeeps(s: Calls, call: nat, fate: Fate, at: int)
    requires Invariant(s) && Can(s, Propagate(call, fate, at))
    ensures Invariant(Propagated(s, call, fate, at))
  {
    var s', w := Propagated(s, call, fate, at), s.todo[call][0];
    UniqueLater(s.bans, s.now, at);
    TimeKeepsWrites(s, s', at);
    assert WriteFits(s, call, w);
    hide Unique, AllPlain, Right, WriteFits, WritesFit, Covers;
    forall key ensures KeyFits(s', key) {
      assert KeyFits(s, key);
      RefreshedAt(s.keys, w, at, key);
      if fate.Applied() && key == w.key {
        WrittenKeyFits(s, call, fate, at);
      } else if s.Settled(key) {
        RightLater(s.bans, s.keys, key, s.now, at);
        UntouchedKeyStaysRight(s.bans, s.keys, s'.bans, s'.keys, key, at);
      }
    }
  }

  lemma WrittenKeyFits(s: Calls, call: nat, fate: Fate, at: int)
    requires Can(s, Propagate(call, fate, at)) && fate.Applied() && Unique(s.bans, at) && AllPlain(s.bans)
    requires WriteFits(s, call, s.todo[call][0])
    ensures KeyFits(Propagated(s, call, fate, at), s.todo[call][0].key)
  {
    var s', w := Propagated(s, call, fate, at), s.todo[call][0];
    hide Unique, AllPlain, Right, Current, Covers;
    if s.committed[w.key] == call && Timely(w, at) {
      CurrentLater(s.bans, s.bans, w, s.now, at);
      CurrentIsRight(s.bans, s.keys, w, at);
    }
  }

  lemma TimeKeepsWrites(s: Calls, s': Calls, at: int)
    requires WritesFit(s) && s.now <= at == s'.now && s'.next == s.next
    requires s'.bans == s.bans && s'.committed == s.committed
    requires forall call | call in s'.todo :: call in s.todo && forall w | w in s'.todo[call] :: w in s.todo[call]
    ensures WritesFit(s')
  {
    hide Current, SameBansOn;
    forall call, w | call in s'.todo && w in s'.todo[call] ensures WriteFits(s', call, w) {
      assert WriteFits(s, call, w);
      if s.committed[w.key] == call {
        assert SameBansOn(s.bans, s.bans, w.key) by { SameAsItself(s.bans, w.key); }
        CurrentLater(s.bans, s.bans, w, s.now, at);
      }
    }
  }

  lemma SameAsItself(bans: Bans, key: string)
    ensures SameBansOn(bans, bans, key)
  {
  }

  lemma StepKeepsInvariant(s: Calls, e: Step)
    requires Invariant(s) && Can(s, e)
    ensures Invariant(Done(s, e))
  {
    hide Invariant, Rows, Committed, Propagated;
    match e
    case CommitCreate(id, found, b, at) =>
      var bans := Inserted(s.bans, id, found, b);
      CreatedRows(s, id, found, b, at);
      CommitKeeps(s, bans, bans[id], Some(bans[id]), Some(bans[id]), at);
    case CommitDelete(id, forSession, forIP, at) =>
      var bans := Lifted(s.bans, id);
      LiftedRows(s, id, forSession, forIP, at);
      CommitKeeps(s, bans, s.bans[id], BanAt(bans, forSession), BanAt(bans, forIP), at);
    case Propagate(call, fate, at) => PropagateKeeps(s, call, fate, at);
    case Stop(call) => StopKeeps(s, call);
  }

  lemma StopKeeps(s: Calls, call: nat)
    requires Invariant(s)
    ensures Invariant(s.(todo := s.todo - {call}))
  {
    var s' := s.(todo := s.todo - {call});
    TimeKeepsWrites(s, s', s.now);
    hide Unique, AllPlain, Right, WritesFit, Covers;
    forall key ensures KeyFits(s', key) {
      assert KeyFits(s, key);
    }
  }

  lemma StartInvariant(now: int)
    ensures Invariant(Start(now))
  {
    forall key ensures KeyFits(Start(now), key) {
      AbsentKeyIsRight(map[], map[], key, now);
    }
  }

  lemma {:induction false} RunKeepsInvariant(s: Calls, steps: seq<Step>)
    requires Invariant(s) && Legal(s, steps)
    ensures Invariant(Run(s, steps))
    decreases |steps|
  {
    hide Invariant, Can, Done;
    if steps != [] {
      StepKeepsInvariant(s, steps[0]);
      RunKeepsInvariant(Done(s, steps[0]), steps[1..]);
    }
  }

  /**
   After every run of overlapping calls, commands that fail and calls that stop included, a key is
   right if its last write was that of the last call about it, while its ban was in force. So
   Redis agrees when no write is overtaken by a later commit.
   */
  lemma SettledKeysAreRight(steps: seq<Step>, start: int)
    requires Legal(Start(start), steps)
    ensures var s := Run(Start(start), steps);
            && Unique(s.bans, s.now)
            && (forall key | s.Settled(key) :: Right(s.bans, s.keys, key, s.now))
            && ((forall key :: s.Settled(key)) ==> Agrees(s.bans, s.keys, s.now))
  {
    StartInvariant(start);
    RunKeepsInvariant(Start(start), steps);
    var s := Run(Start(start), steps);
    hide Right, Run, Legal;
    forall key | s.Settled(key) ensures Right(s.bans, s.keys, key, s.now) {
      assert KeyFits(s, key);
    }
  }

  // ---- calls that do not overlap on a target ----

  /** The ban whose keys a commit is about. */
  ghost function About(s: Calls, e: Step): Option<Ban>
    requires Can(s, e)
  {
    match e
    case CommitCreate(id, found, b, _) => Some(Inserted(s.bans, id, found, b)[id])
    case CommitDelete(id, _, _, _) => Some(s.bans[id])
    case _ => None
  }

  predicate Pending(s: Calls, call: nat, key: string) {
    call in s.todo && exists w | w in s.todo[call] :: w.key == key
  }

  /**
   No commit on a key that another call is still to write; no write fails, is left out or comes after its ban
   ended.
   */
  ghost predicate Orderly(s: Calls, e: Step)
    requires Can(s, e)
  {
    && (About(s, e).Some? ==> forall call, key | Pending(s, call, key) :: !Covers(About(s, e).value, key))
    && (e.Propagate? ==> e.fate.Worked? && Timely(s.todo[e.call][0], e.at))
    && (e.Stop? ==> s.todo[e.call] == [])
  }

  ghost predicate AllOrderly(s: Calls, steps: seq<Step>)
    requires Legal(s, steps)
    decreases |steps|
  {
    steps == [] || (Orderly(s, steps[0]) && AllOrderly(Done(s, steps[0]), steps[1..]))
  }

  /** A key that is not settled is about to be, and only the last call about a key is to write it. */
  ghost predicate InOrder(s: Calls) {
    && (forall call, key | Pending(s, call, key) :: key in s.committed && s.committed[key] == call)
    && (forall key | !s.Settled(key) :: Pending(s, s.committed[key], key))
    && (forall call | call in s.todo :: call < s.next)
  }

  lemma CommitKeepsOrder(s: Calls, bans: Bans, b: Ban, forSession: Option<Ban>, forIP: Option<Ban>, at: int)
    requires InOrder(s) && forall call, key | Pending(s, call, key) :: !Covers(b, key)
    ensures InOrder(Committed(s, bans, b, forSession, forIP, at))
  {
    var s' := Committed(s, bans, b, forSession, forIP, at);
    forall call, key ensures Pending(s', call, key) <==>
                             if call == s.next then Covers(b, key) else Pending(s, call, key) {
      if call == s.next && Covers(b, key) {
        var w := Write(key, if b.ip != "" && key == BanIPKey(b.ip) then forIP else forSession);
        assert b.ip != "" && key == BanIPKey(b.ip) ==> w in s'.todo[call];
        assert b.session != "" && key == BanSessionKey(b.session) ==>
               Write(key, forSession) in s'.todo[call];
      }
    }
    hide Pending, Covers;
    forall key ensures !s'.Settled(key) ==> Pending(s', s'.committed[key], key) {
      PutAt(s.committed, b, s.next, key);
    }
    forall call, key | Pending(s', call, key) ensures key in s'.committed && s'.committed[key] == call {
      PutAt(s.committed, b, s.next, key);
    }
  }

  lemma PropagateKeepsOrder(s: Calls, call: nat, at: int)
    requires InOrder(s) && Can(s, Propagate(call, Worked, at)) && Timely(s.todo[call][0], at)
    ensures InOrder(Propagated(s, call, Worked, at))
  {
    var s', w := Propagated(s, call, Worked, at), s.todo[call][0];
    assert Pending(s, call, w.key);
    forall c, key ensures Pending(s', c, key) ==> Pending(s, c, key) {
    }
    forall c, key | Pending(s, c, key) && key != w.key ensures Pending(s', c, key) {
      var x :| x in s.todo[c] && x.key == key;
      assert c == call ==> x in s.todo[call][1..];
    }
    hide Pending;
  }

  lemma StepKeepsOrder(s: Calls, e: Step)
    requires InOrder(s) && Can(s, e) && Orderly(s, e)
    ensures InOrder(Done(s, e))
  {
    hide InOrder, Committed, Propagated, Pending, Covers;
    match e
    case CommitCreate(id, found, b, at) =>
      var bans := Inserted(s.bans, id, found, b);
      CommitKeepsOrder(s, bans, bans[id], Some(bans[id]), Some(bans[id]), at);
    case CommitDelete(id, forSession, forIP, at) =>
      var bans := Lifted(s.bans, id);
      CommitKeepsOrder(s, bans, s.bans[id], BanAt(bans, forSession), BanAt(bans, forIP), at);
    case Propagate(call, _, at) => PropagateKeepsOrder(s, call, at);
    case Stop(call) => StopKeepsOrder(s, call);
  }

  lemma StopKeepsOrder(s: Calls, call: nat)
    requires InOrder(s) && call in s.todo && s.todo[call] == []
    ensures InOrder(s.(todo := s.todo - {call}))
  {
    var s' := s.(todo := s.todo - {call});
    assert forall c, key :: Pending(s', c, key) <==> Pending(s, c, key);
    hide Pending;
  }

  lemma {:induction false} RunKeepsOrder(s: Calls, steps: seq<Step>)
    requires InOrder(s) && Legal(s, steps) && AllOrderly(s, steps)
    ensures InOrder(Run(s, steps))
    decreases |steps|
  {
    hide InOrder, Can, Done, Orderly;
    if steps != [] {
      StepKeepsOrder(s, steps[0]);
      RunKeepsOrder(Done(s, steps[0]), steps[1..]);
    }
  }

  /** If calls about one key wait for each other and nothing fails, Redis agrees whenever none is under way. */
  lemma OrderlyRunAgrees(steps: seq<Step>, start: int)
    requires Legal(Start(start), steps) && AllOrderly(Start(start), steps)
    requires forall call | call in Run(Start(start), steps).todo :: Run(Start(start), steps).todo[call] == []
    ensures var s := Run(Start(start), steps); Agrees(s.bans, s.keys, s.now)
  {
    RunKeepsOrder(Start(start), steps);
    SettledKeysAreRight(steps, start);
    var s := Run(Start(start), steps);
    assert forall call, key :: !Pending(s, call, key);
  }

  // ---- a write that comes too late ----

  lemma RunOne(s: Calls, next: Calls, steps: seq<Step>)
    requires steps != [] && Can(s, steps[0]) && next == Done(s, steps[0]) && Legal(next, steps[1..])
    ensures Legal(s, steps) && Run(s, steps) == Run(next, steps[1..])
  {
  }

  /**
   Without any failure: a DeleteBan that commits before, and reaches Redis after, a new ban on the
   same session takes that ban's key away.
   */
  lemma OvertakenDeleteLiftsBan(session: string, now: int)
    requires session != "" && Plain(session)
    ensures exists steps: seq<Step> ::
              && Legal(Start(now), steps) && (forall e | e in steps :: !e.Stop? && (e.Propagate? ==> e.fate.Worked?))
              && var s := Run(Start(now), steps);
              && (forall call | call in s.todo :: s.todo[call] == [])
              && Covered(s.bans, BanSessionKey(session), now) && !Present(s.keys, BanSessionKey(session), now)
  {
    var key, b := BanSessionKey(session), Ban(session, "", "spam", now, None, true);
    var steps := [CommitCreate("a", None, b, now), Propagate(0, Worked, now), CommitDelete("a", None, None, now),
                  CommitCreate("b", None, b, now), Propagate(2, Worked, now), Propagate(1, Worked, now)];
    var s4 := BansAgain(session, now, steps);
    var s6 := DeletesLate(s4, key, b, now, steps[4..]);
    hide Can, Done, Legal, Run;
    assert s6.bans["b"] == b && Covers(b, key) && InForce(b, now);
  }

  /** The first four steps. */
  lemma BansAgain(session: string, now: int, steps: seq<Step>) returns (s: Calls)
    requires session != "" && Plain(session) && |steps| >= 4
    requires var b := Ban(session, "", "spam", now, None, true);
             steps[..4] == [CommitCreate("a", None, b, now), Propagate(0, Worked, now),
                            CommitDelete("a", None, None, now), CommitCreate("b", None, b, now)]
    ensures var key, b := BanSessionKey(session), Ban(session, "", "spam", now, None, true);
            && s.bans == map["a" := b.(active := false), "b" := b] && s.now == now
            && s.todo == map[0 := [], 1 := [Write(key, None)], 2 := [Write(key, Some(b))]]
    ensures Legal(s, steps[4..]) ==> Legal(Start(now), steps) && Run(Start(now), steps) == Run(s, steps[4..])
  {
    var key := BanSessionKey(session);
    assert steps[0] == steps[..4][0] && steps[1] == steps[..4][1] && steps[2] == steps[..4][2]
        && steps[3] == steps[..4][3];
    var s0 := Start(now);
    var s1 := CreatesAt(s0, "a", session, now);
    var s2 := s1.(keys := map[key := Entry("spam", None)], todo := map[0 := []], written := map[key := Mark(0, true)]);
    assert s2 == Done(s1, steps[1]);
    var s3 := DeletesAt(s2, session, now);
    s := CreatesAt(s3, "b", session, now);
    hide Can, Done, Legal, Run;
    if Legal(s, steps[4..]) {
      RunOne(s3, s, steps[3..]);
      RunOne(s2, s3, steps[2..]);
      RunOne(s1, s2, steps[1..]);
      RunOne(s0, s1, steps);
    }
  }

  lemma DeletesLate(s: Calls, key: string, b: Ban, now: int, steps: seq<Step>) returns (s': Calls)
    requires steps == [Propagate(2, Worked, now), Propagate(1, Worked, now)] && s.now == now
    requires s.todo == map[0 := [], 1 := [Write(key, None)], 2 := [Write(key, Some(b))]]
    ensures Legal(s, steps) && s' == Run(s, steps)
    ensures s'.bans == s.bans && s'.now == now && key !in s'.keys
    ensures forall call | call in s'.todo :: s'.todo[call] == []
  {
    var s1 := Done(s, steps[0]);
    s' := Done(s1, steps[1]);
    hide Can, Done;
    RunOne(s1, s', steps[1..]);
    RunOne(s, s1, steps);
  }

  lemma CreatesAt(s: Calls, id: Id, session: string, now: int) returns (s': Calls)
    requires session != "" && Plain(session) && s.now == now && id !in s.bans
    requires forall other | other in s.bans :: !s.bans[other].active
    ensures var b := Ban(session, "", "spam", now, None, true);
            && Can(s, CommitCreate(id, None, b, now)) && s' == Done(s, CommitCreate(id, None, b, now))
            && s' == s.(bans := s.bans[id := b], next := s.next + 1,
                        todo := s.todo[s.next := [Write(BanSessionKey(session), Some(b))]],
                        committed := s.committed[BanSessionKey(session) := s.next])
  {
    var b := Ban(session, "", "spam", now, None, true);
    assert Matching(s.bans, session, "", now) == {};
    assert Writes(b, Some(b), Some(b)) == [Write(BanSessionKey(session), Some(b))];
    s' := Done(s, CommitCreate(id, None, b, now));
  }

  lemma DeletesAt(s: Calls, session: string, now: int) returns (s': Calls)
    requires session != "" && s.now == now && s.bans == map["a" := Ban(session, "", "spam", now, None, true)]
    ensures Can(s, CommitDelete("a", None, None, now)) && s' == Done(s, CommitDelete("a", None, None, now))
    ensures s' == s.(bans := map["a" := Ban(session, "", "spam", now, None, false)], next := s.next + 1,
                     todo := s.todo[s.next := [Write(BanSessionKey(session), None)]],
                     committed := s.committed[BanSessionKey(session) := s.next])
  {
    var bans := map["a" := Ban(session, "", "spam", now, None, false)];
    assert Lifted(s.bans, "a") == bans;
    assert RemainingForSession(bans, session, now) == {};
    assert Writes(s.bans["a"], None, None) == [Write(BanSessionKey(session), None)];
    s' := Done(s, CommitDelete("a", None, None, now));
  }
}

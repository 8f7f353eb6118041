/** The ban sync while bans are created and deleted: what each of its steps may break, and what it heals. */
module BanSyncRuns {
  import opened Options
  import opened BanRegistry
  import opened BanSync
  import opened RedisKeys

  datatype View = View(bans: Bans, keys: Keys, index: set<string>, now: int)

  /** One step of an operator, or of a sync that loaded its rows some time before. */
  datatype Event =
    | Create(id: Id, found: Option<Id>, ban: Ban)
    | Delete(id: Id, forSession: Option<Id>, forIP: Option<Id>)
    | WriteRow(row: Ban)
    | Purge(key: string)

  ghost predicate Touches(v: View, e: Event, v': View, key: string) {
    match e
    case Create(id, _, _) => id in v'.bans && Covers(v'.bans[id], key)
    case Delete(id, _, _) => id in v.bans && Covers(v.bans[id], key)
    case WriteRow(b) => RowWrites(b, key, v'.now)
    case Purge(k) => k == key
  }

  /** No Redis command fails; only the index entries of touched keys change. */
  ghost predicate Happens(rows: seq<Ban>, v: View, e: Event, v': View) {
    && v.now <= v'.now
    && (forall key | !Touches(v, e, v', key) :: key in v'.index <==> key in v.index)
    && match e
       case Create(id, found, b) =>
         && CreateStep(v.bans, v.keys, v'.bans, v'.keys, id, found, b, v'.now)
         && Plain(b.session) && (Matching(v.bans, b.session, b.ip, v'.now) != {} || Lasts(b.expiresAt, v'.now))
       case Delete(id, forSession, forIP) =>
         DeleteStep(v.bans, v.keys, v'.bans, v'.keys, id, forSession, forIP, v'.now)
       case WriteRow(b) =>
         && b in rows && v'.bans == v.bans
         && v'.keys == (if Lasts(b.expiresAt, v'.now) then Written(v.keys, b, v'.now) else v.keys)
       case Purge(key) =>
         && key !in KeysInForce(rows, v'.now) && v'.bans == v.bans
         && v'.keys == v.keys - {key} && v'.index == v.index - {key}
  }

  /** The row is not deleted since it was loaded; no ban on the key came into force since. */
  ghost predicate Safe(v: View, e: Event, v': View) {
    match e
    case WriteRow(b) => Lasts(b.expiresAt, v'.now) ==> exists id :: id in v.bans && v.bans[id] == b && b.active
    case Purge(key) => !Covered(v.bans, key, v'.now)
    case _ => true
  }

  ghost predicate Sound(v: View) {
    Unique(v.bans, v.now) && AllPlain(v.bans)
  }

  lemma StaysSound(rows: seq<Ban>, v: View, e: Event, v': View)
    requires Sound(v) && Happens(rows, v, e, v')
    ensures Sound(v') && Unique(v.bans, v'.now)
  {
    hide Unique, Written, Unwritten;
    UniqueLater(v.bans, v.now, v'.now);
    match e
    case Create(id, found, b) => CreateKeepsUnique(v.bans, v'.bans, id, found, b, v'.now);
    case Delete(id, _, _) => DeleteKeepsUnique(v.bans, v'.bans, id, v'.now);
    case _ =>
  }

  // ---- single steps ----

  /** Deleting a scanned key keeps Redis right exactly if no ban that covers it has come into force since the load. */
  lemma PurgeAgrees(rows: seq<Ban>, v: View, key: string, v': View)
    requires Happens(rows, v, Purge(key), v') && Agrees(v.bans, v.keys, v.now)
    ensures Agrees(v'.bans, v'.keys, v'.now) <==> !Covered(v.bans, key, v'.now)
  {
    hide Right, Covers;
    AgreesLater(v.bans, v.keys, v.now, v'.now);
    AbsentKeyIsRight(v'.bans, v'.keys, key, v'.now);
    forall other | other != key ensures Right(v'.bans, v'.keys, other, v'.now) {
      assert Right(v.bans, v.keys, other, v'.now);
      UntouchedKeyStaysRight(v.bans, v.keys, v'.bans, v'.keys, other, v'.now);
    }
  }

  /**
   Writing a loaded row keeps Redis right exactly if it has run out, or each of its keys is still
   that of a ban in force with the same reason and end.
   */
  lemma WriteAgrees(rows: seq<Ban>, v: View, b: Ban, v': View)
    requires Happens(rows, v, WriteRow(b), v') && Agrees(v.bans, v.keys, v.now)
    requires Unique(v.bans, v'.now) && AllPlain(v.bans)
    ensures Agrees(v'.bans, v'.keys, v'.now) <==>
            forall key | RowWrites(b, key, v'.now) :: Explained(v.bans, key, Entry(b.reason, b.expiresAt), v'.now)
  {
    hide Right, Covers, Written, Explained, Unique, AllPlain;
    AgreesLater(v.bans, v.keys, v.now, v'.now);
    forall key ensures Right(v'.bans, v'.keys, key, v'.now) <==>
                       (RowWrites(b, key, v'.now) ==> Explained(v.bans, key, Entry(b.reason, b.expiresAt), v'.now))
    {
      WrittenIsWritten(v.keys, b, v'.now, key);
      if RowWrites(b, key, v'.now) {
        RightIffExplained(v'.bans, v'.keys, key, v'.now);
      } else {
        assert Right(v.bans, v.keys, key, v'.now);
        UntouchedKeyStaysRight(v.bans, v.keys, v'.bans, v'.keys, key, v'.now);
      }
    }
  }

  /** A key that is there is right exactly if its entry is that of a ban in force. */
  lemma RightIffExplained(bans: Bans, keys: Keys, key: string, now: int)
    requires Unique(bans, now) && AllPlain(bans) && Present(keys, key, now)
    ensures Right(bans, keys, key, now) <==> Explained(bans, key, keys[key], now)
  {
    if Explained(bans, key, keys[key], now) {
      var id :| id in bans && InForce(bans[id], now) && Covers(bans[id], key)
             && keys[key] == Entry(bans[id].reason, bans[id].expiresAt);
      PlainBansShareNoKey(bans, id, key, now);
      WrittenKeyIsRight(bans, keys, key, id, now);
    }
  }

  // ---- what a step does to one key ----

  lemma CreatedKeyIsRight(rows: seq<Ban>, v: View, e: Event, v': View, key: string)
    requires Sound(v) && Happens(rows, v, e, v') && e.Create? && Touches(v, e, v', key)
    ensures Right(v'.bans, v'.keys, key, v'.now)
  {
    StaysSound(rows, v, e, v');
    WrittenIsWritten(v.keys, v'.bans[e.id], v'.now, key);
    hide Right, Written, Unique, AllPlain, OutlastsAll;
    assert InForce(v'.bans[e.id], v'.now);
    PlainBansShareNoKey(v'.bans, e.id, key, v'.now);
    WrittenKeyIsRight(v'.bans, v'.keys, key, e.id, v'.now);
  }

  lemma DeletedKeyIsRight(rows: seq<Ban>, v: View, e: Event, v': View, key: string)
    requires Sound(v) && Happens(rows, v, e, v') && e.Delete? && Touches(v, e, v', key)
    ensures Right(v'.bans, v'.keys, key, v'.now)
  {
    StaysSound(rows, v, e, v');
    var b := v.bans[e.id];
    hide Right, Unwritten, Unique;
    UnwrittenIsRefreshed(v.keys, b, BanAt(v'.bans, e.forSession), BanAt(v'.bans, e.forIP), v'.now);
    if b.session != "" && key == BanSessionKey(b.session) {
      RefreshedSessionIsRight(v'.bans, v'.keys, b.session, e.forSession, v'.now);
    } else {
      RefreshedIPIsRight(v'.bans, v'.keys, b.ip, e.forIP, v'.now);
    }
  }

  lemma SyncedKeyIsRight(rows: seq<Ban>, v: View, e: Event, v': View, key: string)
    requires Sound(v) && Happens(rows, v, e, v') && Safe(v, e, v') && (e.WriteRow? || e.Purge?)
              && Touches(v, e, v', key)
    ensures Right(v'.bans, v'.keys, key, v'.now)
  {
    StaysSound(rows, v, e, v');
    hide Right, Written, Unique, AllPlain, OutlastsAll;
    if e.WriteRow? {
      WrittenIsWritten(v.keys, e.row, v'.now, key);
      var id :| id in v.bans && v.bans[id] == e.row;
      PlainBansShareNoKey(v'.bans, id, key, v'.now);
      WrittenKeyIsRight(v'.bans, v'.keys, key, id, v'.now);
    } else {
      AbsentKeyIsRight(v'.bans, v'.keys, key, v'.now);
    }
  }

  /** A step that does not touch a key leaves its entry, its index entry and its bans alone. */
  lemma UntouchedIsSame(rows: seq<Ban>, v: View, e: Event, v': View, key: string)
    requires AllPlain(v.bans) && Happens(rows, v, e, v') && !Touches(v, e, v', key)
    ensures forall id | id in v.bans && Covers(v.bans[id], key) :: id in v'.bans && v'.bans[id] == v.bans[id]
    ensures forall id | id in v'.bans && Covers(v'.bans[id], key) :: id in v.bans && v'.bans[id] == v.bans[id]
    ensures key in v'.keys <==> key in v.keys
    ensures key in v.keys ==> v'.keys[key] == v.keys[key]
    ensures key in v'.index <==> key in v.index
  {
    hide Covers, Written, Unwritten;
    match e
    case Create(id, _, _) => WrittenIsWritten(v.keys, v'.bans[id], v'.now, key);
    case Delete(id, s, i) =>
      UnwrittenIsRefreshed(v.keys, v.bans[id], BanAt(v'.bans, s), BanAt(v'.bans, i), v'.now);
      LiftedCoversTheSame(v.bans[id], key);
    case WriteRow(b) => WrittenIsWritten(v.keys, b, v'.now, key);
    case Purge(_) =>
  }

  lemma LiftedCoversTheSame(b: Ban, key: string)
    ensures Covers(b.(active := false), key) == Covers(b, key)
  {
  }

  /** Once touched by a safe step, a key is right, and a right key stays right. */
  lemma StepMakesRight(rows: seq<Ban>, v: View, e: Event, v': View, key: string)
    requires Sound(v) && Happens(rows, v, e, v') && Safe(v, e, v')
    requires Touches(v, e, v', key) || Right(v.bans, v.keys, key, v.now)
    ensures Right(v'.bans, v'.keys, key, v'.now)
  {
    hide Right, Happens, Safe, Sound;
    if Touches(v, e, v', key) {
      match e
      case Create(_, _, _) => CreatedKeyIsRight(rows, v, e, v', key);
      case Delete(_, _, _) => DeletedKeyIsRight(rows, v, e, v', key);
      case _ => SyncedKeyIsRight(rows, v, e, v', key);
    } else {
      StillRight(rows, v, e, v', key);
    }
  }

  lemma StillRight(rows: seq<Ban>, v: View, e: Event, v': View, key: string)
    requires Sound(v) && Happens(rows, v, e, v') && !Touches(v, e, v', key) && Right(v.bans, v.keys, key, v.now)
    ensures Right(v'.bans, v'.keys, key, v'.now)
  {
    UntouchedIsSame(rows, v, e, v', key);
    hide Right, Covers, Touches;
    RightLater(v.bans, v.keys, key, v.now, v'.now);
    UntouchedKeyStaysRight(v.bans, v.keys, v'.bans, v'.keys, key, v'.now);
  }

  // ---- runs ----

  /** Views with the events between them. */
  ghost predicate Chain(rows: seq<Ban>, vs: seq<View>, es: seq<Event>) {
    |vs| == |es| + 1 && forall i | 0 <= i < |es| :: Happens(rows, vs[i], es[i], vs[i + 1])
  }

  ghost predicate AllSafe(vs: seq<View>, es: seq<Event>)
    requires |vs| == |es| + 1
  {
    forall i | 0 <= i < |es| :: Safe(vs[i], es[i], vs[i + 1])
  }

  ghost predicate Touched(vs: seq<View>, es: seq<Event>, key: string)
    requires |vs| == |es| + 1
  {
    exists i :: 0 <= i < |es| && Touches(vs[i], es[i], vs[i + 1], key)
  }

  lemma ShorterChain(rows: seq<Ban>, vs: seq<View>, es: seq<Event>, key: string)
    requires es != [] && Chain(rows, vs, es) && AllSafe(vs, es)
    ensures var n := |es| - 1;
            && Chain(rows, vs[..|es|], es[..n]) && AllSafe(vs[..|es|], es[..n])
            && (Touched(vs, es, key) <==> Touched(vs[..|es|], es[..n], key) || Touches(vs[n], es[n], vs[n + 1], key))
  {
    hide Happens, Safe, Touches;
    var n := |es| - 1;
    var vs', es' := vs[..|es|], es[..n];
    assert forall i | 0 <= i <= n :: vs'[i] == vs[i];
    assert forall i | 0 <= i < n :: es'[i] == es[i];
    if i :| 0 <= i < n && Touches(vs[i], es[i], vs[i + 1], key) {
      assert Touches(vs'[i], es'[i], vs'[i + 1], key);
    }
    if i :| 0 <= i < n && Touches(vs'[i], es'[i], vs'[i + 1], key) {
      assert Touches(vs[i], es[i], vs[i + 1], key);
    }
  }

  /** Along a run whose sync steps are safe: touched keys, and keys right at the start, are right at the end. */
  lemma {:induction false} TouchedIsRight(rows: seq<Ban>, vs: seq<View>, es: seq<Event>, key: string)
    requires Chain(rows, vs, es) && AllSafe(vs, es) && Sound(vs[0])
    ensures var last := vs[|es|];
            && Sound(last)
            && (Touched(vs, es, key) || Right(vs[0].bans, vs[0].keys, key, vs[0].now) ==>
                Right(last.bans, last.keys, key, last.now))
    decreases |es|
  {
    hide Right, Sound, Safe, Touches, Happens;
    if es != [] {
      var n := |es| - 1;
      ShorterChain(rows, vs, es, key);
      TouchedIsRight(rows, vs[..|es|], es[..n], key);
      assert Happens(rows, vs[n], es[n], vs[n + 1]) && Safe(vs[n], es[n], vs[n + 1]);
      StaysSound(rows, vs[n], es[n], vs[n + 1]);
      if Touches(vs[n], es[n], vs[n + 1], key) || Right(vs[n].bans, vs[n].keys, key, vs[n].now) {
        StepMakesRight(rows, vs[n], es[n], vs[n + 1], key);
      }
    }
  }

  /** The bans on a key, its entry and its index entry are the same at both ends. */
  ghost predicate SameOn(v: View, v': View, key: string) {
    && (forall id | id in v.bans && Covers(v.bans[id], key) :: id in v'.bans && v'.bans[id] == v.bans[id])
    && (forall id | id in v'.bans && Covers(v'.bans[id], key) :: id in v.bans && v'.bans[id] == v.bans[id])
    && (key in v'.keys <==> key in v.keys) && (key in v.keys ==> v'.keys[key] == v.keys[key])
    && (key in v'.index <==> key in v.index) && v.now <= v'.now
  }

  lemma SameOnStep(rows: seq<Ban>, v: View, e: Event, v': View, key: string)
    requires AllPlain(v.bans) && Happens(rows, v, e, v') && !Touches(v, e, v', key)
    ensures SameOn(v, v', key)
  {
    UntouchedIsSame(rows, v, e, v', key);
    hide Covers, Touches;
  }

  lemma SameOnTwice(u: View, v: View, w: View, key: string)
    requires SameOn(u, v, key) && SameOn(v, w, key)
    ensures SameOn(u, w, key)
  {
    hide Covers;
  }

  lemma {:induction false} UntouchedAllAlong(rows: seq<Ban>, vs: seq<View>, es: seq<Event>, key: string)
    requires Chain(rows, vs, es) && AllSafe(vs, es) && Sound(vs[0]) && !Touched(vs, es, key)
    ensures SameOn(vs[0], vs[|es|], key)
    decreases |es|
  {
    hide Right, Safe, Touches, Happens, SameOn, Unique, AllPlain;
    if es != [] {
      var n := |es| - 1;
      ShorterChain(rows, vs, es, key);
      UntouchedAllAlong(rows, vs[..|es|], es[..n], key);
      TouchedIsRight(rows, vs[..|es|], es[..n], key);
      assert Happens(rows, vs[n], es[n], vs[n + 1]);
      SameOnStep(rows, vs[n], es[n], vs[n + 1], key);
      SameOnTwice(vs[0], vs[n], vs[n + 1], key);
    } else {
      SameOnItself(vs[0], key);
    }
  }

  lemma SameOnItself(v: View, key: string)
    ensures SameOn(v, v, key)
  {
  }

  /** Every row that has not run out was written at some point. */
  ghost predicate AllWritten(rows: seq<Ban>, es: seq<Event>, now: int) {
    forall b | b in rows && Lasts(b.expiresAt, now) :: WriteRow(b) in es
  }

  /** What the cursor promises: a stale key that was in the index all along was scanned, and so purged. */
  ghost predicate AllPurged(rows: seq<Ban>, vs: seq<View>, es: seq<Event>, now: int)
    requires |vs| == |es| + 1
  {
    forall key | key in vs[0].index && key !in KeysInForce(rows, now) && !Touched(vs, es, key) :: Purge(key) in es
  }

  lemma PurgeTouches(vs: seq<View>, es: seq<Event>, key: string)
    requires |vs| == |es| + 1 && Purge(key) in es
    ensures Touched(vs, es, key)
  {
    var i :| 0 <= i < |es| && es[i] == Purge(key);
    assert Touches(vs[i], es[i], vs[i + 1], key);
  }

  lemma WriteTouches(rows: seq<Ban>, vs: seq<View>, es: seq<Event>, b: Ban, key: string)
    requires Chain(rows, vs, es) && WriteRow(b) in es && Covers(b, key) && Lasts(b.expiresAt, vs[|es|].now)
    ensures Touched(vs, es, key)
  {
    var i :| 0 <= i < |es| && es[i] == WriteRow(b);
    hide Covers, KeysInForce;
    TimesGrow(rows, vs, es, i + 1);
    assert Touches(vs[i], es[i], vs[i + 1], key);
  }

  lemma {:induction false} TimesGrow(rows: seq<Ban>, vs: seq<View>, es: seq<Event>, i: nat)
    requires Chain(rows, vs, es) && i <= |es|
    ensures vs[i].now <= vs[|es|].now
    decreases |es| - i
  {
    if i < |es| {
      assert Happens(rows, vs[i], es[i], vs[i + 1]);
      TimesGrow(rows, vs, es, i + 1);
    }
  }

  /**
   A whole sync amid any creations and deletions, from any Redis state. If no step of it writes a
   row deleted since the load or deletes the key of a ban that came into force since, Redis is
   right at the end, and from then on, exactly if each key that the index had lost has run out
   or was touched by some step.
   */
  lemma SyncAmidChangesHeals(rows: seq<Ban>, vs: seq<View>, es: seq<Event>)
    requires Chain(rows, vs, es) && AllSafe(vs, es) && Sound(vs[0]) && Loaded(rows, vs[0].bans, vs[0].now)
    requires AllWritten(rows, es, vs[|es|].now) && AllPurged(rows, vs, es, vs[|es|].now)
    ensures var last := vs[|es|];
            Agrees(last.bans, last.keys, last.now) <==>
            forall key | key !in vs[0].index && !Touched(vs, es, key) :: !Present(vs[0].keys, key, last.now)
  {
    var last := vs[|es|];
    hide Right, Chain, AllSafe, Sound, Loaded, AllWritten, AllPurged, Touched, Present;
    forall key ensures Right(last.bans, last.keys, key, last.now) <==>
                       (key !in vs[0].index && !Touched(vs, es, key) ==> !Present(vs[0].keys, key, last.now))
    {
      TouchedIsRight(rows, vs, es, key);
      if !Touched(vs, es, key) {
        UntouchedKey(rows, vs, es, key);
      }
    }
  }

  /** A key that no step touches is not covered at the end, and was not in the index. */
  lemma UntouchedKey(rows: seq<Ban>, vs: seq<View>, es: seq<Event>, key: string)
    requires Chain(rows, vs, es) && AllSafe(vs, es) && Sound(vs[0]) && Loaded(rows, vs[0].bans, vs[0].now)
    requires AllWritten(rows, es, vs[|es|].now) && AllPurged(rows, vs, es, vs[|es|].now) && !Touched(vs, es, key)
    ensures key !in vs[0].index
    ensures var last := vs[|es|]; Right(last.bans, last.keys, key, last.now) <==> !Present(vs[0].keys, key, last.now)
  {
    var last := vs[|es|];
    UntouchedAllAlong(rows, vs, es, key);
    TimesGrow(rows, vs, es, 0);
    NotCovered(rows, vs, es, key);
    if key in vs[0].index {
      PurgeTouches(vs, es, key);
    }
    hide Chain, AllSafe, Sound, Loaded, AllWritten, AllPurged, Touched, Covered, KeysInForce;
    GoneOrPresent(last.bans, last.keys, key, last.now);
  }

  lemma GoneOrPresent(bans: Bans, keys: Keys, key: string, now: int)
    requires !Covered(bans, key, now)
    ensures Right(bans, keys, key, now) <==> !Present(keys, key, now)
  {
    if !Present(keys, key, now) {
      GoneKeyIsRight(bans, keys, key, now);
    }
  }

  lemma NotCovered(rows: seq<Ban>, vs: seq<View>, es: seq<Event>, key: string)
    requires Chain(rows, vs, es) && Loaded(rows, vs[0].bans, vs[0].now) && vs[0].now <= vs[|es|].now
    requires AllWritten(rows, es, vs[|es|].now) && !Touched(vs, es, key) && SameOn(vs[0], vs[|es|], key)
    ensures !Covered(vs[|es|].bans, key, vs[|es|].now) && key !in KeysInForce(rows, vs[|es|].now)
  {
    var last := vs[|es|];
    hide Covers, Chain, Touched;
    forall b | b in rows && Lasts(b.expiresAt, last.now) ensures !Covers(b, key) {
      if Covers(b, key) { WriteTouches(rows, vs, es, b, key); }
    }
    InKeysInForce(rows, last.now, key);
    forall id | id in last.bans && Covers(last.bans[id], key) ensures !InForce(last.bans[id], last.now) {
      assert id in vs[0].bans && vs[0].bans[id] == last.bans[id];
      assert InForce(last.bans[id], last.now) ==> InForce(vs[0].bans[id], vs[0].now);
    }
  }

  /**
   The first condition is needed: of every ban that comes into force after the load, a sync can
   delete the key.
   */
  lemma FreshBanIsPurged(session: string, now: int)
    requires session != "" && Plain(session)
    ensures exists vs: seq<View>, es: seq<Event> ::
              && Chain([], vs, es) && Sound(vs[0]) && Loaded([], vs[0].bans, now) && |es| == 2 && es[1].Purge?
              && Covered(vs[2].bans, BanSessionKey(session), now) && !Present(vs[2].keys, BanSessionKey(session), now)
  {
    var key, b := BanSessionKey(session), Ban(session, "", "spam", now, None, true);
    var none := View(map[], map[], {}, now);
    var banned := View(map["b" := b], map[key := Entry("spam", None)], {key}, now);
    var purged := View(banned.bans, map[], {}, now);
    var vs, es := [none, banned, purged], [Create("b", None, b), Purge(key)];
    assert Matching(none.bans, session, "", now) == {};
    assert Covers(b, key) && InForce(banned.bans["b"], now);
    assert Happens([], vs[0], es[0], vs[1]) && Happens([], vs[1], es[1], vs[2]);
    assert Chain([], vs, es);
  }
}

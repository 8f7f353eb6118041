/** The signaling hub's table of sessions, and the Redis records of one session, as they are updated in place. */
module SignalHub {
  import opened Options
  import opened PendingSignals
  import opened SignalRegistration

  datatype Reply = Granted(drained: seq<string>) | Owned(other: nat)

  /** The owner, ready and pending keys of a session; each script is one step. */
  class SessionRecords {
    var owner: Option<nat>
    var until: int
    var ready: bool
    var pending: seq<string>

    /** These are the records of a state of the step system. */
    ghost predicate Mirrors(s: State)
      reads this
    {
      s.owner == owner && s.until == until && s.pending == pending
    }

    /** The list is what a history of queueing and claiming has left. */
    ghost predicate Follows(events: seq<Event>)
      reads this`pending
    {
      pending == ListAfter(events)
    }

    /**
     claimScript: the claim step of the step system, for every state with these records and every
     call of the instance. A grant returns all that the history had left pending.
     */
    method Claim(instance: nat, now: int) returns (reply: Reply)
      modifies this
      ensures forall s: State, c: nat | old(Mirrors(s)) && c in s.calls && s.calls[c].instance == instance ::
                && Mirrors(Claimed(s, c, Worked, now))
                && Claimed(s, c, Worked, now).calls[c].stage ==
                    (if reply.Granted? then Installing(reply.drained) else Failing)
      ensures reply.Granted? ==> owner == Some(instance) && !ready && reply.drained == Drained(old(pending))
      ensures reply.Granted? ==> forall events | old(Follows(events)) :: Follows(events + [Event.Claim])
      ensures reply.Granted? ==> old(owner) in {None, Some(instance)}
      ensures reply.Owned? ==> reply.other != instance && owner == old(owner) == Some(reply.other)
      ensures reply.Owned? ==> pending == old(pending) && ready == old(ready)
    {
      if owner.Some? && owner.value != instance {
        return Owned(owner.value);
      }
      owner, until := Some(instance), now + OWNER_TTL;
      ready := false;
      reply := Granted(Drained(pending));
      pending := [];
      forall events: seq<Event> ensures Follows(events + [Event.Claim]) {
        OneMoreQueued(events, "");
      }
    }

    /** compareDeleteScript: the second half of the Unregister step, when the script runs or does not. */
    method CompareAndDelete(instance: nat, fate: Fate)
      modifies this`owner
      ensures forall s: State, c: nat | old(Mirrors(s)) && c in s.calls && s.calls[c].instance == instance ::
                Mirrors(Released(s, c, fate))
      ensures owner != old(owner) ==> old(owner) == Some(instance) && owner == None
    {
      if fate.Applied() && owner == Some(instance) {
        owner := None;
      }
    }

    /** refreshOwnerScript: the refresh step; it reports loss exactly when the record is not its own. */
    method RefreshOwner(instance: nat, now: int) returns (ok: bool)
      modifies this`until
      ensures forall s: State | old(Mirrors(s)) :: Mirrors(Apply(s, Refresh(instance, now)))
      ensures !ok <==> owner != Some(instance)
    {
      ok := owner == Some(instance);
      if ok {
        until := now + OWNER_TTL;
      }
    }

    /** enqueuePending: one more event of the history, and the queueing step. */
    method EnqueuePending(payload: string)
      modifies this`pending
      ensures forall events | old(Follows(events)) :: Follows(events + [Queue(payload)])
      ensures forall s: State | old(Mirrors(s)) :: Mirrors(Apply(s, QueueSignal(payload)))
    {
      ghost var before := pending;
      pending := pending + [payload];
      pending := Trim(pending);
      assert pending == Push(before, payload);
      forall events | before == ListAfter(events) ensures Follows(events + [Queue(payload)]) {
        OneMoreQueued(events, payload);
      }
    }

    /** sendOrQueueScript: queued, unless another instance owns the session and somebody listens there. */
    method SendOrQueue(sender: nat, payload: string, listeners: nat) returns (published: bool)
      modifies this`pending
      ensures published ==> owner.Some? && owner.value != sender && listeners > 0 && pending == old(pending)
      ensures !published ==> owner.None? || owner.value == sender || listeners == 0
      ensures !published ==> forall events | old(Follows(events)) :: Follows(events + [Queue(payload)])
      ensures !published ==> forall s: State | old(Mirrors(s)) :: Mirrors(Apply(s, QueueSignal(payload)))
    {
      if owner.Some? && owner.value != sender {
        if listeners > 0 {
          return true;
        }
      }
      EnqueuePending(payload);
      published := false;
    }
  }

  datatype RegisterError = SessionAlreadyOwned | RedisFailed

  class Hub {
    const instance: nat
    var items: map<string, Entry>

    predicate Valid()
      reads this
    {
      forall session | session in items :: items[session].claiming == items[session].client.None?
    }

    method Begin(session: string) returns (ok: bool)
      requires Valid()
      modifies this`items
      ensures Valid() && ok == !Busy(old(items), session) && items == AfterBegin(old(items), session)
    {
      var entry := if session in items then items[session] else Entry(None, false);
      if entry.client.Some? || entry.claiming {
        return false;
      }
      items := items[session := entry.(claiming := true)];
      ok := true;
    }

    method GiveUp(session: string)
      requires Valid()
      modifies this`items
      ensures items == AfterGiveUp(old(items), session)
      ensures Valid()
    {
      if session in items {
        items := items[session := items[session].(claiming := false)];
        if items[session].client.None? {
          items := items - {session};
          assert items == old(items) - {session};
        }
      }
    }

    method Install(session: string, client: nat) returns (ok: bool)
      requires Valid()
      modifies this`items
      ensures ok == CanInstall(old(items), session) && items == AfterInstall(old(items), session, client)
      ensures Valid()
    {
      if session !in items {
        return false;
      }
      items := items[session := items[session].(claiming := false)];
      if items[session].client.Some? {
        return false;
      }
      items := items[session := items[session].(client := Some(client))];
      assert items == old(items)[session := Entry(Some(client), false)];
      ok := true;
    }

    method Drop(session: string) returns (client: Option<nat>)
      requires Valid()
      modifies this`items
      ensures items == AfterDrop(old(items), session)
      ensures client == if session in old(items) then old(items)[session].client else None
      ensures Valid()
    {
      client := None;
      if session in items {
        client := items[session].client;
        items := items[session := items[session].(client := None)];
        if !items[session].claiming {
          items := items - {session};
          assert items == old(items) - {session};
        }
      }
    }

    /** What other calls may do while this one waits for Redis: anything but touch the entry it is claiming. */
    method OthersAct(session: string, more: map<string, Entry>)
      requires Valid() && session in items && items[session] == Entry(None, true)
      modifies this`items
      ensures Valid() && session in items && items[session] == Entry(None, true)
    {
      if forall k | k in more :: more[k].claiming == more[k].client.None? {
        items := more[session := Entry(None, true)];
      }
    }

    /**
     Register: granted claims end with the client installed and everything drained returned; a
     failed one leaves no entry behind; a busy session is left alone.
     */
    method Register(session: string, client: nat, records: SessionRecords, fate: Fate, now: int, more: map<string,
        Entry>)
      returns (r: Result<seq<string>, RegisterError>)
      requires Valid()
      modifies this`items, records
      ensures Valid()
      ensures Busy(old(items), session) ==>
                && r == Err(SessionAlreadyOwned) && items == old(items)
                && records.owner == old(records.owner) && records.pending == old(records.pending)
      ensures !Busy(old(items), session) ==>
                var owned := old(records.owner).Some? && old(records.owner).value != instance;
                && r == (if !fate.Worked? then Err(RedisFailed)
                         else if owned then Err(SessionAlreadyOwned)
                         else Ok(Drained(old(records.pending))))
                && (r.Ok? ==>
                      session in items && items[session] == Entry(Some(client), false)
                      && records.owner == Some(instance))
                && (r.Err? ==> session !in items)
                && (owned || fate.Failed? ==>
                    records.owner == old(records.owner) && records.pending == old(records.pending))
                && (forall s: State, c: nat | old(records.Mirrors(s)) && c in s.calls
                    && s.calls[c].instance == instance ::
                      records.Mirrors(Claimed(s, c, fate, now)))
    {
      var began := Begin(session);
      if !began {
        return Err(SessionAlreadyOwned);
      }
      var reply := Owned(instance);
      if fate.Applied() {
        reply := records.Claim(instance, now);
      }
      OthersAct(session, more);
      if !fate.Worked? || reply.Owned? {
        GiveUp(session);
        return Err(if fate.Worked? then SessionAlreadyOwned else RedisFailed);
      }
      var ok := Install(session, client);
      if !ok {
        return Err(SessionAlreadyOwned);
      }
      r := Ok(reply.drained);
    }

    /** Unregister, when the session's route can be found; either of its two commands may fail. */
    method Unregister(session: string, records: SessionRecords, onOwner: Fate, onReady: Fate)
        returns (closed: Option<nat>)
      requires Valid()
      modifies this`items, records`owner, records`ready
      ensures Valid() && items == AfterDrop(old(items), session)
      ensures closed == if session in old(items) then old(items)[session].client else None
      ensures forall s: State, c: nat | old(records.Mirrors(s)) && c in s.calls && s.calls[c].instance == instance ::
                records.Mirrors(Released(s, c, onOwner))
      ensures records.owner != old(records.owner) ==> old(records.owner) == Some(instance)
      ensures records.ready == (old(records.ready) && !onReady.Applied())
    {
      closed := Drop(session);
      records.CompareAndDelete(instance, onOwner);
      if onReady.Applied() {
        records.ready := false;
      }
    }
  }
}

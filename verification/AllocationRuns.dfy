/**
 The allocation table of one relay as a part of the accounting system: what its methods do to
 the table is what the create, callback and reconcile steps do to the tracked slots.
 */
module AllocationRuns {
  import opened Accounting
  import AllocationIndex

  /** The allocation with this key, as the accounting sees it; user names stand for users. */
  function ReleaseOf(users: map<string, User>, a: AllocationIndex.Allocation): Release
    requires a.username in users
  {
    Release(users[a.username], a.operation)
  }

  /** The table holds what the relay tracks. */
  ghost predicate Holds(s: State, relay: nat, users: map<string, User>, active: AllocationIndex.Table) {
    forall key ::
      && (key in active <==> Slot(relay, key) in s.tracked)
      && (key in active ==>
            active[key].username in users && s.tracked[Slot(relay, key)] == ReleaseOf(users, active[key]))
  }

  /** Tracking an allocation is the create step. */
  lemma TrackIsCreate(s: State, relay: nat, users: map<string, User>, active: AllocationIndex.Table, key: string,
                      a: AllocationIndex.Allocation)
    requires Holds(s, relay, users, active) && a.username in users
    requires s.LedgerOf(users[a.username].session).tickets > 0
    ensures Holds(CreateStep(s, Slot(relay, key), users[a.username], a.operation), relay, users, active[key := a])
  {
  }

  /** Untracking is the callback step, whether or not the five-tuple is tracked, and launches what it returns. */
  lemma UntrackIsCallback(s: State, relay: nat, users: map<string, User>, active: AllocationIndex.Table, key: string,
                          task: nat)
    requires Holds(s, relay, users, active)
    ensures var s' := CallbackStep(s, Slot(relay, key), task);
            && Holds(s', relay, users, active - {key})
            && s'.launches == (if key in active then s.launches + [ReleaseOf(users, active[key])] else s.launches)
  {
  }

  /** Removing for an operation is the reconcile step of a sighting with that operation. */
  lemma RemoveIsReconcile(s: State, relay: nat, users: map<string, User>, active: AllocationIndex.Table, key: string,
                          operation: string, seen: Release, task: nat)
    requires Holds(s, relay, users, active) && seen.operation == operation
    ensures var s' := ReconcileStep(s, Sighting(Slot(relay, key), seen), task);
            var removed := key in active && active[key].operation == operation;
            && Holds(s', relay, users, if removed then active - {key} else active)
            && s'.launches == (if removed then s.launches + [ReleaseOf(users, active[key])] else s.launches)
  {
  }

  /** The steps of other relays leave this table as it is. */
  lemma OthersLeaveTable(s: State, a: Action, limit: int, relay: nat, users: map<string, User>,
                         active: AllocationIndex.Table)
    requires Enabled(s, a) && Holds(s, relay, users, active)
    requires a.Create? || a.Callback? ==> a.slot.relay != relay
    requires a.Reconcile? ==> a.sighting.slot.relay != relay
    requires a.Crash? ==> a.relay != relay
    ensures Holds(Apply(s, a, limit), relay, users, active)
  {
    SlotsOfOthers(s, a, limit, relay);
    hide Apply, Enabled;
  }

  lemma SlotsOfOthers(s: State, a: Action, limit: int, relay: nat)
    requires Enabled(s, a)
    requires a.Create? || a.Callback? ==> a.slot.relay != relay
    requires a.Reconcile? ==> a.sighting.slot.relay != relay
    requires a.Crash? ==> a.relay != relay
    ensures var s' := Apply(s, a, limit);
            forall key :: (Slot(relay, key) in s'.tracked <==> Slot(relay, key) in s.tracked)
                       && (Slot(relay, key) in s.tracked ==>
                           s'.tracked[Slot(relay, key)] == s.tracked[Slot(relay, key)])
  {
  }
}

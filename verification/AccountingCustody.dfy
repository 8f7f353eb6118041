/** Where an owed release is kept, and the only steps that can lose it. */
module AccountingCustody {
  import opened Accounting
  import opened AccountingInvariant

  // ---- what is written down stays ----

  /** Applied stays applied, and in the global hash stays there or is applied; crashes are no exception. */
  lemma StepKeepsPersisted(s: State, a: Action, limit: int, r: Release)
    requires Inv(s, limit) && Enabled(s, a)
    ensures s.Applied(r) ==> Apply(s, a, limit).Applied(r)
    ensures s.Persisted(r) ==> Apply(s, a, limit).Persisted(r)
  {
    if a.Serve? {
      ServeGrows(s, a.call, a.second, limit);
    } else {
      hide Inv, MergeStep, SendStep, AnswerStep, StoreStep, PanicStep, CallbackStep, ReconcileStep;
      BooksGrow(s, a, limit, r);
    }
  }

  lemma LedgersUntouched(s: State, a: Action, limit: int)
    requires Enabled(s, a) && !a.Serve? && !a.Reserve? && !a.Abandon? && !a.Create?
    ensures Apply(s, a, limit).ledgers == s.ledgers && Apply(s, a, limit).global == s.global
  {
    hide MergeStep, SendStep, AnswerStep, StoreStep, PanicStep, CallbackStep, ReconcileStep, CrashStep;
    match a
    case Callback(slot, task) => CallbackBooks(s, slot, task);
    case Reconcile(x, task) => ReconcileBooks(s, x, task);
    case Merge(_, _, _) => TaskBooks(s, a, limit);
    case Send(_, _) => TaskBooks(s, a, limit);
    case Answer(_, _) => TaskBooks(s, a, limit);
    case Store(_) => TaskBooks(s, a, limit);
    case Panic(_) => TaskBooks(s, a, limit);
    case Crash(relay) => CrashBooks(s, relay);
    case _ =>
  }

  lemma CallbackBooks(s: State, slot: Slot, task: nat)
    ensures CallbackStep(s, slot, task).ledgers == s.ledgers && CallbackStep(s, slot, task).global == s.global
  {
  }

  lemma ReconcileBooks(s: State, x: Sighting, task: nat)
    ensures ReconcileStep(s, x, task).ledgers == s.ledgers && ReconcileStep(s, x, task).global == s.global
  {
  }

  lemma CrashBooks(s: State, relay: nat)
    ensures CrashStep(s, relay).ledgers == s.ledgers && CrashStep(s, relay).global == s.global
  {
  }

  lemma TaskBooks(s: State, a: Action, limit: int)
    requires Enabled(s, a) && (a.Merge? || a.Send? || a.Answer? || a.Store? || a.Panic?)
    ensures Apply(s, a, limit).ledgers == s.ledgers && Apply(s, a, limit).global == s.global
  {
  }

  lemma BooksGrow(s: State, a: Action, limit: int, r: Release)
    requires Enabled(s, a) && !a.Serve?
    ensures Apply(s, a, limit).global == s.global
    ensures s.Applied(r) == Apply(s, a, limit).Applied(r)
  {
    if a.Reserve? || a.Abandon? || a.Create? {
      GrantBooks(s, a, limit, r);
    } else {
      LedgersUntouched(s, a, limit);
      hide Apply, Enabled;
    }
  }

  lemma GrantBooks(s: State, a: Action, limit: int, r: Release)
    requires Enabled(s, a) && (a.Reserve? || a.Abandon? || a.Create?)
    ensures Apply(s, a, limit).global == s.global
    ensures s.Applied(r) == Apply(s, a, limit).Applied(r)
  {
  }

  // ---- custody ----

  /** The steps that take the last copy of a release: an entry of 25 hours dropped, or a relay dead. */
  ghost predicate Loses(s: State, a: Action, r: Release) {
    && s.Kept(r) && !s.Persisted(r)
    && match a
       case AgeOut(entry) =>
         && entry.release == r && !s.HeldByGoroutine(r)
         && (forall relay | Unsaved(relay, r) in s.unsaved :: relay == entry.relay)
       case Crash(dead) =>
         && (forall relay | Unsaved(relay, r) in s.unsaved :: relay == dead)
         && (forall t | t in s.tasks && s.tasks[t].release == r && Unstored(s.tasks[t]) :: s.tasks[t].relay == dead)
       case _ => false
  }

  lemma EntryKeeps(s: State, relay: nat, r: Release)
    requires Unsaved(relay, r) in s.unsaved
    ensures s.Kept(r)
  {
    assert s.HeldLocally(r);
  }

  lemma GoroutineKeeps(s: State, t: nat)
    requires t in s.tasks && Unstored(s.tasks[t])
    ensures s.Kept(s.tasks[t].release)
  {
    assert s.HeldByGoroutine(s.tasks[t].release);
  }

  /** The steps of goroutines: each hands its release on before it lets go. */
  lemma HandedOn(s: State, a: Action, limit: int, r: Release, t: nat)
    requires Inv(s, limit) && Enabled(s, a) && !a.Crash? && !a.AgeOut?
    requires t in s.tasks && s.tasks[t].release == r && Unstored(s.tasks[t])
    ensures Apply(s, a, limit).Kept(r)
  {
    hide Apply, Inv, State.Kept;
    if (a.Store? || a.Panic?) && a.task == t {
      StoredEntry(s, a, limit, t);
      EntryKeeps(Apply(s, a, limit), s.tasks[t].relay, r);
    } else if a.Answer? && a.task == t {
      AnsweredIsKept(s, t, a.ok, limit);
    } else {
      StillUnstored(s, a, limit, t);
      GoroutineKeeps(Apply(s, a, limit), t);
    }
  }

  lemma StoredEntry(s: State, a: Action, limit: int, t: nat)
    requires Enabled(s, a) && (a.Store? || a.Panic?) && a.task == t && Unstored(s.tasks[t])
    ensures Unsaved(s.tasks[t].relay, s.tasks[t].release) in Apply(s, a, limit).unsaved
  {
  }

  lemma AnsweredIsKept(s: State, t: nat, ok: bool, limit: int)
    requires Inv(s, limit) && Enabled(s, Answer(t, ok)) && Unstored(s.tasks[t])
    ensures Apply(s, Answer(t, ok), limit).Kept(s.tasks[t].release)
  {
    var s' := AnswerStep(s, t, ok);
    assert TaskOk(s, s.tasks[t]);
    if ok { assert CallOk(s, s.calls[s.tasks[t].point.call]); }
    hide Inv, TaskOk, CallOk, AfterAnswer;
    AnsweredTaskOk(s, s', s.tasks[t], ok);
    if !s.Persisted(s.tasks[t].release) { GoroutineKeeps(s', t); }
  }

  lemma StillUnstored(s: State, a: Action, limit: int, t: nat)
    requires Enabled(s, a) && !a.Crash? && t in s.tasks && Unstored(s.tasks[t])
    requires (a.Store? || a.Panic? || a.Answer?) ==> a.task != t
    ensures var s' := Apply(s, a, limit);
            t in s'.tasks && s'.tasks[t].release == s.tasks[t].release && Unstored(s'.tasks[t])
  {
    if !((a.Merge? || a.Send?) && a.task == t) {
      BystandersStay(s, a, limit, t);
    }
  }

  /** A step other than a crash leaves the tasks of others alone. */
  lemma BystandersStay(s: State, a: Action, limit: int, t: nat)
    requires Enabled(s, a) && !a.Crash? && t in s.tasks
    requires (a.Store? || a.Panic? || a.Answer? || a.Merge? || a.Send?) ==> a.task != t
    ensures t in Apply(s, a, limit).tasks && Apply(s, a, limit).tasks[t] == s.tasks[t]
  {
  }

  /** An entry goes only when it is dropped for its age, or when its release is written down. */
  lemma EntryStays(s: State, a: Action, limit: int, r: Release, relay: nat)
    requires Inv(s, limit) && Enabled(s, a) && !a.Crash? && Unsaved(relay, r) in s.unsaved
    requires a.AgeOut? ==> a.entry != Unsaved(relay, r)
    ensures Apply(s, a, limit).Kept(r)
  {
    var s' := Apply(s, a, limit);
    StepKeepsPersisted(s, a, limit, r);
    if a.Store? && s.tasks[a.task].release == r && !s.tasks[a.task].point.SaveLocal? {
      assert TaskOk(s, s.tasks[a.task]);
      assert s.Persisted(r);
    } else {
      OtherEntriesStay(s, a, limit, Unsaved(relay, r));
      EntryKeeps(s', relay, r);
    }
  }

  lemma OtherEntriesStay(s: State, a: Action, limit: int, e: Unsaved)
    requires Enabled(s, a) && !a.Crash? && e in s.unsaved && (a.AgeOut? ==> a.entry != e)
    requires a.Store? && s.tasks[a.task].release == e.release ==> s.tasks[a.task].point.SaveLocal?
    ensures e in Apply(s, a, limit).unsaved
  {
  }

  lemma CrashLeaves(s: State, dead: nat, r: Release)
    ensures CrashStep(s, dead).Persisted(r) == s.Persisted(r)
    ensures forall relay :: Unsaved(relay, r) in CrashStep(s, dead).unsaved <==>
              Unsaved(relay, r) in s.unsaved && relay != dead
    ensures forall t :: t in CrashStep(s, dead).tasks <==> t in s.tasks && s.tasks[t].relay != dead
    ensures forall t | t in CrashStep(s, dead).tasks :: CrashStep(s, dead).tasks[t] == s.tasks[t]
  {
  }

  /** A kept release is still kept after a step exactly if the step did not take its last copy. */
  lemma KeptUnlessLost(s: State, a: Action, limit: int, r: Release)
    requires Inv(s, limit) && Enabled(s, a) && s.Kept(r)
    ensures Apply(s, a, limit).Kept(r) <==> !Loses(s, a, r)
  {
    StepKeepsPersisted(s, a, limit, r);
    if s.Persisted(r) {
    } else if a.Crash? {
      CrashKeepsTheRest(s, a.relay, r);
    } else if a.AgeOut? {
      AgeOutKeepsTheRest(s, a.entry, r);
    } else if s.HeldLocally(r) {
      var relay :| Unsaved(relay, r) in s.unsaved;
      EntryStays(s, a, limit, r, relay);
    } else {
      var t :| t in s.tasks && s.tasks[t].release == r && Unstored(s.tasks[t]);
      HandedOn(s, a, limit, r, t);
    }
  }

  lemma CrashKeepsTheRest(s: State, dead: nat, r: Release)
    requires s.Kept(r) && !s.Persisted(r)
    ensures CrashStep(s, dead).Kept(r) <==> !Loses(s, Crash(dead), r)
  {
    var s' := CrashStep(s, dead);
    CrashLeaves(s, dead, r);
    hide CrashStep, State.Persisted;
    if !Loses(s, Crash(dead), r) {
      if relay :| Unsaved(relay, r) in s.unsaved && relay != dead {
        EntryKeeps(s', relay, r);
      } else {
        var t :| t in s.tasks && s.tasks[t].release == r && Unstored(s.tasks[t]) && s.tasks[t].relay != dead;
        GoroutineKeeps(s', t);
      }
    }
  }

  lemma AgeOutKeepsTheRest(s: State, entry: Unsaved, r: Release)
    requires s.Kept(r) && !s.Persisted(r) && entry in s.unsaved
    ensures AgeOutStep(s, entry).Kept(r) <==> !Loses(s, AgeOut(entry), r)
  {
    var s' := AgeOutStep(s, entry);
    assert s'.Persisted(r) == s.Persisted(r);
    assert s'.HeldByGoroutine(r) == s.HeldByGoroutine(r);
    hide State.Persisted, State.HeldByGoroutine;
    if !Loses(s, AgeOut(entry), r) {
      if s.HeldLocally(r) && !s.HeldByGoroutine(r) {
        var relay :| Unsaved(relay, r) in s.unsaved && Unsaved(relay, r) != entry;
        EntryKeeps(s', relay, r);
      }
    }
  }
}

/** What the accounting guarantees after every run, whatever the interleaving and the faults. */
module AccountingTheorems {
  import opened AllocationCounter
  import opened Accounting
  import opened AccountingInvariant
  import opened AccountingCustody

  function TrackedIn(s: State, session: string): set<Slot> {
    set slot | slot in s.tracked && s.tracked[slot].user.session == session
  }

  function AliveIn(s: State, session: string): set<Slot> {
    set slot | slot in s.alive && s.alive[slot].user.session == session
  }

  function OperationsAt(tracked: map<Slot, Release>, slots: set<Slot>): set<Operation>
    requires slots <= tracked.Keys
  {
    set slot | slot in slots :: tracked[slot].operation
  }

  /** Different slots carry different operations. */
  lemma {:induction false} AsManyOperationsAsSlots(tracked: map<Slot, Release>, slots: set<Slot>)
    requires slots <= tracked.Keys
    requires forall a, b | a in slots && b in slots && tracked[a].operation == tracked[b].operation :: a == b
    ensures |OperationsAt(tracked, slots)| == |slots|
    decreases slots
  {
    if slots == {} {
      assert OperationsAt(tracked, slots) == {};
    } else {
      var slot :| slot in slots;
      var rest := slots - {slot};
      AsManyOperationsAsSlots(tracked, rest);
      assert OperationsAt(tracked, slots) == OperationsAt(tracked, rest) + {tracked[slot].operation};
    }
  }

  /** The operations of tracked allocations are issued and not released. */
  lemma TrackedAreOutstanding(s: State, session: string, limit: int)
    requires Inv(s, limit)
    ensures TrackedIn(s, session) <= s.tracked.Keys
    ensures |OperationsAt(s.tracked, TrackedIn(s, session))| == |TrackedIn(s, session)|
    ensures OperationsAt(s.tracked, TrackedIn(s, session)) <= IssuedIn(s.owner, session)
    ensures OperationsAt(s.tracked, TrackedIn(s, session)) !! s.LedgerOf(session).counter.released
  {
    var slots := TrackedIn(s, session);
    assert Balanced(s, session, limit) && AppliedWasLaunched(s, session);
    forall a, b | a in slots && b in slots && s.tracked[a].operation == s.tracked[b].operation
      ensures a == b
    {
      assert s.Known(s.tracked[a]) && s.Known(s.tracked[b]);
      assert s.tracked[a] == s.tracked[b];
    }
    AsManyOperationsAsSlots(s.tracked, slots);
    forall op | op in OperationsAt(s.tracked, slots)
      ensures op in IssuedIn(s.owner, session) && op !in s.LedgerOf(session).counter.released
    {
      var slot :| slot in slots && s.tracked[slot].operation == op;
      assert s.Known(s.tracked[slot]);
      assert s.tracked[slot] == Release(s.owner[op], op);
    }
  }

  /** The count is what has been issued and not released, plus grants with no allocation. */
  lemma CountIsOutstanding(s: State, session: string, limit: int)
    requires Inv(s, limit)
    ensures var l := s.LedgerOf(session);
            l.counter.count == |IssuedIn(s.owner, session) - l.counter.released| + l.tickets + l.leaked
  {
    var l := s.LedgerOf(session);
    var issued := IssuedIn(s.owner, session);
    assert Balanced(s, session, limit) && AppliedWasLaunched(s, session);
    assert l.counter.released <= issued;
    assert issued == (issued - l.counter.released) + l.counter.released;
  }

  /** What the invariant is for. */
  lemma InvariantMeansQuotaSafety(s: State, session: string, limit: int)
    requires Inv(s, limit)
    ensures var l := s.LedgerOf(session);
            && |AliveIn(s, session)| <= |TrackedIn(s, session)| <= l.counter.count <= limit
            && l.granted == l.counter.count + |l.counter.released|
  {
    var l := s.LedgerOf(session);
    assert Balanced(s, session, limit);
    assert AliveIn(s, session) <= TrackedIn(s, session);
    SubsetIsSmaller(AliveIn(s, session), TrackedIn(s, session));
    TrackedAreOutstanding(s, session, limit);
    CountIsOutstanding(s, session, limit);
    SubsetIsSmaller(OperationsAt(s.tracked, TrackedIn(s, session)),
                    IssuedIn(s.owner, session) - l.counter.released);
  }

  /**
   Quota safety over every run: for each session the allocations the servers really hold are
   at most those tracked, those at most the Redis count, and the count at most the limit;
   and the slots granted are the count plus the distinct releases applied.
   */
  lemma QuotaSafety(actions: seq<Action>, limit: int, session: string)
    requires limit >= 1 && Legal(actions, limit)
    ensures var s := Run(actions, limit);
            var l := s.LedgerOf(session);
            && |AliveIn(s, session)| <= |TrackedIn(s, session)| <= l.counter.count <= limit
            && l.granted == l.counter.count + |l.counter.released|
  {
    RunKeeps(actions, limit);
    InvariantMeansQuotaSafety(Run(actions, limit), session, limit);
  }

  // ---- runs that go on ----

  /** The last step of a run that goes on. */
  lemma LastStep(actions: seq<Action>, more: seq<Action>, limit: int)
    requires more != [] && Legal(actions + more, limit)
    ensures var n := |more| - 1;
            && Legal(actions + more[..n], limit) && Enabled(Run(actions + more[..n], limit), more[n])
            && Run(actions + more, limit) == Apply(Run(actions + more[..n], limit), more[n], limit)
  {
    hide Apply, Enabled;
    assert (actions + more)[..|actions + more| - 1] == actions + more[..|more| - 1];
  }

  /**
   What is written down survives everything: a release that is applied or in the global hash
   is so after every continuation, whatever crashes, panics or ages out.
   */
  lemma {:induction false} WrittenDownStays(actions: seq<Action>, more: seq<Action>, limit: int, r: Release)
    requires limit >= 1 && Legal(actions + more, limit) && Legal(actions, limit)
    requires Run(actions, limit).Persisted(r)
    ensures Run(actions + more, limit).Persisted(r)
    decreases |more|
  {
    hide Apply, Enabled;
    if more == [] {
      assert actions + more == actions;
    } else {
      var n := |more| - 1;
      LastStep(actions, more, limit);
      WrittenDownStays(actions, more[..n], limit, r);
      RunKeeps(actions + more[..n], limit);
      StepKeepsPersisted(Run(actions + more[..n], limit), more[n], limit, r);
    }
  }

  /** A step of the run took the last copy, and none has turned up since. */
  ghost predicate WasLost(actions: seq<Action>, limit: int, r: Release)
    requires Legal(actions, limit)
    decreases |actions|
  {
    actions != [] &&
    var before := actions[..|actions| - 1];
    || Loses(Run(before, limit), actions[|actions| - 1], r)
    || (WasLost(before, limit, r) && !Run(actions, limit).Kept(r))
  }

  /**
   No owed release is lost but by the loss of its last copy: a launched release is applied, in
   the global hash, in some relay's map or with its goroutine, exactly unless an age-out or a
   crash took the last of these. One that is only in a per-user hash has been applied.
   */
  lemma {:induction false} NoReleaseIsLost(actions: seq<Action>, limit: int, r: Release)
    requires limit >= 1 && Legal(actions, limit)
    ensures r in Run(actions, limit).launches ==> (Run(actions, limit).Kept(r) <==> !WasLost(actions, limit, r))
    ensures var s := Run(actions, limit); r in s.perUser && r !in s.global ==> s.Applied(r)
    decreases |actions|
  {
    RunKeeps(actions, limit);
    if actions != [] {
      var before, a := actions[..|actions| - 1], actions[|actions| - 1];
      var s := Run(before, limit);
      NoReleaseIsLost(before, limit, r);
      RunKeeps(before, limit);
      hide Inv, Apply, Enabled, Loses, State.Kept;
      if s.Kept(r) {
        KeptUnlessLost(s, a, limit, r);
      } else {
        NothingToLose(s, a, r);
        if r !in s.launches && r in Run(actions, limit).launches {
          NewlyLaunchedIsKept(s, a, limit, r);
        }
      }
    }
  }

  lemma NothingToLose(s: State, a: Action, r: Release)
    ensures Loses(s, a, r) ==> s.Kept(r)
  {
  }

  /** A release that this step launches is with its goroutine. */
  lemma NewlyLaunchedIsKept(s: State, a: Action, limit: int, r: Release)
    requires Enabled(s, a) && r !in s.launches && r in Apply(s, a, limit).launches
    ensures Apply(s, a, limit).Kept(r)
  {
    assert a.Callback? || a.Reconcile?;
    GoroutineKeeps(Apply(s, a, limit), a.task);
  }

  /** Delete callback or reconciler, whichever wins: one goroutine for each operation. */
  lemma LaunchedAtMostOnce(actions: seq<Action>, limit: int)
    requires limit >= 1 && Legal(actions, limit)
    ensures var s := Run(actions, limit);
            forall i, j | 0 <= i < |s.launches| && 0 <= j < |s.launches|
                       && s.launches[i].operation == s.launches[j].operation :: i == j
  {
    var s := Run(actions, limit);
    RunKeeps(actions, limit);
    forall i, j | 0 <= i < |s.launches| && 0 <= j < |s.launches|
               && s.launches[i].operation == s.launches[j].operation
      ensures i == j
    {
      assert s.Known(s.launches[i]) && s.Known(s.launches[j]);
      assert s.launches[i] == s.launches[j];
    }
  }

  /** A reconciler with an old snapshot never removes an allocation the server still has. */
  lemma StaleSnapshotSparesTheLiving(actions: seq<Action>, limit: int, x: Sighting, task: nat, slot: Slot)
    requires limit >= 1 && Legal(actions, limit) && Enabled(Run(actions, limit), Reconcile(x, task))
    ensures var before := Run(actions, limit);
            var after := Apply(before, Reconcile(x, task), limit);
            slot in before.alive ==>
              slot in after.tracked && after.tracked[slot] == before.tracked[slot] == before.alive[slot]
  {
    var before := Run(actions, limit);
    RunKeeps(actions, limit);
    if x.slot in before.tracked && before.tracked[x.slot].operation == x.release.operation {
      ReconcileTakesOnlyTheDead(before, x);
    }
  }

  // ---- conservation ----

  /** Launched and not applied: the slots that are owed. */
  function OwedIn(s: State, session: string): set<Release> {
    set r | r in s.launches && r.user.session == session && !s.Applied(r)
  }

  function ForgottenIn(s: State, session: string): set<Release> {
    set r | r in s.forgotten && r.user.session == session
  }

  function OperationsOf(rs: set<Release>): set<Operation> {
    set r | r in rs :: r.operation
  }

  /** Different known releases have different operations. */
  lemma {:induction false} AsManyOperationsAsReleases(s: State, rs: set<Release>)
    requires forall r | r in rs :: s.Known(r)
    ensures |OperationsOf(rs)| == |rs|
    decreases rs
  {
    if rs == {} {
      assert OperationsOf(rs) == {};
    } else {
      var r :| r in rs;
      var rest := rs - {r};
      AsManyOperationsAsReleases(s, rest);
      assert OperationsOf(rs) == OperationsOf(rest) + {r.operation};
      assert r.operation !in OperationsOf(rest) by {
        forall x | x in rest ensures x.operation != r.operation {
          assert s.Known(x) && s.Known(r);
        }
      }
    }
  }

  /** Every issued operation is released, tracked, owed or forgotten, and only one of these. */
  lemma OutstandingIsSomewhere(s: State, session: string, limit: int)
    requires Inv(s, limit)
    ensures TrackedIn(s, session) <= s.tracked.Keys
    ensures IssuedIn(s.owner, session) - s.LedgerOf(session).counter.released
         == OperationsAt(s.tracked, TrackedIn(s, session)) + OperationsOf(OwedIn(s, session) + ForgottenIn(s, session))
    ensures OperationsAt(s.tracked, TrackedIn(s, session)) !! OperationsOf(OwedIn(s, session) + ForgottenIn(s, session))
  {
    var others := OwedIn(s, session) + ForgottenIn(s, session);
    var tracked := OperationsAt(s.tracked, TrackedIn(s, session));
    var outstanding := IssuedIn(s.owner, session) - s.LedgerOf(session).counter.released;
    TrackedAreOutstanding(s, session, limit);
    forall op | op in outstanding ensures op in tracked + OperationsOf(others) {
      OutstandingIsAccounted(s, session, op, limit);
    }
    forall r | r in others ensures r.operation in outstanding && r.operation !in tracked {
      OtherIsOutstanding(s, session, r, limit);
    }
  }

  lemma OutstandingIsAccounted(s: State, session: string, op: Operation, limit: int)
    requires Inv(s, limit)
    requires op in IssuedIn(s.owner, session) && op !in s.LedgerOf(session).counter.released
    ensures op in OperationsAt(s.tracked, TrackedIn(s, session))
         || op in OperationsOf(OwedIn(s, session) + ForgottenIn(s, session))
  {
    var r := Release(s.owner[op], op);
    assert Accounted(s, r);
    if r in s.launches || r in s.forgotten {
      assert r in OwedIn(s, session) + ForgottenIn(s, session);
    } else {
      var slot :| slot in s.tracked && s.tracked[slot] == r;
      assert slot in TrackedIn(s, session);
    }
  }

  lemma OtherIsOutstanding(s: State, session: string, r: Release, limit: int)
    requires Inv(s, limit) && r in OwedIn(s, session) + ForgottenIn(s, session)
    ensures r.operation in IssuedIn(s.owner, session) && r.operation !in s.LedgerOf(session).counter.released
    ensures r.operation !in OperationsAt(s.tracked, TrackedIn(s, session))
  {
    assert s.Known(r) && !s.Applied(r) by {
      ForgottenIsNotApplied(s, r, limit);
    }
    forall slot | slot in TrackedIn(s, session) ensures s.tracked[slot].operation != r.operation {
      assert s.Known(s.tracked[slot]);
    }
  }

  lemma ForgottenIsNotApplied(s: State, r: Release, limit: int)
    requires Inv(s, limit)
    ensures r in s.forgotten ==> !s.Applied(r)
  {
    assert AppliedWasLaunched(s, r.user.session);
    if r in s.forgotten {
      assert s.Known(r) && r !in s.launches;
    }
  }

  /**
   Conservation, after every run and for each session: the count is the tracked allocations,
   the releases owed, the allocations forgotten, and the grants without an allocation.
   */
  lemma CountIsConserved(actions: seq<Action>, limit: int, session: string)
    requires limit >= 1 && Legal(actions, limit)
    ensures var s := Run(actions, limit);
            var l := s.LedgerOf(session);
            l.counter.count ==
                |TrackedIn(s, session)| + |OwedIn(s, session)| + |ForgottenIn(s, session)| + l.tickets + l.leaked
  {
    RunKeeps(actions, limit);
    InvariantMeansConservation(Run(actions, limit), session, limit);
  }

  lemma InvariantMeansConservation(s: State, session: string, limit: int)
    requires Inv(s, limit)
    ensures var l := s.LedgerOf(session);
            l.counter.count ==
                |TrackedIn(s, session)| + |OwedIn(s, session)| + |ForgottenIn(s, session)| + l.tickets + l.leaked
  {
    var owed, forgotten := OwedIn(s, session), ForgottenIn(s, session);
    CountIsOutstanding(s, session, limit);
    OutstandingIsSomewhere(s, session, limit);
    TrackedAreOutstanding(s, session, limit);
    assert forall r | r in owed + forgotten :: s.Known(r);
    assert owed !! forgotten;
    AsManyOperationsAsReleases(s, owed + forgotten);
    hide OperationsAt, OperationsOf, OwedIn, ForgottenIn, TrackedIn, IssuedIn;
  }

  /** The count is exact exactly when nothing is owed and nothing of the session was forgotten. */
  lemma CountIsExactUnlessOwed(actions: seq<Action>, limit: int, session: string)
    requires limit >= 1 && Legal(actions, limit)
    ensures var s := Run(actions, limit);
            var l := s.LedgerOf(session);
            l.counter.count == |TrackedIn(s, session)| + l.tickets + l.leaked
            <==> OwedIn(s, session) == {} && ForgottenIn(s, session) == {}
  {
    CountIsConserved(actions, limit, session);
  }

  lemma StepKeepsForgotten(s: State, a: Action, limit: int, r: Release)
    requires Enabled(s, a) && r in s.forgotten
    ensures r in Apply(s, a, limit).forgotten
  {
    match a
    case Create(_, _, _) =>
    case Crash(_) =>
    case Callback(_, _) =>
    case Reconcile(_, _) =>
    case Serve(_, _) =>
    case _ =>
  }

  /**
   The slot of an allocation that was overwritten, or tracked by a relay that crashed, is never
   given back: its operation is not applied after any continuation.
   */
  lemma {:induction false} ForgottenStaysTaken(actions: seq<Action>, more: seq<Action>, limit: int, r: Release)
    requires limit >= 1 && Legal(actions + more, limit) && Legal(actions, limit)
    requires r in Run(actions, limit).forgotten
    ensures r in Run(actions + more, limit).forgotten && !Run(actions + more, limit).Applied(r)
    decreases |more|
  {
    hide Apply, Enabled, Inv;
    RunKeeps(actions + more, limit);
    if more == [] {
      assert actions + more == actions;
    } else {
      var n := |more| - 1;
      LastStep(actions, more, limit);
      ForgottenStaysTaken(actions, more[..n], limit, r);
      StepKeepsForgotten(Run(actions + more[..n], limit), more[n], limit, r);
    }
    ForgottenIsNotApplied(Run(actions + more, limit), r, limit);
  }

  lemma RunGoesOn(actions: seq<Action>, a: Action, limit: int)
    requires Legal(actions, limit) && Enabled(Run(actions, limit), a)
    ensures Legal(actions + [a], limit)
    ensures Run(actions + [a], limit) == Apply(Run(actions, limit), a, limit)
  {
    var longer := actions + [a];
    assert longer[..|longer| - 1] == actions && longer[|longer| - 1] == a;
  }

  const TUPLE := Slot(0, "t")
  const USER := User("s", "d")

  /** A first allocation that dies unheard of, and a second one on the same five-tuple. */
  const FIRST_LIFE := [Reserve("s", true), Create(TUPLE, USER, "o1"), Die(TUPLE)]
  const SECOND_LIFE := [Reserve("s", true), Create(TUPLE, USER, "o2")]

  lemma FirstLife()
    ensures Legal(FIRST_LIFE, 2)
    ensures Run(FIRST_LIFE, 2) == Initial.(
              ledgers := map["s" := Ledger(Counter(1, {}), 1, 0, 0)],
              tracked := map[TUPLE := Release(USER, "o1")],
              undelivered := {TUPLE},
              owner := map["o1" := USER])
  {
    RunGoesOn([], FIRST_LIFE[0], 2);
    RunGoesOn([FIRST_LIFE[0]], FIRST_LIFE[1], 2);
    RunGoesOn([FIRST_LIFE[0], FIRST_LIFE[1]], FIRST_LIFE[2], 2);
    assert [] + [FIRST_LIFE[0]] == [FIRST_LIFE[0]];
    assert [FIRST_LIFE[0]] + [FIRST_LIFE[1]] == [FIRST_LIFE[0], FIRST_LIFE[1]];
    assert [FIRST_LIFE[0], FIRST_LIFE[1]] + [FIRST_LIFE[2]] == FIRST_LIFE;
  }

  /**
   A slot does get forgotten: here a five-tuple is tracked again without its delete callback,
   and with nothing owed the count is one more than the allocations tracked.
   */
  lemma OverwrittenSlotIsForgotten()
    ensures Legal(FIRST_LIFE + SECOND_LIFE, 2)
    ensures var s := Run(FIRST_LIFE + SECOND_LIFE, 2);
            && s.tasks == map[] && s.unsaved == {} && s.global == {} && s.forgotten == {Release(USER, "o1")}
            && s.LedgerOf("s") == Ledger(Counter(2, {}), 2, 0, 0)
            && |TrackedIn(s, "s")| == 1
  {
    FirstLife();
    var s := Run(FIRST_LIFE, 2);
    RunGoesOn(FIRST_LIFE, SECOND_LIFE[0], 2);
    assert "o1" != "o2";
    RunGoesOn(FIRST_LIFE + [SECOND_LIFE[0]], SECOND_LIFE[1], 2);
    assert FIRST_LIFE + [SECOND_LIFE[0]] + [SECOND_LIFE[1]] == FIRST_LIFE + SECOND_LIFE;
    assert TrackedIn(Run(FIRST_LIFE + SECOND_LIFE, 2), "s") == {TUPLE};
  }
}

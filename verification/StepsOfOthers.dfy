/** What arbitrary legal steps of everybody else leave to a relay that is in the middle of its releases. */
module StepsOfOthers {
  import opened Options
  import opened Accounting
  import opened AccountingInvariant
  import opened AccountingCustody
  import opened AccountingTheorems
  import opened ReleaseRuns

  /** No step of these tasks, and not the crash of this relay. */
  predicate Leaves(a: Action, mine: set<nat>, id: nat) {
    match a
    case Merge(t, _, _) => t !in mine
    case Send(t, _) => t !in mine
    case Answer(t, _) => t !in mine
    case Store(t) => t !in mine
    case Panic(t) => t !in mine
    case Crash(relay) => relay != id
    case _ => true
  }

  predicate ByOthers(more: seq<Action>, mine: set<nat>, id: nat) {
    forall a | a in more :: Leaves(a, mine, id)
  }

  predicate Mine(s: State, mine: set<nat>, id: nat) {
    forall t | t in mine :: t in s.tasks && s.tasks[t].relay == id
  }

  // ---- what the steps of others leave ----

  predicate SameTasks(s: State, s': State, mine: set<nat>) {
    forall t | t in mine :: t in s.tasks && t in s'.tasks && s'.tasks[t] == s.tasks[t]
  }

  /** Calls stay, and what Redis has carried out of them stays carried out. */
  predicate CallsGrow(s: State, s': State) {
    forall c | c in s.calls ::
      && c in s'.calls && s'.calls[c].request == s.calls[c].request && s'.calls[c].release == s.calls[c].release
      && (s.calls[c].stage != Sent ==> s'.calls[c].stage != Sent)
      && (s.calls[c].stage == Done ==> s'.calls[c].stage == Done)
  }

  ghost predicate Recorded(s: State, s': State) {
    forall r: Release ::
      && (s.Applied(r) ==> s'.Applied(r))
      && (s.Persisted(r) ==> s'.Persisted(r))
      && (r in s.perUser ==> r in s'.perUser || s'.Applied(r))
  }

  /** Applied, in the global hash, or in the map of this relay. */
  predicate Safe(s: State, id: nat, r: Release) {
    s.Persisted(r) || Unsaved(id, r) in s.unsaved
  }

  /** Only its age takes a release out of a map before it is written down. */
  ghost predicate StaySafe(s: State, s': State, id: nat, more: seq<Action>) {
    forall r: Release | Safe(s, id, r) && AgeOut(Unsaved(id, r)) !in more :: Safe(s', id, r)
  }

  ghost predicate Goes(s: State, s': State, mine: set<nat>, id: nat, more: seq<Action>) {
    SameTasks(s, s', mine) && CallsGrow(s, s') && Recorded(s, s') && StaySafe(s, s', id, more)
  }

  lemma GoesNowhere(s: State, mine: set<nat>, id: nat)
    requires Mine(s, mine, id)
    ensures Goes(s, s, mine, id, [])
  {
  }

  lemma GoesOn(s: State, s1: State, s2: State, mine: set<nat>, id: nat, more: seq<Action>, rest: seq<Action>)
    requires Goes(s, s1, mine, id, more) && Goes(s1, s2, mine, id, rest)
    ensures Goes(s, s2, mine, id, more + rest)
  {
    assert StaySafe(s, s2, id, more + rest) by {
      hide Safe, SameTasks, CallsGrow, Recorded;
    }
    hide Safe, StaySafe, State.Applied, State.Persisted;
  }

  lemma StepSameTasks(s: State, a: Action, limit: int, mine: set<nat>, id: nat)
    requires Enabled(s, a) && Leaves(a, mine, id) && Mine(s, mine, id)
    ensures SameTasks(s, Apply(s, a, limit), mine)
  {
    hide Apply, Enabled;
    forall t | t in mine ensures t in Apply(s, a, limit).tasks && Apply(s, a, limit).tasks[t] == s.tasks[t] {
      if a.Crash? {
        assert Apply(s, a, limit) == CrashStep(s, a.relay) by { CrashIsCrash(s, a.relay, limit); }
        CrashLeaves(s, a.relay, s.tasks[t].release);
      } else {
        BystandersStay(s, a, limit, t);
      }
    }
  }

  lemma CrashIsCrash(s: State, relay: nat, limit: int)
    ensures Enabled(s, Crash(relay)) && Apply(s, Crash(relay), limit) == CrashStep(s, relay)
  {
  }

  lemma StepCallsGrow(s: State, a: Action, limit: int)
    requires Enabled(s, a)
    ensures CallsGrow(s, Apply(s, a, limit))
  {
    hide ReserveStep, AbandonStep, CreateStep, CallbackStep, ReconcileStep, MergeStep, AnswerStep, StoreStep, PanicStep,
         AgeOutStep, CrashStep;
    if !a.Send? && !a.Serve? {
      SameCalls(s, a, limit);
    }
  }

  lemma SameCalls(s: State, a: Action, limit: int)
    requires Enabled(s, a) && !a.Send? && !a.Serve?
    ensures Apply(s, a, limit).calls == s.calls
  {
    match a
    case Callback(_, _) =>
    case Reconcile(_, _) =>
    case Crash(_) =>
    case _ =>
  }

  lemma StepRecorded(s: State, a: Action, limit: int)
    requires Inv(s, limit) && Enabled(s, a)
    ensures Recorded(s, Apply(s, a, limit))
  {
    hide Apply, Enabled, Inv, State.Applied, State.Persisted;
    forall r: Release
      ensures s.Applied(r) ==> Apply(s, a, limit).Applied(r)
      ensures s.Persisted(r) ==> Apply(s, a, limit).Persisted(r)
      ensures r in s.perUser ==> r in Apply(s, a, limit).perUser || Apply(s, a, limit).Applied(r)
    {
      StepKeepsPersisted(s, a, limit, r);
      if r in s.perUser {
        StepKeepsListed(s, a, limit, r);
      }
    }
  }

  lemma StepKeepsListed(s: State, a: Action, limit: int, r: Release)
    requires Inv(s, limit) && Enabled(s, a) && r in s.perUser
    ensures r in Apply(s, a, limit).perUser || s.Applied(r)
  {
    if a.Serve? {
      assert CallOk(s, s.calls[a.call]);
    } else {
      hide Inv;
      SamePerUser(s, a, limit);
    }
  }

  lemma SamePerUser(s: State, a: Action, limit: int)
    requires Enabled(s, a) && !a.Serve?
    ensures Apply(s, a, limit).perUser == s.perUser
  {
  }

  lemma StepStaysSafe(s: State, a: Action, limit: int, mine: set<nat>, id: nat)
    requires Inv(s, limit) && Enabled(s, a) && Leaves(a, mine, id)
    ensures StaySafe(s, Apply(s, a, limit), id, [a])
  {
    hide Apply, Enabled, Inv, State.Persisted;
    forall r: Release | Safe(s, id, r) && AgeOut(Unsaved(id, r)) !in [a] ensures Safe(Apply(s, a, limit), id, r) {
      StepKeepsPersisted(s, a, limit, r);
      if !s.Persisted(r) {
        EntryStaysSafe(s, a, limit, id, r);
      }
    }
  }

  lemma EntryStaysSafe(s: State, a: Action, limit: int, id: nat, r: Release)
    requires Inv(s, limit) && Enabled(s, a) && Unsaved(id, r) in s.unsaved && !s.Persisted(r)
    requires a != AgeOut(Unsaved(id, r)) && a != Crash(id)
    ensures Unsaved(id, r) in Apply(s, a, limit).unsaved
  {
    if a.Crash? {
      CrashLeaves(s, a.relay, r);
    } else {
      if a.Store? && s.tasks[a.task].release == r {
        assert TaskOk(s, s.tasks[a.task]);
      }
      hide Inv;
      OtherEntriesStay(s, a, limit, Unsaved(id, r));
    }
  }

  lemma StepGoes(s: State, a: Action, limit: int, mine: set<nat>, id: nat)
    requires Inv(s, limit) && Enabled(s, a) && Leaves(a, mine, id) && Mine(s, mine, id)
    ensures Goes(s, Apply(s, a, limit), mine, id, [a])
  {
    hide Inv, Enabled, Apply, Leaves, Mine, SameTasks, CallsGrow, Recorded, StaySafe;
    StepSameTasks(s, a, limit, mine, id);
    StepCallsGrow(s, a, limit);
    StepRecorded(s, a, limit);
    StepStaysSafe(s, a, limit, mine, id);
  }

  lemma StillMine(s: State, s': State, mine: set<nat>, id: nat)
    requires Mine(s, mine, id) && SameTasks(s, s', mine)
    ensures Mine(s', mine, id)
  {
  }

  lemma {:induction false} RunGoes(h: History, more: History, limit: int, mine: set<nat>, id: nat)
    requires limit >= 1 && Legal(h, limit) && Legal(h + more, limit) && ByOthers(more, mine, id)
    requires Mine(Run(h, limit), mine, id)
    ensures Goes(Run(h, limit), Run(h + more, limit), mine, id, more)
    decreases |more|
  {
    hide Apply, Enabled, Goes, Leaves, Mine, Inv;
    if more == [] {
      assert h + more == h;
      GoesNowhere(Run(h, limit), mine, id);
    } else {
      var n := |more| - 1;
      LastStep(h, more, limit);
      RunGoes(h, more[..n], limit, mine, id);
      var before := Run(h + more[..n], limit);
      RunKeeps(h + more[..n], limit);
      assert Mine(before, mine, id) by {
        assert SameTasks(Run(h, limit), before, mine) by { GoesSame(Run(h, limit), before, mine, id, more[..n]); }
        StillMine(Run(h, limit), before, mine, id);
      }
      StepGoes(before, more[n], limit, mine, id);
      GoesOn(Run(h, limit), before, Run(h + more, limit), mine, id, more[..n], [more[n]]);
      assert more[..n] + [more[n]] == more;
    }
  }

  lemma GoesSame(s: State, s': State, mine: set<nat>, id: nat, more: seq<Action>)
    requires Goes(s, s', mine, id, more)
    ensures SameTasks(s, s', mine) && CallsGrow(s, s') && Recorded(s, s')
  {
  }

  // ---- stretches of a history ----

  ghost predicate Between(h: History, s: State, h': History, s': State, mine: set<nat>, id: nat) {
    |h| <= |h'| && h'[..|h|] == h && Goes(s, s', mine, id, h'[|h|..])
  }

  lemma BetweenTwice(h: History, s: State, h1: History, s1: State, h2: History, s2: State, mine: set<nat>,
      more: set<nat>,
                     id: nat)
    requires Between(h, s, h1, s1, mine, id) && Between(h1, s1, h2, s2, more, id) && mine <= more
    ensures Between(h, s, h2, s2, mine, id)
  {
    hide Goes;
    assert h2[..|h|] == h2[..|h1|][..|h|];
    assert h2[|h|..] == h1[|h|..] + h2[|h1|..];
    GoesForFewer(s1, s2, mine, more, id, h2[|h1|..]);
    GoesOn(s, s1, s2, mine, id, h1[|h|..], h2[|h1|..]);
  }

  lemma BetweenSame(h: History, s: State, h': History, s': State, mine: set<nat>, id: nat)
    requires Between(h, s, h', s', mine, id)
    ensures SameTasks(s, s', mine) && CallsGrow(s, s') && Recorded(s, s') && |h| <= |h'|
  {
  }

  lemma BetweenItself(h: History, s: State, mine: set<nat>, id: nat)
    requires Mine(s, mine, id)
    ensures Between(h, s, h, s, mine, id)
  {
  }

  lemma BetweenForFewer(h: History, s: State, h': History, s': State, mine: set<nat>, more: set<nat>, id: nat)
    requires Between(h, s, h', s', more, id) && mine <= more
    ensures Between(h, s, h', s', mine, id)
  {
    GoesForFewer(s, s', mine, more, id, h'[|h|..]);
  }

  lemma GoesForFewer(s: State, s': State, mine: set<nat>, more: set<nat>, id: nat, steps: seq<Action>)
    requires Goes(s, s', more, id, steps) && mine <= more
    ensures Goes(s, s', mine, id, steps)
  {
  }

  /** What was safe is, or its entry was dropped for its age in between. */
  ghost predicate SafeOrAged(h: History, h': History, s': State, id: nat, r: Release) {
    |h| <= |h'| && (Safe(s', id, r) || AgeOut(Unsaved(id, r)) in h'[|h|..])
  }

  lemma SafeLater(h: History, s: State, h1: History, s1: State, h2: History, s2: State, mine: set<nat>, more: set<nat>,
                  id: nat, r: Release)
    requires Between(h, s, h1, s1, mine, id) && Between(h1, s1, h2, s2, more, id) && Safe(s1, id, r)
    ensures SafeOrAged(h, h2, s2, id, r)
  {
    hide Safe, SameTasks, CallsGrow, Recorded;
    assert h2[|h|..] == h1[|h|..] + h2[|h1|..];
  }

  lemma PersistedIsSafe(s: State, id: nat, r: Release)
    ensures s.Persisted(r) ==> Safe(s, id, r)
    ensures s.Applied(r) ==> s.Persisted(r)
  {
  }

  predicate TaskIs(s: State, t: nat, next: Option<Task>) {
    if next.Some? then t in s.tasks && s.tasks[t] == next.value else t !in s.tasks
  }

  lemma SentCall(s: State, t: nat, c: nat, limit: int)
    requires Enabled(s, Send(t, c))
    ensures var s' := Apply(s, Send(t, c), limit);
            && TaskIs(s', t, Some(s.tasks[t].(point := AwaitAnswer(s.tasks[t].point, c))))
            && c in s'.calls && s'.calls[c] == Call(RequestAt(s.tasks[t].point), s.tasks[t].release, Sent)
  {
  }

  lemma ServedCall(s: State, c: nat, second: bool, limit: int)
    requires Enabled(s, Serve(c, second))
    ensures var s' := Apply(s, Serve(c, second), limit);
            && c in s'.calls && s'.calls[c].stage != Sent
            && (second || s.calls[c].request.ReleaseRequest? ==> s'.calls[c].stage == Done)
  {
  }

  /** A task that hears of success goes on with what its call was for. */
  lemma AnsweredCall(s: State, t: nat, task: Task, c: nat, ok: bool, limit: int)
    requires Inv(s, limit) && CanSend(task) && TaskIs(s, t, Some(task.(point := AwaitAnswer(task.point, c))))
    requires ok ==> c in s.calls && s.calls[c].stage == Done
    ensures Enabled(s, Answer(t, ok)) && TaskIs(Apply(s, Answer(t, ok), limit), t, Told(task, ok))
    ensures ok && task.point.SendQueue? ==> s.Persisted(task.release)
    ensures ok && task.point.SendRelease? ==> s.Applied(task.release)
  {
    ToldIsAfterAnswer(task, c, ok);
    assert TaskOk(s, s.tasks[t]);
    if ok { assert CallOk(s, s.calls[c]); }
  }

  lemma StoredTask(s: State, t: nat, limit: int)
    requires Enabled(s, Store(t))
    ensures TaskIs(Apply(s, Store(t), limit), t, AfterStore(s.tasks[t]))
    ensures s.tasks[t].point.SaveLocal? ==> Safe(Apply(s, Store(t), limit), s.tasks[t].relay, s.tasks[t].release)
  {
  }

  // ---- the tasks of a pass ----

  /** A release found in the relay's map, before the durable listing is read. */
  function LocalTask(id: nat, r: Release): Task {
    Task(Repair, id, r, true, false, ReadDurable)
  }

  /** Each release that a pass has found has its task: some wait for the listing, the others are to be repaired. */
  ghost predicate Open(s: State, id: nat, tasks: map<Release, nat>, waiting: set<Release>, work: map<Release, Work>,
                       mine: set<nat>)
  {
    && tasks.Keys == waiting + work.Keys && waiting !! work.Keys
    && forall r | r in tasks ::
         && tasks[r] in s.tasks && tasks[r] !in mine
         && s.tasks[tasks[r]] == if r in waiting then LocalTask(id, r) else RepairTask(id, r, work[r])
  }

  lemma OpenStays(s: State, s': State, id: nat, tasks: map<Release, nat>, waiting: set<Release>,
                  work: map<Release, Work>, mine: set<nat>, kept: set<nat>)
    requires Open(s, id, tasks, waiting, work, mine) && SameTasks(s, s', kept) && tasks.Values <= kept
    ensures Open(s', id, tasks, waiting, work, mine)
  {
    hide RepairTask;
    forall r | r in tasks ensures tasks[r] in s'.tasks && s'.tasks[tasks[r]] == s.tasks[tasks[r]] {
      assert tasks[r] in tasks.Values;
    }
  }

  lemma OpenAreMine(s: State, id: nat, tasks: map<Release, nat>, waiting: set<Release>, work: map<Release, Work>,
                    mine: set<nat>)
    requires Open(s, id, tasks, waiting, work, mine) && Mine(s, mine, id)
    ensures Mine(s, mine + tasks.Values, id)
    ensures forall q, r | q in tasks && r in tasks && tasks[q] == tasks[r] :: q == r
  {
    forall r | r in tasks ensures s.tasks[tasks[r]].release == r && s.tasks[tasks[r]].relay == id {
    }
  }

  lemma WithoutOne(s: State, id: nat, tasks: map<Release, nat>, waiting: set<Release>, work: map<Release, Work>,
                   mine: set<nat>, r: Release)
    requires Open(s, id, tasks, waiting, work, mine) && Mine(s, mine, id) && r in tasks
    ensures Open(s, id, tasks - {r}, waiting - {r}, work - {r}, mine)
    ensures mine + tasks.Values - {tasks[r]} == mine + (tasks - {r}).Values
    ensures tasks[r] in mine + tasks.Values && tasks[r] !in mine + (tasks - {r}).Values
  {
    OpenAreMine(s, id, tasks, waiting, work, mine);
    hide RepairTask;
    forall t | t in tasks.Values && t != tasks[r] ensures t in (tasks - {r}).Values {
      var q :| q in tasks && tasks[q] == t;
      assert q in tasks - {r} && (tasks - {r})[q] == t;
    }
  }

  lemma WithOne(s: State, id: nat, tasks: map<Release, nat>, waiting: set<Release>, work: map<Release, Work>,
                mine: set<nat>, r: Release, t: nat, w: Work)
    requires Open(s, id, tasks, waiting, work, mine) && r !in tasks && t in s.tasks && t !in mine
    ensures s.tasks[t] == LocalTask(id, r) ==> Open(s, id, tasks[r := t], waiting + {r}, work, mine)
    ensures s.tasks[t] == RepairTask(id, r, w) ==> Open(s, id, tasks[r := t], waiting, work[r := w], mine)
  {
    hide RepairTask;
  }

  lemma NothingOpen(s: State, id: nat, mine: set<nat>)
    ensures Open(s, id, map[], {}, map[], mine)
  {
  }

  lemma OpenTask(s: State, id: nat, tasks: map<Release, nat>, waiting: set<Release>, work: map<Release, Work>,
                 mine: set<nat>, r: Release)
    requires Open(s, id, tasks, waiting, work, mine) && (r in waiting || r in work)
    ensures r in tasks && tasks[r] in s.tasks && r !in (if r in waiting then work.Keys else waiting)
    ensures s.tasks[tasks[r]] == if r in waiting then LocalTask(id, r) else RepairTask(id, r, work[r])
  {
  }

  lemma OpenKeys(s: State, id: nat, tasks: map<Release, nat>, waiting: set<Release>, work: map<Release, Work>,
                 mine: set<nat>)
    requires Open(s, id, tasks, waiting, work, mine)
    ensures tasks.Keys == waiting + work.Keys
  {
  }

  lemma NotMine(s: State, mine: set<nat>, id: nat, t: nat)
    requires Mine(s, mine, id) && t !in s.tasks
    ensures t !in mine
  {
  }

  lemma MineForFewer(s: State, mine: set<nat>, more: set<nat>, id: nat)
    requires Mine(s, more, id) && mine <= more
    ensures Mine(s, mine, id)
  {
  }

  /** What a listing for one user, or for all, holds. */
  function Listing(s: State, user: Option<User>): set<Release> {
    match user
    case Some(u) => set r | r in s.perUser && r.user == u
    case None => s.global
  }

  /** What a listing had is still listed, or it has been applied. */
  lemma ListedLater(s: State, s': State, user: Option<User>, r: Release)
    requires Recorded(s, s') && r in Listing(s, user)
    ensures r in Listing(s', user) || s'.Applied(r)
  {
    assert user.None? ==> s.Persisted(r);
  }

  lemma AppliedLater(s: State, s': State, r: Release)
    requires Recorded(s, s')
    ensures s.Applied(r) ==> s'.Applied(r)
  {
  }

  lemma ListedSomewhere(s: State, user: Option<User>)
    ensures forall r | r in Listing(s, user) :: r in s.global || r in s.perUser
  {
  }

  /** What a pass finds in the map of its relay. */
  function Entries(s: State, id: nat, user: Option<User>): set<Release> {
    set e | e in s.unsaved && e.relay == id && (user.Some? ==> e.release.user == user.value) :: e.release
  }

  lemma StartedLocal(s: State, t: nat, id: nat, r: Release, limit: int)
    requires t !in s.tasks && Unsaved(id, r) in s.unsaved
    ensures var a := StartRepair(t, Unsaved(id, r));
            Enabled(s, a) && Apply(s, a, limit) == s.(tasks := s.tasks[t := LocalTask(id, r)])
  {
  }

  lemma StartedDurable(s: State, t: nat, id: nat, r: Release, limit: int)
    requires t !in s.tasks && (r in s.global || r in s.perUser)
    ensures var a := StartDurableRepair(t, id, r);
            Enabled(s, a) && Apply(s, a, limit) == s.(tasks := s.tasks[t := RepairTask(id, r, Work(false, true))])
  {
  }

  lemma Merged(s: State, t: nat, id: nat, r: Release, read: bool, user: Option<User>, limit: int)
    requires t in s.tasks && s.tasks[t] == LocalTask(id, r) && (user.Some? ==> r.user == user.value)
    ensures var a := Merge(t, read, user.None?);
            && Enabled(s, a)
            && Apply(s, a, limit) ==
               s.(tasks := s.tasks[t := RepairTask(id, r, Work(true, read && r in Listing(s, user)))])
  {
  }

  lemma Reserved(s: State, session: string, heard: bool, limit: int)
    ensures var a := Reserve(session, heard);
            && Enabled(s, a)
            && (heard && s.LedgerOf(session).counter.count < limit ==> Apply(s, a, limit).LedgerOf(session).tickets > 0)
  {
  }

  lemma AgedOut(s: State, e: Unsaved, limit: int)
    requires e in s.unsaved
    ensures Enabled(s, AgeOut(e)) && Apply(s, AgeOut(e), limit) == s.(unsaved := s.unsaved - {e})
  {
  }
}

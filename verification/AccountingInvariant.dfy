/** What every action of the accounting system keeps. */
module AccountingInvariant {
  import opened AllocationCounter
  import opened Accounting
  import opened Options

  function IssuedIn(owner: map<Operation, User>, session: string): set<Operation> {
    set op | op in owner && owner[op].session == session
  }

  /** The counter, the operations issued and the grants of one session add up. */
  predicate Balanced(s: State, session: string, limit: int) {
    var l := s.LedgerOf(session);
    && l.counter.count <= limit
    && l.granted == l.counter.count + |l.counter.released|
    && l.granted == |IssuedIn(s.owner, session)| + l.tickets + l.leaked
  }

  /** An applied release belongs to an operation of that session which was launched. */
  predicate AppliedWasLaunched(s: State, session: string) {
    forall op | op in s.LedgerOf(session).counter.released ::
      op in s.owner && s.owner[op].session == session && Release(s.owner[op], op) in s.launches
  }

  ghost predicate LedgersOk(s: State, limit: int) {
    forall session :: Balanced(s, session, limit) && AppliedWasLaunched(s, session)
  }

  /** Every tracked allocation has its own operation, and none of them has been launched. */
  predicate TrackedOk(s: State) {
    && (forall slot | slot in s.tracked :: s.Known(s.tracked[slot]) && s.tracked[slot] !in s.launches)
    && (forall a, b | a in s.tracked && b in s.tracked && s.tracked[a] == s.tracked[b] :: a == b)
  }

  /** What the server holds is tracked under the same operation. */
  predicate AliveOk(s: State) {
    && (forall slot | slot in s.alive ::
          slot in s.tracked && s.tracked[slot] == s.alive[slot] && slot !in s.undelivered)
  }

  /** An allocation the reconciler found missing has not come back. */
  predicate SightingsOk(s: State) {
    && (forall x | x in s.seen :: s.Known(x.release))
    && (forall x | x in s.missing ::
          s.Known(x.release) && (x.slot in s.alive ==> s.alive[x.slot] != x.release))
  }

  predicate LaunchesOk(s: State) {
    && (forall r | r in s.launches :: s.Known(r))
    && (forall i, j | 0 <= i < j < |s.launches| :: s.launches[i] != s.launches[j])
  }

  /** Only launched releases are ever queued, retried or sent. */
  predicate OnlyLaunched(s: State) {
    && (forall r | r in s.global :: r in s.launches)
    && (forall r | r in s.perUser :: r in s.launches)
    && (forall e | e in s.unsaved :: e.release in s.launches)
    && (forall t | t in s.tasks :: s.tasks[t].release in s.launches)
    && (forall c | c in s.calls :: s.calls[c].release in s.launches)
  }

  predicate CallOk(s: State, c: Call) {
    match c.request
    case QueueRequest => c.stage != Sent ==> s.Persisted(c.release)
    case ReleaseRequest => c.stage == Done ==> s.Applied(c.release)
    case CompleteRequest => s.Applied(c.release)
  }

  predicate Awaits(s: State, call: nat, request: Request, r: Release) {
    call in s.calls && s.calls[call].request == request && s.calls[call].release == r
  }

  predicate TaskOk(s: State, t: Task) {
    match t.point
    case AwaitQueue(c) => Awaits(s, c, QueueRequest, t.release)
    case AwaitRelease(c) => Awaits(s, c, ReleaseRequest, t.release)
    case AwaitComplete(c) => Awaits(s, c, CompleteRequest, t.release) && s.Applied(t.release)
    case DropSaved => s.Persisted(t.release)
    case SendComplete => s.Applied(t.release)
    case DropLocal => s.Applied(t.release)
    case _ => true
  }

  predicate WorkOk(s: State) {
    && (forall c | c in s.calls :: CallOk(s, s.calls[c]))
    && (forall t | t in s.tasks :: TaskOk(s, s.tasks[t]))
  }

  /** A release found only in a per-user hash has been applied. */
  predicate PerUserOk(s: State) {
    forall r | r in s.perUser :: s.Persisted(r)
  }

  /** Every operation ever issued is tracked, launched or forgotten. */
  ghost predicate AllAccounted(s: State) {
    forall op | op in s.owner :: Accounted(s, Release(s.owner[op], op))
  }

  ghost predicate Accounted(s: State, r: Release) {
    r in s.launches || r in s.forgotten || (exists slot :: slot in s.tracked && s.tracked[slot] == r)
  }

  /** What was forgotten is not tracked any more and will not be launched. */
  predicate ForgottenOk(s: State) {
    && (forall r | r in s.forgotten :: s.Known(r) && r !in s.launches)
    && (forall slot | slot in s.tracked :: s.tracked[slot] !in s.forgotten)
  }

  ghost predicate BooksOk(s: State, limit: int) {
    LedgersOk(s, limit) && LaunchesOk(s)
  }

  predicate TablesOk(s: State) {
    TrackedOk(s) && AliveOk(s) && SightingsOk(s)
  }

  predicate ReleasesOk(s: State) {
    OnlyLaunched(s) && WorkOk(s) && PerUserOk(s)
  }

  ghost predicate Inv(s: State, limit: int) {
    BooksOk(s, limit) && TablesOk(s) && ForgottenOk(s) && ReleasesOk(s) && AllAccounted(s)
  }

  // ---- what carries over when nothing relevant changes ----

  /** Known, launched, applied and persisted releases stay so. */
  ghost predicate Grows(s: State, s': State) {
    && (forall r | s.Known(r) :: s'.Known(r))
    && (forall r | r in s.launches :: r in s'.launches)
    && (forall r | s.Applied(r) :: s'.Applied(r))
    && (forall r | s.Persisted(r) :: s'.Persisted(r))
  }

  predicate SameBooks(s: State, s': State) {
    s'.ledgers == s.ledgers && s'.owner == s.owner && s'.launches == s.launches
  }

  predicate SameTables(s: State, s': State) {
    && s'.tracked == s.tracked && s'.alive == s.alive && s'.undelivered == s.undelivered
    && s'.seen == s.seen && s'.missing == s.missing && s'.forgotten == s.forgotten
  }

  predicate SameReleases(s: State, s': State) {
    && s'.global == s.global && s'.perUser == s.perUser && s'.calls == s.calls
    && s'.unsaved == s.unsaved && s'.tasks == s.tasks
  }

  lemma BooksCarryOver(s: State, s': State, limit: int)
    requires BooksOk(s, limit) && SameBooks(s, s')
    ensures BooksOk(s', limit)
    ensures forall r :: s'.Applied(r) == s.Applied(r) && s'.Known(r) == s.Known(r)
  {
    forall x ensures Balanced(s', x, limit) && AppliedWasLaunched(s', x) {
      assert Balanced(s, x, limit) && AppliedWasLaunched(s, x);
      assert IssuedIn(s'.owner, x) == IssuedIn(s.owner, x);
    }
  }

  lemma TablesCarryOver(s: State, s': State)
    requires TablesOk(s) && SameTables(s, s')
    requires forall r | s.Known(r) :: s'.Known(r)
    requires s'.launches == s.launches
    ensures TablesOk(s')
  {
  }

  lemma AccountedCarryOver(s: State, s': State)
    requires AllAccounted(s) && s'.owner == s.owner && s'.launches == s.launches
    requires SameTables(s, s')
    ensures AllAccounted(s')
  {
    forall op | op in s'.owner ensures Accounted(s', Release(s'.owner[op], op)) {
      assert Accounted(s, Release(s.owner[op], op));
    }
  }

  lemma ReleasesCarryOver(s: State, s': State)
    requires ReleasesOk(s) && SameReleases(s, s')
    requires s'.launches == s.launches
    requires forall r | s.Applied(r) :: s'.Applied(r)
    ensures ReleasesOk(s')
  {
  }

  // ---- quota and allocations ----

  lemma InitialKeeps(limit: int)
    requires limit >= 0
    ensures Inv(Initial, limit)
  {
    forall session ensures Balanced(Initial, session, limit) {
      assert IssuedIn(Initial.owner, session) == {};
    }
  }

  /** Changing the numbers of one ledger, but not what it has released. */
  lemma LedgerUpdateKeeps(s: State, session: string, l: Ledger, limit: int)
    requires Inv(s, limit)
    requires l.counter.released == s.LedgerOf(session).counter.released
    requires l.counter.count <= limit
    requires l.granted == l.counter.count + |l.counter.released|
    requires l.granted - l.tickets - l.leaked
          == s.LedgerOf(session).granted - s.LedgerOf(session).tickets - s.LedgerOf(session).leaked
    ensures Inv(s.(ledgers := s.ledgers[session := l]), limit)
  {
    var s' := s.(ledgers := s.ledgers[session := l]);
    forall x ensures Balanced(s', x, limit) && AppliedWasLaunched(s', x) {
      assert Balanced(s, x, limit) && AppliedWasLaunched(s, x);
      assert IssuedIn(s'.owner, x) == IssuedIn(s.owner, x);
    }
    assert BooksOk(s', limit);
    TablesCarryOver(s, s');
    ReleasesCarryOver(s, s');
    AccountedCarryOver(s, s');
  }

  lemma ReserveKeeps(s: State, session: string, heard: bool, limit: int)
    requires Inv(s, limit)
    ensures Inv(ReserveStep(s, session, heard, limit), limit)
  {
    assert Balanced(s, session, limit);
    var l := s.LedgerOf(session);
    LedgerUpdateKeeps(s, session, ReserveStep(s, session, heard, limit).ledgers[session], limit);
  }

  lemma AbandonKeeps(s: State, session: string, limit: int)
    requires Inv(s, limit) && Enabled(s, Abandon(session))
    ensures Inv(AbandonStep(s, session), limit)
  {
    assert Balanced(s, session, limit);
    LedgerUpdateKeeps(s, session, AbandonStep(s, session).ledgers[session], limit);
  }

  lemma IssuedGrows(owner: map<Operation, User>, user: User, operation: Operation, session: string)
    requires operation !in owner
    ensures |IssuedIn(owner[operation := user], session)|
         == |IssuedIn(owner, session)| + if session == user.session then 1 else 0
  {
    var owner' := owner[operation := user];
    if session == user.session {
      assert IssuedIn(owner', session) == IssuedIn(owner, session) + {operation};
    } else {
      assert IssuedIn(owner', session) == IssuedIn(owner, session);
    }
  }

  lemma CreateBalances(s: State, slot: Slot, user: User, operation: Operation, session: string, limit: int)
    requires Enabled(s, Create(slot, user, operation))
    requires Balanced(s, session, limit)
    ensures Balanced(CreateStep(s, slot, user, operation), session, limit)
  {
    IssuedGrows(s.owner, user, operation, session);
  }

  lemma CreateKeepsBooks(s: State, slot: Slot, user: User, operation: Operation, limit: int)
    requires Inv(s, limit) && Enabled(s, Create(slot, user, operation))
    ensures BooksOk(CreateStep(s, slot, user, operation), limit)
  {
    var s' := CreateStep(s, slot, user, operation);
    forall x ensures Balanced(s', x, limit) && AppliedWasLaunched(s', x) {
      assert Balanced(s, x, limit) && AppliedWasLaunched(s, x);
      CreateBalances(s, slot, user, operation, x, limit);
    }
  }

  lemma CreateKeepsTables(s: State, slot: Slot, user: User, operation: Operation)
    requires TablesOk(s) && ForgottenOk(s) && LaunchesOk(s) && Enabled(s, Create(slot, user, operation))
    ensures TablesOk(CreateStep(s, slot, user, operation)) && ForgottenOk(CreateStep(s, slot, user, operation))
  {
    var r, s' := Release(user, operation), CreateStep(s, slot, user, operation);
    assert forall x :: s.Known(x) ==> s'.Known(x) && x != r;
    assert forall x | x in s.launches || x in s.forgotten :: s.Known(x);
    NewlyTracked(s, s', slot, r);
    NewlyForgotten(s, s', slot, r);
  }

  lemma NewlyTracked(s: State, s': State, slot: Slot, r: Release)
    requires TablesOk(s) && LaunchesOk(s) && !s.Known(r) && s'.Known(r)
    requires forall x :: s.Known(x) ==> s'.Known(x)
    requires s'.tracked == s.tracked[slot := r] && s'.alive == s.alive[slot := r]
    requires s'.undelivered == s.undelivered - {slot} && s'.launches == s.launches
    requires s'.seen == s.seen && s'.missing == s.missing
    ensures TablesOk(s')
  {
    assert TrackedOk(s') by { hide AliveOk, SightingsOk; }
    assert AliveOk(s') by { hide TrackedOk, SightingsOk; }
    assert SightingsOk(s') by { hide TrackedOk, AliveOk; }
  }

  lemma NewlyForgotten(s: State, s': State, slot: Slot, r: Release)
    requires TrackedOk(s) && ForgottenOk(s) && !s.Known(r) && r !in s.launches
    requires forall x :: s.Known(x) ==> s'.Known(x)
    requires s'.tracked == s.tracked[slot := r] && s'.launches == s.launches
    requires s'.forgotten == if slot in s.tracked then s.forgotten + {s.tracked[slot]} else s.forgotten
    ensures ForgottenOk(s')
  {
  }

  lemma CreateAccounts(s: State, slot: Slot, user: User, operation: Operation)
    requires AllAccounted(s) && Enabled(s, Create(slot, user, operation))
    ensures AllAccounted(CreateStep(s, slot, user, operation))
  {
    var s' := CreateStep(s, slot, user, operation);
    var r := Release(user, operation);
    forall op | op in s'.owner ensures Accounted(s', Release(s'.owner[op], op)) {
      if op == operation {
        assert slot in s'.tracked && s'.tracked[slot] == r;
      } else {
        var old_ := Release(s.owner[op], op);
        assert Accounted(s, old_);
        if old_ !in s.launches && old_ !in s.forgotten {
          var at :| at in s.tracked && s.tracked[at] == old_;
          assert at != slot ==> at in s'.tracked && s'.tracked[at] == old_;
        }
      }
    }
  }

  lemma CreateKeeps(s: State, slot: Slot, user: User, operation: Operation, limit: int)
    requires Inv(s, limit) && Enabled(s, Create(slot, user, operation))
    ensures Inv(CreateStep(s, slot, user, operation), limit)
  {
    CreateKeepsBooks(s, slot, user, operation, limit);
    CreateKeepsTables(s, slot, user, operation);
    CreateAccounts(s, slot, user, operation);
    ReleasesCarryOver(s, CreateStep(s, slot, user, operation));
  }

  // ---- deletions ----

  lemma DieKeeps(s: State, slot: Slot, limit: int)
    requires Inv(s, limit) && slot in s.alive
    ensures Inv(Apply(s, Die(slot), limit), limit)
  {
    var s' := Apply(s, Die(slot), limit);
    BooksCarryOver(s, s', limit);
    ReleasesCarryOver(s, s');
    forall op | op in s'.owner ensures Accounted(s', Release(s'.owner[op], op)) {
      assert Accounted(s, Release(s.owner[op], op));
    }
  }

  /** The two places that launch remove the allocation from the table in the same step. */
  lemma LaunchKeepsBooks(s: State, slot: Slot, task: nat, limit: int)
    requires BooksOk(s, limit) && TablesOk(s) && slot in s.tracked
    ensures BooksOk(LaunchStep(s, slot, task), limit)
  {
    var s' := LaunchStep(s, slot, task);
    forall x ensures Balanced(s', x, limit) && AppliedWasLaunched(s', x) {
      assert Balanced(s, x, limit) && AppliedWasLaunched(s, x);
    }
  }

  lemma LaunchKeepsTables(s: State, slot: Slot, task: nat)
    requires TablesOk(s) && ForgottenOk(s) && AllAccounted(s) && slot in s.tracked && slot !in s.alive
    ensures TablesOk(LaunchStep(s, slot, task)) && ForgottenOk(LaunchStep(s, slot, task))
    ensures AllAccounted(LaunchStep(s, slot, task))
  {
    var s' := LaunchStep(s, slot, task);
    forall op | op in s'.owner ensures Accounted(s', Release(s'.owner[op], op)) {
      var r := Release(s.owner[op], op);
      assert Accounted(s, r);
      if r !in s.launches && r !in s.forgotten && r != s.tracked[slot] {
        var at :| at in s.tracked && s.tracked[at] == r;
        assert at in s'.tracked && s'.tracked[at] == r;
      }
    }
  }

  lemma LaunchKeepsReleases(s: State, slot: Slot, task: nat)
    requires ReleasesOk(s) && slot in s.tracked && task !in s.tasks
    ensures ReleasesOk(LaunchStep(s, slot, task))
  {
  }

  lemma LaunchKeeps(s: State, slot: Slot, task: nat, limit: int)
    requires Inv(s, limit) && slot in s.tracked && slot !in s.alive && task !in s.tasks
    ensures Inv(LaunchStep(s, slot, task), limit)
  {
    LaunchKeepsBooks(s, slot, task, limit);
    LaunchKeepsTables(s, slot, task);
    LaunchKeepsReleases(s, slot, task);
  }

  lemma CallbackKeeps(s: State, slot: Slot, task: nat, limit: int)
    requires Inv(s, limit) && Enabled(s, Callback(slot, task))
    ensures Inv(CallbackStep(s, slot, task), limit)
  {
    var s' := s.(undelivered := s.undelivered - {slot});
    BooksCarryOver(s, s', limit);
    ReleasesCarryOver(s, s');
    forall op | op in s'.owner ensures Accounted(s', Release(s'.owner[op], op)) {
      assert Accounted(s, Release(s.owner[op], op));
    }
    assert slot !in s.alive;
    if slot in s.tracked {
      LaunchKeeps(s', slot, task, limit);
    }
  }

  lemma SightingsKeep(s: State, s': State, limit: int)
    requires Inv(s, limit)
    requires s' == s.(seen := s'.seen, missing := s'.missing)
    requires SightingsOk(s')
    ensures Inv(s', limit)
  {
    BooksCarryOver(s, s', limit);
    ReleasesCarryOver(s, s');
    forall op | op in s'.owner ensures Accounted(s', Release(s'.owner[op], op)) {
      assert Accounted(s, Release(s.owner[op], op));
    }
  }

  lemma SnapshotKeeps(s: State, slot: Slot, limit: int)
    requires Inv(s, limit) && slot in s.tracked
    ensures Inv(Apply(s, Snapshot(slot), limit), limit)
  {
    SightingsKeep(s, Apply(s, Snapshot(slot), limit), limit);
  }

  lemma ProbeKeeps(s: State, x: Sighting, limit: int)
    requires Inv(s, limit) && Enabled(s, Probe(x))
    ensures Inv(Apply(s, Probe(x), limit), limit)
  {
    SightingsKeep(s, Apply(s, Probe(x), limit), limit);
  }

  /** What a reconciler removes is dead, however old its snapshot is. */
  lemma ReconcileTakesOnlyTheDead(s: State, x: Sighting)
    requires TablesOk(s) && x in s.missing
    requires x.slot in s.tracked && s.tracked[x.slot].operation == x.release.operation
    ensures s.tracked[x.slot] == x.release && x.slot !in s.alive
  {
    assert s.Known(s.tracked[x.slot]) && s.Known(x.release);
  }

  lemma ReconcileKeeps(s: State, x: Sighting, task: nat, limit: int)
    requires Inv(s, limit) && Enabled(s, Reconcile(x, task))
    ensures Inv(ReconcileStep(s, x, task), limit)
  {
    var s' := s.(missing := s.missing - {x});
    SightingsKeep(s, s', limit);
    if x.slot in s.tracked && s.tracked[x.slot].operation == x.release.operation {
      ReconcileTakesOnlyTheDead(s, x);
      LaunchKeeps(s', x.slot, task, limit);
    }
  }

  // ---- release goroutines ----

  /** The books and the tables do not depend on where the releases are. */
  lemma OnlyReleasesChange(s: State, s': State, limit: int)
    requires Inv(s, limit) && SameBooks(s, s') && SameTables(s, s') && ReleasesOk(s')
    ensures Inv(s', limit)
  {
    BooksCarryOver(s, s', limit);
    TablesCarryOver(s, s');
    AccountedCarryOver(s, s');
  }

  /** One task moves on, or starts, or ends. */
  ghost predicate TaskMoves(s: State, s': State, task: nat) {
    && (forall t | t != task :: t in s'.tasks <==> t in s.tasks)
    && (forall t | t != task && t in s.tasks :: s'.tasks[t] == s.tasks[t])
    && (task in s'.tasks ==> TaskOk(s', s'.tasks[task]) && s'.tasks[task].release in s.launches)
  }

  lemma TaskMoveKeeps(s: State, s': State, task: nat, limit: int)
    requires Inv(s, limit) && SameBooks(s, s') && SameTables(s, s')
    requires s'.global == s.global && s'.perUser == s.perUser
    requires TaskMoves(s, s', task)
    requires forall c | c in s.calls :: c in s'.calls && s'.calls[c] == s.calls[c]
    requires forall c | c in s'.calls && c !in s.calls :: CallOk(s', s'.calls[c]) && s'.calls[c].release in s.launches
    requires forall e | e in s'.unsaved :: e.release in s.launches
    ensures Inv(s', limit)
  {
    assert forall r :: s'.Applied(r) == s.Applied(r) && s'.Persisted(r) == s.Persisted(r);
    forall t | t in s'.tasks ensures TaskOk(s', s'.tasks[t]) {
      if t != task { assert TaskOk(s, s.tasks[t]); }
    }
    forall c | c in s'.calls ensures CallOk(s', s'.calls[c]) {
      if c in s.calls { assert CallOk(s, s.calls[c]); }
    }
    OnlyReleasesChange(s, s', limit);
  }

  /** A task that goes on with its release, or is done. */
  lemma SetTaskMoves(s: State, s': State, task: nat, next: Option<Task>)
    requires OnlyLaunched(s) && task in s.tasks && s'.tasks == SetTask(s.tasks, task, next)
    requires next.Some? ==> TaskOk(s', next.value) && next.value.release == s.tasks[task].release
    ensures TaskMoves(s, s', task)
  {
  }

  lemma StartKeeps(s: State, s': State, task: nat, t: Task, limit: int)
    requires Inv(s, limit) && task !in s.tasks && s' == s.(tasks := s.tasks[task := t])
    requires t.release in s.launches && (t.point.ReadDurable? || t.point.SendRelease?)
    ensures Inv(s', limit)
  {
    assert TaskMoves(s, s', task);
    TaskMoveKeeps(s, s', task, limit);
  }

  lemma StartRepairKeeps(s: State, a: Action, limit: int)
    requires Inv(s, limit) && Enabled(s, a) && (a.StartRepair? || a.StartDurableRepair?)
    ensures Inv(Apply(s, a, limit), limit)
  {
    StartKeeps(s, Apply(s, a, limit), a.task, Apply(s, a, limit).tasks[a.task], limit);
  }

  lemma MergeKeeps(s: State, task: nat, readOk: bool, wholeList: bool, limit: int)
    requires Inv(s, limit) && Enabled(s, Merge(task, readOk, wholeList))
    ensures Inv(MergeStep(s, task, readOk, wholeList), limit)
  {
    var s' := MergeStep(s, task, readOk, wholeList);
    SetTaskMoves(s, s', task, Some(s'.tasks[task]));
    TaskMoveKeeps(s, s', task, limit);
  }

  /** The task waits for the call it has just made. */
  lemma SentTaskOk(s: State, task: nat, call: nat)
    requires Enabled(s, Send(task, call)) && TaskOk(s, s.tasks[task])
    ensures var t, s' := s.tasks[task], SendStep(s, task, call);
            && TaskOk(s', s'.tasks[task]) && CallOk(s', s'.calls[call])
            && s'.tasks[task].release == t.release == s'.calls[call].release
            && (Unstored(t) ==> Unstored(s'.tasks[task]))
  {
  }

  lemma SendKeeps(s: State, task: nat, call: nat, limit: int)
    requires Inv(s, limit) && Enabled(s, Send(task, call))
    ensures Inv(SendStep(s, task, call), limit)
  {
    var t, s' := s.tasks[task], SendStep(s, task, call);
    assert TaskOk(s, t);
    SentTaskOk(s, task, call);
    hide TaskOk, CallOk, Unstored;
    SetTaskMoves(s, s', task, Some(s'.tasks[task]));
    TaskMoveKeeps(s, s', task, limit);
  }

  /** What the answer is proof of. */
  lemma AnsweredTaskOk(s: State, s': State, t: Task, ok: bool)
    requires s' == s.(tasks := s'.tasks) && Waiting(t) && TaskOk(s, t)
    requires ok ==> t.point.call in s.calls && s.calls[t.point.call].stage == Done && CallOk(s, s.calls[t.point.call])
    ensures var next := AfterAnswer(t, ok);
            && (next.Some? ==> TaskOk(s', next.value) && next.value.release == t.release)
            && (Unstored(t) ==> s.Persisted(t.release) || (next.Some? && Unstored(next.value)))
  {
  }

  lemma AnswerKeeps(s: State, task: nat, ok: bool, limit: int)
    requires Inv(s, limit) && Enabled(s, Answer(task, ok))
    ensures Inv(AnswerStep(s, task, ok), limit)
  {
    var t, s' := s.tasks[task], AnswerStep(s, task, ok);
    assert TaskOk(s, t);
    if ok { assert CallOk(s, s.calls[t.point.call]); }
    hide TaskOk, CallOk, Unstored, AfterAnswer;
    AnsweredTaskOk(s, s', t, ok);
    SetTaskMoves(s, s', task, AfterAnswer(t, ok));
    TaskMoveKeeps(s, s', task, limit);
  }

  lemma StoreKeeps(s: State, task: nat, limit: int)
    requires Inv(s, limit) && Enabled(s, Store(task))
    ensures Inv(StoreStep(s, task), limit)
  {
    var t, s' := s.tasks[task], StoreStep(s, task);
    assert TaskOk(s, t);
    SetTaskMoves(s, s', task, AfterStore(t));
    TaskMoveKeeps(s, s', task, limit);
  }

  lemma PanicKeeps(s: State, task: nat, limit: int)
    requires Inv(s, limit) && task in s.tasks
    ensures Inv(PanicStep(s, task), limit)
  {
    var t, s' := s.tasks[task], PanicStep(s, task);
    TaskMoveKeeps(s, s', task, limit);
  }

  lemma AgeOutKeeps(s: State, entry: Unsaved, limit: int)
    requires Inv(s, limit) && entry in s.unsaved
    ensures Inv(AgeOutStep(s, entry), limit)
  {
    TaskMoveKeeps(s, AgeOutStep(s, entry), 0, limit);
  }

  // ---- the control plane ----

  /** A release that has not been applied yet finds a slot to give back. */
  lemma UnappliedReleaseHoldsASlot(s: State, r: Release, limit: int)
    requires LedgersOk(s, limit) && s.Known(r) && !s.Applied(r)
    ensures s.LedgerOf(r.user.session).counter.count >= 1
  {
    var session := r.user.session;
    var released := s.LedgerOf(session).counter.released;
    assert Balanced(s, session, limit) && AppliedWasLaunched(s, session);
    assert released + {r.operation} <= IssuedIn(s.owner, session);
    SubsetIsSmaller(released + {r.operation}, IssuedIn(s.owner, session));
  }

  lemma SubsetIsSmaller<T>(a: set<T>, b: set<T>)
    requires a <= b
    ensures |a| <= |b|
  {
    assert b == a + (b - a);
  }

  lemma ReleaseKeepsBooks(s: State, call: nat, limit: int)
    requires Inv(s, limit) && call in s.calls && s.calls[call].request.ReleaseRequest?
    ensures BooksOk(ServeStep(s, call, false), limit)
    ensures forall r | s.Applied(r) :: ServeStep(s, call, false).Applied(r)
    ensures ServeStep(s, call, false).Applied(s.calls[call].release)
  {
    var r, s' := s.calls[call].release, ServeStep(s, call, false);
    if !s.Applied(r) {
      UnappliedReleaseHoldsASlot(s, r, limit);
    }
    forall x ensures Balanced(s', x, limit) && AppliedWasLaunched(s', x) {
      assert Balanced(s, x, limit) && AppliedWasLaunched(s, x);
    }
  }

  /** A served command never takes back what a task or another call relies on. */
  lemma ServeGrows(s: State, call: nat, second: bool, limit: int)
    requires Inv(s, limit) && Enabled(s, Serve(call, second))
    ensures BooksOk(ServeStep(s, call, second), limit)
    ensures Grows(s, ServeStep(s, call, second))
  {
    var c, s' := s.calls[call], ServeStep(s, call, second);
    assert CallOk(s, c);
    if c.request.ReleaseRequest? {
      ReleaseKeepsBooks(s, call, limit);
    } else {
      BooksCarryOver(s, s', limit);
    }
  }

  lemma ServeKeepsWork(s: State, call: nat, second: bool, limit: int)
    requires Inv(s, limit) && Enabled(s, Serve(call, second))
    requires Grows(s, ServeStep(s, call, second))
    ensures WorkOk(ServeStep(s, call, second)) && PerUserOk(ServeStep(s, call, second))
  {
    var s' := ServeStep(s, call, second);
    assert CallOk(s, s.calls[call]);
    forall c | c in s'.calls ensures CallOk(s', s'.calls[c]) {
      assert CallOk(s, s.calls[c]);
    }
    ServeKeepsTasks(s, call, second);
  }

  lemma ServeKeepsTasks(s: State, call: nat, second: bool)
    requires ReleasesOk(s) && Enabled(s, Serve(call, second)) && CallOk(s, s.calls[call])
    requires Grows(s, ServeStep(s, call, second))
    ensures forall t | t in ServeStep(s, call, second).tasks :: TaskOk(ServeStep(s, call, second), s.tasks[t])
  {
    var s' := ServeStep(s, call, second);
    assert forall c, q, r :: Awaits(s, c, q, r) ==> Awaits(s', c, q, r);
    hide ServeStep, Awaits;
    forall t | t in s'.tasks ensures TaskOk(s', s.tasks[t]) {
      assert TaskOk(s, s.tasks[t]);
    }
  }

  lemma ServeKeeps(s: State, call: nat, second: bool, limit: int)
    requires Inv(s, limit) && Enabled(s, Serve(call, second))
    ensures Inv(ServeStep(s, call, second), limit)
  {
    var s' := ServeStep(s, call, second);
    ServeGrows(s, call, second, limit);
    ServeKeepsWork(s, call, second, limit);
    TablesCarryOver(s, s');
    AccountedCarryOver(s, s');
  }

  // ---- crashes ----

  lemma CrashKeepsTables(s: State, relay: nat, limit: int)
    requires Inv(s, limit)
    ensures TablesOk(CrashStep(s, relay)) && ForgottenOk(CrashStep(s, relay)) && AllAccounted(CrashStep(s, relay))
  {
    CrashLeavesTables(s, relay);
    CrashKeepsAccounts(s, relay);
  }

  lemma CrashLeavesTables(s: State, relay: nat)
    requires TablesOk(s) && ForgottenOk(s)
    ensures TablesOk(CrashStep(s, relay)) && ForgottenOk(CrashStep(s, relay))
  {
    var s' := CrashStep(s, relay);
    assert forall r :: s'.Known(r) == s.Known(r);
    assert TrackedOk(s') && ForgottenOk(s') by { hide AliveOk, SightingsOk; }
    assert AliveOk(s') by { hide TrackedOk, SightingsOk, ForgottenOk; }
    assert SightingsOk(s') by { hide TrackedOk, AliveOk, ForgottenOk; }
  }

  lemma CrashKeepsAccounts(s: State, relay: nat)
    requires AllAccounted(s)
    ensures AllAccounted(CrashStep(s, relay))
  {
    var s' := CrashStep(s, relay);
    forall op | op in s'.owner ensures Accounted(s', Release(s'.owner[op], op)) {
      var r := Release(s.owner[op], op);
      assert Accounted(s, r);
      if r !in s.launches && r !in s.forgotten {
        var slot :| slot in s.tracked && s.tracked[slot] == r;
        assert slot.relay != relay ==> slot in s'.tracked && s'.tracked[slot] == r;
      }
    }
  }

  lemma CrashKeepsReleases(s: State, relay: nat, limit: int)
    requires Inv(s, limit)
    ensures ReleasesOk(CrashStep(s, relay))
  {
    var s' := CrashStep(s, relay);
    assert forall r :: s'.Applied(r) == s.Applied(r) && s'.Persisted(r) == s.Persisted(r);
    forall t | t in s'.tasks ensures TaskOk(s', s'.tasks[t]) {
      assert TaskOk(s, s.tasks[t]);
    }
  }

  lemma CrashKeeps(s: State, relay: nat, limit: int)
    requires Inv(s, limit)
    ensures Inv(CrashStep(s, relay), limit)
  {
    BooksCarryOver(s, CrashStep(s, relay), limit);
    CrashKeepsTables(s, relay, limit);
    CrashKeepsReleases(s, relay, limit);
  }

  // ---- all together ----

  lemma StepKeeps(s: State, a: Action, limit: int)
    requires Inv(s, limit) && Enabled(s, a)
    ensures Inv(Apply(s, a, limit), limit)
  {
    hide Inv, ReserveStep, AbandonStep, CreateStep, CallbackStep, ReconcileStep, MergeStep, SendStep, ServeStep,
         AnswerStep, StoreStep, PanicStep, AgeOutStep, CrashStep;
    match a
    case Reserve(session, heard) => ReserveKeeps(s, session, heard, limit);
    case Abandon(session) => AbandonKeeps(s, session, limit);
    case Create(slot, user, operation) => CreateKeeps(s, slot, user, operation, limit);
    case Die(slot) => DieKeeps(s, slot, limit);
    case Callback(slot, task) => CallbackKeeps(s, slot, task, limit);
    case Snapshot(slot) => SnapshotKeeps(s, slot, limit);
    case Probe(x) => ProbeKeeps(s, x, limit);
    case Reconcile(x, task) => ReconcileKeeps(s, x, task, limit);
    case StartRepair(task, entry) => StartRepairKeeps(s, a, limit);
    case StartDurableRepair(task, relay, r) => StartRepairKeeps(s, a, limit);
    case Merge(task, readOk, wholeList) => MergeKeeps(s, task, readOk, wholeList, limit);
    case Send(task, call) => SendKeeps(s, task, call, limit);
    case Serve(call, second) => ServeKeeps(s, call, second, limit);
    case Answer(task, ok) => AnswerKeeps(s, task, ok, limit);
    case Store(task) => StoreKeeps(s, task, limit);
    case Panic(task) => PanicKeeps(s, task, limit);
    case AgeOut(entry) => AgeOutKeeps(s, entry, limit);
    case Crash(relay) => CrashKeeps(s, relay, limit);
  }

  /** The invariant holds after every run. */
  lemma {:induction false} RunKeeps(actions: seq<Action>, limit: int)
    requires limit >= 1 && Legal(actions, limit)
    ensures Inv(Run(actions, limit), limit)
    decreases |actions|
  {
    if actions == [] {
      InitialKeeps(limit);
    } else {
      RunKeeps(actions[..|actions| - 1], limit);
      StepKeeps(Run(actions[..|actions| - 1], limit), actions[|actions| - 1], limit);
    }
  }
}

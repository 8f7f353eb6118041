/**
 Returning allocation slots: the relay's own map of unsaved releases, the control plane it
 calls, and the two procedures that move releases between them. Any call may fail, or take
 effect and still be reported as failed.

 Every method keeps a run of the accounting system of which these maps and hashes are the
 state, and takes it along the steps of the tasks it works on.
 */
module ReleaseQueue {
  import opened Options
  import opened AllocationCounter
  import opened Accounting
  import opened AccountingTheorems
  import opened ReleaseRuns

  const PENDING_MAX_AGE := 90_000_000   // pendingReleaseMaxAge: 25 hours, in milliseconds

  /** Operations by user, with the time they were queued; None is the zero time. */
  type Pending = map<User, map<Operation, Option<int>>>

  predicate Has(p: Pending, r: Release) {
    r.user in p && r.operation in p[r.user]
  }

  function Put(p: Pending, r: Release, now: int): Pending {
    p[r.user := (if r.user in p then p[r.user] else map[])[r.operation := Some(now)]]
  }

  function Drop(p: Pending, r: Release): Pending {
    if r.user !in p then p
    else if p[r.user] - {r.operation} == map[] then p - {r.user}
    else p[r.user := p[r.user] - {r.operation}]
  }

  predicate Expired(queuedAt: Option<int>, now: int) {
    queuedAt.Some? && now - queuedAt.value >= PENDING_MAX_AGE
  }

  type Counters = map<string, Counter>

  function CounterIn(counters: Counters, session: string): Counter {
    if session in counters then counters[session] else Counter(0, {})
  }

  /** A counter after a set of releases, each given back at most once. */
  function AfterReleasing(c: Counter, ops: set<Operation>): Counter {
    Counter(Floor(c.count - |ops - c.released|), c.released + ops)
  }

  function OperationsIn(rs: set<Release>, session: string): set<Operation> {
    set r | r in rs && r.user.session == session :: r.operation
  }

  /** Every counter has had exactly the releases of a set applied. */
  ghost predicate Settled(before: Counters, after: Counters, rs: set<Release>) {
    forall session ::
      CounterIn(after, session) == AfterReleasing(CounterIn(before, session), OperationsIn(rs, session))
  }

  lemma ReleasingNothing(c: Counter)
    ensures AfterReleasing(c, {}) == c
  {
    assert {} - c.released == {} && c.released + {} == c.released;
  }

  lemma NothingSettled(counters: Counters)
    ensures Settled(counters, counters, {})
  {
    forall session
        ensures CounterIn(counters, session) ==
                  AfterReleasing(CounterIn(counters, session), OperationsIn({}, session)) {
      assert OperationsIn({}, session) == {};
      ReleasingNothing(CounterIn(counters, session));
    }
  }

  lemma OperationsOneMore(rs: set<Release>, r: Release, session: string)
    ensures OperationsIn(rs + {r}, session) ==
            if session == r.user.session then OperationsIn(rs, session) + {r.operation} else OperationsIn(rs, session)
  {
  }

  lemma SettledOneMore(before: Counters, middle: Counters, after: Counters, rs: set<Release>, r: Release)
    requires Settled(before, middle, rs)
    requires CounterIn(after, r.user.session) == CounterIn(middle, r.user.session).Release(r.operation)
    requires forall session | session != r.user.session :: CounterIn(after, session) == CounterIn(middle, session)
    ensures Settled(before, after, rs + {r})
  {
    hide OperationsIn, CounterIn;
    forall session
      ensures CounterIn(after, session) == AfterReleasing(CounterIn(before, session), OperationsIn(rs + {r}, session))
    {
      OperationsOneMore(rs, r, session);
      ReleaseAddsToSet(CounterIn(before, session), OperationsIn(rs, session), r.operation);
    }
  }

  /** The counters and the hashes of a state of the accounting system. */
  ghost predicate IsState(s: State, counters: Counters, global: set<Release>, perUser: set<Release>) {
    s.global == global && s.perUser == perUser && forall session ::
        s.LedgerOf(session).counter == CounterIn(counters, session)
  }

  lemma ReserveEffect(s: State, session: string, heard: bool, limit: int)
    ensures var s' := ReserveStep(s, session, heard, limit);
            && s'.global == s.global && s'.perUser == s.perUser && s'.unsaved == s.unsaved && s'.tasks == s.tasks
            && (forall x :: s'.LedgerOf(x).counter ==
                  if x == session then s.LedgerOf(x).counter.Reserve(limit) else s.LedgerOf(x).counter)
  {
  }

  class ControlPlane {
    const reliable: bool                  // no call ever fails
    const limit: int                      // the quota, the same on all relays
    var counters: Counters
    var global: set<Release>
    var perUser: set<Release>
    ghost var history: History

    constructor (reliable: bool, limit: int)
      requires limit >= 1
      ensures this.reliable == reliable && this.limit == limit
      ensures counters == map[] && global == {} && perUser == {} && history == [] && Valid()
    {
      this.reliable, this.limit := reliable, limit;
      counters, global, perUser, history := map[], {}, {}, [];
    }

    function CounterOf(session: string): Counter
      reads this`counters
    {
      CounterIn(counters, session)
    }

    predicate Applied(r: Release)
      reads this`counters
    {
      r.operation in CounterOf(r.user.session).released
    }

    /** The run so far, whose books these are. */
    ghost predicate Valid()
      reads this
    {
      limit >= 1 && Legal(history, limit) && IsState(Run(history, limit), counters, global, perUser)
    }

    ghost function Books(): State
      requires Valid()
      reads this
    {
      Run(history, limit)
    }

    /** What happens to one Redis command. */
    method Decide() returns (applied: bool, ok: bool)
      ensures ok ==> applied
      ensures reliable ==> ok
    {
      var fate: Fate := *;
      if reliable {
        fate := Worked;
      }
      applied, ok := fate != Failed, fate == Worked;
    }

    /** QueuePendingRelease: first the global hash, then the user's; one queueing call of a task. */
    method QueuePending(r: Release, ghost task: nat) returns (ok: bool)
      requires Valid() && task in Books().tasks && Books().tasks[task].release == r
                && Books().tasks[task].point.SendQueue?
      modifies this`global, this`perUser, this`history
      ensures old(global) <= global <= old(global) + {r} && old(perUser) <= perUser <= old(perUser) + {r}
      ensures ok ==> r in global && r in perUser
      ensures r in perUser && r !in global ==> r in old(perUser)
      ensures reliable ==> ok
      ensures Valid() && Extends(old(history), history, task) && Books().unsaved == old(Books()).unsaved
      ensures Books().tasks == SetTask(old(Books()).tasks, task, Told(old(Books()).tasks[task], ok))
    {
      hide Legal, Run, Carried, Told, SetTask, Extends;
      var first, second := false, false;
      first, ok := Decide();
      if first {
        global := global + {r};
      }
      if ok {
        second, ok := Decide();
        if second {
          perUser := perUser + {r};
        }
      }
      ghost var longer, call := CallRuns(history, limit, task, first, second, ok);
      CarriedEffect(Run(history, limit), task, call, first, second);
      history := longer;
    }

    /** CompletePendingRelease: out of the global hash, then out of the user's; one completing call of a task. */
    method CompletePending(r: Release, ghost task: nat) returns (ok: bool)
      requires Valid() && task in Books().tasks && Books().tasks[task].release == r
                && Books().tasks[task].point.SendComplete?
      modifies this`global, this`perUser, this`history
      ensures old(global) - {r} <= global <= old(global) && old(perUser) - {r} <= perUser <= old(perUser)
      ensures ok ==> r !in global && r !in perUser
      ensures reliable ==> ok
      ensures Valid() && Extends(old(history), history, task) && Books().unsaved == old(Books()).unsaved
      ensures Books().tasks == SetTask(old(Books()).tasks, task, Told(old(Books()).tasks[task], ok))
    {
      hide Legal, Run, Carried, Told, SetTask, Extends;
      var first, second := false, false;
      first, ok := Decide();
      if first {
        global := global - {r};
      }
      if ok {
        second, ok := Decide();
        if second {
          perUser := perUser - {r};
        }
      }
      ghost var longer, call := CallRuns(history, limit, task, first, second, ok);
      CarriedEffect(Run(history, limit), task, call, first, second);
      history := longer;
    }

    method Release(r: Release, ghost task: nat) returns (ok: bool)
      requires Valid() && task in Books().tasks && Books().tasks[task].release == r
                && Books().tasks[task].point.SendRelease?
      modifies this`counters, this`history
      ensures ok ==> Applied(r)
      ensures reliable ==> ok
      ensures CounterOf(r.user.session) in {old(CounterOf(r.user.session)),
                old(CounterOf(r.user.session)).Release(r.operation)}
      ensures forall session | session != r.user.session ::
                CounterIn(counters, session) == CounterIn(old(counters), session)
      ensures Valid() && Extends(old(history), history, task) && Books().unsaved == old(Books()).unsaved
      ensures Books().tasks == SetTask(old(Books()).tasks, task, Told(old(Books()).tasks[task], ok))
    {
      hide Legal, Run, Carried, Told, SetTask, Extends;
      var applied;
      applied, ok := Decide();
      if applied {
        counters := counters[r.user.session := CounterOf(r.user.session).Release(r.operation)];
      }
      ghost var longer, call := CallRuns(history, limit, task, applied, false, ok);
      CarriedEffect(Run(history, limit), task, call, applied, false);
      history := longer;
    }

    method Reserve(user: User) returns (allowed: bool, ok: bool)
      requires Valid()
      modifies this`counters, this`history
      ensures ok ==> allowed == (old(CounterOf(user.session)).count < limit)
      ensures ok ==> CounterOf(user.session) == old(CounterOf(user.session)).Reserve(limit)
      ensures forall session :: CounterOf(session).released == old(CounterOf(session)).released
      ensures reliable ==> ok
      ensures Valid() && old(history) <= history
      ensures Books().unsaved == old(Books()).unsaved && Books().tasks == old(Books()).tasks
    {
      hide Legal, Run;
      var applied;
      applied, ok := Decide();
      allowed := CounterOf(user.session).count < limit;
      if applied {
        counters := counters[user.session := CounterOf(user.session).Reserve(limit)];
        ReserveRuns(history, limit, user.session, ok);
        ReserveEffect(Run(history, limit), user.session, ok, limit);
        history := history + [Action.Reserve(user.session, ok)];
      }
    }

    /** PendingReleases: the user's hash, or the global one when no user is named. */
    method PendingReleases(user: Option<User>) returns (listing: Option<set<Release>>)
      ensures listing.Some? ==> listing.value == Listing(user)
      ensures reliable ==> listing.Some?
    {
      var _, ok := Decide();
      listing := if !ok then None else Some(Listing(user));
    }

    function Listing(user: Option<User>): set<Release>
      reads this`global, this`perUser
    {
      match user
      case Some(u) => set r | r in perUser && r.user == u
      case None => global
    }
  }

  // ---- the relay's map as a part of the books ----

  lemma SetTwice(tasks: map<nat, Task>, task: nat, t: Task, next: Option<Task>)
    ensures SetTask(SetTask(tasks, task, Some(t)), task, next) == SetTask(tasks, task, next)
    ensures task in SetTask(tasks, task, Some(t)) && SetTask(tasks, task, Some(t))[task] == t
    ensures task in tasks && tasks[task] == t ==> SetTask(tasks, task, Some(t)) == tasks
    ensures SetTask(tasks, task, None) == tasks - {task}
  {
  }

  lemma SetOnce(tasks: map<nat, Task>, task: nat, t: Task)
    ensures task in SetTask(tasks, task, Some(t)) && SetTask(tasks, task, Some(t))[task] == t
  {
  }

  ghost predicate HoldsMap(unsaved: set<Unsaved>, id: nat, p: Pending) {
    forall r: Release :: Has(p, r) <==> Unsaved(id, r) in unsaved
  }

  /** A release goroutine that has just been launched. */
  function Launched(id: nat, r: Release): Task {
    Task(AfterDelete, id, r, false, false, SendQueue)
  }

  predicate Saves(t: Task, id: nat, r: Release) {
    t.relay == id && t.release == r && t.point.SaveLocal?
  }

  predicate Drops(t: Task, id: nat, r: Release) {
    t.relay == id && t.release == r && (t.point.DropSaved? || t.point.DropLocal?)
  }

  lemma DropEffect(s: State, task: nat, p: Pending)
    requires task in s.tasks && Drops(s.tasks[task], s.tasks[task].relay, s.tasks[task].release)
    requires HoldsMap(s.unsaved, s.tasks[task].relay, p)
    ensures var s' := StoreStep(s, task);
            && s' == s.(unsaved := s'.unsaved, tasks := SetTask(s.tasks, task, AfterStore(s.tasks[task])))
            && HoldsMap(s'.unsaved, s.tasks[task].relay, Drop(p, s.tasks[task].release))
  {
    HasAfterDrop(p, s.tasks[task].release);
    hide Drop, Has;
  }

  lemma PutEffect(s: State, task: nat, p: Pending, now: int)
    requires task in s.tasks && Saves(s.tasks[task], s.tasks[task].relay, s.tasks[task].release)
    requires HoldsMap(s.unsaved, s.tasks[task].relay, p)
    ensures var s' := StoreStep(s, task);
            && s' == s.(unsaved := s'.unsaved, tasks := SetTask(s.tasks, task, AfterStore(s.tasks[task])))
            && HoldsMap(s'.unsaved, s.tasks[task].relay, Put(p, s.tasks[task].release, now))
  {
    HasAfterPut(p, s.tasks[task].release, now);
    hide Put, Has;
  }

  lemma HasAfterPut(p: Pending, r: Release, now: int)
    ensures forall x: Release :: Has(Put(p, r, now), x) <==> Has(p, x) || x == r
  {
  }

  function ExpiredEntries(unsaved: set<Unsaved>, id: nat, p: Pending, now: int): set<Unsaved> {
    set e | e in unsaved && e.relay == id && Has(p, e.release) && Expired(p[e.release.user][e.release.operation], now)
  }

  lemma CleanEffect(unsaved: set<Unsaved>, id: nat, p: Pending, now: int)
    requires HoldsMap(unsaved, id, p)
    ensures ExpiredEntries(unsaved, id, p, now) <= unsaved
    ensures HoldsMap(unsaved - ExpiredEntries(unsaved, id, p, now), id, Clean(p, now))
  {
    HasAfterClean(p, now);
    hide Clean;
  }

  /** Tasks and unsaved entries are no part of the hashes and counters. */
  lemma SameHashes(s: State, s': State, counters: Counters, global: set<Release>, perUser: set<Release>)
    requires s' == s.(tasks := s'.tasks, unsaved := s'.unsaved) && IsState(s, counters, global, perUser)
    ensures IsState(s', counters, global, perUser)
  {
  }

  /** What a pass finds is what its tasks may be started with. */
  lemma FoundFit(control: ControlPlane, id: nat, p: Pending, user: Option<User>, ok: bool, states: map<Release, Work>)
    requires control.Valid() && HoldsMap(control.Books().unsaved, id, p)
    requires states.Keys == Entries(p, user) + if ok then control.Listing(user) else {}
    requires forall r | r in states :: states[r] == Work(r in Entries(p, user), ok && r in control.Listing(user))
    ensures forall r | r in states :: Fits(control.Books(), id, user.None?, ok, r, states[r])
  {
    hide Legal, Run;
    forall r | r in states ensures Fits(control.Books(), id, user.None?, ok, r, states[r]) {
      assert r in Entries(p, user) ==> Has(p, r);
    }
  }

  /** The tasks of the releases still to do are as they were started; the others have ended. */
  ghost predicate StillToDo(before: map<nat, Task>, now: map<nat, Task>, id: nat, states: map<Release, Work>,
                            tasks: map<Release, nat>, todo: set<Release>)
  {
    && todo <= states.Keys && tasks.Keys == states.Keys
    && (forall r | r in todo :: tasks[r] in now && now[tasks[r]] == RepairTask(id, r, states[r]) && tasks[r] !in before)
    && (forall t | t in before :: t in now && now[t] == before[t])
    && (forall t | t in now && t !in before :: exists r :: r in todo && tasks[r] == t)
  }

  lemma AllToDo(before: map<nat, Task>, now: map<nat, Task>, id: nat, states: map<Release, Work>,
                tasks: map<Release, nat>)
    requires Started(before, now, id, states, tasks)
    ensures StillToDo(before, now, id, states, tasks, states.Keys)
  {
    hide RepairTask;
    forall t | t in now && t !in before ensures exists r :: r in states.Keys && tasks[r] == t {
      var r :| r in tasks && tasks[r] == t;
    }
  }

  lemma NothingToDo(before: map<nat, Task>, now: map<nat, Task>, id: nat, states: map<Release, Work>,
      tasks: map<Release, nat>)
    requires StillToDo(before, now, id, states, tasks, {})
    ensures now == before
  {
  }

  lemma OneLessToDo(before: map<nat, Task>, now: map<nat, Task>, id: nat, states: map<Release, Work>,
                    tasks: map<Release, nat>, todo: set<Release>, r: Release)
    requires StillToDo(before, now, id, states, tasks, todo) && r in todo
    ensures r in tasks && r in states && tasks[r] in now && now[tasks[r]] == RepairTask(id, r, states[r])
    ensures StillToDo(before, now - {tasks[r]}, id, states, tasks, todo - {r})
  {
    forall x | x in todo && x != r ensures tasks[x] != tasks[r] {
      assert RepairTask(id, x, states[x]).release != RepairTask(id, r, states[r]).release;
    }
    hide RepairTask;
    forall t | t in now - {tasks[r]} && t !in before ensures exists x :: x in todo - {r} && tasks[x] == t {
      var x :| x in todo && tasks[x] == t;
    }
  }

  class Relay {
    const id: nat
    const control: ControlPlane
    var pending: Pending

    constructor (id: nat, control: ControlPlane)
      requires control.Valid() && forall r: Release :: Unsaved(id, r) !in control.Books().unsaved
      ensures this.id == id && this.control == control && pending == map[] && Valid()
    {
      this.id, this.control := id, control;
      pending := map[];
    }

    /** The map is this relay's part of the books. */
    ghost predicate Valid()
      reads this, control
    {
      control.Valid() && HoldsMap(control.Books().unsaved, id, pending)
    }

    /** The release is applied, or somewhere a repair pass will find it. */
    predicate Kept(r: Release)
      reads this`pending, control`counters, control`global
    {
      control.Applied(r) || r in control.global || Has(pending, r)
    }

    predicate Done(r: Release)
      reads this`pending, control`counters, control`global, control`perUser
    {
      control.Applied(r) && r !in control.global && r !in control.perUser && !Has(pending, r)
    }

    /** completePendingRelease, by a task that no longer needs the entry. */
    method CompletePendingRelease(r: Release, ghost task: nat)
      requires Valid() && task in control.Books().tasks && Drops(control.Books().tasks[task], id, r)
      modifies this`pending, control`history
      ensures pending == Drop(old(pending), r)
      ensures Valid()
                && control.Books().tasks ==
                    SetTask(old(control.Books()).tasks, task, AfterStore(old(control.Books()).tasks[task]))
      ensures Extends(old(control.history), control.history, task)
    {
      hide Legal, Run, Extends, SetTask, AfterStore, IsState, HoldsMap, StoreStep, Drop;
      StoreRuns(control.history, control.limit, task);
      DropEffect(control.Books(), task, pending);
      SameHashes(control.Books(), StoreStep(control.Books(), task), control.counters, control.global, control.perUser);
      control.history := control.history + [Store(task)];
      RemoveEntry(r);
    }

    method RemoveEntry(r: Release)
      modifies this`pending
      ensures pending == Drop(old(pending), r)
    {
      if r.user !in pending {
        return;
      }
      var operations := pending[r.user] - {r.operation};
      pending := pending[r.user := operations];
      if |operations| == 0 {
        pending := pending - {r.user};
      }
    }

    // cleanupExpiredPendingReleasesLocked
    method CleanupExpired(now: int, ghost task: nat)
      requires Valid()
      modifies this`pending, control`history
      ensures pending == Clean(old(pending), now)
      ensures Valid() && control.Books() == old(control.Books()).(unsaved := control.Books().unsaved)
      ensures Extends(old(control.history), control.history, task)
    {
      hide Legal, Run, Extends, IsState;
      ghost var expired := ExpiredEntries(control.Books().unsaved, id, pending, now);
      ghost var longer := AgeOutsRun(control.history, control.limit, expired, task);
      CleanEffect(control.Books().unsaved, id, pending, now);
      SameHashes(control.Books(), Run(longer, control.limit), control.counters, control.global, control.perUser);
      RemoveExpired(now);
      control.history := longer;
    }

    method RemoveExpired(now: int)
      modifies this`pending
      ensures pending == Clean(old(pending), now)
    {
      var users := pending.Keys;
      while users != {}
        invariant users <= old(pending).Keys
        invariant forall user | user in users :: user in pending && pending[user] == old(pending)[user]
        invariant forall user | user in pending && user !in users ::
                    user in old(pending) && pending[user] == Unexpired(old(pending)[user], now)
                        && pending[user] != map[]
        invariant forall user | user in old(pending) && user !in users && user !in pending ::
                    Unexpired(old(pending)[user], now) == map[]
        decreases users
      {
        var user :| user in users;
        users := users - {user};
        var operations := Unexpired(pending[user], now);
        pending := pending[user := operations];
        if |operations| == 0 {
          pending := pending - {user};
        }
      }
    }

    /** queueAllocationRelease, by a task whose queueing call failed. */
    method QueueAllocationRelease(r: Release, now: int, ghost task: nat)
      requires Valid() && task in control.Books().tasks && Saves(control.Books().tasks[task], id, r)
      modifies this`pending, control`history
      ensures pending == Put(Clean(old(pending), now), r, now)
      ensures Valid()
                && control.Books().tasks ==
                    SetTask(old(control.Books()).tasks, task, AfterStore(old(control.Books()).tasks[task]))
      ensures Extends(old(control.history), control.history, task)
    {
      hide Legal, Run, Extends, SetTask, AfterStore, IsState, Clean, HoldsMap, StoreStep;
      CleanupExpired(now, task);
      ghost var cleaned := control.history;
      StoreRuns(control.history, control.limit, task);
      PutEffect(control.Books(), task, pending, now);
      SameHashes(control.Books(), StoreStep(control.Books(), task), control.counters, control.global, control.perUser);
      ExtendsFurther(old(control.history), cleaned, cleaned + [Store(task)], task);
      control.history := control.history + [Store(task)];
      if r.user !in pending {
        pending := pending[r.user := map[]];
      }
      pending := pending[r.user := pending[r.user][r.operation := Some(now)]];
    }

    /** snapshotPendingReleases: after a cleanup, all entries or those of one user. */
    method SnapshotPending(user: Option<User>, now: int) returns (entries: set<Release>)
      requires Valid()
      modifies this`pending, control`history
      ensures pending == Clean(old(pending), now)
      ensures entries == Entries(pending, user)
      ensures Valid() && control.Books() == old(control.Books()).(unsaved := control.Books().unsaved)
      ensures old(control.history) <= control.history
    {
      hide Legal, Run, IsState, Extends, Clean, HoldsMap;
      CleanupExpired(now, 0);
      ExtendsIsLonger(old(control.history), control.history, 0);
      entries := Entries(pending, user);
    }

    /** What a pass has to work on, each release with where it was found and with a task started for it. */
    method PendingReleaseStates(user: Option<User>, now: int)
      returns (states: map<Release, Work>, ok: bool, ghost tasks: map<Release, nat>)
      requires Valid()
      modifies this`pending, control`history
      ensures pending == Clean(old(pending), now)
      ensures states.Keys == Entries(pending, user) + if ok then control.Listing(user) else {}
      ensures forall r | r in states :: states[r] == Work(r in Entries(pending, user), ok && r in control.Listing(user))
      ensures control.reliable ==> ok
      ensures Valid() && Started(old(control.Books()).tasks, control.Books().tasks, id, states, tasks)
      ensures old(control.history) <= control.history
    {
      hide Legal, Run, IsState, Started, Clean, HoldsMap;
      var entries := SnapshotPending(user, now);
      var listing := control.PendingReleases(user);
      ok := listing.Some?;
      var durable := if ok then listing.value else {};
      states := map r | r in entries + durable :: Work(r in entries, r in durable);
      FoundFit(control, id, pending, user, ok, states);
      ghost var longer;
      longer, tasks := StartsRun(control.history, control.limit, id, user.None?, ok, states);
      SameHashes(control.Books(), Run(longer, control.limit), control.counters, control.global, control.perUser);
      control.history := longer;
    }

    /** Releases of other operations stay as they are. */
    twostate predicate OnlyTouches(r: Release)
      reads this, control
    {
      && (forall x | x != r :: x in control.global <==> x in old(control.global))
      && (forall x | x != r :: x in control.perUser <==> x in old(control.perUser))
      && (forall x | x != r :: Has(pending, x) <==> Has(old(pending), x))
      && control.CounterOf(r.user.session) in {old(control.CounterOf(r.user.session)),
                                              old(control.CounterOf(r.user.session)).Release(r.operation)}
      && (forall session | session != r.user.session ::
            CounterIn(control.counters, session) == CounterIn(old(control.counters), session))
    }

    /** The first half of a repair: what is only in the relay's map is queued, and then leaves the map. */
    method MakeDurable(r: Release, ghost task: nat) returns (queued: bool)
      requires Valid() && task in control.Books().tasks
      requires control.Books().tasks[task] == RepairTask(id, r, Work(true, false))
      modifies this`pending, control`global, control`perUser, control`history
      ensures pending == if queued then Drop(old(pending), r) else old(pending)
      ensures old(control.global) <= control.global <= old(control.global) + {r}
      ensures old(control.perUser) <= control.perUser <= old(control.perUser) + {r}
      ensures queued ==> r in control.global
      ensures control.reliable ==> queued
      ensures Valid() && Extends(old(control.history), control.history, task)
      ensures control.Books().tasks ==
                SetTask(old(control.Books()).tasks, task, Some(Task(Repair, id, r, !queued, queued, SendRelease)))
    {
      hide Legal, Run, Extends, IsState, HoldsMap, SetTask, Drop;
      ghost var h0, tasks := control.history, control.Books().tasks;
      queued := control.QueuePending(r, task);
      SetTwice(tasks, task, RepairTask(id, r, Work(true, false)), Told(tasks[task], queued));
      if queued {
        ghost var h1, queuedTask := control.history, Task(Repair, id, r, true, true, DropSaved);
        SetTwice(tasks, task, queuedTask, AfterStore(queuedTask));
        CompletePendingRelease(r, task);
        ExtendsFurther(h0, h1, control.history, task);
      }
    }

    /** The second half of a repair: release, complete in the hashes, complete in the map, as far as nothing fails. */
    method FinishRepair(r: Release, state: Work, ghost task: nat) returns (released: bool, ok: bool)
      requires state.local || state.durable
      requires Valid() && task in control.Books().tasks
      requires control.Books().tasks[task] == Task(Repair, id, r, state.local, state.durable, SendRelease)
      modifies this`pending, control`global, control`perUser, control`counters, control`history
      ensures released ==> control.Applied(r)
      ensures ok ==> released && (state.durable ==> r !in control.global && r !in control.perUser)
      ensures pending == if ok && state.local then Drop(old(pending), r) else old(pending)
      ensures old(control.global) - {r} <= control.global <= old(control.global)
      ensures old(control.perUser) - {r} <= control.perUser <= old(control.perUser)
      ensures control.global != old(control.global) || control.perUser != old(control.perUser) ==> released
      ensures control.CounterOf(r.user.session) in {old(control.CounterOf(r.user.session)),
                                                    old(control.CounterOf(r.user.session)).Release(r.operation)}
      ensures released ==>
                control.CounterOf(r.user.session) == old(control.CounterOf(r.user.session)).Release(r.operation)
      ensures forall session | session != r.user.session ::
                CounterIn(control.counters, session) == CounterIn(old(control.counters), session)
      ensures control.reliable ==> ok
      ensures Valid() && Extends(old(control.history), control.history, task)
      ensures control.Books().tasks == SetTask(old(control.Books()).tasks, task, None)
    {
      hide Legal, Run, Extends, IsState, HoldsMap, SetTask, Drop, CounterIn;
      ghost var h0, tasks := control.history, control.Books().tasks;
      released := control.Release(r, task);
      ok := released;
      SetTwice(tasks, task, tasks[task], Told(tasks[task], released));
      if !released {
        return;
      }
      if state.durable {
        ghost var h1, sending := control.history, Task(Repair, id, r, state.local, true, SendComplete);
        SetOnce(tasks, task, sending);
        ok := control.CompletePending(r, task);
        ExtendsFurther(h0, h1, control.history, task);
        SetTwice(tasks, task, sending, Told(sending, ok));
        if !ok {
          return;
        }
      }
      if state.local {
        ghost var h2, dropping := control.history, Task(Repair, id, r, true, state.durable, DropLocal);
        SetOnce(tasks, task, dropping);
        CompletePendingRelease(r, task);
        ExtendsFurther(h0, h2, control.history, task);
        SetTwice(tasks, task, dropping, AfterStore(dropping));
      }
    }

    /**
     One release of a repair pass. Whatever fails, it stays kept; if nothing fails, it is
     applied and gone from everywhere it was known to be.
     */
    method ProcessOne(r: Release, found: Work, ghost task: nat) returns (ok: bool)
      requires found.local || found.durable
      requires Valid() && task in control.Books().tasks && control.Books().tasks[task] == RepairTask(id, r, found)
      modifies this`pending, control`global, control`perUser, control`counters, control`history
      ensures forall x | old(Kept(x)) :: Kept(x)
      ensures forall x | x != r && old(Done(x)) :: Done(x)
      ensures forall x | x != r :: Has(pending, x) <==> Has(old(pending), x)
      ensures ok && (found.local || !Has(old(pending), r)) ==> Done(r)
      ensures ok ==> control.CounterOf(r.user.session) == old(control.CounterOf(r.user.session)).Release(r.operation)
      ensures forall session | session != r.user.session ::
                CounterIn(control.counters, session) == CounterIn(old(control.counters), session)
      ensures OnlyTouches(r)
      ensures control.reliable ==> ok
      ensures Valid() && control.Books().tasks == SetTask(old(control.Books()).tasks, task, None)
      ensures Extends(old(control.history), control.history, task)
    {
      hide Legal, Run, Extends, IsState, HoldsMap, SetTask, Drop;
      ghost var h0, tasks := control.history, control.Books().tasks;
      ghost var first, second := pending, Drop(pending, r);
      HasAfterDrop(first, r);
      HasAfterDrop(second, r);
      var state := found;
      ok := true;
      SetTwice(tasks, task, tasks[task], Some(tasks[task]));
      ExtendsItself(h0, task);
      if state.local && !state.durable {
        ok := MakeDurable(r, task);
        state := Work(!ok, ok);
      }
      ghost var h1, finishing := control.history, Task(Repair, id, r, state.local, state.durable, SendRelease);
      SetTwice(tasks, task, finishing, None);
      var released, finished := FinishRepair(r, state, task);
      ExtendsFurther(h0, h1, control.history, task);
      ok := ok && finished;
    }

    /** The releases a pass will find: the relay's own and, if it can be read, the listing. */
    function Found(user: Option<User>, now: int): set<Release>
      reads this`pending, control`global, control`perUser
    {
      Entries(Clean(pending, now), user) + control.Listing(user)
    }

    /** The loop of a repair pass, over what it found. */
    method ProcessStates(states: map<Release, Work>, read: bool, ghost before: map<nat, Task>,
        ghost tasks: map<Release, nat>)
      returns (ok: bool)
      requires Valid() && StillToDo(before, control.Books().tasks, id, states, tasks, states.Keys)
      requires forall r | r in states :: (states[r].local || states[r].durable) && (Has(pending, r) ==> states[r].local)
      modifies this`pending, control`global, control`perUser, control`counters, control`history
      ensures forall r: Release | old(Kept(r)) :: Kept(r)
      ensures ok ==> read && forall r | r in states :: Done(r)
      ensures ok ==> Settled(old(control.counters), control.counters, states.Keys)
      ensures control.reliable && read ==> ok
      ensures Valid() && old(control.history) <= control.history && control.Books().tasks == before
    {
      hide OnlyTouches, Settled, AfterReleasing, OperationsIn, CounterIn, Legal, Run, IsState, HoldsMap, RepairTask,
           Kept, Done, Has, SetTask, StillToDo, Extends;
      ok := read;
      var todo := states.Keys;
      ghost var counters := control.counters;
      ghost var done: set<Release> := {};
      NothingSettled(counters);
      while todo != {}
        invariant done + todo == states.Keys
        invariant forall r: Release | old(Kept(r)) :: Kept(r)
        invariant ok ==> read
        invariant forall r | r in todo :: Has(pending, r) ==> states[r].local
        invariant ok ==> forall r | r in done :: Done(r)
        invariant ok ==> Settled(counters, control.counters, done)
        invariant control.reliable && read ==> ok
        invariant Valid() && old(control.history) <= control.history
        invariant StillToDo(before, control.Books().tasks, id, states, tasks, todo)
        decreases todo
      {
        var r :| r in todo;
        ghost var middle, h := control.counters, control.history;
        OneLessToDo(before, control.Books().tasks, id, states, tasks, todo, r);
        SetTwice(control.Books().tasks, tasks[r], RepairTask(id, r, states[r]), None);
        var worked := ProcessOne(r, states[r], tasks[r]);
        ExtendsIsLonger(h, control.history, tasks[r]);
        ok := ok && worked;
        if ok {
          SettledOneMore(counters, middle, control.counters, done, r);
        }
        todo, done := todo - {r}, done + {r};
      }
      NothingToDo(before, control.Books().tasks, id, states, tasks);
    }

    /**
     A whole repair pass. No release is lost to any fault; after a pass without an error every
     release it found is applied, exactly once, and gone.
     */
    method ProcessPendingReleases(user: Option<User>, now: int) returns (ok: bool)
      requires Valid()
      modifies this`pending, control`global, control`perUser, control`counters, control`history
      ensures forall r: Release | old(Kept(r))
                && !(Has(old(pending), r) && Expired(old(pending)[r.user][r.operation], now)) :: Kept(r)
      ensures ok ==> forall r | r in old(Found(user, now)) :: Done(r)
      ensures ok ==> Settled(old(control.counters), control.counters, old(Found(user, now)))
      ensures control.reliable ==> ok
      ensures Valid() && old(control.history) <= control.history && control.Books().tasks == old(control.Books()).tasks
    {
      hide OnlyTouches, Settled, AfterReleasing, OperationsIn, CounterIn, Legal, Run, IsState, HoldsMap, RepairTask,
           Started,
           StillToDo, Expired, Clean;
      ghost var before := control.Books().tasks;
      var states, read; ghost var tasks;
      states, read, tasks := PendingReleaseStates(user, now);
      HasAfterClean(old(pending), now);
      AllToDo(before, control.Books().tasks, id, states, tasks);
      ok := ProcessStates(states, read, before, tasks);
    }

    /**
     The quota check before an allocation. With a reliable control plane it is made after all
     the user's owed releases have been applied.
     */
    method QuotaHandler(user: User, quota: int, now: int) returns (allowed: bool)
      requires Valid() && (quota >= 1 ==> quota == control.limit)
      modifies this`pending, control`global, control`perUser, control`counters, control`history
      ensures quota <= 0 ==> allowed && control.counters == old(control.counters) && pending == old(pending)
      ensures quota >= 1 && control.reliable ==>
                var c := AfterReleasing(old(control.CounterOf(user.session)),
                                        OperationsIn(old(Found(Some(user), now)), user.session));
                allowed == (c.count < quota) && control.CounterOf(user.session) == c.Reserve(quota)
      ensures forall r: Release | old(Kept(r))
                && !(Has(old(pending), r) && Expired(old(pending)[r.user][r.operation], now)) :: Kept(r)
      ensures Valid() && old(control.history) <= control.history && control.Books().tasks == old(control.Books()).tasks
    {
      hide Legal, Run, IsState, HoldsMap, Clean;
      if quota <= 0 {
        return true;
      }
      var flushed := ProcessPendingReleases(Some(user), now);
      var ok;
      allowed, ok := control.Reserve(user);
      if !ok {
        allowed := false;
      }
    }

    /**
     The release after a deletion. Whatever fails, a release with a known user and operation
     ends up applied, in the global hash or in the relay's map; with a reliable control plane
     it is applied and nothing is left of it.
     */
    method ReleaseDeletedAllocation(allocationUser: Option<User>, fallbackUser: Option<User>,
                                    operation: Option<Operation>, now: int, ghost task: nat)
      requires Valid()
      requires (allocationUser.Some? || fallbackUser.Some?) && operation.Some? ==>
                 && task in control.Books().tasks
                 && control.Books().tasks[task] ==
                      Launched(id,
                          Release(if allocationUser.Some? then allocationUser.value else fallbackUser.value,
                              operation.value))
      modifies this`pending, control`global, control`perUser, control`counters, control`history
      ensures Valid()
      ensures (allocationUser.None? && fallbackUser.None?) || operation.None? ==>
                pending == old(pending) && control.counters == old(control.counters)
                    && control.history == old(control.history)
                && control.global == old(control.global) && control.perUser == old(control.perUser)
      ensures (allocationUser.Some? || fallbackUser.Some?) && operation.Some? ==>
                var r := Release(if allocationUser.Some? then allocationUser.value else fallbackUser.value,
                    operation.value);
                && Kept(r) && (control.reliable ==> Done(r))
                && Extends(old(control.history), control.history, task)
                && control.Books().tasks == SetTask(old(control.Books()).tasks, task, None)
    {
      hide Legal, Run, Extends, IsState, HoldsMap, Clean, SetTask, Drop;
      var user := if allocationUser.Some? then allocationUser else fallbackUser;
      if user.None? || operation.None? {
        return;
      }
      ghost var h0, tasks := control.history, control.Books().tasks;
      var r := Release(user.value, operation.value);
      var queued := QueueOrSave(r, now, task);
      ghost var h1, finishing := control.history, Task(AfterDelete, id, r, false, queued, SendRelease);
      SetTwice(tasks, task, finishing, None);
      HasAfterDrop(pending, r);
      var released, ok := FinishDeleted(r, queued, task);
      ExtendsFurther(h0, h1, control.history, task);
    }

    /** After the queueing: release, complete in the hashes if they have it, and complete in the map. */
    method FinishDeleted(r: Release, queued: bool, ghost task: nat) returns (released: bool, ok: bool)
      requires Valid() && task in control.Books().tasks
      requires control.Books().tasks[task] == Task(AfterDelete, id, r, false, queued, SendRelease)
      modifies this`pending, control`global, control`perUser, control`counters, control`history
      ensures released ==> control.Applied(r)
      ensures ok ==> released && (queued ==> r !in control.global && r !in control.perUser)
      ensures pending == if released then Drop(old(pending), r) else old(pending)
      ensures old(control.global) - {r} <= control.global <= old(control.global)
      ensures old(control.perUser) - {r} <= control.perUser <= old(control.perUser)
      ensures control.global != old(control.global) || control.perUser != old(control.perUser) ==> released
      ensures control.CounterOf(r.user.session) in {old(control.CounterOf(r.user.session)),
                                                    old(control.CounterOf(r.user.session)).Release(r.operation)}
      ensures released ==>
                control.CounterOf(r.user.session) == old(control.CounterOf(r.user.session)).Release(r.operation)
      ensures forall session | session != r.user.session ::
                CounterIn(control.counters, session) == CounterIn(old(control.counters), session)
      ensures control.reliable ==> ok
      ensures Valid() && Extends(old(control.history), control.history, task)
      ensures control.Books().tasks == SetTask(old(control.Books()).tasks, task, None)
    {
      hide Legal, Run, Extends, IsState, HoldsMap, SetTask, Drop, CounterIn;
      ghost var h0, tasks := control.history, control.Books().tasks;
      released := control.Release(r, task);
      ok := released;
      SetTwice(tasks, task, tasks[task], Told(tasks[task], released));
      if !released {
        return;
      }
      if queued {
        ghost var h1, sending := control.history, Task(AfterDelete, id, r, false, true, SendComplete);
        SetOnce(tasks, task, sending);
        ok := control.CompletePending(r, task);
        ExtendsFurther(h0, h1, control.history, task);
        SetTwice(tasks, task, sending, Told(sending, ok));
      }
      ghost var h2, dropping := control.history, Task(AfterDelete, id, r, false, queued, DropLocal);
      SetOnce(tasks, task, dropping);
      CompletePendingRelease(r, task);
      ExtendsFurther(h0, h2, control.history, task);
      SetTwice(tasks, task, dropping, AfterStore(dropping));
    }

    /** The release is stored before anything else is tried: in the hashes, else in the relay's map. */
    method QueueOrSave(r: Release, now: int, ghost task: nat) returns (queued: bool)
      requires Valid() && task in control.Books().tasks && control.Books().tasks[task] == Launched(id, r)
      modifies this`pending, control`global, control`perUser, control`history
      ensures if queued then r in control.global && pending == old(pending) else Has(pending, r)
      ensures control.reliable ==> queued
      ensures Valid() && Extends(old(control.history), control.history, task)
      ensures control.Books().tasks ==
                SetTask(old(control.Books()).tasks, task, Some(Task(AfterDelete, id, r, false, queued, SendRelease)))
    {
      hide Legal, Run, Extends, IsState, HoldsMap, Clean, SetTask;
      ghost var h0, tasks := control.history, control.Books().tasks;
      queued := control.QueuePending(r, task);
      SetTwice(tasks, task, tasks[task], Told(tasks[task], queued));
      if !queued {
        ghost var h1, saving := control.history, Task(AfterDelete, id, r, false, false, SaveLocal);
        SetOnce(tasks, task, saving);
        SetTwice(tasks, task, saving, AfterStore(saving));
        QueueAllocationRelease(r, now, task);
        ExtendsFurther(h0, h1, control.history, task);
      }
    }
  }

  function Unexpired(operations: map<Operation, Option<int>>, now: int): map<Operation, Option<int>> {
    map op | op in operations && !Expired(operations[op], now) :: operations[op]
  }

  /** The map without its expired entries and without users that have none left. */
  function Clean(p: Pending, now: int): Pending {
    map user | user in p && Unexpired(p[user], now) != map[] :: Unexpired(p[user], now)
  }

  function Entries(p: Pending, user: Option<User>): set<Release> {
    set u, op | u in p && op in p[u] && (user.Some? ==> u == user.value) :: Release(u, op)
  }

  lemma HasAfterClean(p: Pending, now: int)
    ensures forall r: Release :: Has(Clean(p, now), r) <==> Has(p, r) && !Expired(p[r.user][r.operation], now)
  {
    forall r: Release ensures Has(Clean(p, now), r) <==> Has(p, r) && !Expired(p[r.user][r.operation], now) {
      if Has(p, r) && !Expired(p[r.user][r.operation], now) {
        assert r.operation in Unexpired(p[r.user], now);
      }
    }
  }

  lemma HasAfterDrop(p: Pending, r: Release)
    ensures forall x: Release :: Has(Drop(p, r), x) <==> Has(p, x) && x != r
  {
    forall x: Release ensures Has(Drop(p, r), x) <==> Has(p, x) && x != r {
      if Has(p, x) && x != r && x.user == r.user {
        assert x.operation in p[r.user] - {r.operation};
      }
    }
  }
}

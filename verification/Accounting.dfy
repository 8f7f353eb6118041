/**
 TURN allocation accounting as a step system: any number of relays, each with its table of
 tracked allocations, its reconciler, its release goroutines and its map of unsaved
 releases, against one shared backend.

 Every backend call is a request that travels on its own. It may be carried out late, more
 than once, partly (the two hash writes of Queue and Complete are separate commands) or not
 at all, and the caller may be told of a failure whatever happened. Success is reported
 only for a request that was carried out.
 */
module Accounting {
  import opened AllocationCounter
  import opened Options

  datatype User = User(session: string, digest: string)

  /** One owed release: the slot of the allocation that was given this operation ID. */
  datatype Release = Release(user: User, operation: Operation)

  /** A five-tuple on one relay. */
  datatype Slot = Slot(relay: nat, tuple: string)

  /** A release in the unsaved map of one relay. */
  datatype Unsaved = Unsaved(relay: nat, release: Release)

  /** A tracked allocation as a reconciler saw it. */
  datatype Sighting = Sighting(slot: Slot, release: Release)

  datatype Request = QueueRequest | ReleaseRequest | CompleteRequest

  datatype Stage = Sent | Half | Done

  datatype Call = Call(request: Request, release: Release, stage: Stage)

  datatype Program = AfterDelete | Repair

  datatype Point =
    | ReadDurable
    | SendQueue
    | AwaitQueue(call: nat)
    | SaveLocal
    | DropSaved
    | SendRelease
    | AwaitRelease(call: nat)
    | SendComplete
    | AwaitComplete(call: nat)
    | DropLocal

  /** A goroutine working on one release: after a deletion, or in a repair pass. */
  datatype Task = Task(program: Program, relay: nat, release: Release, local: bool, durable: bool, point: Point)

  /**
   The Redis counter of one session with its history: slots granted so far, grants not yet
   turned into an allocation, and grants that never will be.
   */
  datatype Ledger = Ledger(counter: Counter, granted: nat, tickets: nat, leaked: nat)

  datatype State = State(
    ledgers: map<string, Ledger>,
    global: set<Release>,            // the hash turn:pending_releases
    perUser: set<Release>,           // the hashes turn:pending_releases:<user>
    calls: map<nat, Call>,
    tracked: map<Slot, Release>,     // activeAllocations of every relay
    alive: map<Slot, Release>,       // what the TURN servers really hold
    undelivered: set<Slot>,          // deleted allocations whose callback is still to come
    seen: set<Sighting>,             // reconciler snapshots
    missing: set<Sighting>,          // snapshots the server was found not to have
    unsaved: set<Unsaved>,           // pendingReleases of every relay
    tasks: map<nat, Task>,
    owner: map<Operation, User>,     // every operation ID ever issued
    launches: seq<Release>,          // every release goroutine ever started
    forgotten: set<Release>)         // tracked allocations overwritten or lost in a crash
  {
    function LedgerOf(session: string): Ledger {
      if session in ledgers then ledgers[session] else Ledger(Counter(0, {}), 0, 0, 0)
    }

    predicate Applied(r: Release) {
      r.operation in LedgerOf(r.user.session).counter.released
    }

    /** Recorded where every relay can see it, or no longer owed. */
    predicate Persisted(r: Release) {
      r in global || Applied(r)
    }

    ghost predicate HeldLocally(r: Release) {
      exists relay :: Unsaved(relay, r) in unsaved
    }

    /** Applied, or somewhere that outlives the goroutine that works on it. */
    ghost predicate Secured(r: Release) {
      Persisted(r) || HeldLocally(r)
    }

    /** The release goroutine has it and has not yet stored it anywhere. */
    ghost predicate HeldByGoroutine(r: Release) {
      exists t :: t in tasks && tasks[t].release == r && Unstored(tasks[t])
    }

    /** Applied, or in some place from which a repair pass or its own goroutine takes it on. */
    ghost predicate Kept(r: Release) {
      Secured(r) || HeldByGoroutine(r)
    }

    predicate Known(r: Release) {
      r.operation in owner && owner[r.operation] == r.user
    }
  }

  predicate Unstored(t: Task) {
    t.program == AfterDelete && (t.point.SendQueue? || t.point.AwaitQueue? || t.point.SaveLocal?)
  }

  const Initial := State(map[], {}, {}, map[], map[], map[], {}, {}, {}, {}, map[], map[], [], {})

  datatype Action =
    | Reserve(session: string, heard: bool)
    | Abandon(session: string)
    | Create(slot: Slot, user: User, operation: Operation)
    | Die(slot: Slot)
    | Callback(slot: Slot, task: nat)
    | Snapshot(slot: Slot)
    | Probe(sighting: Sighting)
    | Reconcile(sighting: Sighting, task: nat)
    | StartRepair(task: nat, entry: Unsaved)
    | StartDurableRepair(task: nat, relay: nat, release: Release)
    | Merge(task: nat, readOk: bool, wholeList: bool)
    | Send(task: nat, call: nat)
    | Serve(call: nat, second: bool)
    | Answer(task: nat, ok: bool)
    | Store(task: nat)
    | Panic(task: nat)
    | AgeOut(entry: Unsaved)
    | Crash(relay: nat)

  // ---- quota and allocations ----

  /** The reserve script runs; the relay may or may not hear of it. */
  function ReserveStep(s: State, session: string, heard: bool, limit: int): State {
    var l := s.LedgerOf(session);
    var l' := if l.counter.count < limit
              then Ledger(l.counter.Reserve(limit), l.granted + 1,
                          if heard then l.tickets + 1 else l.tickets,
                          if heard then l.leaked else l.leaked + 1)
              else l;
    s.(ledgers := s.ledgers[session := l'])
  }

  /** The allocation fails after its slot was granted. */
  function AbandonStep(s: State, session: string): State
    requires s.LedgerOf(session).tickets > 0
  {
    var l := s.LedgerOf(session);
    s.(ledgers := s.ledgers[session := l.(tickets := l.tickets - 1, leaked := l.leaked + 1)])
  }

  /** A granted allocation is made and its create callback tracks it. */
  function CreateStep(s: State, slot: Slot, user: User, operation: Operation): State
    requires s.LedgerOf(user.session).tickets > 0
  {
    var l := s.LedgerOf(user.session);
    var r := Release(user, operation);
    s.(ledgers := s.ledgers[user.session := l.(tickets := l.tickets - 1)],
       owner := s.owner[operation := user],
       tracked := s.tracked[slot := r],
       alive := s.alive[slot := r],
       undelivered := s.undelivered - {slot},
       forgotten := if slot in s.tracked then s.forgotten + {s.tracked[slot]} else s.forgotten)
  }

  /** Removing a tracked allocation and starting its release goroutine. */
  function LaunchStep(s: State, slot: Slot, task: nat): State
    requires slot in s.tracked
  {
    var r := s.tracked[slot];
    s.(tracked := s.tracked - {slot},
       tasks := s.tasks[task := Task(AfterDelete, slot.relay, r, false, false, SendQueue)],
       launches := s.launches + [r])
  }

  /** The delete callback; for an untracked five-tuple there is no operation to release. */
  function CallbackStep(s: State, slot: Slot, task: nat): State {
    var s' := s.(undelivered := s.undelivered - {slot});
    if slot in s.tracked then LaunchStep(s', slot, task) else s'
  }

  /** Removal by the reconciler, only if the operation is still the one it saw. */
  function ReconcileStep(s: State, sighting: Sighting, task: nat): State {
    var s' := s.(missing := s.missing - {sighting});
    if sighting.slot in s.tracked && s.tracked[sighting.slot].operation == sighting.release.operation
    then LaunchStep(s', sighting.slot, task) else s'
  }

  // ---- release goroutines ----

  /** A repair pass adds the durable listing, if it could read one, to its own snapshot. */
  function MergeStep(s: State, task: nat, readOk: bool, wholeList: bool): State
    requires task in s.tasks
  {
    var t := s.tasks[task];
    var durable := readOk && t.release in (if wholeList then s.global else s.perUser);
    s.(tasks := s.tasks[task := t.(durable := durable, point := if durable then SendRelease else SendQueue)])
  }

  predicate CanSend(t: Task) {
    t.point.SendQueue? || t.point.SendRelease? || t.point.SendComplete?
  }

  function RequestAt(point: Point): Request {
    if point.SendQueue? then QueueRequest
    else if point.SendRelease? then ReleaseRequest
    else CompleteRequest
  }

  function AwaitAnswer(point: Point, call: nat): Point {
    if point.SendQueue? then AwaitQueue(call)
    else if point.SendRelease? then AwaitRelease(call)
    else AwaitComplete(call)
  }

  function SendStep(s: State, task: nat, call: nat): State
    requires task in s.tasks
  {
    var t := s.tasks[task];
    s.(calls := s.calls[call := Call(RequestAt(t.point), t.release, Sent)],
       tasks := s.tasks[task := t.(point := AwaitAnswer(t.point, call))])
  }

  /** The control plane carries out one command of a request, for the first time or again. */
  function ServeStep(s: State, call: nat, second: bool): State
    requires call in s.calls
  {
    var c := s.calls[call];
    var r := c.release;
    var l := s.LedgerOf(r.user.session);
    var done := second || c.request.ReleaseRequest? || c.stage.Done?;
    s.(calls := s.calls[call := c.(stage := if done then Done else Half)],
       global := if second || c.request.ReleaseRequest? then s.global
                 else if c.request.QueueRequest? then s.global + {r}
                 else s.global - {r},
       perUser := if !second || c.request.ReleaseRequest? then s.perUser
                  else if c.request.QueueRequest? then s.perUser + {r}
                  else s.perUser - {r},
       ledgers := if c.request.ReleaseRequest?
                  then s.ledgers[r.user.session := l.(counter := l.counter.Release(r.operation))]
                  else s.ledgers)
  }

  predicate Waiting(t: Task) {
    t.point.AwaitQueue? || t.point.AwaitRelease? || t.point.AwaitComplete?
  }

  /** Where the caller goes on when it hears of success or failure; None when it is done. */
  function AfterAnswer(t: Task, ok: bool): Option<Task>
    requires Waiting(t)
  {
    match (t.program, t.point)
    case (AfterDelete, AwaitQueue(_)) =>
      Some(if ok then t.(durable := true, point := SendRelease) else t.(point := SaveLocal))
    case (Repair, AwaitQueue(_)) =>
      Some(if ok then t.(durable := true, point := DropSaved) else t.(point := SendRelease))
    case (_, AwaitRelease(_)) =>
      if ok then Some(t.(point := if t.durable then SendComplete else DropLocal)) else None
    case (AfterDelete, _) => Some(t.(point := DropLocal))
    case (Repair, _) => if ok && t.local then Some(t.(point := DropLocal)) else None
  }

  function SetTask(tasks: map<nat, Task>, task: nat, next: Option<Task>): map<nat, Task> {
    if next.Some? then tasks[task := next.value] else tasks - {task}
  }

  function AnswerStep(s: State, task: nat, ok: bool): State
    requires task in s.tasks && Waiting(s.tasks[task])
  {
    s.(tasks := SetTask(s.tasks, task, AfterAnswer(s.tasks[task], ok)))
  }

  predicate CanStore(t: Task) {
    t.point.SaveLocal? || t.point.DropSaved? || t.point.DropLocal?
  }

  function AfterStore(t: Task): Option<Task> {
    match t.point
    case SaveLocal => Some(t.(point := SendRelease))
    case DropSaved => Some(t.(local := false, point := SendRelease))
    case _ => None
  }

  /** The relay's own map, under its mutex. */
  function StoreStep(s: State, task: nat): State
    requires task in s.tasks
  {
    var t := s.tasks[task];
    var entry := Unsaved(t.relay, t.release);
    s.(unsaved := if t.point.SaveLocal? then s.unsaved + {entry} else s.unsaved - {entry},
       tasks := SetTask(s.tasks, task, AfterStore(t)))
  }

  /** A panic ends a repair pass; a release goroutine recovers by storing its release. */
  function PanicStep(s: State, task: nat): State
    requires task in s.tasks
  {
    var t := s.tasks[task];
    s.(unsaved := if t.program == AfterDelete then s.unsaved + {Unsaved(t.relay, t.release)} else s.unsaved,
       tasks := s.tasks - {task})
  }

  /** An entry of the relay's map is dropped after 25 hours. */
  function AgeOutStep(s: State, entry: Unsaved): State {
    s.(unsaved := s.unsaved - {entry})
  }

  /** The relay process dies with everything it keeps in memory. */
  function CrashStep(s: State, relay: nat): State {
    s.(tracked := (map slot | slot in s.tracked && slot.relay != relay :: s.tracked[slot]),
       alive := (map slot | slot in s.alive && slot.relay != relay :: s.alive[slot]),
       undelivered := (set slot | slot in s.undelivered && slot.relay != relay),
       seen := (set x | x in s.seen && x.slot.relay != relay),
       missing := (set x | x in s.missing && x.slot.relay != relay),
       unsaved := (set x | x in s.unsaved && x.relay != relay),
       tasks := (map t | t in s.tasks && s.tasks[t].relay != relay :: s.tasks[t]),
       forgotten := s.forgotten + (set slot | slot in s.tracked && slot.relay == relay :: s.tracked[slot]))
  }

  // ---- the step relation ----

  predicate Enabled(s: State, a: Action) {
    match a
    case Reserve(_, _) => true
    case Abandon(session) => s.LedgerOf(session).tickets > 0
    case Create(slot, user, operation) =>
      slot !in s.alive && operation !in s.owner && s.LedgerOf(user.session).tickets > 0
    case Die(slot) => slot in s.alive
    case Callback(slot, task) => slot in s.undelivered && task !in s.tasks
    case Snapshot(slot) => slot in s.tracked
    case Probe(x) => x in s.seen && x.slot !in s.alive
    case Reconcile(x, task) => x in s.missing && task !in s.tasks
    case StartRepair(task, entry) => task !in s.tasks && entry in s.unsaved
    case StartDurableRepair(task, _, r) => task !in s.tasks && (r in s.global || r in s.perUser)
    case Merge(task, _, _) => task in s.tasks && s.tasks[task].point.ReadDurable?
    case Send(task, call) => task in s.tasks && CanSend(s.tasks[task]) && call !in s.calls
    case Serve(call, second) =>
      call in s.calls && (second ==> s.calls[call].stage != Sent && !s.calls[call].request.ReleaseRequest?)
    case Answer(task, ok) =>
      && task in s.tasks && Waiting(s.tasks[task])
      && (ok ==> s.tasks[task].point.call in s.calls && s.calls[s.tasks[task].point.call].stage == Done)
    case Store(task) => task in s.tasks && CanStore(s.tasks[task])
    case Panic(task) => task in s.tasks
    case AgeOut(entry) => entry in s.unsaved
    case Crash(_) => true
  }

  function Apply(s: State, a: Action, limit: int): State
    requires Enabled(s, a)
  {
    match a
    case Reserve(session, heard) => ReserveStep(s, session, heard, limit)
    case Abandon(session) => AbandonStep(s, session)
    case Create(slot, user, operation) => CreateStep(s, slot, user, operation)
    case Die(slot) => s.(alive := s.alive - {slot}, undelivered := s.undelivered + {slot})
    case Callback(slot, task) => CallbackStep(s, slot, task)
    case Snapshot(slot) => s.(seen := s.seen + {Sighting(slot, s.tracked[slot])})
    case Probe(x) => s.(seen := s.seen - {x}, missing := s.missing + {x})
    case Reconcile(x, task) => ReconcileStep(s, x, task)
    case StartRepair(task, entry) =>
      s.(tasks := s.tasks[task := Task(Repair, entry.relay, entry.release, true, false, ReadDurable)])
    case StartDurableRepair(task, relay, r) =>
      s.(tasks := s.tasks[task := Task(Repair, relay, r, false, true, SendRelease)])
    case Merge(task, readOk, wholeList) => MergeStep(s, task, readOk, wholeList)
    case Send(task, call) => SendStep(s, task, call)
    case Serve(call, second) => ServeStep(s, call, second)
    case Answer(task, ok) => AnswerStep(s, task, ok)
    case Store(task) => StoreStep(s, task)
    case Panic(task) => PanicStep(s, task)
    case AgeOut(entry) => AgeOutStep(s, entry)
    case Crash(relay) => CrashStep(s, relay)
  }

  /** A run is a sequence of actions, each enabled where it happens. */
  predicate Legal(actions: seq<Action>, limit: int)
    decreases |actions|, 0
  {
    actions == [] ||
    (Legal(actions[..|actions| - 1], limit) &&
     Enabled(Run(actions[..|actions| - 1], limit), actions[|actions| - 1]))
  }

  function Run(actions: seq<Action>, limit: int): State
    requires Legal(actions, limit)
    decreases |actions|, 1
  {
    if actions == [] then Initial
    else Apply(Run(actions[..|actions| - 1], limit), actions[|actions| - 1], limit)
  }
}

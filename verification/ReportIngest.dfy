/**
 Report ingestion as a system of steps: one stream with one consumer group, any number of
 consumers, and tasks that each handle one delivery. Messages can be delivered again, taken
 over by other consumers, and handled by several tasks at once; tasks can stop anywhere.
 */
module ReportIngest {
  import opened Options
  import opened FreshNumbers

  type Id = nat

  /** A message without a payload string, with a payload that does not parse, or with a report. */
  datatype Message = NoPayload | Garbage | Report(content: string)

  datatype Point = Parse | Insert | Lookup | Ack | Delete | Ended(handled: bool)

  /** One call of processMessage; seen is the message as it was read. */
  datatype Task = Task(id: Id, seen: Message, point: Point)

  datatype Row = Row(message: Id, content: string)

  datatype State = State(
    log: map<Id, Message>,        // every message ever added
    stream: set<Id>,              // those still stored in the stream
    delivered: set<Id>,           // those the group has handed out
    owner: map<Id, nat>,          // the group's pending entries list
    acked: set<Id>,
    trimmed: set<Id>,             // cut off by the stream's length limit
    rows: map<nat, Row>,          // the reports table
    tasks: map<nat, Task>)
  {
    ghost predicate HasRow(id: Id) {
      exists r :: r in rows && rows[r].message == id
    }

    ghost predicate Malformed(id: Id) {
      id in log && !log[id].Report?
    }

    ghost predicate Settled(id: Id) {
      HasRow(id) || Malformed(id) || id in trimmed
    }

    /** What a consumer gets to see of a pending message: nothing, if the stream lost it. */
    function Contents(id: Id): Message {
      if id in stream && id in log then log[id] else NoPayload
    }
  }

  const Initial := State(map[], {}, {}, map[], {}, {}, map[], map[])

  datatype Action =
    | Add(id: Id, message: Message)
    | Trim(id: Id)
    | Deliver(id: Id, consumer: nat, opens: Option<nat>)     // XREADGROUP ">"; None if the reply is lost
    | Redeliver(id: Id, consumer: nat, task: nat)            // XREADGROUP "0"
    | Claim(id: Id, consumer: nat, opens: Option<nat>)       // XAUTOCLAIM, which drops what the stream has lost
    | ParsePayload(task: nat)
    | InsertRow(task: nat, row: nat, fate: Fate)
    | LookUp(task: nat, ok: bool)
    | AckMessage(task: nat, fate: Fate)
    | DeleteMessage(task: nat, fate: Fate)
    | Crash(task: nat)

  function At(s: State, t: nat): Point {
    if t in s.tasks then s.tasks[t].point else Ended(false)
  }

  predicate Enabled(s: State, a: Action) {
    match a
    case Add(id, _) => id !in s.log
    case Trim(id) => id in s.stream
    case Deliver(id, _, t) => id in s.stream && id !in s.delivered && (t.Some? ==> t.value !in s.tasks)
    case Redeliver(id, c, t) => id in s.owner && s.owner[id] == c && t !in s.tasks
    case Claim(id, _, t) => id in s.owner && (t.Some? ==> id in s.stream && t.value !in s.tasks)
    case ParsePayload(t) => At(s, t) == Parse
    case InsertRow(t, row, _) => At(s, t) == Insert && s.tasks[t].seen.Report? && row !in s.rows
    case LookUp(t, _) => At(s, t) == Lookup
    case AckMessage(t, _) => At(s, t) == Ack
    case DeleteMessage(t, _) => At(s, t) == Delete
    case Crash(t) => t in s.tasks
  }

  function Opened(s: State, t: Option<nat>, id: Id): map<nat, Task> {
    if t.Some? then s.tasks[t.value := Task(id, s.Contents(id), Parse)] else s.tasks
  }

  function MovedTo(s: State, t: nat, p: Point): map<nat, Task>
    requires t in s.tasks
  {
    s.tasks[t := s.tasks[t].(point := p)]
  }

  predicate Duplicate(s: State, id: Id) {
    exists r | r in s.rows :: s.rows[r].message == id
  }

  /** The unique index on the message ID refuses a second row. */
  function Inserted(s: State, t: nat, row: nat, fate: Fate): State
    requires t in s.tasks && s.tasks[t].seen.Report?
  {
    var task := s.tasks[t];
    var stores := fate.Applied() && !Duplicate(s, task.id);
    s.(rows := if stores then s.rows[row := Row(task.id, task.seen.content)] else s.rows,
       tasks := MovedTo(s, t, if !fate.Worked? then Ended(false) else if stores then Ack else Lookup))
  }

  function Apply(s: State, a: Action): State
    requires Enabled(s, a)
  {
    match a
    case Add(id, m) => s.(log := s.log[id := m], stream := s.stream + {id})
    case Trim(id) => s.(stream := s.stream - {id}, trimmed := s.trimmed + {id})
    case Deliver(id, c, t) => s.(delivered := s.delivered + {id}, owner := s.owner[id := c], tasks := Opened(s, t, id))
    case Redeliver(id, _, t) => s.(tasks := Opened(s, Some(t), id))
    case Claim(id, c, t) =>
      s.(owner := if id in s.stream then s.owner[id := c] else s.owner - {id}, tasks := Opened(s, t, id))
    case ParsePayload(t) => s.(tasks := MovedTo(s, t, if s.tasks[t].seen.Report? then Insert else Ack))
    case InsertRow(t, row, fate) => Inserted(s, t, row, fate)
    case LookUp(t, ok) => s.(tasks := MovedTo(s, t, if ok then Ack else Ended(false)))
    case AckMessage(t, fate) =>
      var id := s.tasks[t].id;
      s.(owner := if fate.Applied() then s.owner - {id} else s.owner,
         acked := if fate.Applied() then s.acked + {id} else s.acked,
         tasks := MovedTo(s, t, if fate.Worked? then Delete else Ended(false)))
    case DeleteMessage(t, fate) =>
      s.(stream := if fate.Applied() then s.stream - {s.tasks[t].id} else s.stream,
         tasks := MovedTo(s, t, Ended(true)))
    case Crash(t) => s.(tasks := s.tasks - {t})
  }

  predicate Legal(s: State, actions: seq<Action>)
    decreases |actions|
  {
    actions == [] || (Enabled(s, actions[0]) && Legal(Apply(s, actions[0]), actions[1..]))
  }

  function Run(s: State, actions: seq<Action>): State
    requires Legal(s, actions)
    decreases |actions|
  {
    if actions == [] then s else Run(Apply(s, actions[0]), actions[1..])
  }

  // ---- the invariant ----

  ghost predicate RowsFit(s: State) {
    && (forall r | r in s.rows :: s.rows[r].message in s.log && s.log[s.rows[r].message] == Report(s.rows[r].content))
    && (forall q, r | q in s.rows && r in s.rows && s.rows[q].message == s.rows[r].message :: q == r)
  }

  ghost predicate TaskFits(s: State, t: Task) {
    && t.id in s.delivered
    && (t.seen.Report? ==> t.id in s.log && s.log[t.id] == t.seen)
    && (!t.seen.Report? ==> s.Malformed(t.id) || t.id in s.trimmed)
    && match t.point
       case Parse => true
       case Insert => t.seen.Report?
       case Lookup => s.HasRow(t.id)
       case Ack => s.Settled(t.id) && (t.seen.Report? ==> s.HasRow(t.id))
       case Delete => t.id in s.acked
       case Ended(handled) => handled ==> t.id in s.acked
  }

  ghost predicate TasksFit(s: State) {
    forall t | t in s.tasks :: TaskFits(s, s.tasks[t])
  }

  ghost predicate Counted(s: State) {
    && s.owner.Keys !! s.acked && s.owner.Keys + s.acked <= s.delivered <= s.owner.Keys + s.acked + s.trimmed
    && s.delivered <= s.log.Keys && s.stream <= s.log.Keys && s.log.Keys - s.stream <= s.acked + s.trimmed
    && s.trimmed <= s.log.Keys - s.stream
  }

  /** Every message delivered is still pending, or cut off, or was acknowledged, and then it was settled. */
  ghost predicate Accounted(s: State) {
    Counted(s) && forall id | id in s.acked :: s.Settled(id)
  }

  ghost predicate Invariant(s: State) {
    RowsFit(s) && TasksFit(s) && Accounted(s)
  }

  /** Nothing that the facts about a message rest on ever goes away. */
  ghost predicate Grows(s: State, s': State) {
    && (forall id | id in s.log :: id in s'.log && s'.log[id] == s.log[id])
    && (forall r | r in s.rows :: r in s'.rows && s'.rows[r] == s.rows[r])
    && s.delivered <= s'.delivered && s.acked <= s'.acked && s.trimmed <= s'.trimmed
  }

  lemma SettledStays(s: State, s': State, id: Id)
    requires Grows(s, s')
    ensures s.HasRow(id) ==> s'.HasRow(id)
    ensures s.Malformed(id) ==> s'.Malformed(id)
    ensures s.Settled(id) ==> s'.Settled(id)
  {
  }

  lemma TaskFitsStays(s: State, s': State, t: Task)
    requires Grows(s, s') && TaskFits(s, t)
    ensures TaskFits(s', t)
  {
    hide State.HasRow, State.Malformed, State.Settled;
    SettledStays(s, s', t.id);
  }

  lemma StepGrows(s: State, a: Action)
    requires Enabled(s, a)
    ensures Grows(s, Apply(s, a))
  {
    hide MovedTo, Opened, Duplicate;
  }

  /** The tasks of a step: one is new or has moved, one may be gone, the others are as they were. */
  lemma TasksStillFit(s: State, s': State, changed: Option<nat>)
    requires TasksFit(s) && Grows(s, s')
    requires forall t | t in s'.tasks && changed != Some(t) :: t in s.tasks && s'.tasks[t] == s.tasks[t]
    requires changed.Some? && changed.value in s'.tasks ==> TaskFits(s', s'.tasks[changed.value])
    ensures TasksFit(s')
  {
    hide TaskFits, Grows;
    forall t | t in s'.tasks ensures TaskFits(s', s'.tasks[t]) {
      if changed != Some(t) {
        TaskFitsStays(s, s', s.tasks[t]);
      }
    }
  }

  /** A delivery opens a task that fits. */
  lemma OpenedFits(s: State, s': State, id: Id)
    requires Accounted(s) && Grows(s, s') && id in s'.delivered && id in s.log
    requires id in s.stream || id in s.owner
    ensures TaskFits(s', Task(id, s.Contents(id), Parse))
  {
    hide State.Settled, State.HasRow;
    if id !in s.stream {
      assert id in s.owner.Keys && id !in s.acked;
      assert id in s.log.Keys - s.stream;
    }
  }

  function Changed(a: Action): Option<nat> {
    match a
    case Add(_, _) => None
    case Trim(_) => None
    case Deliver(_, _, t) => t
    case Redeliver(_, _, t) => Some(t)
    case Claim(_, _, t) => t
    case ParsePayload(t) => Some(t)
    case InsertRow(t, _, _) => Some(t)
    case LookUp(t, _) => Some(t)
    case AckMessage(t, _) => Some(t)
    case DeleteMessage(t, _) => Some(t)
    case Crash(t) => Some(t)
  }

  lemma OthersUnchanged(s: State, a: Action)
    requires Enabled(s, a)
    ensures forall t | t in Apply(s, a).tasks && Changed(a) != Some(t) ::
              t in s.tasks && Apply(s, a).tasks[t] == s.tasks[t]
  {
    hide Duplicate;
  }

  lemma MovedFits(s: State, a: Action, t: nat)
    requires Invariant(s) && Enabled(s, a) && Changed(a) == Some(t) && t in Apply(s, a).tasks && t in s.tasks
    ensures TaskFits(Apply(s, a), Apply(s, a).tasks[t])
  {
    var s' := Apply(s, a);
    StepGrows(s, a);
    assert TaskFits(s, s.tasks[t]);
    hide Grows, State.Settled, State.Malformed, State.HasRow, Accounted, RowsFit, TasksFit;
    SettledStays(s, s', s.tasks[t].id);
    match a
    case InsertRow(_, row, fate) =>
      InsertedHasRow(s, t, row, fate);
    case _ =>
  }

  /** After an insert that was not refused for another reason, the message has its row. */
  lemma InsertedHasRow(s: State, t: nat, row: nat, fate: Fate)
    requires t in s.tasks && s.tasks[t].seen.Report? && row !in s.rows
    ensures fate.Applied() ==> Inserted(s, t, row, fate).HasRow(s.tasks[t].id)
    ensures Inserted(s, t, row, fate).HasRow(s.tasks[t].id) ==> Inserted(s, t, row, fate).Settled(s.tasks[t].id)
  {
    var s' := Inserted(s, t, row, fate);
    if fate.Applied() {
      if Duplicate(s, s.tasks[t].id) {
        var r :| r in s.rows && s.rows[r].message == s.tasks[t].id;
        assert s'.rows[r].message == s.tasks[t].id;
      } else {
        assert s'.rows[row].message == s.tasks[t].id;
      }
    }
  }

  lemma RowsStillFit(s: State, a: Action)
    requires Invariant(s) && Enabled(s, a)
    ensures RowsFit(Apply(s, a))
  {
    hide Accounted, State.Settled, State.HasRow;
    StepGrows(s, a);
    if a.InsertRow? {
      assert TaskFits(s, s.tasks[a.task]);
    }
  }

  lemma StillCounted(s: State, a: Action)
    requires Invariant(s) && Enabled(s, a)
    ensures Counted(Apply(s, a))
  {
    var s' := Apply(s, a);
    if a.AckMessage? || a.DeleteMessage? {
      assert TaskFits(s, s.tasks[a.task]);
      assert s.tasks[a.task].id in s.delivered && (a.DeleteMessage? ==> s.tasks[a.task].id in s.acked);
    }
    hide RowsFit, TasksFit, TaskFits, State.Settled, Opened, MovedTo, Duplicate, State.HasRow, State.Malformed;
    match a
    case Add(id, m) => assert s'.log.Keys == s.log.Keys + {id};
    case Deliver(id, c, _) => assert s'.owner.Keys == s.owner.Keys + {id};
    case Claim(id, c, _) =>
      assert id !in s.stream ==> id in s.log.Keys - s.stream;
      assert id in s.owner.Keys && s'.owner.Keys == if id in s.stream then s.owner.Keys else s.owner.Keys - {id};
    case AckMessage(t, fate) =>
      assert s'.owner.Keys == if fate.Applied() then s.owner.Keys - {s.tasks[t].id} else s.owner.Keys;
    case Trim(id) => assert s'.log.Keys - s'.stream <= (s.log.Keys - s.stream) + {id};
    case _ =>
  }

  lemma StillAccounted(s: State, a: Action)
    requires Invariant(s) && Enabled(s, a)
    ensures Accounted(Apply(s, a))
  {
    var s' := Apply(s, a);
    StepGrows(s, a);
    StillCounted(s, a);
    hide Grows, State.Malformed, State.HasRow, RowsFit, Counted;
    if a.AckMessage? {
      assert TaskFits(s, s.tasks[a.task]);
    }
    hide State.Settled, TasksFit;
    forall id | id in s'.acked ensures s'.Settled(id) {
      SettledStays(s, s', id);
    }
  }

  lemma StepKeepsInvariant(s: State, a: Action)
    requires Invariant(s) && Enabled(s, a)
    ensures Invariant(Apply(s, a))
  {
    RowsStillFit(s, a);
    StillAccounted(s, a);
    StepGrows(s, a);
    OthersUnchanged(s, a);
    assert Changed(a).Some? && Changed(a).value in Apply(s, a).tasks ==>
           TaskFits(Apply(s, a), Apply(s, a).tasks[Changed(a).value]) by {
      if Changed(a).Some? && Changed(a).value in Apply(s, a).tasks {
        if Changed(a).value in s.tasks {
          MovedFits(s, a, Changed(a).value);
        } else {
          OpenedFits(s, Apply(s, a), a.id);
        }
      }
    }
    hide RowsFit, TaskFits, Accounted, Grows;
    TasksStillFit(s, Apply(s, a), Changed(a));
  }

  lemma {:induction false} RunKeepsInvariant(s: State, actions: seq<Action>)
    requires Invariant(s) && Legal(s, actions)
    ensures Invariant(Run(s, actions))
    decreases |actions|
  {
    hide Invariant, Apply, Enabled;
    if actions != [] {
      StepKeepsInvariant(s, actions[0]);
      RunKeepsInvariant(Apply(s, actions[0]), actions[1..]);
    }
  }

  // ---- what every run keeps ----

  lemma InitialInvariant()
    ensures Invariant(Initial)
  {
  }

  /** At most one row for each message, and the row holds the report of that message. */
  lemma OneRowPerMessage(actions: seq<Action>, q: nat, r: nat)
    requires Legal(Initial, actions) && var s := Run(Initial, actions); q in s.rows && r in s.rows
    ensures var s := Run(Initial, actions);
            && (s.rows[q].message == s.rows[r].message ==> q == r)
            && s.rows[r].message in s.log && s.log[s.rows[r].message] == Report(s.rows[r].content)
  {
    InitialInvariant();
    RunKeepsInvariant(Initial, actions);
  }

  /** A message is acknowledged only if its row exists, it is malformed, or the stream's length limit had cut it off. */
  lemma AckedIsSettled(actions: seq<Action>, id: Id)
    requires Legal(Initial, actions) && id in Run(Initial, actions).acked
    ensures Run(Initial, actions).Settled(id)
  {
    InitialInvariant();
    RunKeepsInvariant(Initial, actions);
  }

  /** Without a length limit no report is lost: it waits in the stream, is pending, or has its row. */
  lemma NoReportIsLost(actions: seq<Action>, id: Id)
    requires Legal(Initial, actions)
    requires var s := Run(Initial, actions); id in s.log && s.log[id].Report? && s.trimmed == {}
    ensures var s := Run(Initial, actions);
            (id in s.stream && id !in s.delivered) || (id in s.stream && id in s.owner) || s.HasRow(id)
  {
    InitialInvariant();
    RunKeepsInvariant(Initial, actions);
    var s := Run(Initial, actions);
    assert id in s.acked ==> s.Settled(id);
    assert id in s.log.Keys;
  }

  /** A task that ends with success has seen its message acknowledged. */
  lemma SuccessMeansAcked(actions: seq<Action>, t: nat)
    requires Legal(Initial, actions) && var s := Run(Initial, actions); t in s.tasks && s.tasks[t].point == Ended(true)
    ensures var s := Run(Initial, actions); s.tasks[t].id in s.acked && s.Settled(s.tasks[t].id)
  {
    InitialInvariant();
    RunKeepsInvariant(Initial, actions);
    var s := Run(Initial, actions);
    assert TaskFits(s, s.tasks[t]);
  }

  /** With a length limit a report can be acknowledged and lost: cut off while pending, it reads as a malformed one. */
  lemma TrimLosesReport(content: string)
    ensures exists actions :: Legal(Initial, actions) && var s := Run(Initial, actions);
              0 in s.acked && 0 in s.log && s.log[0] == Report(content) && !s.HasRow(0)
  {
    var actions := [Add(0, Report(content)), Deliver(0, 7, None), Trim(0), Redeliver(0, 7, 1), ParsePayload(1),
                    AckMessage(1, Worked)];
    var s0 := Initial;
    var s1 := Apply(s0, actions[0]);
    var s2 := Apply(s1, actions[1]);
    var s3 := Apply(s2, actions[2]);
    var s4 := Apply(s3, actions[3]);
    var s5 := Apply(s4, actions[4]);
    var s6 := Apply(s5, actions[5]);
    assert s6.rows == map[];
    RunOfSix(s0, s1, s2, s3, s4, s5, s6, actions);
  }

  lemma RunOfSix(s0: State, s1: State, s2: State, s3: State, s4: State, s5: State, s6: State, actions: seq<Action>)
    requires |actions| == 6
    requires Enabled(s0, actions[0]) && s1 == Apply(s0, actions[0])
    requires Enabled(s1, actions[1]) && s2 == Apply(s1, actions[1])
    requires Enabled(s2, actions[2]) && s3 == Apply(s2, actions[2])
    requires Enabled(s3, actions[3]) && s4 == Apply(s3, actions[3])
    requires Enabled(s4, actions[4]) && s5 == Apply(s4, actions[4])
    requires Enabled(s5, actions[5]) && s6 == Apply(s5, actions[5])
    ensures Legal(s0, actions) && Run(s0, actions) == s6
  {
    hide Enabled, Apply;
    RunOne(s5, s6, actions[5..]);
    RunOne(s4, s5, actions[4..]);
    RunOne(s3, s4, actions[3..]);
    RunOne(s2, s3, actions[2..]);
    RunOne(s1, s2, actions[1..]);
    RunOne(s0, s1, actions);
  }

  lemma RunOne(s: State, next: State, actions: seq<Action>)
    requires actions != [] && Enabled(s, actions[0]) && next == Apply(s, actions[0]) && Legal(next, actions[1..])
    ensures Legal(s, actions) && Run(s, actions) == Run(next, actions[1..])
  {
  }

  // ---- acknowledged without a row ----

  /** An acknowledgement by a task to which the message read as one without a report. */
  predicate AcksUnseen(s: State, a: Action, id: Id)
    requires Enabled(s, a)
  {
    a.AckMessage? && a.fate.Applied() && s.tasks[a.task].id == id && !s.tasks[a.task].seen.Report?
  }

  predicate AckedUnseen(s: State, actions: seq<Action>, id: Id)
    requires Legal(s, actions)
    decreases |actions|
  {
    actions != [] && (AcksUnseen(s, actions[0], id) || AckedUnseen(Apply(s, actions[0]), actions[1..], id))
  }

  /** What a task sees of a report is decided when it reads: the report exactly if the stream still has it. */
  lemma SeenAsStored(s: State, a: Action, t: nat)
    requires Invariant(s) && Enabled(s, a) && t in Apply(s, a).tasks
    ensures var task := Apply(s, a).tasks[t];
            if t in s.tasks then task.id == s.tasks[t].id && task.seen == s.tasks[t].seen
            else task.id in s.log && (s.log[task.id].Report? ==> (task.seen.Report? <==> task.id in s.stream))
  {
    OthersUnchanged(s, a);
    hide Duplicate, TasksFit, RowsFit;
    if t !in s.tasks {
      assert s.owner.Keys <= s.delivered <= s.log.Keys;
    }
  }

  lemma AckNeedsRowOrUnseen(s: State, a: Action, id: Id)
    requires Invariant(s) && Enabled(s, a)
    ensures s.HasRow(id) ==> Apply(s, a).HasRow(id)
    ensures !s.HasRow(id) ==> (id in Apply(s, a).acked <==> id in s.acked || AcksUnseen(s, a, id))
  {
    StepGrows(s, a);
    SettledStays(s, Apply(s, a), id);
    if a.AckMessage? {
      assert TaskFits(s, s.tasks[a.task]);
    }
    hide Invariant, State.HasRow, Duplicate, Grows;
  }

  lemma {:induction false} AckedUnseenFrom(s: State, actions: seq<Action>, id: Id)
    requires Invariant(s) && Legal(s, actions) && !Run(s, actions).HasRow(id)
    ensures !s.HasRow(id) && (id in Run(s, actions).acked <==> id in s.acked || AckedUnseen(s, actions, id))
    decreases |actions|
  {
    hide Invariant, Apply, Enabled, State.HasRow, AcksUnseen;
    if actions != [] {
      AckNeedsRowOrUnseen(s, actions[0], id);
      StepKeepsInvariant(s, actions[0]);
      AckedUnseenFrom(Apply(s, actions[0]), actions[1..], id);
    }
  }

  /**
   After every run, a report without a row is acknowledged exactly if a task acknowledged it that
   had read it when the stream no longer had it; the length limit has then cut it off.
   */
  lemma AckedWithoutRow(actions: seq<Action>, id: Id)
    requires Legal(Initial, actions)
    requires var s := Run(Initial, actions); id in s.log && s.log[id].Report? && !s.HasRow(id)
    ensures id in Run(Initial, actions).acked <==> AckedUnseen(Initial, actions, id)
    ensures id in Run(Initial, actions).acked ==> id in Run(Initial, actions).trimmed
  {
    InitialInvariant();
    AckedUnseenFrom(Initial, actions, id);
    if id in Run(Initial, actions).acked {
      AckedIsSettled(actions, id);
    }
  }

  // ---- what can still happen ----

  ghost predicate CanBeStored(s: State, id: Id) {
    exists actions :: Legal(s, actions) && Run(s, actions).HasRow(id) && id in Run(s, actions).acked
  }

  lemma OneStepEarlier(s: State, a: Action, id: Id)
    requires Enabled(s, a) && CanBeStored(Apply(s, a), id)
    ensures CanBeStored(s, id)
  {
    hide Enabled, Apply;
    var actions :| Legal(Apply(s, a), actions) && Run(Apply(s, a), actions).HasRow(id)
        && id in Run(Apply(s, a), actions).acked;
    assert ([a] + actions)[1..] == actions;
    RunOne(s, Apply(s, a), [a] + actions);
  }

  lemma AckingStores(s: State, t: nat)
    requires At(s, t) == Ack && s.HasRow(s.tasks[t].id)
    ensures CanBeStored(s, s.tasks[t].id)
  {
    var ack := AckMessage(t, Worked);
    var s' := Apply(s, ack);
    StepGrows(s, ack);
    SettledStays(s, s', s.tasks[t].id);
    assert Legal(s', []) && Run(s', []) == s';
    OneStepEarlier(s, ack, s.tasks[t].id);
  }

  lemma InsertingStores(s: State, t: nat)
    requires At(s, t) == Insert && s.tasks[t].seen.Report?
    ensures CanBeStored(s, s.tasks[t].id)
  {
    var row := Unused(s.rows.Keys);
    var insert := InsertRow(t, row, Worked);
    var s' := Apply(s, insert);
    InsertedHasRow(s, t, row, Worked);
    if At(s', t) == Ack {
      AckingStores(s', t);
    } else {
      var look := LookUp(t, true);
      StepGrows(s', look);
      SettledStays(s', Apply(s', look), s.tasks[t].id);
      AckingStores(Apply(s', look), t);
      OneStepEarlier(s', look, s.tasks[t].id);
    }
    OneStepEarlier(s, insert, s.tasks[t].id);
  }

  /** From wherever tasks have crashed or failed, a pending report can still be stored and acknowledged. */
  lemma PendingReportCanBeStored(s: State, id: Id)
    requires Invariant(s) && id in s.owner && id in s.stream && id in s.log && s.log[id].Report?
    ensures CanBeStored(s, id)
  {
    var t := Unused(s.tasks.Keys);
    var read := Redeliver(id, s.owner[id], t);
    ReadingStores(s, read, t, id);
  }

  /** A task that has just read the report can store it. */
  lemma ReadingStores(s: State, read: Action, t: nat, id: Id)
    requires Enabled(s, read) && (read.Redeliver? || read.Deliver?) && t !in s.tasks
    requires read.id == id && Changed(read) == Some(t) && id in s.stream && id in s.log && s.log[id].Report?
    ensures CanBeStored(s, id)
  {
    var s1 := Apply(s, read);
    ParsingStores(s1, t);
    OneStepEarlier(s, read, id);
  }

  lemma ParsingStores(s: State, t: nat)
    requires At(s, t) == Parse && s.tasks[t].seen.Report?
    ensures CanBeStored(s, s.tasks[t].id)
  {
    InsertingStores(Apply(s, ParsePayload(t)), t);
    OneStepEarlier(s, ParsePayload(t), s.tasks[t].id);
  }

  // ---- when a report is lost for good ----

  /** A task that has read the report and has not got to its insert yet. */
  predicate HasRead(s: State, t: nat, id: Id) {
    t in s.tasks && s.tasks[t].id == id && s.tasks[t].seen.Report? && (At(s, t) == Parse || At(s, t) == Insert)
  }

  ghost predicate StillRead(s: State, id: Id) {
    id in s.stream || exists t :: HasRead(s, t, id)
  }

  ghost predicate CanHaveRow(s: State, id: Id) {
    exists actions :: Legal(s, actions) && Run(s, actions).HasRow(id)
  }

  lemma StoredHasRow(s: State, id: Id)
    requires CanBeStored(s, id)
    ensures CanHaveRow(s, id)
  {
  }

  lemma StaysUnread(s: State, a: Action, id: Id)
    requires Invariant(s) && Enabled(s, a) && id in s.log && !s.HasRow(id) && !StillRead(s, id)
    ensures var s' := Apply(s, a); id in s'.log && !s'.HasRow(id) && !StillRead(s', id)
  {
    OthersUnchanged(s, a);
    forall t ensures !HasRead(Apply(s, a), t, id) {
      assert !HasRead(s, t, id);
    }
    if a.InsertRow? {
      assert !HasRead(s, a.task, id);
    }
  }

  lemma {:induction false} UnreadForGood(s: State, actions: seq<Action>, id: Id)
    requires Invariant(s) && Legal(s, actions) && id in s.log && !s.HasRow(id) && !StillRead(s, id)
    ensures !Run(s, actions).HasRow(id)
    decreases |actions|
  {
    hide Invariant, Apply, Enabled, State.HasRow, StillRead;
    if actions != [] {
      StepKeepsInvariant(s, actions[0]);
      StaysUnread(s, actions[0], id);
      UnreadForGood(Apply(s, actions[0]), actions[1..], id);
    }
  }

  /**
   A report without a row can still get one exactly if the stream has it, or a task that read it
   is still before its insert. Otherwise it is lost for good; that takes the length limit.
   */
  lemma LostExactlyWhenUnread(s: State, id: Id)
    requires Invariant(s) && id in s.log && s.log[id].Report? && !s.HasRow(id)
    ensures CanHaveRow(s, id) <==> StillRead(s, id)
    ensures !StillRead(s, id) ==> id in s.trimmed
  {
    if id in s.stream {
      StreamCanBeStored(s, id);
      StoredHasRow(s, id);
    } else if t :| HasRead(s, t, id) {
      if At(s, t) == Parse { ParsingStores(s, t); } else { InsertingStores(s, t); }
      StoredHasRow(s, id);
    } else {
      assert id in s.log.Keys - s.stream;
      assert id in s.acked ==> s.Settled(id);
      forall actions | Legal(s, actions) ensures !Run(s, actions).HasRow(id) {
        UnreadForGood(s, actions, id);
      }
    }
  }

  lemma StreamCanBeStored(s: State, id: Id)
    requires Invariant(s) && id in s.log && s.log[id].Report? && !s.HasRow(id) && id in s.stream
    ensures CanBeStored(s, id)
  {
    if id in s.delivered {
      assert id in s.acked ==> s.Settled(id);
      assert id in s.owner.Keys;
      PendingReportCanBeStored(s, id);
    } else {
      var t := Unused(s.tasks.Keys);
      ReadingStores(s, Deliver(id, 0, Some(t)), t, id);
    }
  }
}

/**
 One worker's processing of report messages, and its recovery of what it had left pending. Each
 command is an action of the step system, and other tasks act between any two of them.
 */
module ReportWorker {
  import opened Options
  import opened ReportIngest

  const SECOND := 1_000_000_000        // in nanoseconds
  const MAX_BACKOFF := 30 * SECOND

  /** What becomes of the calls made for one message. */
  datatype Weather = Weather(insert: Fate, lookup: bool, ack: Fate, delete: Fate)

  const CALM := Weather(Worked, true, Worked, Worked)

  /** One turn of the recovery loop: the context is cancelled, the read fails, or messages are handled. */
  datatype Turn = Cancelled | ReadError | Goes(weather: seq<Weather>)

  datatype End = Complete | Stopped | ReadFailed

  function Power(n: nat): nat {
    if n == 0 then 1 else 2 * Power(n - 1)
  }

  /** The pause after so many failing turns in a row. */
  function Backoff(failures: nat): nat {
    if failures == 0 then 0
    else if failures <= 5 then Power(failures - 1) * SECOND
    else MAX_BACKOFF
  }

  function NextBackoff(backoff: nat): nat {
    if backoff == 0 then SECOND else if backoff * 2 < MAX_BACKOFF then backoff * 2 else MAX_BACKOFF
  }

  /** The doubling gives 1, 2, 4, 8, 16 and then always 30 seconds. */
  lemma BackoffDoubles(failures: nat)
    ensures NextBackoff(Backoff(failures)) == Backoff(failures + 1)
    ensures failures > 0 ==> SECOND <= Backoff(failures) <= MAX_BACKOFF
  {
    assert Power(0) == 1 && Power(1) == 2 && Power(2) == 4;
    assert Power(3) == 8;
    assert Power(4) == 16;
  }

  /** Nothing fails in this turn. */
  predicate IsCalm(turn: Turn) {
    turn.Goes? && forall w | w in turn.weather :: w == CALM
  }

  // ---- the worker as a part of the step system ----

  ghost predicate Reaches(s: State, s': State) {
    exists actions :: Legal(s, actions) && Run(s, actions) == s'
  }

  lemma ReachesSelf(s: State)
    ensures Reaches(s, s)
  {
    assert Legal(s, []) && Run(s, []) == s;
  }

  lemma ReachesByOne(s: State, a: Action)
    requires Enabled(s, a)
    ensures Reaches(s, Apply(s, a))
  {
    var s' := Apply(s, a);
    assert Legal(s', []) && Run(s', []) == s';
    RunOne(s, s', [a]);
  }

  lemma RunReaches(s: State, actions: seq<Action>)
    requires Legal(s, actions)
    ensures Reaches(s, Run(s, actions))
  {
  }

  lemma ReachesFurther(s: State, s': State, s'': State)
    requires Reaches(s, s') && Reaches(s', s'')
    ensures Reaches(s, s'')
  {
    var first :| Legal(s, first) && Run(s, first) == s';
    var second :| Legal(s', second) && Run(s', second) == s'';
    RunInTwo(s, first, second);
  }

  lemma {:induction false} RunInTwo(s: State, first: seq<Action>, second: seq<Action>)
    requires Legal(s, first) && Legal(Run(s, first), second)
    ensures Legal(s, first + second) && Run(s, first + second) == Run(Run(s, first), second)
    decreases |first|
  {
    hide Enabled, Apply;
    if first == [] {
      assert first + second == second;
    } else {
      RunInTwo(Apply(s, first[0]), first[1..], second);
      assert (first + second)[1..] == first[1..] + second;
    }
  }

  lemma {:induction false} RunGrows(s: State, actions: seq<Action>)
    requires Legal(s, actions)
    ensures Grows(s, Run(s, actions))
    decreases |actions|
  {
    hide Enabled, Apply;
    if actions != [] {
      StepGrows(s, actions[0]);
      RunGrows(Apply(s, actions[0]), actions[1..]);
    }
  }

  predicate ByNone(actions: seq<Action>, mine: set<nat>) {
    forall a | a in actions :: Changed(a).Some? ==> Changed(a).value !in mine
  }

  /** These tasks are as they were. */
  predicate SameTasks(s: State, s': State, mine: set<nat>) {
    forall t | t in mine :: t in s.tasks && t in s'.tasks && s'.tasks[t] == s.tasks[t]
  }

  lemma OneStepSame(s: State, a: Action, mine: set<nat>)
    requires Enabled(s, a) && mine <= s.tasks.Keys && (Changed(a).Some? ==> Changed(a).value !in mine)
    ensures SameTasks(s, Apply(s, a), mine) && mine <= Apply(s, a).tasks.Keys
  {
    hide Duplicate;
  }

  lemma {:induction false} OthersLeaveTasks(s: State, actions: seq<Action>, mine: set<nat>)
    requires Legal(s, actions) && ByNone(actions, mine) && mine <= s.tasks.Keys
    ensures SameTasks(s, Run(s, actions), mine)
    decreases |actions|
  {
    hide Enabled, Apply, Changed;
    if actions != [] {
      OneStepSame(s, actions[0], mine);
      OthersLeaveTasks(Apply(s, actions[0]), actions[1..], mine);
    }
  }

  /** What follows from the invariant for a task that has ended, and for messages once pending. */
  lemma EndedMeans(s: State, t: nat)
    requires Invariant(s) && t in s.tasks && s.tasks[t].point == Ended(true)
    ensures s.tasks[t].id in s.acked && s.Settled(s.tasks[t].id)
  {
    assert TaskFits(s, s.tasks[t]);
  }

  lemma OncePending(s: State, s': State, id: Id)
    requires Invariant(s) && Invariant(s') && Reaches(s, s') && id in s.owner
    ensures id in s'.owner || s'.Settled(id)
  {
    var actions :| Legal(s, actions) && Run(s, actions) == s';
    RunGrows(s, actions);
    assert id in s.owner.Keys && id in s.delivered && id in s'.delivered;
    assert id in s'.acked ==> s'.Settled(id);
  }

  predicate PendingFor(s: State, consumer: nat, id: Id) {
    id in s.owner && s.owner[id] == consumer
  }

  predicate NoDuplicates(tasks: seq<nat>) {
    forall i, j | 0 <= i < j < |tasks| :: tasks[i] != tasks[j]
  }

  /** Tasks that have read their message and done nothing yet. */
  predicate AllOpen(s: State, tasks: seq<nat>) {
    forall t | t in tasks :: t in s.tasks && s.tasks[t].point == Parse
  }

  lemma OpenedOneMore(before: State, s: State, tasks: seq<nat>, t: nat)
    requires AllOpen(before, tasks) && t !in before.tasks && t in s.tasks && s.tasks[t].point == Parse
    requires forall u | u in before.tasks :: u in s.tasks && s.tasks[u] == before.tasks[u]
    ensures AllOpen(s, tasks + [t]) && t !in tasks
  {
  }

  predicate TasksStill(s: State, s': State, tasks: seq<nat>) {
    forall t | t in tasks :: t in s.tasks && t in s'.tasks && s'.tasks[t] == s.tasks[t]
  }

  ghost predicate AllSettled(s: State, s': State, tasks: seq<nat>) {
    forall t | t in tasks :: t in s.tasks && s.tasks[t].id in s'.acked && s'.Settled(s.tasks[t].id)
  }

  lemma StillDistinct(s: State, s': State, tasks: seq<nat>, i: nat)
    requires i < |tasks| && NoDuplicates(tasks) && TasksStill(s, s', tasks[i..])
    ensures tasks[i] in tasks[i..] && (set u | u in tasks[i..]) <= s'.tasks.Keys
    ensures forall u | u in tasks[i + 1..] :: u in tasks[i..] && u != tasks[i]
  {
    assert tasks[i..][0] == tasks[i];
    forall u | u in tasks[i + 1..] ensures u in tasks[i..] && u != tasks[i] {
      var k :| 0 <= k < |tasks[i + 1..]| && tasks[i + 1..][k] == u;
      assert tasks[i..][k + 1] == u && tasks[i + 1 + k] == u;
    }
  }

  lemma RestStill(s: State, before: State, after: State, tasks: seq<nat>, i: nat)
    requires i < |tasks| && NoDuplicates(tasks) && TasksStill(s, before, tasks[i..])
    requires SameTasks(before, after, (set u | u in tasks[i..]) - {tasks[i]})
    ensures TasksStill(s, after, tasks[i + 1..])
  {
    StillDistinct(s, before, tasks, i);
  }

  lemma SettledAll(s: State, before: State, after: State, tasks: seq<nat>, i: nat)
    requires i < |tasks| && AllSettled(s, before, tasks[..i]) && Reaches(before, after)
    requires tasks[i] in s.tasks && s.tasks[tasks[i]].id in after.acked && after.Settled(s.tasks[tasks[i]].id)
    ensures AllSettled(s, after, tasks[..i + 1])
  {
    var actions :| Legal(before, actions) && Run(before, actions) == after;
    RunGrows(before, actions);
    forall t | t in tasks[..i + 1]
        ensures t in s.tasks && s.tasks[t].id in after.acked && after.Settled(s.tasks[t].id) {
      if t in tasks[..i]
    {
        SettledStays(before, after, s.tasks[t].id);
      }
    }
  }

  /** The stream with its consumer group, and the reports table, shared by all. */
  class Backend {
    var s: State

    /** One command. */
    method Perform(a: Action)
      requires Invariant(s) && Enabled(s, a)
      modifies this
      ensures s == Apply(old(s), a) && Invariant(s) && Reaches(old(s), s)
      ensures forall mine: set<nat> | mine <= old(s).tasks.Keys && (Changed(a).Some? ==> Changed(a).value !in mine) ::
                SameTasks(old(s), s, mine)
    {
      StepKeepsInvariant(s, a);
      ReachesByOne(s, a);
      ghost var before := s;
      forall mine: set<nat> | mine <= before.tasks.Keys && (Changed(a).Some? ==> Changed(a).value !in mine)
        ensures SameTasks(before, Apply(before, a), mine)
      {
        OneStepSame(before, a, mine);
      }
      hide Enabled, Changed, Invariant, SameTasks;
      s := Apply(s, a);
    }

    /** Any legal steps of everybody else. */
    method OthersAct(mine: set<nat>)
      requires Invariant(s) && mine <= s.tasks.Keys
      modifies this
      ensures Invariant(s) && Reaches(old(s), s) && SameTasks(old(s), s, mine)
    {
      hide Invariant, Enabled, Apply, Changed;
      var actions: seq<Action> := *;
      ReachesSelf(s);
      if Legal(s, actions) && ByNone(actions, mine) {
        RunKeepsInvariant(s, actions);
        OthersLeaveTasks(s, actions, mine);
        RunReaches(s, actions);
        s := Run(s, actions);
      }
    }

    /** ackAndDelete, by a task that may acknowledge its message. */
    method AckAndDelete(t: nat, mine: set<nat>, w: Weather) returns (ok: bool)
      requires Invariant(s) && At(s, t) == Ack && t in mine && mine <= s.tasks.Keys
      modifies this
      ensures Invariant(s) && Reaches(old(s), s) && SameTasks(old(s), s, mine - {t})
      ensures t in s.tasks && s.tasks[t] == old(s).tasks[t].(point := Ended(ok))
      ensures w.ack.Worked? ==> ok
    {
      hide Invariant, Reaches, Duplicate;
      ghost var s0 := s;
      OthersAct(mine);
      ghost var s1 := s;
      Perform(AckMessage(t, w.ack));
      ReachesFurther(s0, s1, s);
      if !w.ack.Worked? {
        return false;
      }
      ghost var s2 := s;
      OthersAct(mine);
      ghost var s3 := s;
      ReachesFurther(s0, s2, s);
      Perform(DeleteMessage(t, w.delete));
      ReachesFurther(s0, s3, s);
      ok := true;
    }

    /**
     processMessage: the task takes legal steps, among those of all others, to its end; success
     means that its message is acknowledged and settled.
     */
    method ProcessMessage(t: nat, mine: set<nat>, w: Weather) returns (ok: bool)
      requires Invariant(s) && At(s, t) == Parse && t in mine && mine <= s.tasks.Keys
      modifies this
      ensures Invariant(s) && Reaches(old(s), s) && SameTasks(old(s), s, mine - {t})
      ensures t in s.tasks && s.tasks[t] == old(s).tasks[t].(point := Ended(ok))
      ensures ok ==> s.tasks[t].id in s.acked && s.Settled(s.tasks[t].id)
      ensures w == CALM ==> ok
    {
      hide Invariant, Reaches, Duplicate, State.Settled;
      ghost var s0 := s;
      var task := s.tasks[t];
      Perform(ParsePayload(t));
      ghost var s1 := s;
      if task.seen.Report? {
        var reached := StoreReport(t, mine, w);
        ReachesFurther(s0, s1, s);
        if !reached {
          return false;
        }
      }
      ghost var s2 := s;
      ok := AckAndDelete(t, mine, w);
      ReachesFurther(s0, s2, s);
      if ok {
        EndedMeans(s, t);
      }
    }

    /** The insert, and the lookup after a duplicate: whether the message may be acknowledged now. */
    method StoreReport(t: nat, mine: set<nat>, w: Weather) returns (ok: bool)
      requires Invariant(s) && At(s, t) == Insert && s.tasks[t].seen.Report? && t in mine && mine <= s.tasks.Keys
      modifies this
      ensures Invariant(s) && Reaches(old(s), s) && SameTasks(old(s), s, mine - {t})
      ensures t in s.tasks && s.tasks[t] == old(s).tasks[t].(point := if ok then Ack else Ended(false))
      ensures w.insert.Worked? && w.lookup ==> ok
    {
      hide Invariant, Reaches, Duplicate;
      ghost var s0 := s;
      OthersAct(mine);
      ghost var s1 := s;
      var row := NewKey(s.rows.Keys);
      var duplicate := Duplicate(s, s.tasks[t].id);
      Perform(InsertRow(t, row, w.insert));
      ReachesFurther(s0, s1, s);
      if !w.insert.Worked? {
        return false;
      }
      if duplicate {
        ghost var s2 := s;
        OthersAct(mine);
        ghost var s3 := s;
        ReachesFurther(s0, s2, s);
        Perform(LookUp(t, w.lookup));
        ReachesFurther(s0, s3, s);
        return w.lookup;
      }
      ok := true;
    }

    /** XREADGROUP "0": the first ten messages pending for a consumer, each opening a task. */
    method ReadPending(consumer: nat) returns (tasks: seq<nat>)
      requires Invariant(s)
      modifies this
      ensures Invariant(s) && Reaches(old(s), s) && |tasks| <= 10 && NoDuplicates(tasks)
      ensures AllOpen(s, tasks)
      ensures forall t | t in tasks :: PendingFor(old(s), consumer, s.tasks[t].id)
      ensures tasks == [] ==> s == old(s) && forall id :: !PendingFor(s, consumer, id)
    {
      hide Invariant, Reaches;
      ReachesSelf(s);
      var left := set id | id in s.owner && s.owner[id] == consumer;
      tasks := [];
      while left != {} && |tasks| < 10
        invariant Invariant(s) && Reaches(old(s), s) && |tasks| <= 10 && NoDuplicates(tasks)
        invariant AllOpen(s, tasks) && s.owner == old(s).owner
        invariant forall t | t in tasks :: PendingFor(s, consumer, s.tasks[t].id)
        invariant forall id | id in left :: PendingFor(s, consumer, id)
        invariant tasks == [] ==> s == old(s) && forall id :: PendingFor(s, consumer, id) ==> id in left
        decreases 10 - |tasks|
      {
        var id := Least(left);
        var t := NewKey(s.tasks.Keys);
        ghost var before := s;
        Perform(Redeliver(id, consumer, t));
        ReachesFurther(old(s), before, s);
        OpenedOneMore(before, s, tasks, t);
        tasks := tasks + [t];
        left := left - {id};
      }
    }

    /** One batch, task by task. */
    method ProcessAll(tasks: seq<nat>, weather: seq<Weather>) returns (hadFailure: bool)
      requires Invariant(s) && AllOpen(s, tasks) && NoDuplicates(tasks)
      modifies this
      ensures Invariant(s) && Reaches(old(s), s)
      ensures !hadFailure ==> forall t | t in tasks :: old(s).tasks[t].id in s.acked && s.Settled(old(s).tasks[t].id)
      ensures (forall w | w in weather :: w == CALM) ==> !hadFailure
    {
      hide Invariant, Reaches, State.Settled, Grows;
      ReachesSelf(s);
      hadFailure := false;
      for i := 0 to |tasks|
        invariant Invariant(s) && Reaches(old(s), s)
        invariant TasksStill(old(s), s, tasks[i..])
        invariant !hadFailure ==> AllSettled(old(s), s, tasks[..i])
        invariant (forall w | w in weather :: w == CALM) ==> !hadFailure
      {
        assert i < |weather| ==> weather[i] in weather;
        var t, mine := tasks[i], set u | u in tasks[i..];
        StillDistinct(old(s), s, tasks, i);
        ghost var before := s;
        var ok := ProcessMessage(t, mine, if i < |weather| then weather[i] else CALM);
        ReachesFurther(old(s), before, s);
        RestStill(old(s), before, s, tasks, i);
        if !ok {
          hadFailure := true;
        } else if !hadFailure {
          SettledAll(old(s), before, s, tasks, i);
        }
      }
      assert tasks[..|tasks|] == tasks;
    }
  }

  method NewKey(used: set<nat>) returns (n: nat)
    ensures n !in used
  {
    n := 0;
    var todo := used;
    while todo != {}
      invariant todo <= used && forall u | u in used :: u in todo || u < n
      decreases todo
    {
      var u :| u in todo;
      if n <= u {
        n := u + 1;
      }
      todo := todo - {u};
    }
  }

  method Least(ids: set<Id>) returns (least: Id)
    requires ids != {}
    ensures least in ids && forall id | id in ids :: least <= id
  {
    least :| least in ids;
    var todo := ids - {least};
    while todo != {}
      invariant least in ids && todo <= ids && forall id | id in ids :: id in todo || least <= id
      decreases todo
    {
      var id :| id in todo;
      if id < least {
        least := id;
      }
      todo := todo - {id};
    }
  }

  /**
   recoverPending, over a script of what happens in each turn. Whatever all others do, it reports
   completion only when nothing is pending for the consumer, and then all it had pending is
   settled or another consumer's.
   */
  method RecoverPending(backend: Backend, consumer: nat, script: seq<Turn>)
    returns (end: End, waits: seq<nat>, ghost streaks: seq<nat>)
    requires Invariant(backend.s)
    modifies backend
    ensures Invariant(backend.s) && Reaches(old(backend.s), backend.s)
    ensures end.Complete? ==> forall id :: !PendingFor(backend.s, consumer, id)
    ensures end.Complete? ==> forall id | PendingFor(old(backend.s), consumer, id) ::
              backend.s.Settled(id) || (id in backend.s.owner && backend.s.owner[id] != consumer)
    ensures |streaks| == |waits| && forall i | 0 <= i < |waits| :: waits[i] == Backoff(streaks[i])
    ensures waits != [] ==> streaks[0] == 0
    ensures forall i | 0 < i < |waits| :: streaks[i] == 0 || streaks[i] == streaks[i - 1] + 1
    ensures forall w | w in waits :: w == 0 || SECOND <= w <= MAX_BACKOFF
    ensures forall i | 0 < i < |waits| && i <= |script| && IsCalm(script[i - 1]) :: waits[i] == 0
    ensures end.ReadFailed? ==> 0 < |waits| <= |script| && script[|waits| - 1].ReadError?
    ensures end.Stopped? ==> |waits| == |script| || (|waits| < |script| && script[|waits|].Cancelled?)
  {
    hide Backoff, Invariant, Reaches, State.Settled;
    waits, streaks := [], [];
    var backoff: nat := 0;
    ghost var failures: nat := 0;
    NoFailuresNoBackoff();
    ReachesSelf(backend.s);
    for turn := 0 to |script|
      invariant Invariant(backend.s) && Reaches(old(backend.s), backend.s)
      invariant backoff == Backoff(failures)
      invariant |streaks| == |waits| == turn && forall i | 0 <= i < |waits| :: waits[i] == Backoff(streaks[i])
      invariant turn == 0 ==> failures == 0
      invariant turn > 0 && IsCalm(script[turn - 1]) ==> backoff == 0
      invariant forall i | 0 < i < turn && IsCalm(script[i - 1]) :: waits[i] == 0
      invariant turn > 0 ==> streaks[0] == 0 && (failures == 0 || failures == streaks[turn - 1] + 1)
      invariant forall i | 0 < i < turn :: streaks[i] == 0 || streaks[i] == streaks[i - 1] + 1
      invariant forall w | w in waits :: w == 0 || SECOND <= w <= MAX_BACKOFF
    {
      if script[turn].Cancelled? {
        return Stopped, waits, streaks;
      }
      BackoffDoubles(failures);
      NoFailuresNoBackoff();
      waits, streaks := waits + [backoff], streaks + [failures];
      ghost var s0 := backend.s;
      backend.OthersAct({});
      ReachesFurther(old(backend.s), s0, backend.s);
      if script[turn].ReadError? {
        return ReadFailed, waits, streaks;
      }
      ghost var s1 := backend.s;
      var tasks := backend.ReadPending(consumer);
      ReachesFurther(old(backend.s), s1, backend.s);
      if tasks == [] {
        forall id | PendingFor(old(backend.s), consumer, id)
          ensures backend.s.Settled(id) || (id in backend.s.owner && backend.s.owner[id] != consumer)
        {
          OncePending(old(backend.s), backend.s, id);
          assert !PendingFor(backend.s, consumer, id);
        }
        return Complete, waits, streaks;
      }
      ghost var s2 := backend.s;
      var hadFailure := backend.ProcessAll(tasks, script[turn].weather);
      ReachesFurther(old(backend.s), s2, backend.s);
      if hadFailure {
        backoff := if backoff == 0 then SECOND else if backoff * 2 < MAX_BACKOFF then backoff * 2 else MAX_BACKOFF;
        failures := failures + 1;
      } else {
        backoff, failures := 0, 0;
      }
    }
    end := Stopped;
  }

  lemma NoFailuresNoBackoff()
    ensures Backoff(0) == 0
  {
  }
}

/** How the calls and the map updates of one release task extend a run of the accounting system. */
module ReleaseRuns {
  import opened Accounting
  import opened AccountingTheorems
  import opened FreshNumbers
  import opened Options

  type History = seq<Action>

  /** Only this task's own steps and calls, and entries dropped for their age. */
  predicate TaskSteps(more: History, task: nat) {
    forall a | a in more ::
      || ((a.Send? || a.Answer? || a.Store?) && a.task == task)
      || (a.Serve? && Send(task, a.call) in more)
      || a.AgeOut?
  }

  predicate Extends(h: History, h': History, task: nat) {
    |h| <= |h'| && h'[..|h|] == h && TaskSteps(h'[|h|..], task)
  }

  lemma ExtendsItself(h: History, task: nat)
    ensures Extends(h, h, task)
  {
  }

  lemma ExtendsFurther(h: History, h': History, h'': History, task: nat)
    requires Extends(h, h', task) && Extends(h', h'', task)
    ensures Extends(h, h'', task)
  {
    assert h''[..|h|] == h''[..|h'|][..|h|];
    assert h''[|h|..] == h'[|h|..] + h''[|h'|..];
  }

  lemma ExtendsIsLonger(h: History, h': History, task: nat)
    requires Extends(h, h', task)
    ensures h <= h'
  {
  }

  /** Where a task goes on after its call. */
  function Told(t: Task, ok: bool): Option<Task>
    requires CanSend(t)
  {
    AfterAnswer(t.(point := AwaitAnswer(t.point, 0)), ok)
  }

  lemma ToldIsAfterAnswer(t: Task, call: nat, ok: bool)
    requires CanSend(t)
    ensures AfterAnswer(t.(point := AwaitAnswer(t.point, call)), ok) == Told(t, ok)
  {
  }

  /** A call after it was sent and carried out in up to two commands. */
  function Carried(s: State, task: nat, call: nat, first: bool, second: bool): State
    requires task in s.tasks
  {
    var sent := SendStep(s, task, call);
    var one := if first then ServeStep(sent, call, false) else sent;
    if first && second then ServeStep(one, call, true) else one
  }

  lemma SendRuns(h: History, limit: int, task: nat, call: nat)
    requires Legal(h, limit) && Enabled(Run(h, limit), Send(task, call))
    ensures Legal(h + [Send(task, call)], limit)
    ensures Run(h + [Send(task, call)], limit) == Carried(Run(h, limit), task, call, false, false)
  {
    hide SendStep, ServeStep;
    RunGoesOn(h, Send(task, call), limit);
  }

  lemma ServeRuns(h: History, limit: int, s: State, task: nat, call: nat, second: bool)
    requires task in s.tasks && Legal(h, limit) && Run(h, limit) == Carried(s, task, call, second, false)
    requires Enabled(Run(h, limit), Serve(call, second))
    ensures Legal(h + [Serve(call, second)], limit)
    ensures Run(h + [Serve(call, second)], limit) == Carried(s, task, call, true, second)
  {
    hide SendStep, ServeStep;
    RunGoesOn(h, Serve(call, second), limit);
  }

  lemma AnswerRuns(h: History, limit: int, task: nat, ok: bool)
    requires Legal(h, limit) && Enabled(Run(h, limit), Answer(task, ok))
    ensures Legal(h + [Answer(task, ok)], limit)
    ensures Run(h + [Answer(task, ok)], limit) == AnswerStep(Run(h, limit), task, ok)
  {
    hide AnswerStep;
    RunGoesOn(h, Answer(task, ok), limit);
  }

  /** The steps of one call, in their order. */
  function CallSteps(task: nat, call: nat, first: bool, second: bool): History {
    if !first then [Send(task, call)]
    else if !second then [Send(task, call), Serve(call, false)]
    else [Send(task, call), Serve(call, false), Serve(call, true)]
  }

  lemma CallStepsAreMine(h: History, task: nat, call: nat, first: bool, second: bool, ok: bool)
    ensures Extends(h, h + CallSteps(task, call, first, second) + [Answer(task, ok)], task)
  {
    var more := CallSteps(task, call, first, second) + [Answer(task, ok)];
    assert more[0] == Send(task, call);
    assert h + CallSteps(task, call, first, second) + [Answer(task, ok)] == h + more;
    assert (h + more)[|h|..] == more;
  }

  /** A call sent and carried out. */
  lemma CarriedRuns(h: History, limit: int, task: nat, call: nat, first: bool, second: bool)
    requires Legal(h, limit) && task in Run(h, limit).tasks && CanSend(Run(h, limit).tasks[task])
    requires call !in Run(h, limit).calls && (second ==> first && !Run(h, limit).tasks[task].point.SendRelease?)
    ensures Legal(h + CallSteps(task, call, first, second), limit)
    ensures Run(h + CallSteps(task, call, first, second), limit) == Carried(Run(h, limit), task, call, first, second)
  {
    var s := Run(h, limit);
    CallFollows(s, task, call, first, second);
    hide Apply, Legal, Run, Carried, Enabled, CanSend;
    SendRuns(h, limit, task, call);
    if first {
      ServeRuns(h + [Send(task, call)], limit, s, task, call, false);
      assert h + [Send(task, call)] + [Serve(call, false)] == h + [Send(task, call), Serve(call, false)];
      if second {
        ServeRuns(h + [Send(task, call), Serve(call, false)], limit, s, task, call, true);
        assert h + [Send(task, call), Serve(call, false)] + [Serve(call, true)] ==
            h + CallSteps(task, call, true, true);
      }
    }
  }

  /** A call of a task: sent, carried out in up to two commands, and answered. */
  lemma CallRuns(h: History, limit: int, task: nat, first: bool, second: bool, ok: bool)
      returns (h': History, call: nat)
    requires Legal(h, limit) && task in Run(h, limit).tasks && CanSend(Run(h, limit).tasks[task])
    requires second ==> first && !Run(h, limit).tasks[task].point.SendRelease?
    requires ok ==> if Run(h, limit).tasks[task].point.SendRelease? then first else second
    ensures Legal(h', limit) && Extends(h, h', task) && call !in Run(h, limit).calls
    ensures var s := Run(h, limit);
            Run(h', limit) ==
                Carried(s, task, call, first, second).(tasks := SetTask(s.tasks, task, Told(s.tasks[task], ok)))
  {
    var s := Run(h, limit);
    call := Unused(s.calls.Keys);
    AnswerFollows(s, task, call, first, second, ok);
    ToldIsAfterAnswer(s.tasks[task], call, ok);
    CallStepsAreMine(h, task, call, first, second, ok);
    CarriedRuns(h, limit, task, call, first, second);
    hide Apply, AnswerStep, Legal, Run, AfterAnswer, Told, AwaitAnswer, Extends, Carried, Enabled, CallSteps, SetTask;
    AnswerRuns(h + CallSteps(task, call, first, second), limit, task, ok);
    AnswerChangesTasks(Carried(s, task, call, first, second), task, ok);
    h' := h + CallSteps(task, call, first, second) + [Answer(task, ok)];
  }

  lemma AnswerChangesTasks(s: State, task: nat, ok: bool)
    requires task in s.tasks && Waiting(s.tasks[task])
    ensures AnswerStep(s, task, ok) == s.(tasks := AnswerStep(s, task, ok).tasks)
  {
  }

  lemma CallFollows(s: State, task: nat, call: nat, first: bool, second: bool)
    requires task in s.tasks && CanSend(s.tasks[task]) && call !in s.calls
    requires second ==> first && !s.tasks[task].point.SendRelease?
    ensures Enabled(s, Send(task, call))
    ensures Enabled(Carried(s, task, call, false, false), Serve(call, false))
    ensures second ==> Enabled(Carried(s, task, call, true, false), Serve(call, true))
  {
  }

  lemma AnswerFollows(s: State, task: nat, call: nat, first: bool, second: bool, ok: bool)
    requires task in s.tasks && CanSend(s.tasks[task]) && call !in s.calls
    requires second ==> first && !s.tasks[task].point.SendRelease?
    requires ok ==> if s.tasks[task].point.SendRelease? then first else second
    ensures var done := Carried(s, task, call, first, second);
            && Enabled(done, Answer(task, ok))
            && AnswerStep(done, task, ok).tasks
               == SetTask(s.tasks, task,
                   AfterAnswer(s.tasks[task].(point := AwaitAnswer(s.tasks[task].point, call)), ok))
  {
    hide AfterAnswer;
  }

  /** What the two hash commands of a call do, and the release script. */
  lemma CarriedEffect(s: State, task: nat, call: nat, first: bool, second: bool)
    requires task in s.tasks && CanSend(s.tasks[task]) && call !in s.calls
    ensures var done, point, r := Carried(s, task, call, first, second), s.tasks[task].point, s.tasks[task].release;
            && done.unsaved == s.unsaved
            && (point.SendQueue? ==>
                  && done.ledgers == s.ledgers
                  && done.global == (if first then s.global + {r} else s.global)
                  && done.perUser == (if first && second then s.perUser + {r} else s.perUser))
            && (point.SendComplete? ==>
                  && done.ledgers == s.ledgers
                  && done.global == (if first then s.global - {r} else s.global)
                  && done.perUser == (if first && second then s.perUser - {r} else s.perUser))
            && (point.SendRelease? && !second ==>
                  && done.global == s.global && done.perUser == s.perUser
                  && (forall session :: done.LedgerOf(session).counter ==
                        if first && session == r.user.session then s.LedgerOf(session).counter.Release(r.operation)
                        else s.LedgerOf(session).counter))
  {
  }

  lemma StoreRuns(h: History, limit: int, task: nat)
    requires Legal(h, limit) && Enabled(Run(h, limit), Store(task))
    ensures Legal(h + [Store(task)], limit) && Extends(h, h + [Store(task)], task)
    ensures Run(h + [Store(task)], limit) == StoreStep(Run(h, limit), task)
  {
    RunGoesOn(h, Store(task), limit);
    assert (h + [Store(task)])[|h|..] == [Store(task)];
  }

  lemma ReserveRuns(h: History, limit: int, session: string, heard: bool)
    requires Legal(h, limit)
    ensures Legal(h + [Reserve(session, heard)], limit)
    ensures Run(h + [Reserve(session, heard)], limit) == ReserveStep(Run(h, limit), session, heard, limit)
  {
    RunGoesOn(h, Reserve(session, heard), limit);
  }

  /** Entries of the map dropped one by one. */
  lemma {:induction false} AgeOutsRun(h: History, limit: int, entries: set<Unsaved>, task: nat) returns (h': History)
    requires Legal(h, limit) && entries <= Run(h, limit).unsaved
    ensures Legal(h', limit) && Extends(h, h', task)
    ensures Run(h', limit) == Run(h, limit).(unsaved := Run(h, limit).unsaved - entries)
    decreases entries
  {
    if entries == {} {
      h' := h;
      ExtendsItself(h, task);
      assert Run(h, limit).unsaved - entries == Run(h, limit).unsaved;
    } else {
      var e :| e in entries;
      RunGoesOn(h, AgeOut(e), limit);
      var next := h + [AgeOut(e)];
      assert next[|h|..] == [AgeOut(e)];
      h' := AgeOutsRun(next, limit, entries - {e}, task);
      ExtendsFurther(h, next, h', task);
      assert Run(h, limit).unsaved - {e} - (entries - {e}) == Run(h, limit).unsaved - entries;
    }
  }

  // ---- starting the tasks of a repair pass ----

  /** A release found in the relay's map, in the listing that was read, or in both. */
  datatype Work = Work(local: bool, durable: bool)

  function RepairTask(relay: nat, r: Release, w: Work): Task {
    Task(Repair, relay, r, w.local, w.durable, if w.durable then SendRelease else SendQueue)
  }

  /** What a listing that was read holds, the whole one or one user's. */
  predicate Fits(s: State, relay: nat, wholeList: bool, readOk: bool, r: Release, w: Work) {
    && (w.local || w.durable) && (w.local ==> Unsaved(relay, r) in s.unsaved)
    && (w.durable == (readOk && r in (if wholeList then s.global else s.perUser)))
  }

  lemma StartRuns(h: History, limit: int, relay: nat, wholeList: bool, readOk: bool, r: Release, w: Work)
    returns (h': History, task: nat)
    requires Legal(h, limit) && Fits(Run(h, limit), relay, wholeList, readOk, r, w)
    ensures Legal(h', limit) && h <= h' && task !in Run(h, limit).tasks
    ensures Run(h', limit) == Run(h, limit).(tasks := Run(h, limit).tasks[task := RepairTask(relay, r, w)])
  {
    var s := Run(h, limit);
    task := Unused(s.tasks.Keys);
    hide Run, Legal, Apply, Enabled, RepairTask, Fits;
    StartFollows(s, limit, relay, wholeList, readOk, r, w, task);
    if w.local {
      RunGoesOn(h, StartRepair(task, Unsaved(relay, r)), limit);
      h' := h + [StartRepair(task, Unsaved(relay, r))];
      RunGoesOn(h', Merge(task, readOk, wholeList), limit);
      h' := h' + [Merge(task, readOk, wholeList)];
    } else {
      RunGoesOn(h, StartDurableRepair(task, relay, r), limit);
      h' := h + [StartDurableRepair(task, relay, r)];
    }
  }

  lemma StartFollows(s: State, limit: int, relay: nat, wholeList: bool, readOk: bool, r: Release, w: Work, task: nat)
    requires Fits(s, relay, wholeList, readOk, r, w) && task !in s.tasks
    ensures var started := s.(tasks := s.tasks[task := RepairTask(relay, r, w)]);
            if w.local then
              && Enabled(s, StartRepair(task, Unsaved(relay, r)))
              && var one := Apply(s, StartRepair(task, Unsaved(relay, r)), limit);
              Enabled(one, Merge(task, readOk, wholeList))
                  && Apply(one, Merge(task, readOk, wholeList), limit) == started
            else
              && Enabled(s, StartDurableRepair(task, relay, r))
              && Apply(s, StartDurableRepair(task, relay, r), limit) == started
  {
  }

  /** The tasks of a pass: one for each release, and no other task is touched. */
  ghost predicate Started(before: map<nat, Task>, after: map<nat, Task>, relay: nat, work: map<Release, Work>,
                          tasks: map<Release, nat>)
  {
    && tasks.Keys == work.Keys
    && (forall r | r in work ::
        tasks[r] !in before && tasks[r] in after && after[tasks[r]] == RepairTask(relay, r, work[r]))
    && (forall t | t in before :: t in after && after[t] == before[t])
    && (forall t | t in after && t !in before :: t in tasks.Values)
  }

  lemma {:induction false} StartsRun(h: History, limit: int, relay: nat, wholeList: bool, readOk: bool,
      work: map<Release, Work>)
    returns (h': History, tasks: map<Release, nat>)
    requires Legal(h, limit) && forall r | r in work :: Fits(Run(h, limit), relay, wholeList, readOk, r, work[r])
    ensures Legal(h', limit) && h <= h' && Started(Run(h, limit).tasks, Run(h', limit).tasks, relay, work, tasks)
    ensures Run(h', limit) == Run(h, limit).(tasks := Run(h', limit).tasks)
    decreases work.Keys
  {
    if work == map[] {
      h', tasks := h, map[];
    } else {
      var r :| r in work;
      var next, task := StartRuns(h, limit, relay, wholeList, readOk, r, work[r]);
      var rest := work - {r};
      assert forall x | x in rest :: Fits(Run(next, limit), relay, wholeList, readOk, x, rest[x]);
      var others;
      h', others := StartsRun(next, limit, relay, wholeList, readOk, rest);
      tasks := others[r := task];
      OneMoreStarted(Run(h, limit).tasks, Run(next, limit).tasks, Run(h', limit).tasks, relay, work, r, task, others);
    }
  }

  lemma OneMoreStarted(before: map<nat, Task>, middle: map<nat, Task>, after: map<nat, Task>, relay: nat,
                       work: map<Release, Work>, r: Release, task: nat, others: map<Release, nat>)
    requires r in work && task !in before && middle == before[task := RepairTask(relay, r, work[r])]
    requires Started(middle, after, relay, work - {r}, others)
    ensures Started(before, after, relay, work, others[r := task])
  {
    var tasks := others[r := task];
    hide RepairTask;
    forall t | t in after && t !in before ensures t in tasks.Values {
      if t in middle {
        assert tasks[r] == t;
      } else {
        var x :| x in others && others[x] == t;
        assert x in tasks && tasks[x] == t;
      }
    }
  }
}

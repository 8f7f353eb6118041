/** No owed release is ever stuck: as long as there is any trace of it, it can still be applied. */
module AccountingProgress {
  import opened Accounting
  import opened AccountingInvariant
  import opened AccountingTheorems
  import opened AccountingCustody
  import opened FreshNumbers

  /** Some continuation of the run applies the release, with no crash and nothing dropped. */
  ghost predicate CanBeApplied(actions: seq<Action>, limit: int, r: Release) {
    exists more: seq<Action> ::
      && Legal(actions + more, limit) && Run(actions + more, limit).Applied(r)
      && (forall a | a in more :: !a.Crash? && !a.AgeOut? && !a.Panic?)
  }

  /** If one more harmless action leads to a run that can apply the release, so does this one. */
  lemma OneStepEarlier(actions: seq<Action>, a: Action, limit: int, r: Release)
    requires Legal(actions, limit) && !a.Crash? && !a.AgeOut? && !a.Panic?
    requires CanBeApplied(actions + [a], limit, r)
    ensures CanBeApplied(actions, limit, r)
  {
    hide Legal, Run, State.Applied;
    var more: seq<Action> :|
      && Legal(actions + [a] + more, limit) && Run(actions + [a] + more, limit).Applied(r)
      && (forall b | b in more :: !b.Crash? && !b.AgeOut? && !b.Panic?);
    assert actions + ([a] + more) == actions + [a] + more;
  }

  lemma AppliedAlready(actions: seq<Action>, limit: int, r: Release)
    requires Legal(actions, limit) && Run(actions, limit).Applied(r)
    ensures CanBeApplied(actions, limit, r)
  {
    assert actions + [] == actions;
  }

  lemma FromSendRelease(actions: seq<Action>, limit: int, task: nat)
    requires Legal(actions, limit)
    requires task in Run(actions, limit).tasks && Run(actions, limit).tasks[task].point.SendRelease?
    ensures CanBeApplied(actions, limit, Run(actions, limit).tasks[task].release)
  {
    var r := Run(actions, limit).tasks[task].release;
    var call := Unused(Run(actions, limit).calls.Keys);
    RunGoesOn(actions, Send(task, call), limit);
    var sent := actions + [Send(task, call)];
    RunGoesOn(sent, Serve(call, false), limit);
    AppliedAlready(sent + [Serve(call, false)], limit, r);
    OneStepEarlier(sent, Serve(call, false), limit, r);
    OneStepEarlier(actions, Send(task, call), limit, r);
  }

  lemma FromAwaitQueue(actions: seq<Action>, limit: int, task: nat)
    requires Legal(actions, limit)
    requires task in Run(actions, limit).tasks && Run(actions, limit).tasks[task].point.AwaitQueue?
    ensures CanBeApplied(actions, limit, Run(actions, limit).tasks[task].release)
  {
    var t := Run(actions, limit).tasks[task];
    RunGoesOn(actions, Answer(task, false), limit);
    var told := actions + [Answer(task, false)];
    if t.program == AfterDelete {
      FromSaveLocal(told, limit, task);
    } else {
      FromSendRelease(told, limit, task);
    }
    OneStepEarlier(actions, Answer(task, false), limit, t.release);
  }

  lemma FromSaveLocal(actions: seq<Action>, limit: int, task: nat)
    requires Legal(actions, limit)
    requires task in Run(actions, limit).tasks && Run(actions, limit).tasks[task].point.SaveLocal?
    ensures CanBeApplied(actions, limit, Run(actions, limit).tasks[task].release)
  {
    var r := Run(actions, limit).tasks[task].release;
    RunGoesOn(actions, Store(task), limit);
    FromSendRelease(actions + [Store(task)], limit, task);
    OneStepEarlier(actions, Store(task), limit, r);
  }

  lemma FromSendQueue(actions: seq<Action>, limit: int, task: nat)
    requires Legal(actions, limit)
    requires task in Run(actions, limit).tasks && Run(actions, limit).tasks[task].point.SendQueue?
    ensures CanBeApplied(actions, limit, Run(actions, limit).tasks[task].release)
  {
    var r := Run(actions, limit).tasks[task].release;
    var call := Unused(Run(actions, limit).calls.Keys);
    RunGoesOn(actions, Send(task, call), limit);
    FromAwaitQueue(actions + [Send(task, call)], limit, task);
    OneStepEarlier(actions, Send(task, call), limit, r);
  }

  lemma FromGlobalHash(actions: seq<Action>, limit: int, r: Release)
    requires Legal(actions, limit) && r in Run(actions, limit).global
    ensures CanBeApplied(actions, limit, r)
  {
    var task := Unused(Run(actions, limit).tasks.Keys);
    var start := StartDurableRepair(task, 0, r);
    RunGoesOn(actions, start, limit);
    FromSendRelease(actions + [start], limit, task);
    OneStepEarlier(actions, start, limit, r);
  }

  lemma FromLocalMap(actions: seq<Action>, limit: int, entry: Unsaved)
    requires Legal(actions, limit) && entry in Run(actions, limit).unsaved
    ensures CanBeApplied(actions, limit, entry.release)
  {
    var task := Unused(Run(actions, limit).tasks.Keys);
    var start, merge := StartRepair(task, entry), Merge(task, false, true);
    RunGoesOn(actions, start, limit);
    RunGoesOn(actions + [start], merge, limit);
    FromSendQueue(actions + [start] + [merge], limit, task);
    OneStepEarlier(actions + [start], merge, limit, entry.release);
    OneStepEarlier(actions, start, limit, entry.release);
  }

  lemma FromCall(actions: seq<Action>, limit: int, call: nat)
    requires limit >= 1 && Legal(actions, limit) && call in Run(actions, limit).calls
    ensures CanBeApplied(actions, limit, Run(actions, limit).calls[call].release)
  {
    var s := Run(actions, limit);
    var r := s.calls[call].release;
    RunKeeps(actions, limit);
    assert CallOk(s, s.calls[call]);
    if s.Applied(r) {
      AppliedAlready(actions, limit, r);
    } else {
      RunGoesOn(actions, Serve(call, false), limit);
      var served := actions + [Serve(call, false)];
      if s.calls[call].request.ReleaseRequest? {
        AppliedAlready(served, limit, r);
      } else {
        FromGlobalHash(served, limit, r);
      }
      OneStepEarlier(actions, Serve(call, false), limit, r);
    }
  }

  lemma FromTask(actions: seq<Action>, limit: int, task: nat)
    requires limit >= 1 && Legal(actions, limit) && task in Run(actions, limit).tasks
    ensures CanBeApplied(actions, limit, Run(actions, limit).tasks[task].release)
  {
    var s := Run(actions, limit);
    var r := s.tasks[task].release;
    RunKeeps(actions, limit);
    assert TaskOk(s, s.tasks[task]);
    hide Inv;
    match s.tasks[task].point
    case ReadDurable => FromReadDurable(actions, limit, task);
    case SendQueue => FromSendQueue(actions, limit, task);
    case AwaitQueue(call) => FromCall(actions, limit, call);
    case SaveLocal => FromSaveLocal(actions, limit, task);
    case DropSaved => if s.Applied(r) { AppliedAlready(actions, limit, r); } else { FromGlobalHash(actions, limit, r); }
    case SendRelease => FromSendRelease(actions, limit, task);
    case AwaitRelease(call) => FromCall(actions, limit, call);
    case _ => AppliedAlready(actions, limit, r);
  }

  lemma FromReadDurable(actions: seq<Action>, limit: int, task: nat)
    requires Legal(actions, limit)
    requires task in Run(actions, limit).tasks && Run(actions, limit).tasks[task].point.ReadDurable?
    ensures CanBeApplied(actions, limit, Run(actions, limit).tasks[task].release)
  {
    var r := Run(actions, limit).tasks[task].release;
    var merge := Merge(task, false, true);
    RunGoesOn(actions, merge, limit);
    FromSendQueue(actions + [merge], limit, task);
    OneStepEarlier(actions, merge, limit, r);
  }

  // ---- when there is no way back ----

  /** Applied, in the global hash, in some relay's map, with a live task, or in a call still under way. */
  ghost predicate Reachable(s: State, r: Release) {
    || s.Persisted(r) || s.HeldLocally(r)
    || (exists t :: t in s.tasks && s.tasks[t].release == r)
    || (exists c :: c in s.calls && s.calls[c].release == r)
  }

  /** No trace outside the hashes. */
  predicate NoCopies(s: State, r: Release) {
    && (forall e | e in s.unsaved :: e.release != r)
    && (forall t | t in s.tasks :: s.tasks[t].release != r)
    && (forall c | c in s.calls :: s.calls[c].release != r)
  }

  lemma OutOfReach(s: State, r: Release)
    ensures !Reachable(s, r) <==> !s.Persisted(r) && NoCopies(s, r)
  {
    if e :| e in s.unsaved && e.release == r {
      assert Unsaved(e.relay, r) in s.unsaved;
    }
  }

  /** Nothing brings a launched release back once no trace of it is left. */
  lemma StaysOutOfReach(s: State, a: Action, limit: int, r: Release)
    requires Inv(s, limit) && Enabled(s, a) && r in s.launches && !Reachable(s, r)
    ensures !Reachable(Apply(s, a, limit), r) && r in Apply(s, a, limit).launches
  {
    OutOfReach(s, r);
    OutOfReach(Apply(s, a, limit), r);
    NotApplied(s, a, limit, r);
    assert (forall slot | slot in s.tracked :: s.tracked[slot] != r) && r !in s.perUser && r !in s.global;
    hide Inv, Reachable;
    NoNewCopies(s, a, limit, r);
  }

  lemma NotApplied(s: State, a: Action, limit: int, r: Release)
    requires Inv(s, limit) && Enabled(s, a) && r in s.launches && !s.Persisted(r) && NoCopies(s, r)
    ensures !Apply(s, a, limit).Persisted(r)
  {
    if a.Serve? {
      var x := s.calls[a.call].release;
      assert s.Known(x) && s.Known(r) && x != r;
      assert x.operation != r.operation;
      hide Inv;
    } else {
      hide Inv;
      BooksGrow(s, a, limit, r);
    }
  }

  lemma NoNewCopies(s: State, a: Action, limit: int, r: Release)
    requires Enabled(s, a) && r in s.launches && NoCopies(s, r)
    requires (forall slot | slot in s.tracked :: s.tracked[slot] != r) && r !in s.perUser && r !in s.global
    ensures r in Apply(s, a, limit).launches && NoCopies(Apply(s, a, limit), r)
  {
    if a.Reserve? || a.Abandon? || a.Create? {
      GrantsMakeNoCopies(s, a, limit);
    } else if a.Merge? || a.Send? || a.Answer? || a.Store? || a.Panic? {
      TasksMakeNoCopies(s, a, limit, r);
    } else if a.Callback? || a.Reconcile? {
      LaunchesMakeNoCopies(s, a, limit, r);
    } else if a.Crash? {
      CrashMakesNoCopies(s, a.relay, r);
    } else {
      hide CallbackStep, ReconcileStep, MergeStep, SendStep, AnswerStep, StoreStep, PanicStep, CrashStep, ReserveStep,
           AbandonStep, CreateStep;
    }
  }

  lemma GrantsMakeNoCopies(s: State, a: Action, limit: int)
    requires Enabled(s, a) && (a.Reserve? || a.Abandon? || a.Create?)
    ensures var s' := Apply(s, a, limit);
            s'.unsaved == s.unsaved && s'.tasks == s.tasks && s'.calls == s.calls && s'.launches == s.launches
  {
  }

  lemma TasksMakeNoCopies(s: State, a: Action, limit: int, r: Release)
    requires Enabled(s, a) && NoCopies(s, r) && (a.Merge? || a.Send? || a.Answer? || a.Store? || a.Panic?)
    ensures Apply(s, a, limit).launches == s.launches && NoCopies(Apply(s, a, limit), r)
  {
    assert s.tasks[a.task].release != r;
  }

  lemma LaunchesMakeNoCopies(s: State, a: Action, limit: int, r: Release)
    requires Enabled(s, a) && NoCopies(s, r) && (a.Callback? || a.Reconcile?)
    requires forall slot | slot in s.tracked :: s.tracked[slot] != r
    ensures NoCopies(Apply(s, a, limit), r) && (r in s.launches ==> r in Apply(s, a, limit).launches)
  {
  }

  lemma CrashMakesNoCopies(s: State, dead: nat, r: Release)
    requires NoCopies(s, r)
    ensures CrashStep(s, dead).launches == s.launches && NoCopies(CrashStep(s, dead), r)
  {
  }

  lemma {:induction false} OutOfReachForGood(actions: seq<Action>, more: seq<Action>, limit: int, r: Release)
    requires limit >= 1 && Legal(actions + more, limit) && Legal(actions, limit)
    requires r in Run(actions, limit).launches && !Reachable(Run(actions, limit), r)
    ensures r in Run(actions + more, limit).launches && !Reachable(Run(actions + more, limit), r)
    decreases |more|
  {
    hide Apply, Enabled, Inv, Reachable;
    if more == [] {
      assert actions + more == actions;
    } else {
      var n := |more| - 1;
      LastStep(actions, more, limit);
      OutOfReachForGood(actions, more[..n], limit, r);
      RunKeeps(actions + more[..n], limit);
      StaysOutOfReach(Run(actions + more[..n], limit), more[n], limit, r);
    }
  }

  /**
   After every run, a launched release can still be applied, without any crash, panic or
   age-out, exactly if it is applied, in the global hash, in some relay's map, with a live
   task, or in a call still under way; otherwise no continuation at all applies it.
   */
  lemma OwedReleaseCanStillBeApplied(actions: seq<Action>, limit: int, r: Release)
    requires limit >= 1 && Legal(actions, limit) && r in Run(actions, limit).launches
    ensures CanBeApplied(actions, limit, r) <==> Reachable(Run(actions, limit), r)
    ensures !Reachable(Run(actions, limit), r) ==>
              forall more | Legal(actions + more, limit) :: !Run(actions + more, limit).Applied(r)
  {
    var s := Run(actions, limit);
    if Reachable(s, r) {
      if s.Applied(r) {
        AppliedAlready(actions, limit, r);
      } else if r in s.global {
        FromGlobalHash(actions, limit, r);
      } else if s.HeldLocally(r) {
        var relay :| Unsaved(relay, r) in s.unsaved;
        FromLocalMap(actions, limit, Unsaved(relay, r));
      } else if t :| t in s.tasks && s.tasks[t].release == r {
        FromTask(actions, limit, t);
      } else {
        var c :| c in s.calls && s.calls[c].release == r;
        FromCall(actions, limit, c);
      }
    } else {
      forall more | Legal(actions + more, limit) ensures !Run(actions + more, limit).Applied(r) {
        OutOfReachForGood(actions, more, limit, r);
      }
    }
  }

  /** What is written down can always be applied, whatever has crashed or aged out. */
  lemma WrittenDownCanBeApplied(actions: seq<Action>, limit: int, r: Release)
    requires limit >= 1 && Legal(actions, limit) && Run(actions, limit).Persisted(r)
    ensures CanBeApplied(actions, limit, r)
  {
    if Run(actions, limit).Applied(r) {
      AppliedAlready(actions, limit, r);
    } else {
      FromGlobalHash(actions, limit, r);
    }
  }
}

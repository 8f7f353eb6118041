/**
 The release procedures of one relay while everybody else acts: between any two commands of a
 procedure there are arbitrary legal steps of the accounting system, except steps of the
 procedure's own tasks and the crash of its relay. ReleaseQueue has the exact effects of the same
 procedures when nobody else acts.
 */
module ReleaseAmidOthers {
  import opened Options
  import opened FreshNumbers
  import opened Accounting
  import opened AccountingInvariant
  import opened AccountingCustody
  import opened AccountingTheorems
  import opened ReleaseRuns
  import opened StepsOfOthers

  /** The relay with the accounting system around it. */
  class Relay {
    const id: nat
    const limit: int
    var history: History
    var s: State

    ghost predicate Valid()
      reads this
    {
      limit >= 1 && Legal(history, limit) && s == Run(history, limit) && Inv(s, limit)
    }

    constructor (id: nat, limit: int)
      requires limit >= 1
      ensures Valid() && this.id == id && this.limit == limit && history == [] && s == Initial
    {
      this.id, this.limit, history, s := id, limit, [], Initial;
      new;
      RunKeeps([], limit);
    }

    /** One command, of the backend or of a task that is not among these. */
    method Perform(a: Action, mine: set<nat>)
      requires Valid() && Enabled(s, a) && Leaves(a, mine, id) && Mine(s, mine, id)
      modifies this
      ensures Valid() && s == Apply(old(s), a, limit) && history == old(history) + [a]
      ensures Between(old(history), old(s), history, s, mine, id) && Mine(s, mine, id)
    {
      hide Enabled, Apply, Inv, Leaves, Mine, Goes;
      StepGoes(s, a, limit, mine, id);
      RunGoesOn(history, a, limit);
      RunKeeps(history + [a], limit);
      GoesSame(s, Apply(s, a, limit), mine, id, [a]);
      StillMine(s, Apply(s, a, limit), mine, id);
      assert (history + [a])[|history|..] == [a];
      s := Apply(s, a, limit);
      history := history + [a];
    }

    /** Any legal steps of everybody else. */
    method OthersAct(mine: set<nat>)
      requires Valid() && Mine(s, mine, id)
      modifies this
      ensures Valid() && Between(old(history), old(s), history, s, mine, id) && Mine(s, mine, id)
    {
      hide Enabled, Apply, Inv, Leaves, Mine, Goes;
      var more: seq<Action> := *;
      GoesNowhere(s, mine, id);
      assert history[|history|..] == [];
      if Legal(history + more, limit) && ByOthers(more, mine, id) {
        RunGoes(history, more, limit, mine, id);
        RunKeeps(history + more, limit);
        GoesSame(s, Run(history + more, limit), mine, id, more);
        StillMine(s, Run(history + more, limit), mine, id);
        assert (history + more)[|history|..] == more;
        s := Run(history + more, limit);
        history := history + more;
      }
    }

    /** The commands of a call, carried out by Redis or not; all of them when nothing fails. */
    method BeServed(c: nat, mine: set<nat>, calm: bool) returns (served: bool)
      requires Valid() && Mine(s, mine, id) && c in s.calls
      modifies this
      ensures Valid() && Between(old(history), old(s), history, s, mine, id) && Mine(s, mine, id)
      ensures c in s.calls && (served ==> s.calls[c].stage == Done) && (calm ==> served)
    {
      hide Apply, Inv, Mine, Goes, Between;
      ghost var h0, s0, request := history, s, s.calls[c].request;
      OthersAct(mine);
      BetweenSame(h0, s0, history, s, mine, id);
      var runs: bool := *;
      if !calm && !runs {
        return false;
      }
      ghost var h1, s1 := history, s;
      var single := s.calls[c].request.ReleaseRequest?;
      Perform(Serve(c, false), mine);
      ServedCall(s1, c, false, limit);
      BetweenTwice(h0, s0, h1, s1, history, s, mine, mine, id);
      ghost var h2, s2 := history, s;
      OthersAct(mine);
      BetweenSame(h2, s2, history, s, mine, id);
      BetweenSame(h1, s1, h2, s2, mine, id);
      BetweenTwice(h0, s0, h2, s2, history, s, mine, mine, id);
      if single {
        return true;
      }
      runs := *;
      if !calm && !runs {
        return false;
      }
      ghost var h3, s3 := history, s;
      Perform(Serve(c, true), mine);
      ServedCall(s3, c, true, limit);
      BetweenTwice(h0, s0, h3, s3, history, s, mine, mine, id);
      served := true;
    }

    /** One call of a task: sent, carried out or not, and answered, among the steps of all others. */
    method Request(t: nat, mine: set<nat>, calm: bool) returns (ok: bool)
      requires Valid() && t in mine && Mine(s, mine, id) && CanSend(s.tasks[t])
      modifies this
      ensures Valid() && Between(old(history), old(s), history, s, mine - {t}, id) && Mine(s, mine - {t}, id)
      ensures TaskIs(s, t, Told(old(s).tasks[t], ok))
      ensures ok && old(s).tasks[t].point.SendQueue? ==> s.Persisted(old(s).tasks[t].release)
      ensures ok && old(s).tasks[t].point.SendRelease? ==> s.Applied(old(s).tasks[t].release)
      ensures calm ==> ok
    {
      hide Apply, Inv, Goes, Between;
      ghost var h0, s0, task := history, s, s.tasks[t];
      var c := Fresh(s.calls.Keys);
      Perform(Send(t, c), mine - {t});
      SentCall(s0, t, c, limit);
      ghost var h1, s1 := history, s;
      assert Mine(s, mine, id);
      var served := BeServed(c, mine, calm);
      BetweenSame(h1, s1, history, s, mine, id);
      BetweenTwice(h0, s0, h1, s1, history, s, mine - {t}, mine, id);
      var heard: bool := *;
      ok := served && (calm || heard);
      ghost var h2, s2 := history, s;
      AnsweredCall(s, t, task, c, ok, limit);
      Perform(Answer(t, ok), mine - {t});
      BetweenSame(h2, s2, history, s, mine - {t}, id);
      BetweenTwice(h0, s0, h2, s2, history, s, mine - {t}, mine - {t}, id);
    }

    /** The critical section of a task on the relay's map. */
    method StoreNow(t: nat, mine: set<nat>)
      requires Valid() && t in mine && Mine(s, mine, id) && CanStore(s.tasks[t])
      modifies this
      ensures Valid() && Between(old(history), old(s), history, s, mine - {t}, id) && Mine(s, mine - {t}, id)
      ensures TaskIs(s, t, AfterStore(old(s).tasks[t]))
      ensures old(s).tasks[t].point.SaveLocal? ==> Safe(s, id, old(s).tasks[t].release)
    {
      hide Apply, Inv, Goes, Between, Safe;
      ghost var h0, s0 := history, s;
      OthersAct(mine);
      BetweenSame(h0, s0, history, s, mine, id);
      ghost var h1, s1 := history, s;
      Perform(Store(t), mine - {t});
      StoredTask(s1, t, limit);
      BetweenForFewer(h0, s0, h1, s1, mine - {t}, mine, id);
      BetweenTwice(h0, s0, h1, s1, history, s, mine - {t}, mine - {t}, id);
    }

    /** The release is stored before anything else is tried: in the hashes, else in the relay's map. */
    method QueueOrSave(t: nat, r: Release, mine: set<nat>, calm: bool) returns (queued: bool)
      requires Valid() && t in mine && Mine(s, mine, id)
      requires s.tasks[t] == Task(AfterDelete, id, r, false, false, SendQueue)
      modifies this
      ensures Valid() && Between(old(history), old(s), history, s, mine - {t}, id) && Mine(s, mine, id)
      ensures TaskIs(s, t, Some(Task(AfterDelete, id, r, false, queued, SendRelease)))
      ensures Safe(s, id, r) && (calm ==> queued)
    {
      hide Apply, Inv, Goes, Between, Safe;
      ghost var h0, s0 := history, s;
      queued := Request(t, mine, calm);
      PersistedIsSafe(s, id, r);
      if !queued {
        ghost var h1, s1 := history, s;
        StoreNow(t, mine);
        BetweenTwice(h0, s0, h1, s1, history, s, mine - {t}, mine - {t}, id);
      }
    }

    /** After the queueing: release, complete in the hashes if they have it, and complete in the map. */
    method FinishDeleted(t: nat, r: Release, queued: bool, mine: set<nat>, calm: bool) returns (released: bool)
      requires Valid() && t in mine && Mine(s, mine, id)
      requires s.tasks[t] == Task(AfterDelete, id, r, false, queued, SendRelease)
      modifies this
      ensures Valid() && Between(old(history), old(s), history, s, mine - {t}, id) && Mine(s, mine - {t}, id)
      ensures t !in s.tasks && (released ==> s.Applied(r)) && (calm ==> released)
    {
      hide Apply, Inv, Goes, Between, Safe;
      ghost var h0, s0 := history, s;
      released := Request(t, mine, calm);
      if !released {
        return;
      }
      ghost var h1, s1 := history, s;
      if queued {
        var done := Request(t, mine, calm);
        BetweenSame(h1, s1, history, s, mine - {t}, id);
        BetweenTwice(h0, s0, h1, s1, history, s, mine - {t}, mine - {t}, id);
      }
      ghost var h2, s2 := history, s;
      StoreNow(t, mine);
      BetweenSame(h2, s2, history, s, mine - {t}, id);
      BetweenTwice(h0, s0, h2, s2, history, s, mine - {t}, mine - {t}, id);
    }

    /**
     The release after a deletion, whatever all others do meanwhile: the task comes to its end, and
     the release is applied, in the global hash or in the map, unless its entry was dropped for
     its age; when no call fails it is applied.
     */
    method ReleaseDeletedAllocation(t: nat, r: Release, mine: set<nat>, calm: bool) returns (released: bool)
      requires Valid() && t in mine && Mine(s, mine, id)
      requires s.tasks[t] == Task(AfterDelete, id, r, false, false, SendQueue)
      modifies this
      ensures Valid() && Between(old(history), old(s), history, s, mine - {t}, id) && t !in s.tasks
      ensures SafeOrAged(old(history), history, s, id, r)
      ensures (released ==> s.Applied(r)) && (calm ==> released)
    {
      hide Apply, Inv, Goes, Between, Safe, SafeOrAged;
      ghost var h0, s0 := history, s;
      var queued := QueueOrSave(t, r, mine, calm);
      ghost var h1, s1 := history, s;
      released := FinishDeleted(t, r, queued, mine, calm);
      SafeLater(h0, s0, h1, s1, history, s, mine - {t}, mine - {t}, id, r);
      BetweenTwice(h0, s0, h1, s1, history, s, mine - {t}, mine - {t}, id);
    }

    /** The first half of a repair: what is only in the relay's map is queued, and then leaves the map. */
    method MakeDurable(t: nat, r: Release, mine: set<nat>, calm: bool) returns (queued: bool)
      requires Valid() && t in mine && Mine(s, mine, id)
      requires s.tasks[t] == RepairTask(id, r, Work(true, false))
      modifies this
      ensures Valid() && Between(old(history), old(s), history, s, mine - {t}, id) && Mine(s, mine, id)
      ensures TaskIs(s, t, Some(Task(Repair, id, r, !queued, queued, SendRelease)))
      ensures calm ==> queued
    {
      hide Apply, Inv, Goes, Between, Safe;
      ghost var h0, s0 := history, s;
      queued := Request(t, mine, calm);
      if queued {
        ghost var h1, s1 := history, s;
        StoreNow(t, mine);
        BetweenTwice(h0, s0, h1, s1, history, s, mine - {t}, mine - {t}, id);
      }
    }

    /** The second half of a repair: release, complete in the hashes, complete in the map, as far as nothing fails. */
    method FinishRepair(t: nat, r: Release, state: Work, mine: set<nat>, calm: bool) returns (ok: bool)
      requires state.local || state.durable
      requires Valid() && t in mine && Mine(s, mine, id)
      requires s.tasks[t] == Task(Repair, id, r, state.local, state.durable, SendRelease)
      modifies this
      ensures Valid() && Between(old(history), old(s), history, s, mine - {t}, id) && Mine(s, mine - {t}, id)
      ensures t !in s.tasks && (ok ==> s.Applied(r)) && (calm ==> ok)
    {
      hide Apply, Inv, Goes, Between, Safe;
      ghost var h0, s0 := history, s;
      ok := Request(t, mine, calm);
      if !ok {
        return;
      }
      ghost var h1, s1 := history, s;
      if state.durable {
        ok := Request(t, mine, calm);
        BetweenSame(h1, s1, history, s, mine - {t}, id);
        BetweenTwice(h0, s0, h1, s1, history, s, mine - {t}, mine - {t}, id);
        if !ok {
          return;
        }
      }
      if state.local {
        ghost var h2, s2 := history, s;
        StoreNow(t, mine);
        BetweenSame(h2, s2, history, s, mine - {t}, id);
        BetweenTwice(h0, s0, h2, s2, history, s, mine - {t}, mine - {t}, id);
      }
    }

    /** One release of a repair pass: the task comes to its end, and success means that the release is applied. */
    method ProcessOne(t: nat, r: Release, found: Work, mine: set<nat>, calm: bool) returns (ok: bool)
      requires found.local || found.durable
      requires Valid() && t in mine && Mine(s, mine, id) && s.tasks[t] == RepairTask(id, r, found)
      modifies this
      ensures Valid() && Between(old(history), old(s), history, s, mine - {t}, id) && Mine(s, mine - {t}, id)
      ensures t !in s.tasks && (ok ==> s.Applied(r)) && (calm ==> ok)
    {
      hide Apply, Inv, Goes, Between, Safe;
      ghost var h0, s0 := history, s;
      BetweenItself(h0, s0, mine - {t}, id);
      var state, queued := found, true;
      if state.local && !state.durable {
        queued := MakeDurable(t, r, mine, calm);
        state := Work(!queued, queued);
      }
      ghost var h1, s1 := history, s;
      ok := FinishRepair(t, r, state, mine, calm);
      BetweenTwice(h0, s0, h1, s1, history, s, mine - {t}, mine - {t}, id);
      ok := ok && queued;
    }

    /** The cleanup before a snapshot. */
    method DropExpired(expired: set<Release>, mine: set<nat>)
      requires Valid() && Mine(s, mine, id) && forall r | r in expired :: Unsaved(id, r) in s.unsaved
      modifies this
      ensures Valid() && Between(old(history), old(s), history, s, mine, id) && Mine(s, mine, id)
      ensures forall e | e in old(s).unsaved && !(e.relay == id && e.release in expired) :: e in s.unsaved
      ensures s.unsaved <= old(s).unsaved
    {
      hide Apply, Inv, Goes, Between, Safe, Mine, Enabled;
      ghost var h0, s0 := history, s;
      BetweenItself(h0, s0, mine, id);
      var todo := expired;
      while todo != {}
        invariant Valid() && Between(h0, s0, history, s, mine, id) && Mine(s, mine, id)
        invariant todo <= expired && forall r | r in todo :: Unsaved(id, r) in s.unsaved
        invariant forall e | e in s0.unsaved && !(e.relay == id && e.release in expired) :: e in s.unsaved
        invariant s.unsaved <= s0.unsaved
        decreases todo
      {
        var r :| r in todo;
        ghost var h1, s1 := history, s;
        AgedOut(s, Unsaved(id, r), limit);
        Perform(AgeOut(Unsaved(id, r)), mine);
        BetweenTwice(h0, s0, h1, s1, history, s, mine, mine, id);
        todo := todo - {r};
      }
    }

    /** A task for each release of the snapshot. */
    method StartLocal(entries: set<Release>, mine: set<nat>) returns (tasks: map<Release, nat>)
      requires Valid() && Mine(s, mine, id) && forall r | r in entries :: Unsaved(id, r) in s.unsaved
      modifies this
      ensures Valid() && Between(old(history), old(s), history, s, mine, id) && Mine(s, mine, id)
      ensures Open(s, id, tasks, entries, map[], mine)
    {
      hide Apply, Inv, Goes, Between, Safe, Mine, Enabled, Open;
      ghost var h0, s0 := history, s;
      BetweenItself(h0, s0, mine, id);
      tasks := map[];
      NothingOpen(s, id, mine);
      var todo := entries;
      assert entries - todo == {};
      while todo != {}
        invariant Valid() && Between(h0, s0, history, s, mine, id) && Mine(s, mine, id)
        invariant todo <= entries && s.unsaved == s0.unsaved && tasks.Keys == entries - todo
        invariant Open(s, id, tasks, entries - todo, map[], mine)
        decreases todo
      {
        var r :| r in todo;
        ghost var h1, s1 := history, s;
        var t := Fresh(s.tasks.Keys);
        OpenAreMine(s, id, tasks, entries - todo, map[], mine);
        NotMine(s, mine, id, t);
        StartedLocal(s, t, id, r, limit);
        Perform(StartRepair(t, Unsaved(id, r)), mine + tasks.Values);
        BetweenSame(h1, s1, history, s, mine + tasks.Values, id);
        BetweenTwice(h0, s0, h1, s1, history, s, mine, mine + tasks.Values, id);
        MineForFewer(s, mine, mine + tasks.Values, id);
        OpenStays(s1, s, id, tasks, entries - todo, map[], mine, mine + tasks.Values);
        WithOne(s, id, tasks, entries - todo, map[], mine, r, t, Work(true, false));
        assert entries - todo + {r} == entries - (todo - {r});
        tasks, todo := tasks[r := t], todo - {r};
      }
      assert entries - todo == entries;
    }

    /** What the snapshot holds is told apart by the listing that was read, if it was. */
    method MergeAll(tasks: map<Release, nat>, entries: set<Release>, read: bool, user: Option<User>, mine: set<nat>)
      returns (work: map<Release, Work>)
      requires Valid() && Mine(s, mine, id) && Open(s, id, tasks, entries, map[], mine)
      requires forall r | r in entries && user.Some? :: r.user == user.value
      modifies this
      ensures Valid() && Between(old(history), old(s), history, s, mine, id) && Mine(s, mine, id)
      ensures Open(s, id, tasks, {}, work, mine) && work.Keys == entries && s.global == old(s).global
                && s.perUser == old(s).perUser
      ensures forall r | r in work :: work[r].local
    {
      hide Apply, Inv, Goes, Between, Safe, Mine, Enabled, Open;
      ghost var h0, s0 := history, s;
      BetweenItself(h0, s0, mine, id);
      work := map[];
      var todo := entries;
      while todo != {}
        invariant Valid() && Between(h0, s0, history, s, mine, id) && Mine(s, mine, id)
        invariant todo <= entries && s.global == s0.global && s.perUser == s0.perUser
        invariant Open(s, id, tasks, todo, work, mine) && work.Keys == entries - todo
        invariant forall r | r in work :: work[r].local
        decreases todo
      {
        var r :| r in todo;
        ghost var h1, s1 := history, s;
        OpenTask(s, id, tasks, todo, work, mine, r);
        ghost var rest := mine + (tasks - {r}).Values;
        OpenAreMine(s, id, tasks, todo, work, mine);
        WithoutOne(s, id, tasks, todo, work, mine, r);
        MineForFewer(s, rest, mine + tasks.Values, id);
        Merged(s, tasks[r], id, r, read, user, limit);
        Perform(Merge(tasks[r], read, user.None?), mine + tasks.Values - {tasks[r]});
        BetweenSame(h1, s1, history, s, rest, id);
        BetweenTwice(h0, s0, h1, s1, history, s, mine, rest, id);
        MineForFewer(s, mine, rest, id);
        assert work - {r} == work;
        OpenStays(s1, s, id, tasks - {r}, todo - {r}, work, mine, rest);
        var w := Work(true, read && r in Listing(s, user));
        WithOne(s, id, tasks - {r}, todo - {r}, work, mine, r, tasks[r], w);
        assert (tasks - {r})[r := tasks[r]] == tasks;
        work, todo := work[r := w], todo - {r};
      }
    }

    /** A task for each release that only the listing has. */
    method StartDurable(tasks: map<Release, nat>, work: map<Release, Work>, found: set<Release>, mine: set<nat>)
      returns (allTasks: map<Release, nat>, allWork: map<Release, Work>)
      requires Valid() && Mine(s, mine, id) && Open(s, id, tasks, {}, work, mine) && found !! work.Keys
      requires forall r | r in found :: r in s.global || r in s.perUser
      requires forall r | r in work :: work[r].local || work[r].durable
      modifies this
      ensures Valid() && Between(old(history), old(s), history, s, mine, id) && Mine(s, mine, id)
      ensures Open(s, id, allTasks, {}, allWork, mine) && allWork.Keys == work.Keys + found
      ensures forall r | r in allWork :: allWork[r].local || allWork[r].durable
    {
      hide Apply, Inv, Goes, Between, Safe, Mine, Enabled, Open;
      ghost var h0, s0 := history, s;
      BetweenItself(h0, s0, mine, id);
      allTasks, allWork := tasks, work;
      var todo := found;
      while todo != {}
        invariant Valid() && Between(h0, s0, history, s, mine, id) && Mine(s, mine, id)
        invariant todo <= found && s.global == s0.global && s.perUser == s0.perUser
        invariant Open(s, id, allTasks, {}, allWork, mine) && allWork.Keys == work.Keys + (found - todo)
        invariant forall r | r in allWork :: allWork[r].local || allWork[r].durable
        decreases todo
      {
        var r :| r in todo;
        ghost var h1, s1, all := history, s, mine + allTasks.Values;
        var t := Fresh(s.tasks.Keys);
        OpenAreMine(s, id, allTasks, {}, allWork, mine);
        NotMine(s, mine, id, t);
        OpenKeys(s, id, allTasks, {}, allWork, mine);
        StartedDurable(s, t, id, r, limit);
        Perform(StartDurableRepair(t, id, r), mine + allTasks.Values);
        BetweenSame(h1, s1, history, s, all, id);
        BetweenTwice(h0, s0, h1, s1, history, s, mine, all, id);
        MineForFewer(s, mine, all, id);
        OpenStays(s1, s, id, allTasks, {}, allWork, mine, all);
        WithOne(s, id, allTasks, {}, allWork, mine, r, t, Work(false, true));
        allTasks, allWork, todo := allTasks[r := t], allWork[r := Work(false, true)], todo - {r};
      }
    }

    /** The loop of a repair pass, over what it found. */
    method ProcessStates(tasks: map<Release, nat>, work: map<Release, Work>, read: bool, mine: set<nat>, calm: bool)
      returns (ok: bool)
      requires Valid() && Mine(s, mine, id) && Open(s, id, tasks, {}, work, mine)
      requires forall r | r in work :: work[r].local || work[r].durable
      modifies this
      ensures Valid() && Between(old(history), old(s), history, s, mine, id) && Mine(s, mine, id)
      ensures ok ==> read && forall r | r in work :: s.Applied(r)
      ensures calm && read ==> ok
    {
      hide Apply, Inv, Goes, Between, Safe, Mine, Enabled, Open, RepairTask, State.Applied;
      ghost var h0, s0 := history, s;
      BetweenItself(h0, s0, mine, id);
      ok := read;
      var left, todo := tasks, work;
      while todo.Keys != {}
        invariant Valid() && Between(h0, s0, history, s, mine, id) && Mine(s, mine, id)
        invariant todo.Keys <= work.Keys && forall r | r in todo :: todo[r] == work[r]
        invariant Open(s, id, left, {}, todo, mine)
        invariant ok ==> read && forall r | r in work && r !in todo :: s.Applied(r)
        invariant calm && read ==> ok
        decreases todo.Keys
      {
        var r :| r in todo;
        ghost var h1, s1 := history, s;
        OpenTask(s, id, left, {}, todo, mine, r);
        ghost var rest := mine + (left - {r}).Values;
        OpenAreMine(s, id, left, {}, todo, mine);
        WithoutOne(s, id, left, {}, todo, mine, r);
        var worked := ProcessOne(left[r], r, todo[r], mine + left.Values, calm);
        BetweenSame(h1, s1, history, s, rest, id);
        BetweenTwice(h0, s0, h1, s1, history, s, mine, rest, id);
        MineForFewer(s, mine, rest, id);
        assert {} - {r} == {};
        OpenStays(s1, s, id, left - {r}, {}, todo - {r}, mine, rest);
        ok := ok && worked;
        left, todo := left - {r}, todo - {r};
      }
    }

    /** What a pass has to work on: the snapshot of the map, and later the listing, each release with its task. */
    method PendingReleaseStates(user: Option<User>, expired: set<Release>, mine: set<nat>, calm: bool)
      returns (tasks: map<Release, nat>, work: map<Release, Work>, read: bool)
      requires Valid() && Mine(s, mine, id) && forall r | r in expired :: Unsaved(id, r) in s.unsaved
      modifies this
      ensures Valid() && Between(old(history), old(s), history, s, mine, id) && Mine(s, mine, id)
      ensures Open(s, id, tasks, {}, work, mine) && forall r | r in work :: work[r].local || work[r].durable
      ensures forall r | r in Entries(old(s), id, user) && r !in expired :: r in work
      ensures read ==> forall r | r in Listing(old(s), user) :: r in work || s.Applied(r)
      ensures calm ==> read
    {
      hide Apply, Inv, Goes, Between, Safe, Mine, Enabled, Open, State.Applied, Recorded, SameTasks, CallsGrow;
      ghost var h0, s0 := history, s;
      DropExpired(expired, mine);
      ghost var h1, s1 := history, s;
      var entries := Entries(s, id, user);
      tasks := StartLocal(entries, mine);
      BetweenTwice(h0, s0, h1, s1, history, s, mine, mine, id);
      ghost var h2, s2, all := history, s, mine + tasks.Values;
      OpenAreMine(s, id, tasks, entries, map[], mine);
      OthersAct(mine + tasks.Values);
      BetweenSame(h2, s2, history, s, all, id);
      BetweenTwice(h0, s0, h2, s2, history, s, mine, all, id);
      MineForFewer(s, mine, all, id);
      OpenStays(s2, s, id, tasks, entries, map[], mine, all);
      var answers: bool := *;
      read := calm || answers;
      var durable := if read then Listing(s, user) else {};
      ListedSomewhere(s, user);
      ghost var h3, s3 := history, s;
      BetweenSame(h0, s0, h3, s3, mine, id);
      work := MergeAll(tasks, entries, read, user, mine);
      BetweenTwice(h0, s0, h3, s3, history, s, mine, mine, id);
      ghost var h4, s4 := history, s;
      tasks, work := StartDurable(tasks, work, durable - entries, mine);
      BetweenTwice(h0, s0, h4, s4, history, s, mine, mine, id);
      BetweenTwice(h3, s3, h4, s4, history, s, mine, mine, id);
      BetweenSame(h3, s3, history, s, mine, id);
      if read {
        forall r | r in Listing(s0, user) ensures r in work || s.Applied(r) {
          ListedLater(s0, s3, user, r);
          AppliedLater(s3, s, r);
        }
      }
    }

    /**
     A whole repair pass, whatever all others do meanwhile: if it reports no error, everything that
     was in the map and had not expired, and everything that was listed, has been applied.
     */
    method ProcessPendingReleases(user: Option<User>, expired: set<Release>, mine: set<nat>, calm: bool)
      returns (ok: bool)
      requires Valid() && Mine(s, mine, id) && forall r | r in expired :: Unsaved(id, r) in s.unsaved
      modifies this
      ensures Valid() && Between(old(history), old(s), history, s, mine, id) && Mine(s, mine, id)
      ensures ok ==> forall r | (r in Entries(old(s), id, user) && r !in expired) || r in Listing(old(s), user) ::
                s.Applied(r)
      ensures calm ==> ok
    {
      hide Apply, Inv, Goes, Between, Safe, Mine, Enabled, Open, State.Applied, Recorded, Entries, Listing;
      ghost var h0, s0 := history, s;
      var tasks, work, read := PendingReleaseStates(user, expired, mine, calm);
      ghost var h1, s1 := history, s;
      ok := ProcessStates(tasks, work, read, mine, calm);
      BetweenTwice(h0, s0, h1, s1, history, s, mine, mine, id);
      BetweenSame(h1, s1, history, s, mine, id);
      forall r | s1.Applied(r) ensures s.Applied(r) {
        AppliedLater(s1, s, r);
      }
    }

    /**
     The quota check before an allocation, whatever all others do meanwhile: who is admitted has a
     slot for himself. When no call fails, admission is exactly that the count is below the quota
     at the last step, by when everything the user owed at the start has been applied.
     */
    method QuotaHandler(user: User, quota: int, expired: set<Release>, mine: set<nat>, calm: bool)
      returns (allowed: bool)
      requires Valid() && Mine(s, mine, id) && (quota >= 1 ==> quota == limit)
      requires forall r | r in expired :: Unsaved(id, r) in s.unsaved
      modifies this
      ensures Valid() && Mine(s, mine, id)
      ensures quota <= 0 ==> allowed && s == old(s) && history == old(history)
      ensures quota >= 1 ==>
                && Between(old(history), old(s), history, s, mine, id)
                && (allowed ==> s.LedgerOf(user.session).tickets > 0)
      ensures quota >= 1 && calm ==>
                && |history| > |old(history)| && Legal(history[..|history| - 1], limit)
                && var decided := Run(history[..|history| - 1], limit);
                && allowed == (decided.LedgerOf(user.session).counter.count < quota)
                && s == ReserveStep(decided, user.session, true, limit)
                && forall r | (r in Entries(old(s), id, Some(user)) && r !in expired)
                              || r in Listing(old(s), Some(user)) :: decided.Applied(r)
    {
      hide Inv, Goes, Between, Safe, Mine, State.Applied, Recorded, Entries, Listing, ReserveStep;
      if quota <= 0 {
        return true;
      }
      ghost var h0, s0 := history, s;
      var flushed := ProcessPendingReleases(Some(user), expired, mine, calm);
      ghost var h1, s1 := history, s;
      OthersAct(mine);
      BetweenTwice(h0, s0, h1, s1, history, s, mine, mine, id);
      BetweenSame(h1, s1, history, s, mine, id);
      BetweenSame(h0, s0, history, s, mine, id);
      forall r | s1.Applied(r) ensures s.Applied(r) {
        AppliedLater(s1, s, r);
      }
      var runs: bool := *;
      var heard: bool := *;
      if !calm && !runs {
        return false;
      }
      ghost var h2, s2 := history, s;
      allowed := s.LedgerOf(user.session).counter.count < limit && (calm || heard);
      Reserved(s, user.session, calm || heard, limit);
      Perform(Reserve(user.session, calm || heard), mine);
      BetweenTwice(h0, s0, h2, s2, history, s, mine, mine, id);
      assert history[..|history| - 1] == h2;
    }
  }
}

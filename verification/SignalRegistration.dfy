/**
 Registering one session's websocket, as a system of steps: each service instance has its own
 table entry for the session, all share the owner record and the pending list in Redis, and
 any number of Register and Unregister calls run at the same time.
 */
module SignalRegistration {
  import opened Options
  import opened PendingSignals
  import opened FreshNumbers

  const OWNER_TTL := 75

  datatype Entry = Entry(client: Option<nat>, claiming: bool)

  datatype Outcome = Registered(drained: seq<string>) | Refused

  /** Where a call is: a Register before its claim, after it, or a Unregister before its Redis half. */
  datatype Stage = Claiming | Failing | Installing(drained: seq<string>) | Releasing | Over(outcome: Outcome)
  {
    predicate Registering() {
      Claiming? || Failing? || Installing?
    }

    predicate Granted() {
      Installing? || (Over? && outcome.Registered?)
    }
  }

  datatype Call = Call(instance: nat, stage: Stage)

  /** A claim that Redis carried out: where it stands in the history, what it drained, and whether its reply arrived. */
  datatype Grant = Grant(at: nat, drained: seq<string>, heard: bool)

  /** The client of a Register is named by the call. */
  datatype State = State(
    entries: map<nat, Entry>,
    owner: Option<nat>,
    until: int,                        // when the owner record runs out
    pending: seq<string>,
    calls: map<nat, Call>,
    events: seq<Event>,                // everything queued and claimed so far
    grants: map<nat, Grant>)           // by call, every claim that Redis carried out
  {
    predicate Here(instance: nat, client: nat) {
      instance in entries && entries[instance].client == Some(client)
    }

    ghost predicate Serves(instance: nat) {
      || (instance in entries && entries[instance].client.Some?)
      || exists c :: c in calls && calls[c].instance == instance && calls[c].stage.Installing?
    }
  }

  const Initial := State(map[], None, 0, [], map[], [], map[])

  datatype Action =
    | StartRegister(call: nat, instance: nat)
    | ClaimOwner(call: nat, fate: Fate, now: int)
    | GiveUp(call: nat)
    | Install(call: nat)
    | StartUnregister(call: nat, instance: nat)
    | CompareAndDelete(call: nat, fate: Fate)
    | Refresh(instance: nat, now: int)
    | Expire
    | QueueSignal(payload: string)
    | InstanceDies(instance: nat)

  function StageOf(s: State, c: nat): Stage {
    if c in s.calls then s.calls[c].stage else Over(Refused)
  }

  predicate Enabled(s: State, a: Action) {
    match a
    case StartRegister(c, _) => c !in s.calls && c !in s.grants
    case ClaimOwner(c, _, _) => StageOf(s, c) == Claiming
    case GiveUp(c) => StageOf(s, c) == Failing
    case Install(c) => StageOf(s, c).Installing?
    case StartUnregister(c, _) => c !in s.calls && c !in s.grants
    case CompareAndDelete(c, _) => StageOf(s, c) == Releasing
    case _ => true
  }

  // ---- the critical sections on a table of entries ----

  predicate Busy<K>(items: map<K, Entry>, k: K) {
    k in items && (items[k].client.Some? || items[k].claiming)
  }

  /** The beginning of a Register. */
  function AfterBegin<K>(items: map<K, Entry>, k: K): map<K, Entry> {
    if Busy(items, k) then items else items[k := Entry(None, true)]
  }

  /** After a failed claim. */
  function AfterGiveUp<K>(items: map<K, Entry>, k: K): map<K, Entry> {
    if k !in items then items
    else if items[k].client.None? then items - {k}
    else items[k := items[k].(claiming := false)]
  }

  predicate CanInstall<K>(items: map<K, Entry>, k: K) {
    k in items && items[k].client.None?
  }

  /** After a granted claim, with its two error branches. */
  function AfterInstall<K>(items: map<K, Entry>, k: K, client: nat): map<K, Entry> {
    if k !in items then items
    else if CanInstall(items, k) then items[k := Entry(Some(client), false)]
    else items[k := items[k].(claiming := false)]
  }

  /** The beginning of an Unregister. */
  function AfterDrop<K>(items: map<K, Entry>, k: K): map<K, Entry> {
    if k !in items then items
    else if items[k].claiming then items[k := Entry(None, true)]
    else items - {k}
  }

  // ---- the steps ----

  function Begun(s: State, c: nat, i: nat): State {
    s.(entries := AfterBegin(s.entries, i),
       calls := s.calls[c := Call(i, if Busy(s.entries, i) then Over(Refused) else Claiming)])
  }

  /** The claim script, and what claimSession makes of its reply. */
  function Claimed(s: State, c: nat, fate: Fate, now: int): State
    requires c in s.calls
  {
    var i := s.calls[c].instance;
    var owned := s.owner.Some? && s.owner.value != i;
    var grants, told := fate.Applied() && !owned, fate.Worked? && !owned;
    s.(owner := if grants then Some(i) else s.owner,
       until := if grants then now + OWNER_TTL else s.until,
       pending := if grants then [] else s.pending,
       calls := s.calls[c := Call(i, if told then Installing(Drained(s.pending)) else Failing)],
       events := if grants then s.events + [Claim] else s.events,
       grants := if grants then s.grants[c := Grant(|s.events|, Drained(s.pending), fate.Worked?)] else s.grants)
  }

  function GivenUp(s: State, c: nat): State
    requires c in s.calls
  {
    var i := s.calls[c].instance;
    s.(entries := AfterGiveUp(s.entries, i), calls := s.calls[c := Call(i, Over(Refused))])
  }

  function Installed(s: State, c: nat): State
    requires c in s.calls && s.calls[c].stage.Installing?
  {
    var i := s.calls[c].instance;
    s.(entries := AfterInstall(s.entries, i, c),
       calls := s.calls[c := Call(i,
           Over(if CanInstall(s.entries, i) then Registered(s.calls[c].stage.drained) else Refused))])
  }

  function Dropped(s: State, c: nat, i: nat): State {
    s.(entries := AfterDrop(s.entries, i), calls := s.calls[c := Call(i, Releasing)])
  }

  function Released(s: State, c: nat, fate: Fate): State
    requires c in s.calls
  {
    var i := s.calls[c].instance;
    s.(owner := if fate.Applied() && s.owner == Some(i) then None else s.owner,
       calls := s.calls[c := Call(i, Over(Refused))])
  }

  function Apply(s: State, a: Action): State
    requires Enabled(s, a)
  {
    match a
    case StartRegister(c, i) => Begun(s, c, i)
    case ClaimOwner(c, fate, now) => Claimed(s, c, fate, now)
    case GiveUp(c) => GivenUp(s, c)
    case Install(c) => Installed(s, c)
    case StartUnregister(c, i) => Dropped(s, c, i)
    case CompareAndDelete(c, fate) => Released(s, c, fate)
    case Refresh(i, now) => s.(until := if s.owner == Some(i) then now + OWNER_TTL else s.until)
    case Expire => s.(owner := None)
    case QueueSignal(payload) => s.(pending := Push(s.pending, payload), events := s.events + [Queue(payload)])
    case InstanceDies(i) => s.(entries := s.entries - {i},
                               calls := map c | c in s.calls && s.calls[c].instance != i :: s.calls[c])
  }

  predicate Legal(s: State, actions: seq<Action>)
    decreases |actions|
  {
    actions == [] || (Enabled(s, actions[0]) && Legal(Apply(s, actions[0]), actions[1..]))
  }

  function Run(s: State, actions: seq<Action>): State
    requires Legal(s, actions)
    decreases |actions|
  {
    if actions == [] then s else Run(Apply(s, actions[0]), actions[1..])
  }

  // ---- entries and calls ----

  /** Every entry is either being claimed or has its client. */
  ghost predicate OneOfTwo(s: State) {
    forall i | i in s.entries :: s.entries[i].claiming == s.entries[i].client.None?
  }

  ghost predicate ClaimsEntry(s: State, c: nat, i: nat) {
    c in s.calls && s.calls[c].instance == i && s.calls[c].stage.Registering()
  }

  ghost predicate ClaimedRight(s: State, i: nat) {
    && (forall c | ClaimsEntry(s, c, i) :: i in s.entries && s.entries[i].claiming)
    && (forall c, d | ClaimsEntry(s, c, i) && ClaimsEntry(s, d, i) :: c == d)
    && (i in s.entries && s.entries[i].claiming ==> exists c :: ClaimsEntry(s, c, i))
  }

  /** An entry is being claimed by exactly one call. */
  ghost predicate OneClaimer(s: State) {
    forall i :: ClaimedRight(s, i)
  }

  ghost predicate Honoured(s: State, c: nat) {
    c in s.calls ==>
      && (c in s.grants ==>
            s.calls[c].stage in (if s.grants[c].heard
                                 then {Installing(s.grants[c].drained), Over(Registered(s.grants[c].drained))}
                                 else {Failing, Over(Refused)}))
      && (s.calls[c].stage.Granted() ==> c in s.grants && s.grants[c].heard)
      && (s.calls[c].stage.Claiming? ==> c !in s.grants)
  }

  /**
   A claim whose reply arrived leads to the registration, one whose reply was lost to a refusal,
   and no call is registered without one.
   */
  ghost predicate GrantsHonoured(s: State) {
    forall c :: Honoured(s, c)
  }

  /** The list is what its history leaves, and every grant drained what the history had left by then. */
  ghost predicate HistoryOk(s: State) {
    && s.pending == ListAfter(s.events)
    && (forall c | c in s.grants :: GrantFits(s.events, s.grants[c]))
    && (forall c, d | c in s.grants && d in s.grants && s.grants[c].at == s.grants[d].at :: c == d)
  }

  ghost predicate GrantFits(events: seq<Event>, g: Grant) {
    g.at < |events| && events[g.at] == Claim && g.drained == Drained(ListAfter(events[..g.at]))
  }

  ghost predicate Invariant(s: State) {
    OneOfTwo(s) && OneClaimer(s) && GrantsHonoured(s) && HistoryOk(s)
  }

  lemma StillOneOfTwo(s: State, a: Action)
    requires Invariant(s) && Enabled(s, a)
    ensures OneOfTwo(Apply(s, a))
  {
    if a.Install? || a.GiveUp? {
      assert ClaimsEntry(s, a.call, s.calls[a.call].instance);
      assert ClaimedRight(s, s.calls[a.call].instance);
    }
  }

  lemma SameClaimers(s: State, s': State, i: nat)
    requires ClaimedRight(s, i)
    requires forall c :: ClaimsEntry(s', c, i) <==> ClaimsEntry(s, c, i)
    requires (i in s'.entries && s'.entries[i].claiming) <==> (i in s.entries && s.entries[i].claiming)
    ensures ClaimedRight(s', i)
  {
    hide ClaimsEntry;
    if i in s'.entries && s'.entries[i].claiming {
      var c :| ClaimsEntry(s, c, i);
      assert ClaimsEntry(s', c, i);
    }
  }

  lemma StillOneClaimer(s: State, a: Action)
    requires Invariant(s) && Enabled(s, a)
    ensures OneClaimer(Apply(s, a))
  {
    hide ClaimedRight;
    forall i ensures ClaimedRight(Apply(s, a), i) {
      EntryStillClaimedRight(s, a, i);
    }
  }

  lemma EntryStillClaimedRight(s: State, a: Action, i: nat)
    requires Invariant(s) && Enabled(s, a)
    ensures ClaimedRight(Apply(s, a), i)
  {
    assert ClaimedRight(s, i);
    if a.StartRegister? && a.instance == i && !Busy(s.entries, i) {
      BegunIsClaimer(s, a.call, i);
    } else if (a.GiveUp? || a.Install?) && s.calls[a.call].instance == i {
      EndedLeavesClaimer(s, a, i);
    } else if a.InstanceDies? && a.instance == i {
      assert forall d :: !ClaimsEntry(Apply(s, a), d, i);
    } else {
      OthersKeepClaimers(s, a, i);
    }
  }

  lemma BegunIsClaimer(s: State, c: nat, i: nat)
    requires ClaimedRight(s, i) && c !in s.calls && !Busy(s.entries, i)
    ensures ClaimedRight(Begun(s, c, i), i)
  {
    var s' := Begun(s, c, i);
    assert forall d | d != c :: ClaimsEntry(s', d, i) <==> ClaimsEntry(s, d, i);
    assert ClaimsEntry(s', c, i);
  }

  lemma EndedLeavesClaimer(s: State, a: Action, i: nat)
    requires ClaimedRight(s, i) && Enabled(s, a) && (a.GiveUp? || a.Install?) && s.calls[a.call].instance == i
    requires i in s.entries ==> s.entries[i].claiming == s.entries[i].client.None?
    ensures ClaimedRight(Apply(s, a), i)
  {
    var s' := Apply(s, a);
    assert ClaimsEntry(s, a.call, i);
    assert forall d | d != a.call :: ClaimsEntry(s', d, i) <==> ClaimsEntry(s, d, i);
  }

  lemma OthersKeepClaimers(s: State, a: Action, i: nat)
    requires ClaimedRight(s, i) && Enabled(s, a)
    requires a.StartRegister? ==> a.instance != i || Busy(s.entries, i)
    requires a.GiveUp? || a.Install? ==> s.calls[a.call].instance != i
    requires a.InstanceDies? ==> a.instance != i
    ensures ClaimedRight(Apply(s, a), i)
  {
    var s' := Apply(s, a);
    assert forall c :: ClaimsEntry(s', c, i) <==> ClaimsEntry(s, c, i);
    assert (i in s'.entries && s'.entries[i].claiming) <==> (i in s.entries && s.entries[i].claiming);
    hide ClaimedRight, Apply, Enabled;
    SameClaimers(s, s', i);
  }

  lemma StillHonoured(s: State, a: Action)
    requires Invariant(s) && Enabled(s, a)
    ensures GrantsHonoured(Apply(s, a))
  {
    if a.Install? {
      assert ClaimsEntry(s, a.call, s.calls[a.call].instance);
      assert ClaimedRight(s, s.calls[a.call].instance);
    }
    hide Honoured;
    forall c ensures Honoured(Apply(s, a), c) {
      StillHonouredHere(s, a, c);
    }
  }

  lemma StillHonouredHere(s: State, a: Action, c: nat)
    requires Honoured(s, c) && Enabled(s, a)
    requires a.Install? ==> CanInstall(s.entries, s.calls[a.call].instance)
    ensures Honoured(Apply(s, a), c)
  {
  }

  lemma GrantStillFits(events: seq<Event>, e: Event, g: Grant)
    requires GrantFits(events, g)
    ensures GrantFits(events + [e], g)
  {
    assert (events + [e])[..g.at] == events[..g.at];
  }

  lemma StillHistory(s: State, a: Action)
    requires HistoryOk(s) && GrantsHonoured(s) && Enabled(s, a)
    ensures HistoryOk(Apply(s, a))
  {
    var s' := Apply(s, a);
    if a.QueueSignal? {
      OneMoreQueued(s.events, a.payload);
      HistoryGoesOn(s, s', Queue(a.payload));
    } else if a.ClaimOwner? && s'.events != s.events {
      OneMoreQueued(s.events, "");
      HistoryGoesOn(s, s', Claim);
    }
  }

  lemma HistoryGoesOn(s: State, s': State, e: Event)
    requires HistoryOk(s)
    requires s'.events == s.events + [e] && s'.pending == ListAfter(s'.events)
    requires forall c | c in s'.grants :: (c in s.grants && s'.grants[c] == s.grants[c])
               || (e == Claim && s'.grants[c].at == |s.events| && s'.grants[c].drained == Drained(ListAfter(s.events)))
    requires forall c, d | c in s'.grants && d in s'.grants && s'.grants[c].at == s'.grants[d].at :: c == d
    ensures HistoryOk(s')
  {
    forall c | c in s'.grants ensures GrantFits(s'.events, s'.grants[c]) {
      if c in s.grants && s'.grants[c] == s.grants[c] {
        GrantStillFits(s.events, e, s.grants[c]);
      } else {
        assert s'.events[..|s.events|] == s.events;
      }
    }
  }

  lemma StepKeepsInvariant(s: State, a: Action)
    requires Invariant(s) && Enabled(s, a)
    ensures Invariant(Apply(s, a))
  {
    hide OneOfTwo, OneClaimer, GrantsHonoured, HistoryOk, Apply, Enabled;
    StillOneOfTwo(s, a);
    StillOneClaimer(s, a);
    StillHonoured(s, a);
    StillHistory(s, a);
  }

  lemma InitialInvariant()
    ensures Invariant(Initial)
  {
  }

  lemma {:induction false} RunKeepsInvariant(s: State, actions: seq<Action>)
    requires Invariant(s) && Legal(s, actions)
    ensures Invariant(Run(s, actions))
    decreases |actions|
  {
    hide Invariant, Apply, Enabled;
    if actions != [] {
      StepKeepsInvariant(s, actions[0]);
      RunKeepsInvariant(Apply(s, actions[0]), actions[1..]);
    }
  }

  /** After every run, an entry is either being claimed, by one call, or has its client. */
  lemma EntriesAreOneOfTwo(actions: seq<Action>, i: nat)
    requires Legal(Initial, actions) && i in Run(Initial, actions).entries
    ensures var s := Run(Initial, actions);
            && s.entries[i].claiming == s.entries[i].client.None?
            && (s.entries[i].claiming ==> exists c :: ClaimsEntry(s, c, i) && forall d | ClaimsEntry(s, d, i) :: d == c)
  {
    InitialInvariant();
    RunKeepsInvariant(Initial, actions);
    assert ClaimedRight(Run(Initial, actions), i);
  }

  /** After every run, installing after a granted claim succeeds: the error branches are never taken. */
  lemma InstallSucceeds(actions: seq<Action>, c: nat)
    requires Legal(Initial, actions) && StageOf(Run(Initial, actions), c).Installing?
    ensures var s := Run(Initial, actions);
            var s' := Apply(s, Install(c));
            && c in s.grants && s.grants[c].heard && s'.Here(s.calls[c].instance, c)
            && StageOf(s', c) == Over(Registered(s.grants[c].drained))
  {
    InitialInvariant();
    RunKeepsInvariant(Initial, actions);
    var s := Run(Initial, actions);
    hide Run, Legal;
    assert Honoured(s, c);
    assert ClaimsEntry(s, c, s.calls[c].instance);
    assert ClaimedRight(s, s.calls[c].instance);
  }

  /**
   A call whose claim Redis carried out, once it is over, has ended with the registration and all
   that the claim drained exactly if the reply arrived; else it was refused, and what it drained
   is returned by no call at all.
   */
  lemma GrantedClaimEndsRegistered(actions: seq<Action>, c: nat)
    requires Legal(Initial, actions)
    requires var s := Run(Initial, actions); c in s.grants && c in s.calls && s.calls[c].stage.Over?
    ensures var s := Run(Initial, actions);
            && s.calls[c].stage.outcome == (if s.grants[c].heard then Registered(s.grants[c].drained) else Refused)
            && (s.calls[c].stage.outcome.Registered? <==> s.grants[c].heard)
  {
    InitialInvariant();
    RunKeepsInvariant(Initial, actions);
    assert Honoured(Run(Initial, actions), c);
  }

  /**
   Every registration is by a claim that Redis carried out, and no payload is drained by two of
   them: what a claim without a reply drained, no registration returns.
   */
  lemma DrainedOnce(actions: seq<Action>, c: nat, d: nat, k: nat)
    requires Legal(Initial, actions)
    requires var s := Run(Initial, actions); c in s.grants && d in s.calls && s.calls[d].stage.Granted()
    ensures var s := Run(Initial, actions);
            && d in s.grants && GrantFits(s.events, s.grants[c]) && GrantFits(s.events, s.grants[d])
            && (k in ClaimAt(s.events, s.grants[c].at) && k in ClaimAt(s.events, s.grants[d].at) ==> c == d)
  {
    InitialInvariant();
    RunKeepsInvariant(Initial, actions);
    assert Honoured(Run(Initial, actions), d);
    DrainedByOne(Run(Initial, actions), c, d, k);
  }

  lemma DrainedByOne(s: State, c: nat, d: nat, k: nat)
    requires HistoryOk(s) && c in s.grants && d in s.grants
    ensures GrantFits(s.events, s.grants[c]) && GrantFits(s.events, s.grants[d])
    ensures k in ClaimAt(s.events, s.grants[c].at) && k in ClaimAt(s.events, s.grants[d].at) ==> c == d
  {
    var one, two := s.grants[c].at, s.grants[d].at;
    if k in ClaimAt(s.events, one) && k in ClaimAt(s.events, two) {
      ClaimedWasQueued(s.events, one, k);
      ReturnedOnce(s.events, k, one);
      ReturnedOnce(s.events, k, two);
    }
  }

  /** The record of an instance goes only when it runs out, or by an Unregister of that instance. */
  lemma RecordGoesOnlyBy(s: State, a: Action, i: nat)
    requires Enabled(s, a) && s.owner == Some(i)
    ensures Apply(s, a).owner == Some(i) <==>
            !(a.Expire? || (a.CompareAndDelete? && a.fate.Applied() && s.calls[a.call].instance == i))
  {
  }

  /**
   The reply of a claim can get lost: then every payload that was queued is gone, the call is
   refused, and the record names an instance that has no client.
   */
  lemma LostReplyLosesSignals(payload: string)
    ensures exists actions :: Legal(Initial, actions) &&
              var s := Run(Initial, actions);
              && s.owner == Some(1) && s.pending == [] && s.entries == map[]
              && 1 in s.calls && s.calls[1].stage == Over(Refused) && 1 in s.grants
                  && s.grants[1] == Grant(1, [payload], false)
  {
    var actions := [QueueSignal(payload), StartRegister(1, 1), ClaimOwner(1, InDoubt, 0), GiveUp(1)];
    var s1 := Apply(Initial, actions[0]);
    var s2 := Apply(s1, actions[1]);
    var s3 := Apply(s2, actions[2]);
    var s4 := Apply(s3, actions[3]);
    hide Enabled, Apply;
    RunOne(s3, s4, actions[3..]);
    RunOne(s2, s3, actions[2..]);
    RunOne(s1, s2, actions[1..]);
    RunOne(Initial, s1, actions);
    assert Run(Initial, actions) == s4;
  }

  /** Whatever other calls do, the entry that a call is claiming stays as it is until that call ends. */
  lemma ClaimedEntryStays(s: State, a: Action, c: nat, i: nat)
    requires Invariant(s) && Enabled(s, a) && ClaimsEntry(s, c, i) && ClaimsEntry(Apply(s, a), c, i)
    ensures i in s.entries && s.entries[i] == Entry(None, true)
    ensures i in Apply(s, a).entries && Apply(s, a).entries[i] == Entry(None, true)
  {
    assert ClaimedRight(s, i);
    if a.GiveUp? || a.Install? {
      assert ClaimsEntry(s, a.call, s.calls[a.call].instance);
    }
  }

  // ---- the owner record ----

  /** The instance whose step it is; time and the senders have none. */
  function Actor(s: State, a: Action): Option<nat>
    requires Enabled(s, a)
  {
    match a
    case StartRegister(_, i) => Some(i)
    case ClaimOwner(c, _, _) => Some(s.calls[c].instance)
    case GiveUp(c) => Some(s.calls[c].instance)
    case Install(c) => Some(s.calls[c].instance)
    case StartUnregister(_, i) => Some(i)
    case CompareAndDelete(c, _) => Some(s.calls[c].instance)
    case Refresh(i, _) => Some(i)
    case Expire => None
    case QueueSignal(_) => None
    case InstanceDies(i) => Some(i)
  }

  /** No instance overwrites, extends or deletes the record of another. */
  lemma OthersRecordStays(s: State, a: Action, j: nat)
    requires Enabled(s, a) && s.owner == Some(j) && Actor(s, a).Some? && Actor(s, a) != Some(j)
    ensures Apply(s, a).owner == Some(j) && Apply(s, a).until == s.until
  {
  }

  /** Whoever serves the session, or is about to, owns it. */
  ghost predicate ServersOwn(s: State) {
    forall i: nat | s.Serves(i) :: s.owner == Some(i)
  }

  /** The steps that take the record from an instance that serves: a late Unregister, and the record running out. */
  ghost predicate Robs(s: State, a: Action)
    requires Enabled(s, a)
  {
    || (a.CompareAndDelete? && a.fate.Applied() && s.Serves(s.calls[a.call].instance))
    || (a.Expire? && exists i: nat :: s.Serves(i))
  }

  lemma ServersStay(s: State, a: Action, i: nat)
    requires Enabled(s, a) && Apply(s, a).Serves(i) && Invariant(s)
    ensures s.Serves(i) || (a.ClaimOwner? && s.calls[a.call].instance == i && a.call in Apply(s, a).calls
                            && Apply(s, a).calls[a.call].stage.Installing?)
  {
    var s' := Apply(s, a);
    if i in s'.entries && s'.entries[i].client.Some? {
      if a.Install? && s.calls[a.call].instance == i {
        assert s.calls[a.call].stage.Installing?;
      }
    } else {
      var c :| c in s'.calls && s'.calls[c].instance == i && s'.calls[c].stage.Installing?;
      assert c in s.calls || a.ClaimOwner?;
    }
  }

  /** A step keeps every serving instance the owner exactly if it does not take the record from one. */
  lemma ServersOwnUnlessRobbed(s: State, a: Action)
    requires Invariant(s) && Enabled(s, a) && ServersOwn(s)
    ensures ServersOwn(Apply(s, a)) <==> !Robs(s, a)
  {
    var s' := Apply(s, a);
    if Robs(s, a) {
      var i: nat :| s.Serves(i) && s'.owner != Some(i);
      StillServes(s, a, i);
    } else {
      forall i: nat | s'.Serves(i) ensures s'.owner == Some(i) {
        ServersStay(s, a, i);
      }
    }
  }

  lemma StillServes(s: State, a: Action, i: nat)
    requires Enabled(s, a) && s.Serves(i) && (a.CompareAndDelete? || a.Expire?)
    ensures Apply(s, a).Serves(i)
  {
    if !(i in s.entries && s.entries[i].client.Some?) {
      var c :| c in s.calls && s.calls[c].instance == i && s.calls[c].stage.Installing?;
      assert c in Apply(s, a).calls && Apply(s, a).calls[c] == s.calls[c];
    }
  }

  /**
   Every such step opens the way: any instance without an entry can then register too, so that
   the robbed instance and it both serve the session.
   */
  lemma RobbedInstanceIsJoined(s: State, a: Action, robbed: nat, other: nat, now: int)
    requires Invariant(s) && ServersOwn(s) && Enabled(s, a) && Robs(s, a) && s.Serves(robbed)
    requires other !in s.entries && other != robbed
    ensures exists more: seq<Action> ::
              && Legal(Apply(s, a), more) && (forall b | b in more :: !b.Expire? && !b.CompareAndDelete?)
              && Run(Apply(s, a), more).Serves(robbed) && Run(Apply(s, a), more).Serves(other)
  {
    StillServes(s, a, robbed);
    assert Apply(s, a).owner == None && other !in Apply(s, a).entries;
    hide Apply, Enabled;
    var more := JoinsIn(Apply(s, a), robbed, other, now);
  }

  lemma JoinsIn(s: State, robbed: nat, other: nat, now: int) returns (more: seq<Action>)
    requires s.Serves(robbed) && s.owner == None && other !in s.entries
    ensures Legal(s, more) && (forall b | b in more :: !b.Expire? && !b.CompareAndDelete?)
    ensures Run(s, more).Serves(robbed) && Run(s, more).Serves(other)
  {
    var c := Unused(s.calls.Keys + s.grants.Keys);
    var start, claim := StartRegister(c, other), ClaimOwner(c, Worked, now);
    var s1 := Apply(s, start);
    ServesOn(s, start, robbed);
    var s2 := Apply(s1, claim);
    ServesOn(s1, claim, robbed);
    assert c in s2.calls && s2.calls[c].instance == other && s2.calls[c].stage.Installing?;
    hide Apply, Enabled;
    more := [start, claim];
    RunOne(s1, s2, more[1..]);
    RunOne(s, s1, more);
  }

  lemma ServesOn(s: State, a: Action, i: nat)
    requires Enabled(s, a) && s.Serves(i) && (a.StartRegister? || a.ClaimOwner?)
    ensures Apply(s, a).Serves(i)
  {
    if !(i in s.entries && s.entries[i].client.Some?) {
      var c :| c in s.calls && s.calls[c].instance == i && s.calls[c].stage.Installing?;
      assert c in Apply(s, a).calls && Apply(s, a).calls[c] == s.calls[c];
    }
  }

  ghost predicate NeverRobs(s: State, actions: seq<Action>)
    requires Legal(s, actions)
    decreases |actions|
  {
    actions == [] || (!Robs(s, actions[0]) && NeverRobs(Apply(s, actions[0]), actions[1..]))
  }

  /** While no late Unregister and no expiry takes the record from a serving instance, at most one instance serves. */
  lemma {:induction false} OneInstanceServes(s: State, actions: seq<Action>)
    requires Invariant(s) && ServersOwn(s) && Legal(s, actions) && NeverRobs(s, actions)
    ensures ServersOwn(Run(s, actions))
    ensures forall i: nat, j: nat | Run(s, actions).Serves(i) && Run(s, actions).Serves(j) :: i == j
    decreases |actions|
  {
    hide Invariant, Apply, Enabled, Robs;
    if actions != [] {
      StepKeepsInvariant(s, actions[0]);
      ServersOwnUnlessRobbed(s, actions[0]);
      OneInstanceServes(Apply(s, actions[0]), actions[1..]);
    }
  }

  /**
   Without any expiry, an Unregister whose Redis half comes after the session has registered
   again takes the record away, and a second instance can register too.
   */
  lemma LateUnregisterSplitsSession()
    ensures exists actions: seq<Action> ::
              && Legal(Initial, actions) && (forall a | a in actions :: !a.Expire? && !a.InstanceDies?)
              && Run(Initial, actions).Here(1, 12) && Run(Initial, actions).Here(2, 13)
  {
    hide Legal, Run, Apply, Enabled;
    var again := [StartRegister(10, 1), ClaimOwner(10, Worked, 0), Install(10), StartUnregister(11, 1),
                  StartRegister(12, 1), ClaimOwner(12, Worked, 0), Install(12)];
    var split := [CompareAndDelete(11, Worked), StartRegister(13, 2), ClaimOwner(13, Worked, 0), Install(13)];
    var middle := RegistersAgain(again);
    var last := RegistersElsewhere(middle, split);
    RunInTwo(Initial, again, split);
  }

  lemma RegistersAgain(actions: seq<Action>) returns (s: State)
    requires actions == [StartRegister(10, 1), ClaimOwner(10, Worked, 0), Install(10), StartUnregister(11, 1),
                         StartRegister(12, 1), ClaimOwner(12, Worked, 0), Install(12)]
    ensures Legal(Initial, actions) && s == Run(Initial, actions)
    ensures s.Here(1, 12) && s.owner == Some(1) && 11 in s.calls && s.calls[11] == Call(1, Releasing)
    ensures s.calls.Keys == {10, 11, 12} && s.grants.Keys == {10, 12} && s.entries.Keys == {1}
  {
    var s1 := Apply(Initial, actions[0]);
    var s2 := Apply(s1, actions[1]);
    var s3 := Apply(s2, actions[2]);
    var s4 := Apply(s3, actions[3]);
    var s5 := Apply(s4, actions[4]);
    var s6 := Apply(s5, actions[5]);
    s := Apply(s6, actions[6]);
    hide Enabled, Apply;
    RunOne(s6, s, actions[6..]);
    RunOne(s5, s6, actions[5..]);
    RunOne(s4, s5, actions[4..]);
    RunOne(s3, s4, actions[3..]);
    RunOne(s2, s3, actions[2..]);
    RunOne(s1, s2, actions[1..]);
    RunOne(Initial, s1, actions);
  }

  lemma RegistersElsewhere(s: State, actions: seq<Action>) returns (last: State)
    requires actions == [CompareAndDelete(11, Worked), StartRegister(13, 2), ClaimOwner(13, Worked, 0), Install(13)]
    requires s.Here(1, 12) && s.owner == Some(1) && 11 in s.calls && s.calls[11] == Call(1, Releasing)
    requires s.calls.Keys == {10, 11, 12} && s.grants.Keys == {10, 12} && s.entries.Keys == {1}
    ensures Legal(s, actions) && last == Run(s, actions) && last.Here(1, 12) && last.Here(2, 13)
  {
    assert 13 !in s.calls.Keys && 13 !in s.grants.Keys && 2 !in s.entries.Keys;
    var s1 := Apply(s, actions[0]);
    var s2 := Apply(s1, actions[1]);
    var s3 := Apply(s2, actions[2]);
    last := Apply(s3, actions[3]);
    hide Enabled, Apply;
    RunOne(s3, last, actions[3..]);
    RunOne(s2, s3, actions[2..]);
    RunOne(s1, s2, actions[1..]);
    RunOne(s, s1, actions);
  }

  lemma {:induction false} RunInTwo(s: State, first: seq<Action>, second: seq<Action>)
    requires Legal(s, first) && Legal(Run(s, first), second)
    ensures Legal(s, first + second) && Run(s, first + second) == Run(Run(s, first), second)
    decreases |first|
  {
    hide Enabled, Apply;
    if first == [] {
      assert first + second == second;
    } else {
      assert (first + second)[1..] == first[1..] + second;
      RunInTwo(Apply(s, first[0]), first[1..], second);
    }
  }

  lemma RunOne(s: State, next: State, actions: seq<Action>)
    requires actions != [] && Enabled(s, actions[0]) && next == Apply(s, actions[0]) && Legal(next, actions[1..])
    ensures Legal(s, actions) && Run(s, actions) == Run(next, actions[1..])
  {
  }
}

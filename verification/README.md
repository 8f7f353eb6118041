# Verified model of Pairline's control protocols

Pairline is an anonymous text and video chat service. This project models the parts of its Go
backend that keep distributed state straight, and proves what they are for.

- **TURN allocation accounting** (`AllocationCounter`, `Accounting*`, `ReleaseRuns`, `ReleaseQueue`,
  `StepsOfOthers`, `ReleaseAmidOthers`, `AllocationIndex`, `AllocationTable`, `AllocationRuns`). Each
  session has a Redis counter changed by two Lua scripts. Relays keep a table of live allocations
  with derived indexes; releases are retried through a local map and two durable hashes. `Accounting` is a step system of any number of
  relays in which every backend call can be late, repeated, carried out in part or reported
  wrongly; `ReleaseRuns` and `ReleaseQueue` show that the release procedures are runs of it, with
  their exact effects, and `ReleaseAmidOthers` runs them among the steps of everybody else.
  The classes are the maps of one relay as they are updated under its mutex.
- **Pending-release indexes and keys** (`Base64`, `Usernames`, `PendingFields`, `PendingIndex`,
  `RedisKeys`, `ClusterSlot`). The codecs, the two listings and the Redis Cluster slot of a key.
- **Bans** (`BanCheck`, `BanRegistry`, `BanStore`, `BanOverlaps`, `BanSync`, `BanSyncRuns`). Postgres
  rows against Redis keys with an end, calls that overlap, the periodic sync, also amid other
  changes, and the batched lookup.
- **Report ingestion** (`ReportIngest`, `ReportWorker`). At-least-once delivery turned into one
  row for each message.
- **Signaling** (`PendingSignals`, `SignalRegistration`, `SignalHub`, `SignalRate`). Two-phase
  registration across instances, the bounded pending list, and the token bucket.
- **Login limit** (`LoginLimiter`). A sliding window with a concurrent cleanup.

Each theorem is stated about specification functions or a step system. How the methods of the
classes are tied to them:

- `ReportWorker` acts on the state of `ReportIngest` itself, one action for each command, with
  any legal actions of all others in between.
- `ReleaseQueue` keeps a run of `Accounting` whose state its maps, hashes and counters are, and
  extends it by the steps of the tasks it works on. There no other task acts meanwhile;
  `ReleaseAmidOthers` has the same procedures as steps of `Accounting` itself, with any legal
  actions of all others in between.
- `SignalHub` takes the sections of `SignalRegistration` on its table, and its scripts are the
  steps of that system for every state with the same records.
- `BanStore` and `BanSync` make the steps of `BanRegistry` and `BanSync` when no command fails.
- `AllocationTable` computes functions of its own; `AllocationRuns` shows that on the table
  they are the create, callback and reconcile steps of `Accounting`.
- The other classes compute the specification functions of their own module.

Calls to servers, clocks and chance are parameters or nondeterministic choices.
`dafny verify dfyconfig.toml` checks the project.

What the proofs assume, because the code relies on it:

- User names are trimmed and not blank. The indexes trim, but `rememberSessionIP` looks the
  untrimmed name up (backend/golang/internal/turnservice/revocation.go:82).
- The quota is at least 1 and the same on all relays, and operation IDs are never used twice.
- The 24-hour TTL of a counter does not fire: a vanished counter forgets its release markers.
- A delete callback, if it comes at all, comes before the next create on the same five-tuple.
- For agreement of bans and Redis: no session ID starts with `ip:`, since its ban key would be
  that of an IP. The lemma `BanRegistry.ClashLiftsBan` shows what happens otherwise, and
  `CreateAgreesExactly` and `DeleteAgreesExactly` have the condition for any session IDs. The admin
  handlers take only UUIDs (backend/golang/internal/handlers/handlers.go:689, :931), so such a
  session does not come through them.

What the proofs found:

- A ban created with an end in the past is put into Redis for one second
  (`BanRegistry.CreateAgrees` gives the exact condition). The admin handler rejects such ends
  (backend/golang/internal/handlers/handlers.go:764), so an ordinary request gets there only if
  the end passes between that check and the call.
- A ban created while a sync runs can have its key deleted by it (`BanSyncRuns.FreshBanIsPurged`,
  with the exact condition in `BanSyncRuns.PurgeAgrees`); the next sync restores it.
- A user whose only allocation ends is forgotten, and the next allocation carries no session IP
  until the user authenticates again (`AllocationTable.Relay.AllocateTwice`).
- A release is lost only with its last copy: by a crash before it is in the global hash, or by
  an age-out (`AccountingCustody.KeptUnlessLost`).
- When a refresh of an indexed key fails at the SADD, its rollback deletes the key even if it
  was there before (`BanStore.RollbackRemovesOldKey`); the next sync restores it.
- A stream length limit, which is off by default, can lose reports (`ReportIngest.TrimLosesReport`).
- The locks of `CreateOrRefreshBan` and `DeleteBan` end with their transaction, before Redis is
  written. A `DeleteBan` that is overtaken by a new ban on the same session takes that ban's key
  away (`BanOverlaps.OvertakenDeleteLiftsBan`); `BanOverlaps.LateWriteIsRight` has the exact condition.
- When the reply of a claim script is lost, the call is refused although Redis carried the claim
  out: all queued signals are gone, and the record names an instance that does not serve
  (`SignalRegistration.LostReplyLosesSignals`).
- An `Unregister` that reaches Redis after the session has registered again lets two instances
  serve one session (`SignalRegistration.LateUnregisterSplitsSession`).
- The login cleanup is right only for windows up to 15 minutes, the one in use
  (`LoginLimiter.CleanupIsTransparent`).

## Model

| member | source | states |
|---|---|---|
| AllocationCounter.ReleaseAllIsOncePerOperation | backend/golang/internal/turnservice/auth.go:56-89 | Releasing any sequence of operations, with repetitions and in any order, takes off exactly the number of operations not released before, never below zero, and leaves exactly their union as markers |
| AllocationCounter.ReleaseHistoriesAgree | backend/golang/internal/turnservice/auth.go:56-89 | Two release histories with the same set of operations end in the same counter |
| AllocationCounter.AllocationKey.Migrate | backend/golang/internal/turnservice/auth.go:33-42 | A string key becomes a hash of the same meaning, max(v,0) and no markers; one that is not a number is deleted and then fails; other types fail unchanged; hashes and missing keys are untouched |
| AllocationCounter.AllocationKey.Reserve | backend/golang/internal/turnservice/auth.go:32-54 | Against the counter meaning, from every key state and for limit at least 1: one slot is taken exactly if the count is below the limit, markers stay, and the TTL is renewed; so a rejection changes nothing and its DEL is unreachable. For a limit below 1 the reply is 0 and the key is gone exactly if the count was 0 |
| AllocationCounter.AllocationKey.Release | backend/golang/internal/turnservice/auth.go:56-89 | From every readable key state the script does what one release of the counter meaning does, renews the TTL only when the operation is new, and never stores a negative count |
| AllocationCounter.AllocationKey.ReserveAllocationSlot | backend/golang/internal/turnservice/auth.go:473-495 | No quota for a limit below 1; otherwise admission exactly below the limit, errors exactly for unreadable keys, and no release marker ever changes |
| AccountingInvariant.StepKeeps | backend/golang/internal/turnservice/service.go:608-700 | Every step of any relay, the backend or the environment (late, repeated, partial and in-doubt calls, panics, crashes and age-outs included) keeps the accounting invariant |
| AccountingInvariant.RunKeeps | backend/golang/internal/turnservice/service.go:608-700 | The invariant holds after every legal run of any number of relays |
| AccountingInvariant.UnappliedReleaseHoldsASlot | backend/golang/internal/turnservice/auth.go:56-89 | A known operation that is not applied yet finds a count of at least 1, so flooring at zero never hides a lost slot |
| AccountingInvariant.ReconcileTakesOnlyTheDead | backend/golang/internal/turnservice/service.go:945-985 | However old the snapshot, an allocation that the reconciler removes is the one it saw and is no longer held by the server |
| AccountingTheorems.QuotaSafety | backend/golang/internal/turnservice/service.go:414-450 | After every run, for each session: live allocations <= tracked allocations <= Redis count <= limit, and grants = count + distinct applied release operations |
| AccountingTheorems.InvariantMeansQuotaSafety | backend/golang/internal/turnservice/service.go:414-450 | In every state with the invariant, for each session: live <= tracked <= count <= limit, and grants = count + applied operations |
| AccountingTheorems.CountIsOutstanding | backend/golang/internal/turnservice/service.go:414-450 | The count is the operations issued and not released, plus grants that have no allocation |
| AccountingCustody.StepKeepsPersisted | backend/golang/internal/turnservice/auth.go:520-562 | No step, crashes and age-outs included, takes back that a release is applied, or that it is applied or in the global hash |
| AccountingCustody.KeptUnlessLost | backend/golang/internal/turnservice/service.go:622-700 | A release that is applied, in the global hash, in some relay's map or with its goroutine still is after a step, exactly unless the step is an age-out or a crash that takes the last of these copies |
| AccountingTheorems.WrittenDownStays | backend/golang/internal/turnservice/service.go:669-697 | A release that is applied or in the global hash is so after every continuation of the run, whatever crashes, panics or ages out |
| AccountingTheorems.NoReleaseIsLost | backend/golang/internal/turnservice/service.go:622-700 | After every run, a launched release is applied, in the global hash, in some relay's map or with its goroutine, exactly unless an age-out or a crash took its last copy and none has turned up since; what is only in a per-user hash is applied |
| AccountingTheorems.LaunchedAtMostOnce | backend/golang/internal/turnservice/service.go:608-620 | Over a run no operation gets two release goroutines, whichever of delete callback and reconciler comes first |
| AccountingTheorems.StaleSnapshotSparesTheLiving | backend/golang/internal/turnservice/service.go:945-985 | A reconciler step never removes an allocation the server still holds, also when the five-tuple was used again since its snapshot |
| AccountingTheorems.CountIsConserved | backend/golang/internal/turnservice/service.go:414-450 | After every run, for each session: count = tracked allocations + launched releases not applied + forgotten allocations + grants without an allocation |
| AccountingTheorems.InvariantMeansConservation | backend/golang/internal/turnservice/service.go:414-450 | The same identity in every state with the invariant |
| AccountingTheorems.CountIsExactUnlessOwed | backend/golang/internal/turnservice/service.go:819-873 | After every run the count is the tracked allocations plus the grants without one, exactly when no launched release of the session is unapplied and none of its allocations was forgotten |
| AccountingTheorems.ForgottenStaysTaken | backend/golang/internal/turnservice/revocation.go:104-130 | The operation of an allocation that was overwritten, or tracked by a relay that crashed, is not applied after any continuation, so its slot is never given back |
| AccountingTheorems.OverwrittenSlotIsForgotten | backend/golang/internal/turnservice/revocation.go:104-130 | A witness: a five-tuple tracked again without its delete callback leaves its first operation forgotten and the count one above the allocations tracked, with nothing owed |
| AccountingProgress.OwedReleaseCanStillBeApplied | backend/golang/internal/turnservice/service.go:819-873 | After every run a launched release can still be applied, without crash, panic or age-out, exactly if it is applied, in the global hash, in some relay's map, with a live task, or in a call still under way; else no continuation applies it |
| AccountingProgress.WrittenDownCanBeApplied | backend/golang/internal/turnservice/service.go:819-873 | After every run, what is applied or in the global hash can be applied, whatever has crashed or aged out |
| ReleaseQueue.Relay.QueueAllocationRelease | backend/golang/internal/turnservice/service.go:717-736 | The map without its expired entries, and the release under the current time; in the accounting run, age-outs and the task's saving step |
| ReleaseQueue.Relay.CompletePendingRelease | backend/golang/internal/turnservice/service.go:903-915 | Exactly this operation leaves the map, and its user with the last one; in the accounting run, the task's dropping step |
| ReleaseQueue.Relay.CleanupExpired | backend/golang/internal/turnservice/service.go:917-929 | Exactly the entries of 25 hours or more leave, and users without entries; entries with the zero time stay; in the accounting run, one age-out for each |
| ReleaseQueue.Relay.PendingReleaseStates | backend/golang/internal/turnservice/service.go:789-817 | The work list is the local entries plus, if it can be read, the durable listing, each flagged with where it was found; in the accounting run a task is started for each, and no other task is touched |
| ReleaseQueue.Relay.ProcessOne | backend/golang/internal/turnservice/service.go:830-872 | Whatever fails, every kept release stays kept; without a failure this one is applied once and gone from both hashes and the map; other releases and other counters are untouched. It takes the books along the legal steps of its one accounting task, to the end of that task |
| ReleaseQueue.Relay.ProcessPendingReleases | backend/golang/internal/turnservice/service.go:819-873 | No fault loses a kept release; a pass without an error leaves every release it found applied exactly once and gone; with a reliable backend there is no error. The books go along a legal accounting run that ends all tasks it starts |
| ReleaseQueue.Relay.QuotaHandler | backend/golang/internal/turnservice/service.go:414-450 | With a reliable backend the user is admitted exactly if the count is below the quota after all owed releases were applied, and the slot is taken then; a quota below 1 admits without touching anything. The books go along a legal accounting run |
| ReleaseQueue.Relay.ReleaseDeletedAllocation | backend/golang/internal/turnservice/service.go:647-700 | Whatever fails, a release with a known user and operation ends applied, in the global hash or in the map; with a reliable backend it is applied and nothing of it is left. It takes the books along the legal steps of the launched accounting task, to the end of that task |
| ReleaseQueue.ControlPlane.QueuePending | backend/golang/internal/turnservice/auth.go:520-540 | The global hash is written before the user's: a fault never leaves a new entry in the per-user hash only |
| ReleaseQueue.ControlPlane.CompletePending | backend/golang/internal/turnservice/auth.go:542-562 | Only this release can leave the two hashes, and success means that it left both |
| ReleaseRuns.CallRuns | backend/golang/internal/turnservice/service.go:669-697 | A call that is carried out in none, one or both of its commands and answered or not is a legal run of the task that makes it, and of nobody else |
| ReleaseRuns.StartsRun | backend/golang/internal/turnservice/service.go:789-817 | For what a repair pass found, starting one task for each release is a legal run that touches no other task |
| ReleaseQueue.SettledOneMore | backend/golang/internal/turnservice/auth.go:56-89 | Applying one more release extends the set of releases that a counter has had exactly once |
| StepsOfOthers.RunGoes | backend/golang/internal/turnservice/service.go:608-700 | Arbitrary legal steps of all others leave a relay's tasks and calls alone, take back nothing that is applied or written down, and take an entry out of the relay's map only when it is written down or too old |
| ReleaseAmidOthers.Relay.Request | backend/golang/internal/turnservice/auth.go:520-562 | One backend call of a task, in up to two commands with any steps of others before and after each: the task goes on as its answer says, and success means that the release is stored, or applied |
| ReleaseAmidOthers.Relay.ReleaseDeletedAllocation | backend/golang/internal/turnservice/service.go:647-700 | With any steps of all others between its commands: the task comes to its end, its release is applied, in the global hash or in the map unless its entry was too old, and when no call fails it is applied |
| ReleaseAmidOthers.Relay.ProcessOne | backend/golang/internal/turnservice/service.go:830-872 | With any steps of all others between its commands: the task comes to its end, success means that the release is applied, and there is success when no call fails |
| ReleaseAmidOthers.Relay.PendingReleaseStates | backend/golang/internal/turnservice/service.go:789-817 | With others acting between snapshot and listing: every entry that has not expired and every release listed at the start gets a task or has been applied meanwhile |
| ReleaseAmidOthers.Relay.ProcessPendingReleases | backend/golang/internal/turnservice/service.go:819-873 | With any steps of all others in between: after a pass without an error all that the map held unexpired, and all that was listed at the start, has been applied |
| ReleaseAmidOthers.Relay.QuotaHandler | backend/golang/internal/turnservice/service.go:414-450 | With any steps of all others in between: whoever is admitted has a slot; when no call fails, admission is exactly that the count is below the quota at its last step, by when all that the user owed at the start has been applied |
| AllocationIndex.AgreesIsScan | backend/golang/internal/turnservice/revocation.go:272-330 | An index agrees with the table, entry by entry, exactly if it equals what a scan gives: blank values not indexed, no empty sets |
| AllocationIndex.RemoveAgrees | backend/golang/internal/turnservice/revocation.go:284-330 | The index edit for a removal gives the scan of the table without the key |
| AllocationIndex.AddAgrees | backend/golang/internal/turnservice/revocation.go:272-315 | The index edit for a new key gives the scan of the table with it |
| AllocationIndex.MoveAgrees | backend/golang/internal/turnservice/revocation.go:79-90 | Taking a key from its old value and adding it to its new one gives the scan of the changed table |
| AllocationTable.IndexesEqualScans | backend/golang/internal/turnservice/revocation.go:272-330 | In every valid state both indexes and the per-user counts equal scans of the table, and the release lookup has the table's keys and operations |
| AllocationTable.OneSessionIPPerUser | backend/golang/internal/turnservice/revocation.go:68-131 | Every live allocation has the address its user last authenticated with exactly if the user is still remembered, and a blank one otherwise; so all of one user have the same |
| AllocationTable.Relay.AllocateTwice | backend/golang/internal/turnservice/revocation.go:284-304 | The failing history, for every user and address: authenticate, allocate, end that only allocation, allocate again; the new allocation is live with a blank address |
| AllocationTable.Relay.TrackActiveAllocation | backend/golang/internal/turnservice/revocation.go:94-131 | The five-tuple is tracked under the new operation with the session IP remembered for its user; a replaced allocation takes its index entries along; the invariant is kept |
| AllocationTable.Relay.UntrackActiveAllocation | backend/golang/internal/turnservice/revocation.go:133-154 | Returns and removes the tracked allocation if there is one; the fallback to the release lookup is dead code; the user's address is forgotten exactly with the last allocation |
| AllocationTable.Relay.RemoveTrackedAllocationByKey | backend/golang/internal/turnservice/service.go:1003-1018 | Removes the allocation only if its operation is the one asked for, or none is asked for, and then forgets the user's address exactly with the last allocation; else table and addresses are unchanged |
| AllocationTable.Relay.RememberSessionIP | backend/golang/internal/turnservice/revocation.go:68-92 | A non-blank address is remembered and given to all allocations of the user and to no other, and the invariant is kept |
| AllocationTable.Relay.CleanupRememberedSessionIPs | backend/golang/internal/turnservice/revocation.go:156-166 | Exactly the addresses older than a minute of users without allocations are forgotten |
| AllocationTable.Relay.Drop | backend/golang/internal/turnservice/revocation.go:284-304 | Table, lookup, both indexes, counts and remembered address change together and the invariant is kept |
| AllocationTable.Relay.SnapshotSessionIPs | backend/golang/internal/turnservice/revocation.go:172-187 | The non-blank session IPs in use, each once; only the addresses the cleanup forgets are forgotten |
| AllocationTable.Relay.SnapshotAllocationsForSessionIPs | backend/golang/internal/turnservice/revocation.go:189-210 | Each allocation whose session IP is on the list, exactly once, and no other |
| AllocationTable.Relay.RevokeBannedAllocations | backend/golang/internal/turnservice/revocation.go:231-270 | On an unchanged table revoke is called exactly once for each allocation whose session IP is banned and for no other, also when some calls fail; a failed check revokes nothing |
| AllocationTable.Relay.ReconcileTrackedAllocations | backend/golang/internal/turnservice/service.go:945-985 | Exactly the allocations that the server was found not to have are removed, and each is launched once; a failed probe leaves its allocation alone and is reported; exactly the addresses of users left without allocations by it are forgotten |
| AllocationRuns.TrackIsCreate | backend/golang/internal/turnservice/revocation.go:94-131 | Tracking an allocation in the table is the create step of the accounting system |
| AllocationRuns.UntrackIsCallback | backend/golang/internal/turnservice/service.go:608-620 | Untracking a five-tuple, tracked or not, is the callback step, which launches exactly what was untracked |
| AllocationRuns.RemoveIsReconcile | backend/golang/internal/turnservice/service.go:963-982 | Removing for an operation is the reconcile step of a sighting with that operation, which launches exactly what was removed |
| AllocationRuns.OthersLeaveTable | backend/golang/internal/turnservice/service.go:931-985 | No step of another relay, of the backend or of a release task changes this relay's table |
| BanCheck.NormalizedMeaning | backend/golang/internal/turnservice/auth.go:716-736 | Normalising gives the non-blank values, trimmed, each once |
| BanCheck.NormalizedKeepsOrder | backend/golang/internal/turnservice/auth.go:716-736 | Normalising keeps the order of first occurrence |
| BanCheck.NormalizeSessionIPs | backend/golang/internal/turnservice/auth.go:716-736 | The loop computes that normal form |
| BanCheck.GroupByClusterSlot | backend/golang/internal/turnservice/auth.go:775-783 | The groups partition the list, keep its order, are not empty, and the ban keys of a group share its slot, for every slot function |
| BanCheck.RunBatch | backend/golang/internal/turnservice/auth.go:738-773 | One script call gives the listed addresses whose ban key exists, in order |
| BanCheck.RunBatches | backend/golang/internal/turnservice/auth.go:785-794 | In whatever order the batches finish, the union is the banned addresses, and the call fails exactly if some batch fails |
| BanCheck.CheckBannedSessionIPs | backend/golang/internal/turnservice/auth.go:664-707 | The batched check equals the simple one: the normalised list filtered by whether the ban key exists |
| Base64.RoundTrip | backend/golang/internal/turnservice/auth.go:379-391 | Unpadded base64url (section 5 of RFC 4648) decodes to what was encoded, for all byte strings |
| Base64.EncodeIsInjective | backend/golang/internal/turnservice/auth.go:379-391 | Two byte strings with one encoding are equal |
| PendingFields.FieldsRoundTrip | backend/golang/internal/turnservice/auth.go:379-461 | Every well-formed release has its three fields and keys, and decoding them gives it back |
| PendingFields.EncodedFieldDecodes | backend/golang/internal/turnservice/auth.go:379-391 | Whatever user and operation a global field was made from, it decodes to them, trimmed |
| PendingFields.FieldIsInjective | backend/golang/internal/turnservice/auth.go:379-391 | Different releases have different global fields |
| PendingFields.PrefixMatchesOneUser | backend/golang/internal/turnservice/auth.go:405-414 | The prefix of a user matches a field exactly if the field is that user's, so ':' is a safe separator |
| PendingIndex.SortedListsAgree | backend/golang/internal/turnservice/auth.go:591-635 | A listing is determined by its members: two sorted lists of the same releases are equal |
| PendingIndex.InsertSorts | backend/golang/internal/turnservice/auth.go:591-635 | Sorting one release in keeps the order and adds exactly that release |
| PendingIndex.BeforeIsAnOrder | backend/golang/internal/turnservice/auth.go:591-635 | Ordering by user and then operation, byte by byte, is a strict total order |
| PendingIndex.ReleasesFromGlobalFields | backend/golang/internal/turnservice/auth.go:610-635 | From fields that hold a set of releases: the sorted list of exactly those of one user, or of all when the name is blank; an error exactly for a malformed name |
| PendingIndex.ReleasesFromUserFields | backend/golang/internal/turnservice/auth.go:591-608 | From a user's fields: the sorted list of exactly that user's releases |
| PendingIndex.Hashes.QueuePendingRelease | backend/golang/internal/turnservice/auth.go:520-540 | Both indexes gain exactly the trimmed release, or nothing changes on a malformed one; they still hold the same set |
| PendingIndex.Hashes.CompletePendingRelease | backend/golang/internal/turnservice/auth.go:542-562 | Both indexes lose exactly the trimmed release, or nothing changes on a malformed one; they still hold the same set |
| PendingIndex.Hashes.PendingReleases | backend/golang/internal/turnservice/auth.go:564-589 | The listing of one user, or of all, read from the index that serves it |
| PendingIndex.Hashes.BothListings | backend/golang/internal/turnservice/auth.go:564-635 | After every sequence of queueing and completing without faults, the user's own listing equals the global one filtered by prefix, in the same order |
| Usernames.ParseBuilt | backend/golang/internal/turnservice/config.go:203-232 | A built user name parses exactly if the session ID is not blank and has no bar, and then to the trimmed session and the digest |
| RedisKeys.LocatorRoundTrip | backend/golang/internal/redis/keys.go:103-122 | A locator decodes to its route exactly if the shard fits an int; otherwise it is rejected |
| RedisKeys.DecodesExactly | backend/golang/internal/redis/keys.go:103-122 | A locator decodes to a route exactly if the part before its first bar is, trimmed, one of the three modes and the part after it, trimmed, a number that fits an int and is not negative; every other locator is rejected |
| ClusterSlot.RemainderIsUnique | backend/golang/internal/turnservice/auth.go:830-845 | Modulo x^16 + x^12 + x^5 + 1 over GF(2) a polynomial has one remainder, so the slot is well defined |
| ClusterSlot.GeneratorTimesX | backend/golang/internal/turnservice/auth.go:836-842 | Multiplying by a power of x keeps multiples of the generator multiples |
| ClusterSlot.RoundIsTimesX | backend/golang/internal/turnservice/auth.go:836-842 | One round of the bit loop multiplies by x modulo the generator |
| ClusterSlot.CrcByte | backend/golang/internal/turnservice/auth.go:833-843 | One byte of the loop: the message so far times x^8 plus the byte, modulo the generator |
| ClusterSlot.Crc16 | backend/golang/internal/turnservice/auth.go:830-845 | The checksum loop computes the remainder of the message times x^16 |
| ClusterSlot.HashSlotKeyIsTag | backend/golang/internal/turnservice/auth.go:847-857 | The part hashed is the hash tag if the key has one, else the whole key (Redis Cluster Specification, "Hash tags") |
| ClusterSlot.RedisClusterSlot | backend/golang/internal/turnservice/auth.go:830-845 | The slot is the remainder of the hashed part times x^16, modulo 16384 |
| ClusterSlot.SlotsAgree | backend/golang/internal/turnservice/auth.go:830-857 | Keys with one hashed part have one slot, and no key has two |
| ClusterSlot.RouteKeysShareASlot | backend/golang/internal/redis/keys.go:124-162 | All keys built from one valid route are in one slot, whatever the session IDs contain, so the multi-key scripts are legal |
| BanRegistry.CreateKeepsUnique | backend/golang/internal/moderation/ban.go:74-102 | Creating keeps at most one ban in force for a session and for an IP, whatever becomes of the Redis commands |
| BanRegistry.CreateAgreesExactly | backend/golang/internal/moderation/ban.go:59-117 | For any session IDs: writing a ban in force leaves Redis right at all later times exactly if no ban on one of its keys lasts longer |
| BanRegistry.CreateAgrees | backend/golang/internal/moderation/ban.go:59-117 | On plain session IDs, creating keeps Redis right exactly if some ban on the session or the IP is in force or the new one does not end in the past |
| BanRegistry.PastBanIsWrong | backend/golang/internal/moderation/ban.go:384-395 | A ban that ends in the past puts a key up for a second though nothing is banned |
| BanRegistry.DeleteKeepsUnique | backend/golang/internal/moderation/ban.go:119-160 | Deleting keeps at most one ban in force for a session and for an IP |
| BanRegistry.DeleteAgrees | backend/golang/internal/moderation/ban.go:119-179 | Deleting a ban, in force or long ended, keeps Redis right: it never lifts another ban |
| BanRegistry.DeleteAgreesExactly | backend/golang/internal/moderation/ban.go:119-179 | For any session IDs: deleting leaves Redis right at all later times exactly if each key of the ban that is left lasts as long as all bans in force on it, and each that is gone has none |
| BanRegistry.RunAgrees | backend/golang/internal/moderation/ban.go:59-179 | Over every sequence of creations, deletions and passing time, with ends in the future and no Redis failure: one ban in force for each target, and for every key and every time from then on the key is present, with the ban's reason, exactly while a ban in force covers it |
| BanRegistry.WrittenKeyIsRight | backend/golang/internal/moderation/ban.go:273-316 | A key written for a ban in force is right at all later times exactly if no ban on that key lasts longer |
| BanRegistry.ClashLiftsBan | backend/golang/internal/redis/keys.go:58-64 | For every IP: unbanning a session named "ip:" plus that IP takes the IP's own ban out of Redis, so the condition on session IDs is needed |
| BanStore.SetKeepsIndexed | backend/golang/internal/redis/redis.go:185-206 | A failed write loses a key to the index exactly if the key was not indexed and the SET is in doubt, or the SADD and its rollback both failed |
| BanStore.Store.SetIndexedValue | backend/golang/internal/redis/redis.go:185-206 | Keys and index after each combination of outcomes of the SET, the SADD and the rollback |
| BanStore.Store.DeleteIndexedKey | backend/golang/internal/redis/redis.go:208-218 | Keys and index after each combination of outcomes; no outcome leaves a key outside the index |
| BanStore.Store.PropagateBan | backend/golang/internal/moderation/ban.go:273-316 | Success means both keys written, indexed and announced; the keys after every combination of outcomes |
| BanStore.Store.PropagateUnban | backend/golang/internal/moderation/ban.go:318-382 | Success means each key refreshed for a remaining ban, or deleted and announced; no other key is touched, whatever fails |
| BanStore.Store.CreateOrRefreshBan | backend/golang/internal/moderation/ban.go:59-117 | Errors for a missing target and a private address change nothing; otherwise the latest ban in force for session or IP is kept and written again, or the new one is added and written; success is reported exactly when every key was written and announced |
| BanStore.Store.FindActive | backend/golang/internal/moderation/ban.go:126-136 | The active ban with that ID, else the latest active ban of that session, in force or not |
| BanStore.Store.DeleteBan | backend/golang/internal/moderation/ban.go:119-179 | The ban found is deactivated, its keys are refreshed for the latest remaining bans in force or deleted, and no other row or key changes; success is reported exactly if every write or delete that is due worked, and every announcement of a target that is free again |
| BanSync.SyncIgnoresOrder | backend/golang/internal/server/server.go:233-271 | The order in which Postgres gives the rows makes no difference to Redis |
| BanSync.SyncHealsIndex | backend/golang/internal/server/server.go:217-280 | After a sync and a reconciliation without failures the index names a key exactly if some ban in force covers it |
| BanSync.SyncHeals | backend/golang/internal/server/server.go:217-280 | From any Redis state, one sync and reconciliation without failures make Redis right at all later times exactly if each key that the index had lost has run out or is written by the sync |
| BanSync.WriteRows | backend/golang/internal/server/server.go:233-271 | The loop over the rows leaves, for each key, what the last row on it writes, and adds all those keys to the index; whatever fails, no other key is touched |
| BanSync.ReconcileBanKeys | backend/golang/internal/server/server.go:385-430 | Exactly the scanned keys of no ban in force leave Redis and the index; whatever fails, no key of a ban in force is touched |
| BanSync.SyncActiveBans | backend/golang/internal/server/server.go:217-280 | The whole sync, given what the SSCAN cursor promises, makes the step that the healing theorems are about |
| BanSyncRuns.WriteAgrees | backend/golang/internal/server/server.go:233-271 | Amid creations and deletions: writing a loaded row keeps Redis right exactly if the row has run out, or each of its keys is that of a ban in force with the same reason and end |
| BanSyncRuns.PurgeAgrees | backend/golang/internal/server/server.go:404-422 | Amid creations and deletions: deleting a scanned stale key keeps Redis right exactly if no ban that covers it has come into force since the load |
| BanSyncRuns.SyncAmidChangesHeals | backend/golang/internal/server/server.go:217-280 | A whole sync amid any creations and deletions, from any Redis state, with no row written that was deleted since the load and no key deleted of a ban in force: Redis is right from its end on, exactly if each key the index had lost has run out or was touched |
| BanSyncRuns.FreshBanIsPurged | backend/golang/internal/server/server.go:385-422 | The condition is needed: for every session, a ban created after the load can have its key deleted while it is in force |
| BanOverlaps.LateWriteIsRight | backend/golang/internal/moderation/ban.go:273-395 | However late a write of propagateBan or propagateUnban comes, it makes its key right exactly if it deletes a key that no ban in force covers, or writes the entry of a ban in force |
| BanOverlaps.LateWriteAgrees | backend/golang/internal/moderation/ban.go:273-395 | Where all keys were right, they are right after such a write under exactly that condition |
| BanOverlaps.StepKeepsInvariant | backend/golang/internal/moderation/ban.go:59-179 | Every commit, Redis command and stop of any number of overlapping calls keeps: one ban for each target, and the writes ahead of the last call about a key say what the rows say |
| BanOverlaps.SettledKeysAreRight | backend/golang/internal/moderation/ban.go:59-179 | After every run of overlapping calls, with failing commands and calls that stop, every key is right whose last write was that of the last call about it while its ban was in force; so Redis agrees when no write is overtaken |
| BanOverlaps.OrderlyRunAgrees | backend/golang/internal/moderation/ban.go:59-179 | If calls about one key wait for each other and nothing fails or comes too late, Redis agrees whenever no call is under way |
| BanOverlaps.OvertakenDeleteLiftsBan | backend/golang/internal/moderation/ban.go:123-179 | For every plain session: a run without any failure in which a DeleteBan reaches Redis after a newer ban was committed and written, and takes the key of that ban away |
| ReportIngest.RunKeepsInvariant | backend/golang/internal/reporting/worker.go:130-353 | Every run of any number of consumers, with redelivery, take-over, faults and crashes, keeps the ingestion invariant |
| ReportIngest.OneRowPerMessage | backend/golang/internal/storage/database.go:68-68 | After every run there is at most one row for each stream message, and it holds that message's report |
| ReportIngest.AckedIsSettled | backend/golang/internal/reporting/worker.go:269-366 | After every run, an acknowledged message has its row, or is malformed, or was cut off by the stream's length limit |
| ReportIngest.AckedWithoutRow | backend/golang/internal/reporting/worker.go:269-366 | After every run, a report without a row is acknowledged exactly if the acknowledging task had seen no report in its message, and then the length limit has cut it off |
| ReportIngest.SeenAsStored | backend/golang/internal/reporting/worker.go:269-366 | A task sees the report of its message exactly if the stream has it when the task reads it |
| ReportIngest.NoReportIsLost | backend/golang/internal/reporting/worker.go:269-366 | Without a length limit every report is waiting in the stream, is stored there and pending, or has its row |
| ReportIngest.SuccessMeansAcked | backend/golang/internal/reporting/worker.go:269-366 | A call that reports success has its message acknowledged and settled |
| ReportIngest.TrimLosesReport | backend/golang/internal/reporting/config.go:42-44 | With a length limit a report can be lost: cut off while pending it reads as malformed and is acknowledged without a row |
| ReportIngest.LostExactlyWhenUnread | backend/golang/internal/reporting/worker.go:269-353 | A report without a row can still get one exactly if the stream has it or a task that read it is before its insert; otherwise the length limit has cut it off and it is lost for good |
| ReportIngest.PendingReportCanBeStored | backend/golang/internal/reporting/worker.go:170-226 | Wherever tasks failed or crashed, a pending report that the stream still has can be stored and acknowledged |
| ReportWorker.BackoffDoubles | backend/golang/internal/reporting/worker.go:171-225 | Doubling from nothing gives 1, 2, 4, 8, 16 and then always 30 seconds |
| ReportWorker.Backend.ProcessMessage | backend/golang/internal/reporting/worker.go:269-353 | The code takes legal steps of one ingestion task, with any legal steps of all others between its commands, to the end of that task; success means the message is acknowledged and settled, and follows when no call fails |
| ReportWorker.Backend.AckAndDelete | backend/golang/internal/reporting/worker.go:355-366 | From a settled message, the legal steps of one ingestion task among those of all others, to its end; it reports success whatever becomes of the deletion, and its other tasks are untouched |
| ReportWorker.Backend.ProcessAll | backend/golang/internal/reporting/worker.go:208-213 | Over a batch and amid all others: without a failure every message of the batch is acknowledged and settled; there is none when no call fails |
| ReportWorker.Backend.ReadPending | backend/golang/internal/reporting/worker.go:189-194 | Opens a task for each of the first messages pending for the consumer, at most ten, and reports none exactly when nothing is pending for it |
| ReportWorker.RecoverPending | backend/golang/internal/reporting/worker.go:170-226 | Whatever all others do meanwhile, the stream's length limit included: it reports completion only when nothing is pending for this consumer, and then all it had pending is settled or another consumer's; the pauses are 0 or within 1 to 30 seconds, double with each failing turn in a row, and end with a turn without faults |
| SignalRegistration.StepKeepsInvariant | backend/golang/internal/handlers/webrtc_ws.go:385-463 | Every step of any of the Register and Unregister calls running at once on any number of instances keeps: one claimer for each entry being claimed, every claim that Redis carried out honoured if its reply arrives and refused if not, and a pending list that is what the history of queueing and claiming leaves |
| SignalRegistration.EntriesAreOneOfTwo | backend/golang/internal/handlers/webrtc_ws.go:385-463 | After every run an entry is either being claimed, by exactly one call, or has its client |
| SignalRegistration.InstallSucceeds | backend/golang/internal/handlers/webrtc_ws.go:417-430 | After every run, the critical section after a granted claim installs the client and returns what the claim drained: its two error branches are unreachable |
| SignalRegistration.GrantedClaimEndsRegistered | backend/golang/internal/handlers/webrtc_ws.go:385-431 | A call whose claim Redis carried out, once over, has ended with the registration and all drained messages exactly if the reply arrived; otherwise it was refused |
| SignalRegistration.DrainedOnce | backend/golang/internal/handlers/webrtc_ws.go:657-668 | After every run, each registration is by a claim that Redis carried out, and no queued message is drained by two claims; so what a claim without a reply drained, no registration returns |
| SignalRegistration.RecordGoesOnlyBy | backend/golang/internal/handlers/webrtc_ws.go:741-749 | The record that a claim wrote names its instance until it runs out or an Unregister of that instance deletes it, and goes exactly then |
| SignalRegistration.LostReplyLosesSignals | backend/golang/internal/handlers/webrtc_ws.go:398-410 | For every queued message, a run in which the claim's reply is lost: the call is refused, the message is gone, and the record names an instance without a client |
| SignalRegistration.ClaimedEntryStays | backend/golang/internal/handlers/webrtc_ws.go:433-446 | Whatever other calls do, an entry being claimed stays claimed and without client until its call ends |
| SignalRegistration.OthersRecordStays | backend/golang/internal/handlers/webrtc_ws.go:644-789 | No claim, refresh or unregister of an instance overwrites, extends or deletes an owner record naming another |
| SignalRegistration.ServersOwnUnlessRobbed | backend/golang/internal/handlers/webrtc_ws.go:433-463 | If every serving instance owns the record, a step keeps that so exactly if it is not a compare-and-delete by an instance that serves again, or the expiry of a serving owner's record |
| SignalRegistration.OneInstanceServes | backend/golang/internal/handlers/webrtc_ws.go:385-463 | Over every run without such a step at most one instance serves the session |
| SignalRegistration.RobbedInstanceIsJoined | backend/golang/internal/handlers/webrtc_ws.go:433-463 | After every step that takes the record from a serving instance, any instance without an entry can register by two steps, and then both serve the session |
| SignalRegistration.LateUnregisterSplitsSession | backend/golang/internal/handlers/webrtc_ws.go:433-463 | The condition is needed: a concrete run without expiry in which a late Unregister takes the record away and two instances have a client |
| SignalHub.Hub.Register | backend/golang/internal/handlers/webrtc_ws.go:385-431 | Whatever others do to other entries meanwhile: a granted claim installs the client and returns everything drained, a failed one leaves no entry, a busy session is untouched; the records take the claim step of the step system |
| SignalHub.Hub.Unregister | backend/golang/internal/handlers/webrtc_ws.go:433-463 | Drops the entry unless it is being claimed, returns the client to close, and deletes only its own owner record, also when its commands fail |
| SignalHub.SessionRecords.Claim | backend/golang/internal/handlers/webrtc_ws.go:657-668 | The claim step of the step system, for every state with these records and every call of the instance; a grant returns what the whole history of queueing had left pending, and starts that history anew |
| SignalHub.SessionRecords.SendOrQueue | backend/golang/internal/handlers/webrtc_ws.go:523-535 | Unless another owner has a listener, one more event of the queueing history, and the queueing step of the step system |
| SignalHub.SessionRecords.RefreshOwner | backend/golang/internal/handlers/webrtc_ws.go:751-789 | The refresh step of the step system for every state with these records; loss is reported exactly when the record is not its own |
| SignalHub.SessionRecords.CompareAndDelete | backend/golang/internal/handlers/webrtc_ws.go:741-749 | The second half of the Unregister step for every state with these records; a record naming another instance stays |
| PendingSignals.PendingIsLast | backend/golang/internal/handlers/webrtc_ws.go:523-548 | Absent expiry the list is always the last 64 of what was queued since the last claim, in order |
| PendingSignals.ListIsPending | backend/golang/internal/handlers/webrtc_ws.go:523-548 | The list holds, entry by entry, the payloads queued at the positions that the theorems speak of |
| PendingSignals.ReturnedOnce | backend/golang/internal/handlers/webrtc_ws.go:657-668 | A payload is returned by a claim exactly if that is the first claim after it and fewer than 64 were queued between |
| PendingSignals.ReturnedInOrder | backend/golang/internal/handlers/webrtc_ws.go:657-668 | A claim returns payloads in the order in which they were queued |
| SignalRate.AllowedExactly | backend/golang/internal/handlers/webrtc_ws.go:133-147 | A message is let through exactly if, from every earlier call on, it and those let through since are at most 40 plus 20 for each second |
| SignalRate.AllowedIsBounded | backend/golang/internal/handlers/webrtc_ws.go:133-147 | From call i to call j at most 40 + 20 (tj - ti) messages are let through |
| SignalRate.TokensStayInRange | backend/golang/internal/handlers/webrtc_ws.go:126-147 | The tokens stay within 0 and 40 |
| SignalRate.LevelIsLeastCredit | backend/golang/internal/handlers/webrtc_ws.go:133-147 | The tokens a call finds are the least that the limits counted from all calls up to it leave |
| SignalRate.SignalRateLimiter.Allow | backend/golang/internal/handlers/webrtc_ws.go:133-147 | The limiter's fields follow the bucket that the theorems are about |
| LoginLimiter.SpanIsLimited | backend/golang/internal/server/server.go:601-631 | With attempts in time order, no span as long as the window has more than the allowed number of attempts from one IP let through; with the cleanup running, for windows up to 15 minutes |
| LoginLimiter.TableKnowsHistory | backend/golang/internal/server/server.go:601-631 | For every cutoff within the window the table has exactly the attempts let through since, with or without cleanups |
| LoginLimiter.CleanupIsTransparent | backend/golang/internal/server/server.go:565-593 | The cleanup, run at any moments, changes no decision of any history exactly if the window is at most 15 minutes or nothing is ever let through |
| LoginLimiter.LongWindowDiffers | backend/golang/internal/server/server.go:565-593 | For every longer window, a history in which the cleanup lets an attempt through that the window refuses |
| LoginLimiter.RateLimits.Attempt | backend/golang/internal/server/server.go:601-631 | The middleware's decision and the table after it, unchanged on a refusal |
| LoginLimiter.RateLimits.Cleanup | backend/golang/internal/server/server.go:573-586 | Every IP keeps its attempts of the last 15 minutes, and leaves the table when it has none |

## Left out

- The frontend, the Elixir service, gRPC stubs, HTTP handlers, tokens and sessions, tracing and metrics: plumbing around the modelled parts.
- The pion TURN server and the reflection code that asks it for allocations: whether it still holds one, and whether a revoke fails, are inputs; the probe is taken to be accurate.
- Redis and Postgres themselves: a script, a MULTI block, one command and a locked transaction are single steps. SHA-256 is a parameter.
- Expiry of counters, owner records, ready flags and pending lists by themselves; owner expiry is a step of `SignalRegistration` but is excluded from its main theorem. Ready flags appear only in `SignalHub`.
- White space is ASCII white space; Unicode white space and strings that are not bytes are not modelled. Counter strings with a fractional part are not modelled.
- Upper-casing of protocol names covers ASCII letters.
- In `BanRegistry`, `BanSync` and `BanSyncRuns` a ban's row change and its Redis commands are one step. In `BanOverlaps` they are apart, and calls on one target can overlap; there the sync, the index and the announcements are left out. A call has one reading of the clock for its rows, at its commit, though the code takes it at the start of the call; Redis rounding deadlines to milliseconds is not modelled.
- Ban rows without the columns nobody reads back (who banned, who unbanned and when); what the messages published after a ban say; the parsing of IP addresses, which come sorted into unparsable, private and public.
- Postgres refuses an identifier that is not a UUID in the first lookup of `DeleteBan`; such a refusal is the database error of the model.
- The blocking read and the take-over timer of report consumers: deliveries and take-overs are steps that may happen at any time. Hand-over to the moderation queue is not modelled.
- Report rows hold the report as one string; the fields and the creation time are not told apart.
- Entries of the signaling table are values, since the code reads an entry from the table again in each critical section; the 256 shards are one table. Delivery to a connected client is not modelled, except that a full queue leads to an Unregister like any other.
- Time in the token bucket is real-valued; floating-point rounding is not modelled.
- The automatic moderation worker, bandwidth limits, bots, settings and admin accounts would only add easy members.
- ReleaseQueue.Relay.ReleaseDeletedAllocation: no other goroutine acts between its calls, so that its exact effect can be stated; `ReleaseAmidOthers` has what is left of it among all others.
- ReleaseQueue.Relay.ProcessOne: the same.
- ReleaseQueue.Relay.ProcessPendingReleases: the same.
- ReleaseQueue.Relay.QuotaHandler: the same; exact admission is stated for a backend that does not fail.
- ReleaseAmidOthers.Relay.ProcessPendingReleases: a panic in the middle of a procedure, and the crash of its own relay, are steps of `Accounting` only.
- AllocationTable.Relay.ReconcileTrackedAllocations: as a method it has no callback in between; races with callbacks are the business of `Accounting`.
- BanSync.SyncHeals: the bans do not change from load to reconciliation; `BanSyncRuns` has the theorems for when they do.
- BanSync.WriteRows: what the keys of the rows hold after a failed command is not said; the next sync restores them.
- BanSync.SyncActiveBans: what the scan cursor promises is a hypothesis about its batches.

# EpochGrid: a verified model

EpochGrid is a messenger whose clients hold their state in SQLite and whose authority serves a
registry and signed logs over NATS. This project models the state machines inside the two and
proves what they promise. Every SQL table is a map, a set or a sequence, every transaction commits or
rolls back, and everything outside (the clock, randomness, the network, the disk) is a parameter that
may take any value. Cryptography is uninterpreted. Some two inputs of a hash always share a digest, so
conclusions that rest on one name the pair: they read "this holds, or these two inputs, found in the very
lists or messages at hand, have the same digest".

`dafny verify dfyconfig.toml` checks the whole project.

## Reading order

| files | what they model |
|---|---|
| `Prelude`, `Wire` | shared types; signed records, codecs and primitives |
| `Merkle`, `Transparency`, `RevocationLogs` | the tree of RFC 6962 section 2.1, the two signed logs and their prefix checks |
| `CasLog` | the compare-and-swap append loops, run by any number of writers |
| `ClientHome`, `ClientRuns` | what an installation pins, accepts and indexes, over whole runs |
| `Registry`, `RegistryRuns`, `RegistryStore` | tokens, devices, groups and generations of the authority |
| `Audit`, `AuditRuns`, `AuditStore`, `AuditExamples` | the bounded audit log, its reserve, pruning and exports; stores filled to the byte |
| `Admission`, `AdmissionStore`, `AdmissionExamples` | the authority's request loop, its admission gate and the invitations beside it; one device from invitation to revocation |
| `History`, `HistoryRuns` | staging, acknowledging and processing a group's stream |
| `Rekey` | who may commit to a group once devices are revoked |
| `Outbox` | ordered, batched publication |
| `Projection` | the conversation view over immutable events |
| `Participants`, `Typing` | the status responder and typing indicators |
| `RateLimit`, `ReplayCache`, `Vault` | token bucket, replay cache, crash-safe provisioning |

Where the source updates something in place there is a class whose methods follow its statements.
Their contracts equate the new state with a function of the old one; the properties are proved about
those functions, for every run.

Failures are explicit. `storage`, `commits`, `mark`, `Disk` and `Link` say what succeeds. `budget` counts the
durable effects a call performs before it is cut off, and `lost` says whether the effect that is then
reported as failed took place all the same.

## Properties that do not hold as one might expect

- A handover commit is accepted together only by clients that see the same leaves as revoked; one that
  has not learned of them refuses it (`Rekey.HandoverNeedsTheSameRevocations`, with an example in
  `Rekey.HandoverCounterexample`). A commit of the stored coordinator in time does not have this problem.
- `recover` of the audit log can succeed and still leave no room for an ordinary record;
  `AuditRuns.RecoveryAdmits` says exactly when, `AuditExamples.RecoveryLeavesNoRoom` gives such a run.
- The mark that stands in for a lost repair record is written in the same transaction, so a failed commit
  loses both (`AuditRuns.LostRepair`); `AuditRuns.RepairRecords` says exactly when one of them stays.
- A pass over a group's history can stop at the same message for ever: an MLS error that does not blame the
  message leaves the row pending. `HistoryRuns.ProcessExplains` says exactly when a pass gets through and
  `HistoryRuns.BlockedForEver` what follows when it does not. A commit that arrives after this device's own
  removal is such a message (`HistoryRuns.EvictedIsBlocked`, with a run in `HistoryRuns.EvictionCounterexample`).
- With a clock that goes back, an authorization request can pass the replay check twice
  (`ReplayCache.ClockBackCounterexample`); `ReplayCache.PassesAgainIff` says exactly when.
- Blocked outbox rows are never sent or deleted but still count against both quotas.
  `Outbox.BlockedRowsFillTheQuota` says exactly which messages can ever be queued again, and
  `Outbox.QuotaCounterexample` fills a quota for good.
- A sender without a device part stops every pass of the status responder that selects its message
  (`Participants.PassCompletesIff`, `Participants.NoDeviceStopsEveryPass`, with a run in
  `Participants.NoDeviceCounterexample`).
- A late start event can revive a stopped typing indicator although all clocks run evenly
  (`Typing.RevivedCounterexample`); `Typing.TypingIsTheLastWordIff` says exactly when the table is right, and
  `Typing.TypingFromDeliveries` says it in terms of the deliveries alone.

## Model

| member | source | states |
|---|---|---|
| RateLimit.RateLimit.Allow | crates/epochgrid-core/src/capacity.rs:238-252 | a call is admitted exactly when, with time as the running maximum of the clock, every window ending at it would hold at most burst + rate × length admitted calls |
| RateLimit.RefillExact | crates/epochgrid-core/src/capacity.rs:238-252 | the 64- and 128-bit arithmetic of the refill loses no value |
| RateLimit.StepSound | crates/epochgrid-core/src/capacity.rs:238-252 | one refill-and-take step keeps the bucket equal to the slack of the tightest window |
| RateLimit.WindowBound | crates/epochgrid-core/src/capacity.rs:221-252 | no window of any call sequence ever admits more than burst + rate × length |
| Merkle.SplitIsLargest | crates/epochgrid-core/src/transparency.rs:40-45 | the split point is the largest power of two strictly below n, for every n of at least two |
| Merkle.Binding | crates/epochgrid-core/src/transparency.rs:33-49 | lists of any two lengths with equal roots are equal, or the walk names two inputs that collide |
| Merkle.PrefixBinding | crates/epochgrid-core/src/transparency.rs:113-127 | a root recomputed over a prefix that equals an earlier root means the earlier list is that prefix, or walking the two lists names two inputs that collide |
| Transparency.Validate | crates/epochgrid-core/src/transparency.rs:79-112 | the loop with its two sets accepts exactly the snapshots whose header verifies and whose endpoints and keys are all distinct |
| Transparency.ExtendsIsPrefix | crates/epochgrid-core/src/transparency.rs:113-127 | the prefix check against a checkpoint holds of every longer snapshot of the same signer, and proves that the older entries are a prefix of the newer, or the walk over the two snapshots ends in a collision |
| Transparency.SameIdentity | crates/epochgrid-core/src/transparency.rs:79-112 | within one valid snapshot an endpoint or a key names one registration |
| RevocationLogs.ValidateLog | crates/epochgrid-core/src/revocation.rs:131-162 | the loop accepts exactly the logs whose every entry is a valid request against the entries before it and revokes a new key |
| RevocationLogs.LogExtendsIsPrefix | crates/epochgrid-core/src/revocation.rs:285-302 | an accepted revocation log repeats the previously accepted one from the start, or the walk over the two logs ends in a collision |
| RevocationLogs.RevokedOnce | crates/epochgrid-core/src/revocation.rs:131-162 | a key is revoked at most once in a valid log |
| RevocationLogs.LogStaysValid | crates/epochgrid-core/src/revocation.rs:49-76 | growth of the registration log never invalidates a revocation log |
| Wire.EndpointInjective | crates/epochgrid-core/src/wire.rs:59-61 | two different user and device names never share a directory key |
| CasLog.RunIsSafe | crates/epochgrid-core/src/transparency.rs:130-170 | with any interleaving of writers, ambiguous acknowledgments and retries, the stored log only grows, keeps distinct keys and contains everything reported Ok |
| CasLog.StepAppendsOne | crates/epochgrid-core/src/transparency.rs:136-168 | one step leaves the log alone or appends exactly one entry |
| CasLog.RegistrationPolicyIsSound | crates/epochgrid-core/src/transparency.rs:136-168 | the append decision on stored bytes is right: present means the very entry, push means a valid log with one more endpoint |
| CasLog.AcceptedRegistrationsAgree | crates/epochgrid-core/src/transparency.rs:146-157 | two different registrations for one endpoint never both succeed, in any run |
| CasLog.RevocationPolicyIsSound | crates/epochgrid-core/src/revocation.rs:193-232 | the same for revocations, where present means an entry with the same key |
| CasLog.RevokedKeysNeverAuthor | crates/epochgrid-core/src/revocation.rs:193-232 | in every reachable log no entry was authored by a key revoked before it |
| CasLog.RevocationsAreFinal | crates/epochgrid-core/src/revocation.rs:193-232 | a revocation reported Ok stays in the log for ever |
| ClientHome.IdentityStore.ObserveDevice | crates/epochgrid-core/src/trust.rs:79-107 | first sight pins, a match changes nothing, another fingerprint marks the row as changed and fails |
| ClientHome.IdentityStore.VerifyDevice | crates/epochgrid-core/src/trust.rs:108-134 | only a full matching fingerprint of an unchanged device marks it verified |
| ClientHome.IdentityStore.PinDirectory | crates/epochgrid-core/src/trust.rs:159-179 | the directory key is set once and never replaced |
| ClientHome.IdentityStore.Accept | crates/epochgrid-core/src/trust.rs:180-195 | every entry is pinned and the checkpoint stored only for a snapshot that extends the stored one |
| ClientHome.IdentityStore.AcceptRevocationLog | crates/epochgrid-core/src/revocation.rs:285-302 | the log must extend the stored one; its entries are indexed with insert-or-ignore in one transaction |
| ClientHome.IdentityStore.AuditDirectory | crates/epochgrid-core/src/transparency.rs:198-224 | nothing is accepted before both logs validate |
| ClientRuns.RunsAreCoherent | crates/epochgrid-core/src/trust.rs:159-195 | over any run of succeeding and failing calls the stored rows agree with the accepted snapshots and logs, or two neighbours among those snapshots or logs yield a collision |
| ClientRuns.RunsAreChained | crates/epochgrid-core/src/trust.rs:180-195 | the accepted snapshots form a chain that ends in the stored checkpoint, or two neighbours among them yield a collision, whatever the revocation logs contain |
| ClientRuns.AcceptedSnapshotsFormOneChain | crates/epochgrid-core/src/trust.rs:180-195 | all snapshots ever accepted have one signer and are prefixes of each other, however far apart, or two neighbours among them yield a collision |
| ClientRuns.NoEndpointHasTwoRegistrations | crates/epochgrid-core/src/trust.rs:180-195 | no endpoint and no key is ever accepted with two registrations, or two neighbouring snapshots of the run yield a collision |
| ClientRuns.RevocationIndexIsTheLog | crates/epochgrid-core/src/revocation.rs:285-302 | the local index holds exactly the keys of the last accepted log, with its cutoffs and the registered MLS keys, or two neighbours of the run yield a collision |
| ClientRuns.NothingRevokedAtFirst | crates/epochgrid-core/src/revocation.rs:285-302 | before any accepted log the index is empty, without exception |
| ClientRuns.PinsStick | crates/epochgrid-core/src/trust.rs:79-107 | a pinned fingerprint and the directory key stay the same for the rest of every run |
| ClientRuns.ChangedDeviceStaysBlocked | crates/epochgrid-core/src/trust.rs:79-134 | a device once seen with another fingerprint is refused for ever, in look-ups and in snapshots, and verifying it changes nothing and fails whatever is typed |
| ClientRuns.AcceptedEntriesArePinned | crates/epochgrid-core/src/trust.rs:180-195 | every entry of an accepted snapshot is pinned with its own fingerprint |
| ClientRuns.VerifiedOnlyByHand | crates/epochgrid-core/src/trust.rs:108-134 | a device is marked verified only by a step in which its full fingerprint was entered |
| RegistryStore.AuthRegistry.IssueToken | crates/epochgrid-core/src/identity_model.rs:173-231 | the transaction equals its row-by-row meaning and keeps the registry invariant and the capacity |
| RegistryStore.AuthRegistry.EnrollDevice | crates/epochgrid-core/src/identity_model.rs:241-298 | consumes one unexpired token for one new device, or recognises an exact retry, or changes nothing |
| RegistryStore.AuthRegistry.ActivateDevice | crates/epochgrid-core/src/identity_model.rs:299-315 | marks a device that is not revoked as ready and nothing else |
| RegistryStore.AuthRegistry.LeastMember | crates/epochgrid-core/src/identity_model.rs:336-358 | finds the remaining member with the least leaf, or none |
| RegistryStore.AuthRegistry.RevokeDevice | crates/epochgrid-core/src/identity_model.rs:336-358 | the five statements together equal the row-by-row effect of a revocation with successor selection |
| RegistryStore.AuthRegistry.CheckMembers | crates/epochgrid-core/src/authorization.rs:103-113 | accepts exactly the lists with distinct authorized devices and increasing leaves |
| RegistryStore.AuthRegistry.ChangePolicy | crates/epochgrid-core/src/authorization.rs:71-200 | a signed policy is applied once, an exact retry answers the same generation, everything else changes nothing |
| RegistryRuns.RunKeeps | crates/epochgrid-core/src/identity_model.rs:173-358 | every run keeps the registry invariant and every later state evolves from the earlier one |
| RegistryRuns.RunBounded | crates/epochgrid-core/src/capacity.rs:165-202 | the declared capacity holds in every reachable state, though revocation and activation never check it |
| RegistryRuns.ReachableStatesAreSound | crates/epochgrid-core/src/authorization.rs:101-184 | members are existing, ready, non-revoked devices, leaves are unique, and the coordinator is a member or empty exactly when the group is |
| RegistryRuns.GenerationsAreVersions | crates/epochgrid-core/src/authorization.rs:100-185 | equal group generations mean equal members, leaves, coordinator and epoch; equal device generations mean equal group sets and revocation |
| RegistryRuns.ExpectedGenerationIsConsumedOnce | crates/epochgrid-core/src/authorization.rs:117-131 | two different accepted policies never consume the same expected generation |
| RegistryRuns.AcceptedPolicyIsInForce | crates/epochgrid-core/src/authorization.rs:150-163 | after acceptance the group has exactly the listed members, leaves, coordinator and epoch, and every other group is as it was |
| RegistryRuns.ExactRetry | crates/epochgrid-core/src/authorization.rs:117-121 | repeating an accepted policy answers the same generation and changes nothing |
| RegistryRuns.EmptiedGroupsAreFrozen | crates/epochgrid-core/src/identity_model.rs:347-351 | a group that lost its last member is never changed again |
| RegistryRuns.RevokedForEver | crates/epochgrid-core/src/identity_model.rs:316-358 | a revoked key is never authorized, a member or enrolled again |
| RegistryRuns.TokenBindsOneRegistration | crates/epochgrid-core/src/identity_model.rs:241-298 | a consumed token answers only its own registration for the rest of the run |
| RegistryRuns.EnrolledWithinTheHour | crates/epochgrid-core/src/identity_model.rs:173-298 | every device of a run presented a token with the digest of the secret of an invitation at most an hour before, for the user it enrolled |
| RegistryRuns.AsManyTokensAsDevices | crates/epochgrid-core/src/identity_model.rs:241-298 | consumed tokens and devices are equally many in every reachable state |
| AuditStore.AuditLog.AppendRow | crates/epochgrid-core/src/audit.rs:246-297 | one row with exact counters, or nothing |
| AuditStore.AuditLog.RecordBatch | crates/epochgrid-core/src/audit.rs:314-323 | all events of a batch or none, and the history only grows |
| AuditStore.AuditLog.RecordRepair | crates/epochgrid-core/src/audit.rs:299-349 | the next record of the history is that of this repair, by event and operation, or the log is degraded, exactly if it was degraded before, or the transaction commits with one of the two; a failed commit loses both |
| AuditStore.AuditLog.RecordIntent | crates/epochgrid-core/src/audit.rs:614-668 | an effect under way keeps its operation once the transaction opens; a failure, to open it included, marks the log degraded exactly if the mark itself can be written |
| AuditStore.AuditLog.RecordResult | crates/epochgrid-core/src/audit.rs:682-718 | a recorded success takes the operation out of the pending ones; the next record is this result, by event and operation, or the log is degraded, exactly when its transaction commits or the mark is written |
| AuditStore.AuditLog.AllowPruning | crates/epochgrid-core/src/audit.rs:477-498 | stores a boundary within the history together with its record |
| AuditStore.AuditLog.PruneOldest | crates/epochgrid-core/src/audit.rs:506-546 | deletes the oldest rows within the stored permission and moves the retained start by exactly their number |
| AuditStore.AuditLog.ExportTo | crates/epochgrid-core/src/audit.rs:371-474 | on any log, even a damaged one, what is written is a gap-free stretch of bound records that ends at the limit or the boundary; a sound log is refused only for its cursor |
| AuditStore.AuditLog.CheckPage | crates/epochgrid-core/src/audit.rs:427-452 | a batch passes exactly when its rows continue the cursor and are bound to the store and their sequence |
| AuditRuns.RunSound | crates/epochgrid-core/src/audit.rs:246-312 | every run of appends, repairs, effects, retention, pruning and recovery keeps the log sound and only adds to the history |
| AuditRuns.ReachableLogIsExact | crates/epochgrid-core/src/audit.rs:246-297 | the rows are exactly the retained range of the history, the counters are its number and size, and the quotas hold |
| AuditRuns.RecordsNeverChange | crates/epochgrid-core/src/audit.rs:288-296 | a record is there unaltered as long as its sequence is retained, and no sequence is ever reused |
| AuditRuns.PrunedRows | crates/epochgrid-core/src/audit.rs:529-534 | the batch is the oldest min(256, through + 1 − start) rows |
| AuditRuns.PruningIsPermittedAndMarked | crates/epochgrid-core/src/audit.rs:506-546 | rows disappear only by an applied prune within the stored permission, leaving a marker with count and boundary |
| AuditRuns.ExportIsExact | crates/epochgrid-core/src/audit.rs:384-452 | an allowed export is the next stretch of the history up to limit or boundary |
| AuditRuns.ChainedExports | crates/epochgrid-core/src/audit.rs:371-474 | exports of later and later states chained by cursor give every record once and in order, or one is refused, and that exactly when a prune passed its cursor |
| AuditRuns.AdmissionCapacityIsExact | crates/epochgrid-service/src/diagnostics.rs:171-177 | the reported capacity holds exactly when a record of every permitted size fits without the reserve |
| AuditRuns.AdmissionMeansAppend | crates/epochgrid-service/src/diagnostics.rs:171-177 | with reported capacity the next ordinary append succeeds |
| AuditRuns.RecoveryAdmits | crates/epochgrid-core/src/audit.rs:732-749 | after a successful recovery the capacity is reported exactly when its own record left 2048 bytes below the ordinary limit |
| AuditExamples.RecoveryLeavesNoRoom | crates/epochgrid-core/src/audit.rs:732-749 | a run of largest records with room for one more, a repair that finds the disk full, and a recovery that succeeds and leaves no room for an ordinary record |
| AuditRuns.OrdinaryKeepsReserve | crates/epochgrid-core/src/audit.rs:282-287 | after any ordinary append 1024 records of the largest size still fit |
| AuditRuns.ReserveSuffices | crates/epochgrid-core/src/audit.rs:299-312 | as long as the reserve is untouched, 1024 repairs of the largest size are all recorded, in order, and none degrades the log |
| AuditExamples.ReserveIsExact | crates/epochgrid-core/src/audit.rs:282-312 | after a run that exhausts the ordinary quota to the byte, the next ordinary record is refused, exactly 1024 largest repairs are recorded, and the one after them leaves the mark |
| AuditExamples.LargestRecordsExist | crates/epochgrid-core/src/audit.rs:278-281 | any codec that undoes itself can be turned into one in which given records always have exactly 2048 bytes, so the two statements above are about stores that exist |
| AuditRuns.NoSilentLoss | crates/epochgrid-core/src/audit.rs:299-349 | whatever follows, until a recovery, the record of a repair whose transaction went through is at its place in the history, with its event and operation, or the log says it is degraded |
| AuditRuns.RepairRecords | crates/epochgrid-core/src/audit.rs:299-349 | the next record of the history is that of this repair, by event and operation, or the log is degraded, if and only if it was degraded before or the transaction opens and commits and the record fits the quotas or the mark can be written |
| AuditRuns.LostRepair | crates/epochgrid-core/src/audit.rs:341-349 | a failed commit loses record and mark of the very first repair of a store |
| AuditRuns.ResultRecords | crates/epochgrid-core/src/audit.rs:682-718 | the same equivalence for the result of an effect and its operation, whose mark is written after its transaction |
| AuditRuns.EffectKeepsItsOperation | crates/epochgrid-core/src/audit.rs:614-645 | asking again for an unsettled effect returns the operation of its first intent and writes nothing if the transaction opens, and otherwise only tries the mark |
| AuditRuns.SuccessSettles | crates/epochgrid-core/src/audit.rs:700-706 | after a recorded success no pending effect has that operation |
| AdmissionStore.Authority.PublishThenActivate | crates/epochgrid-service/src/dynamic.rs:28-40 | wherever it is cut off, a device that became ready is the one asked for and its registration is already in the log |
| Admission.PublishedFirst | crates/epochgrid-service/src/dynamic.rs:28-40 | for every number of effects that happen: readiness only with the entry in the log, and no other entry is added |
| AdmissionStore.Authority.RepairState | crates/epochgrid-service/src/dynamic.rs:16-42 | a completed repair leaves every device published and ready, or revoked as the log says |
| AdmissionStore.Authority.ServeRequest | crates/epochgrid-service/src/dynamic.rs:289-350 | a mutating request leaves the gate open exactly if it is accepted; one on a wrong subject is rejected and opens the gate once the logged revocations went through; a refused or reading one leaves the gate as it was |
| Admission.GateTellsSuccess | crates/epochgrid-service/src/dynamic.rs:289-350 | the same for every number of effects that happen: cut off or rejected at any effect a mutating request leaves the gate closed, except for a misaddressed one |
| AdmissionStore.Authority.HandleRequest | crates/epochgrid-service/src/dynamic.rs:289-356 | one turn of the loop, with the immediate repair, keeps the admission invariant whatever fails |
| Admission.NextFine | crates/epochgrid-service/src/dynamic.rs:250-356 | every invitation, request, repair attempt and crash keeps the invariant and only moves rows and logs forward |
| Admission.ReadyIsPublished | crates/epochgrid-service/src/dynamic.rs:379-400 | in every state reachable by invitations, requests, repairs and crashes a ready device is in the transparency log |
| Admission.OpenGateMeansAgreement | crates/epochgrid-service/src/dynamic.rs:289-356 | whenever the gate is open an enrolled device is revoked in the registry exactly when the revocation log revokes it |
| Admission.LogsNameEnrolledDevices | crates/epochgrid-service/src/dynamic.rs:325-337 | only registrations of enrolled devices are published and only enrolled keys revoked |
| Admission.ForeignRefused | crates/epochgrid-service/src/dynamic.rs:325-328 | a ready device cannot publish a registration other than the enrolled one |
| Admission.RepairSettles | crates/epochgrid-service/src/dynamic.rs:254-261 | a repair that opens the gate leaves no device half admitted |
| Admission.AcceptedRevocationIsEnforced | crates/epochgrid-service/src/dynamic.rs:330-341 | an accepted revocation is in the log and enforced by the registry for ever, across crashes |
| AdmissionExamples.LifecycleRuns | crates/epochgrid-service/src/dynamic.rs:289-350 | in any surroundings that let it through, a run from the empty start invites, enrolls, publishes and readies a device with the gate open and accepts its revocation with the gate open again |
| AdmissionExamples.LifecycleExists | crates/epochgrid-core/src/identity_model.rs:241-298 | such surroundings exist |
| History.HistoryStore.StageChat | crates/epochgrid-core/src/history.rs:25-44 | the first bytes stored for a sequence are the only ones; a repetition must match |
| History.HistoryStore.ProcessHistory | crates/epochgrid-core/src/history.rs:46-86 | the loop handles the pending rows of the group in stream order, with exact counters, rejecting what MLS blames the message for and stopping at the first failure of storage or of MLS itself |
| History.HistoryStore.FindNext | crates/epochgrid-core/src/history.rs:50-53 | finds the pending row of the group with the least sequence, or none |
| HistoryRuns.RunExplained | crates/epochgrid-core/src/history.rs:167-207 | after any interleaving the tables are the first n messages staged and the first k of them folded |
| HistoryRuns.ProcessExplains | crates/epochgrid-core/src/history.rs:46-86 | a pass folds further rows in stream order and gets through, leaving nothing pending, if and only if storage works for every row it has to handle and MLS fails on none of them; no row is ever counted as unavailable |
| HistoryRuns.StuckIff | crates/epochgrid-core/src/epochs.rs:28-62 | in a state kept by the fold a row stops a pass exactly when MLS fails on it; the unique payload column of the transcript never does |
| HistoryRuns.BlockedForEver | crates/epochgrid-core/src/history.rs:46-86 | a message MLS fails on stays pending in every later state, with every later message of the group, and no pass that finds it staged succeeds |
| HistoryRuns.EvictedIsBlocked | crates/epochgrid-core/src/epochs.rs:28-62 | where MLS fails on groups this device was removed from, any unknown commit of an own epoch after the removal is such a message, since only the message path asks whether the group is active |
| HistoryRuns.EvictionCounterexample | crates/epochgrid-core/src/epochs.rs:28-62 | a run in which the commit after the device's removal is fetched and pending ever after |
| HistoryRuns.AcknowledgedIsStaged | crates/epochgrid-core/src/history.rs:177-204 | whatever was acknowledged is staged with the bytes of the stream, and nothing else is |
| HistoryRuns.HistoryIsAPureFold | crates/epochgrid-core/src/history.rs:46-86 | with nothing pending, group state, dedup table and transcript are a pure fold over the staged prefix |
| HistoryRuns.InterleavingsAgree | crates/epochgrid-core/src/history.rs:46-86 | two runs that drained equally many messages agree on every table |
| HistoryRuns.DecryptedOnce | crates/epochgrid-core/src/messaging.rs:100-103 | no payload is decrypted twice |
| HistoryRuns.AcceptedWasDecrypted | crates/epochgrid-core/src/messaging.rs:80-158 | every accepted message that is not this device's own was decrypted, here or at an earlier copy |
| HistoryRuns.AcceptedIsShown | crates/epochgrid-core/src/history.rs:62-65 | an accepted message has its plaintext in the transcript, at the sequence of its first accepted copy |
| HistoryRuns.OnlyOwnEpochsCount | crates/epochgrid-core/src/epochs.rs:6-27 | nothing from before the join, of another group or over the size limit ever enters the dedup table or the transcript |
| HistoryRuns.RejectionsDoNotMatter | crates/epochgrid-core/src/history.rs:73-81 | dropping every rejected message from the stream leaves group state, dedup table and transcript of the whole fold unchanged, and nothing in what remains is rejected |
| Rekey.AuthorsAre | crates/epochgrid-core/src/rekey.rs:109-161 | exactly the stored coordinator until its cutoff and, once it is revoked, the least remaining leaf can author an accepted commit |
| Rekey.HandoverCompletes | crates/epochgrid-core/src/rekey.rs:35-49 | with the coordinator past its cutoff an accepted commit leaves no revoked leaf and stores its author's key as coordinator |
| Rekey.ReconcileIsAccepted | crates/epochgrid-core/src/rekey.rs:66-98 | the removal commit is accepted by everybody with the same revocations, at any sequence |
| Rekey.SomeoneReconciles | crates/epochgrid-core/src/rekey.rs:21-34 | while a revoked leaf and a remaining one exist, some remaining leaf has its turn |
| Rekey.CoordinatorCommitsAreKnowledgeFree | crates/epochgrid-core/src/rekey.rs:136-146 | a commit of the stored coordinator in time has one verdict and one result whatever revocations are known |
| Rekey.HandoverNeedsTheSameRevocations | crates/epochgrid-core/src/rekey.rs:147-161 | another client accepts an accepted handover if and only if it sees the same leaves as revoked |
| Rekey.HandoverCounterexample | crates/epochgrid-core/src/rekey.rs:147-161 | a two-leaf group in which a client without the revocation refuses the handover |
| Rekey.RunsKeepALeader | crates/epochgrid-core/src/rekey.rs:35-49 | a group with a coordinator always has one among its members |
| Rekey.LeafKeyIsStable | crates/epochgrid-core/src/rekey.rs:122-130 | a leaf's key and credential never change while it stays a member |
| Rekey.LateKnowledgeAgrees | crates/epochgrid-core/src/epochs.rs:63-78 | clients that learn of revocations at different times agree while the coordinator speaks in time |
| Rekey.GroupStore.ValidateAuthor | crates/epochgrid-core/src/rekey.rs:109-161 | the sequence of checks accepts exactly what the declarative rule accepts |
| Rekey.GroupStore.FindCoordinator | crates/epochgrid-core/src/rekey.rs:21-34 | finds the stored coordinator unless it is revoked or gone, else the least remaining leaf |
| Rekey.GroupStore.ProcessCommit | crates/epochgrid-core/src/epochs.rs:63-78 | merges and refreshes the coordinator, or changes nothing |
| Rekey.GroupStore.ReconcileRevocations | crates/epochgrid-core/src/rekey.rs:66-98 | the sender of a removal ends in the state every receiver of its commit reaches, without revoked leaves |
| Outbox.OutboxStore.QueueRow | crates/epochgrid-core/src/delivery.rs:15-45 | a new row within the quotas, or nothing |
| Outbox.OutboxStore.BlockRows | crates/epochgrid-core/src/rekey.rs:99-108 | blocks the unsent messages of closed groups |
| Outbox.OutboxStore.FlushRows | crates/epochgrid-core/src/delivery.rs:165-227 | batches of 16 up to the high-water mark end although rows are queued all the time, and amount to one pass over what was eligible at the start |
| Outbox.ArrivalsWait | crates/epochgrid-core/src/delivery.rs:173-190 | what is queued while a flush runs is neither published, marked nor blocked by it |
| Outbox.OutboxStore.NextBatch | crates/epochgrid-core/src/delivery.rs:180-200 | selects the first 16 eligible ids after the cursor |
| Outbox.BatchIsAStretch | crates/epochgrid-core/src/delivery.rs:179-225 | one batch followed by everything after its last id is the whole pass, though the rows changed and grew in between |
| Outbox.SendAllMarks | crates/epochgrid-core/src/delivery.rs:202-218 | a pass marks exactly the ids before its first loss, and what was queued meanwhile stays unsent behind them |
| Outbox.SendAllPublishes | crates/epochgrid-core/src/delivery.rs:202-218 | a pass publishes the ids it marks, in order, and at most the lost one in addition |
| Outbox.MessagesLeaveInOrder | crates/epochgrid-core/src/delivery.rs:165-227 | a marked row was published and all rows before it are marked or blocked, publications never go back, and the quotas hold |
| Outbox.BlockedStaysUnpublished | crates/epochgrid-core/src/rekey.rs:99-108 | a blocked row is never published again and never marked |
| Outbox.FlushedMeansDone | crates/epochgrid-core/src/delivery.rs:165-227 | after a successful flush every row it found is marked or blocked |
| Outbox.BlockedRowsFillTheQuota | crates/epochgrid-core/src/delivery.rs:26-38 | some continuation of a reachable state accepts a message if and only if it is new, at most 65536 bytes, and fits the message and the byte quota together with the rows blocked now |
| Outbox.FlushMakesRoom | crates/epochgrid-core/src/delivery.rs:26-38 | after a flush without a loss exactly these messages are accepted at once |
| Outbox.QuotaCounterexample | crates/epochgrid-core/src/rekey.rs:99-108 | with a quota of one message, a message of a group closed before the next flush ends ordinary sending for good |
| Projection.IdsAreUnique | crates/epochgrid-core/src/relationships.rs:196-212 | two different decrypted messages never share an id if and only if no two of the keys hashed for these messages collide |
| Projection.PassMeans | crates/epochgrid-core/src/relationships.rs:308-334 | the pass over sorted rows with its seen set finds the latest edit that counts and the latest reaction per sender and value |
| Projection.ViewsConverge | crates/epochgrid-core/src/relationships.rs:284-373 | devices that decrypted the same messages show the same view of every message, whatever the order, rows and repetitions, or the keys of two of those messages collide |
| Projection.ApplicationsAgree | crates/epochgrid-core/src/relationships.rs:260-262 | they find the same message under an id, whatever row they find |
| Projection.EveryIdIsShownOnce | crates/epochgrid-core/src/relationships.rs:375-398 | of all the rows of an id exactly one is shown |
| Projection.NewestWins | crates/epochgrid-core/src/relationships.rs:41-63 | a sender's new edit and new reaction win over its older ones, because the new counter exceeds all of them, or the keys of two messages of the table collide |
| Projection.ConversationIndex.FindApplication | crates/epochgrid-core/src/relationships.rs:260-262 | finds the canonical row of an id, or none |
| Projection.ConversationIndex.Project | crates/epochgrid-core/src/relationships.rs:284-373 | the loop over updates with its mutable sets and maps computes the view |
| Participants.AtMostOneReply | crates/epochgrid-core/src/participants.rs:40-88 | an event gets at most one reply across passes, failures, crashes and retransmissions, and every reply is to an event that asked for one |
| Participants.RepliesGetNoReply | crates/epochgrid-core/src/participants.rs:72-84 | a message that is itself a reply is never replied to, in any run |
| Participants.CompletedPassHandlesAll | crates/epochgrid-core/src/participants.rs:46-58 | a completed pass below the limit leaves no earlier event unhandled |
| Participants.PassCompletesIff | crates/epochgrid-core/src/participants.rs:59-88 | a pass completes if and only if all its transactions commit and no first copy of a selected message has a sender without a device part; retransmissions included |
| Participants.NoDeviceStopsEveryPass | crates/epochgrid-core/src/participants.rs:59-88 | once such a message is selected it stays unmarked and every later pass of every run fails |
| Participants.NoDeviceCounterexample | crates/epochgrid-core/src/participants.rs:59-88 | one message of a bare user name after which no pass completes |
| Participants.StatusService.RespondStatus | crates/epochgrid-core/src/participants.rs:40-88 | the loop equals the pass and counts the replies it queued |
| Typing.TypingIsTheLastWordIff | crates/epochgrid-core/src/ephemeral.rs:229-266 | the same for any expiries and any number of devices, after every delivery, if and only if the guard of `accept` takes exactly those unexpired starts that are newer than everything the device has sent |
| Typing.TypingFromDeliveries | crates/epochgrid-core/src/ephemeral.rs:229-266 | for at most 256 devices, on the deliveries alone: it is enough that every unexpired start that is not news comes while the last word before it is unexpired, and necessary where the stops do too |
| Typing.LateStopCounterexample | crates/epochgrid-core/src/ephemeral.rs:188-253 | where they do not it is not necessary: a late stop keeps out a start that is later still |
| Typing.TypingIsTheLastWord | crates/epochgrid-core/src/ephemeral.rs:229-266 | with at most 256 devices whose words expire in order, a device is shown exactly while the first delivery of its last word is an unexpired start of the epoch, whatever is repeated or late |
| Typing.StepKeepsOrder | crates/epochgrid-core/src/ephemeral.rs:188-218 | words expire in order where clocks run in step, no event was issued after it was opened, and a new epoch does not go back in time |
| Typing.RevivedCounterexample | crates/epochgrid-core/src/ephemeral.rs:188-253 | a stop issued a second ahead expires 8000 ms after it is opened, and an older start opened 100 ms later shows the device as typing again, with all clocks running evenly |
| Typing.TableIsBounded | crates/epochgrid-core/src/ephemeral.rs:229-253 | the table never holds more than 256 devices |
| Typing.TypingState.AcceptEvent | crates/epochgrid-core/src/ephemeral.rs:229-253 | the table stays the fold over the accepted deliveries |
| Vault.VaultStore.Provision | crates/epochgrid-core/src/secrets.rs:284-361 | a call cut off anywhere keeps the vault sound and everything saved, created or recorded |
| Vault.ProvisioningIsCrashSafe | crates/epochgrid-core/src/secrets.rs:284-361 | a saved id, kind and recorded key never change, no id is created twice, and every created secret has its slot |
| Vault.SameReference | crates/epochgrid-core/src/secrets.rs:284-361 | all successful calls for a role return the same reference |
| Vault.ReferenceReads | crates/epochgrid-core/src/secrets.rs:100-109 | what a reference refers to can be read for ever, with the same bytes |
| Vault.RetrySucceeds | crates/epochgrid-core/src/secrets.rs:284-361 | an uncut call succeeds exactly when the role is new or of the same kind |
| ReplayCache.CacheIsExact | crates/epochgrid-core/src/auth_callout.rs:364-373 | for any clock the cache holds exactly the passed requests whose expiry no later fresh request has reached |
| ReplayCache.RequestPassesOnce | crates/epochgrid-core/src/auth_callout.rs:353-373 | while the clock does not go back no request passes twice |
| ReplayCache.PassedRequestsExclude | crates/epochgrid-core/src/auth_callout.rs:364-373 | a connection passes again only after its earlier request has expired |
| ReplayCache.PassesAgainIff | crates/epochgrid-core/src/auth_callout.rs:353-373 | for any clock, exactly when a request that passed is let through again |
| ReplayCache.ClockBackCounterexample | crates/epochgrid-core/src/auth_callout.rs:364-373 | a clock that goes back lets one request pass twice |
| ReplayCache.CacheIsBounded | crates/epochgrid-core/src/auth_callout.rs:370-373 | the cache never exceeds 4096 entries |
| ReplayCache.Callout.Admit | crates/epochgrid-core/src/auth_callout.rs:353-373 | admits exactly the fresh requests without a live entry, and none twice while the clock rises |

## Left out

- SHA-256, AEAD, NKey signatures, JWT, XKey and OpenMLS: uninterpreted functions; only postcard and JSON decoding is assumed to undo encoding.
- SQL, SQLCipher, migrations and file permissions: tables are maps and transactions atomic; the page quota and the commit may fail at will (`storage`, `commits`).
- NATS transport, TLS, reconnects and timeouts: any step may fail where the source can.
- The policy queue and `dispatch` of authorization/delivery.rs: an outbox row may be dispatched there instead of published; that is one of the outcomes of a row.
- Tokens are parsed credentials, and the verdict of a rate limit inside the registry is a flag; the bucket itself is in `RateLimit`.
- `history` windows, unread counts, receipts, attachments, recovery archives, and the layout of the projected text.
- `accept_welcome` and `prepare_invitation`: adding members goes through MLS proposals that the model only counts.
- Own application messages are a fixed set while a history run lasts, `commit` includes the author check and the merge, and the group changes only through the stream; other groups' rows stay staged.
- The `stream_sequence` column set by a publish acknowledgment, and its uniqueness.
- The directory projection that follows a log append, and the import of a legacy directory at start-up.
- The rollback to an existing savepoint is taken to succeed; the flag for known coverage gaps is set by the migration and never cleared, so it is not modelled.
- While a flush waits for the network, `queue` may run any number of times, but neither blocking nor a second flush.
- A key-value update that lands after its request timed out and after a repair reopened the gate: a `lost` effect happens at once or never.
- Invitations happen between the requests of the loop, not between two effects of one request.
- What follows decryption in one transaction (attachment index, receipts, application index) is part of the verdict of `open`.
- Error texts: an error is a boolean or None; stored policies are compared as values, not as their encodings.
- AuditStore.AuditLog.ExportTo: the partial file, its manifest and the final link are one flag.
- Rekey.AuthorsAre: speaks of commits that MLS has validated; which proposals MLS lets through beyond that is not modelled.
- CLI, terminal UI, scripts, deployment rendering and validation reports.

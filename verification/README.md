# Echo appliance: proofs about its stateful protocols

A model of the state machines in `appliance/` and proofs of what they promise.
Each component has a specification (functions on a state value), the objects and
loops of the program as classes and methods that are proved to refine it, and
lemmas about whole runs of the specification.

| component | files |
|---|---|
| device sync: ledger, files, event cursors | `SyncPaths`, `FileStore`, `SyncLedger`, `SyncLedgerProofs`, `SyncPreflight`, `SyncCalls`, `SyncChanges`, `SyncService` |
| discovery announcements and the loop guard | `Varint`, `Announcement`, `AnnouncementMeaning`, `RecentForwards` |
| high-risk approvals and lockout | `ApprovalTokens`, `Lockout`, `LockoutRules`, `LockoutTable`, `ApprovalService` |
| OMV plan and apply: privileges, quota, groups | `OmvCalls`, `Privileges`, `OmvSharing`, `OmvSharingProofs`, `OmvSharingRecovery`, `OmvSharingAnswers`, `OmvSharingService`, `OmvPlanClient`, `OmvQuota`, `OmvQuotaAnswers`, `OmvQuotaService`, `OmvGroup`, `OmvGroupAnswers`, `OmvGroupService` |
| session floors and the account directory | `AccountDirectory`, `AccountSecurity`, `AccountEffects`, `AccountService` |
| device pairing | `DeviceLink`, `DevicePairing`, `DeviceLinkService` |
| health alerts | `HealthAlerts`, `HealthFindings`, `HealthMonitor`, `HealthStates`, `HealthReload`, `HealthService` |
| backup archives | `ArchivePaths`, `StateBackup`, `StateBackupAcceptance`, `StateBackupLayout`, `StateBackupRestore`, `StateBackupCreate`, `StateBackupLinks`, `StateBackupExamples`, `StateBackupService` |
| inventory scans | `Topology`, `TopologyOrder`, `Mdstat` |
| data authorization | `DataAccess`, `DataScope`, `ScopeMeaning` |
| shared vocabulary | `Wrappers`, `ByteStrings`, `Decimals`, `Texts`, `Clocks` |

Assumptions that run through the model:

- A public method that holds its lock is one atomic step. Clock readings, fresh
  tokens and session ids, audit results, disk faults and database refusals are
  parameters of the step, so every theorem holds for all of them.
- SHA-256 of file contents is an arbitrary function. Digests that only identify
  something (plan ids, revisions, alert ids, credential digests, MACs) are values
  that determine what they were made from.
- An OMV host follows a script: a call works, fails before or after taking effect,
  or leaves the host in any state at all. The transaction theorems hold for every
  script; the recovery theorems say which scripts they need.

Results where the code does less than one would expect, each with its exact
condition:

- An upload whose folder or name ends in whitespace, or whose name starts with it, is
  created under a stripped path and its first completion is refused
  (`SyncLedgerProofs.CompletesIffTrimmed`).  A second completion, or a second preflight,
  still commits it if only its name ends in whitespace; in the other cases it does so
  only if the wanted file happens to be at the place the target resolves to
  (`SyncLedgerProofs.RefusedUploadCompletableIff`, `SyncLedgerProofs.ReadsBackIff`).
- Replay memory forgets an unexpired token once it holds 10,000 of them
  (`ApprovalTokens.ReplayIffFull`).
- A quota that is not a multiple of 1024 bytes cannot be rolled back
  (`OmvQuota.RollbackFailsIffPartialKib`).
- Groups beyond the first 1,024 rows are invisible to the existence check and to the
  rollback check (`OmvGroup.RollbackRestoresIffAbsent`, `OmvGroup.HiddenGroupIsEmptied`).
- An outage right after a reading with 128 storage alerts writes a state file with 129
  alerts that the next start refuses, and so does a filesystem label, a disk health or a
  device file that holds a by-id path and gets into an alert (`HealthReload.LoadableIff`).
- Archive names are compared as text, so a name that is not canonical can hide a link
  above another one (`StateBackupExamples.DotSlashWritesThroughLink`), and an entry can
  even leave the destination (`StateBackupExamples.LeavesTheDestination`).  This happens
  exactly if some link lies below an earlier one, everything in front of it is restorable,
  and its folder leads out of the destination or to a directory of it with the name free
  (`StateBackupRestore.ThroughOrAwayIff`).
- An archive entry at or below the place of the decrypted archive cannot be restored
  (`StateBackupRestore.RestoredExactlyIff`, `StateBackupExamples.PayloadNameIsRefused`); a
  state directory with an entry of that name is backed up all the same
  (`StateBackupCreate.BackupRoundTrip`).
- The depth count of link targets is lexical, so a link can lead out of the restored
  directory through another one (`StateBackupExamples.ClimbingLeadsOutside`); it is
  enough exactly for targets that do not climb after a name
  (`StateBackupLinks.TargetIsSafeIff`).
- A shared folder path of slashes and single dots passes the check that refuses the root
  (`DataAccess.RootSlipsThroughIff`).
- A device revocation whose write failed is undone by a restart that comes before the
  next write (`DeviceLink.UnwrittenRevocationIsLost`), and so is a pairing
  (`DeviceLink.PairedDeviceStays`).
- The login wait can fail although its window has opened, exactly if the clock may move
  by more than 1.5 s between two readings (`AccountService.WaitNeverFailsIff`); a member
  change has been stored by then (`AccountSecurity.FailuresAreCleanOrLate`).

## Model

| member | source | states |
|---|---|---|
| `SyncLedgerProofs.KeepBoth` | appliance/sync.py:359-657 | For every event ever logged, in every later state of any interleaving of grants, preflights, appends, completes, cancels, expiries and foreign file creations, the file at its target still has that digest, size and content, and the event keeps its cursor |
| `SyncLedgerProofs.ReachableInv` | appliance/sync.py:146-188 | Every state reachable from an empty appliance: a row is uploading exactly when it holds a session, sessions are unique, the last event of a committed row carries its target, digest, size and conflict flag, and every event is backed by its file |
| `SyncLedgerProofs.StepKeeps` | appliance/sync.py:427-624 | Each single step keeps that invariant, alters no stored file, and appends exactly one event when it commits a row and none otherwise |
| `SyncLedgerProofs.RunKeeps` | appliance/sync.py:427-624 | The same over whole runs: the log only grows and nothing stored is altered |
| `SyncLedgerProofs.PreflightKeeps` | appliance/sync.py:427-530 | Preflight in all its outcomes (resume, skip, adopt, conflict name, begin, refuse) keeps the invariant |
| `SyncLedgerProofs.CompleteKeeps` | appliance/sync.py:577-624 | Completion, including the retry after a lost session, keeps the invariant |
| `SyncLedgerProofs.CancelKeeps` | appliance/sync.py:643-657 | Cancelling keeps the invariant and logs nothing |
| `SyncLedgerProofs.SetScopeKeeps` | appliance/sync.py:255-289 | Granting or withdrawing a scope keeps the invariant and logs nothing |
| `SyncLedgerProofs.RepeatIsSkipped` | appliance/sync.py:427-440 | Sending a committed asset again is a no-op answered with the stored target |
| `SyncLedgerProofs.UploadAvoidsLoggedFiles` | appliance/sync.py:334-345 | An upload is never directed at a file that some event already names, neither by the path it answers with nor by the path it will create |
| `SyncLedgerProofs.ForeignDeviceRefused` | appliance/sync.py:532-541 | A session of one device cannot be extended, completed or cancelled by another |
| `SyncLedgerProofs.CompletesIffTrimmed` | appliance/sync.py:577-600 | With all bytes in place and no fault, the first completion succeeds if and only if the target has no stripped whitespace; otherwise it is refused as a changed target |
| `SyncLedgerProofs.LostSessionCompletesIff` | appliance/sync.py:586-592 | A completion whose session is gone commits the row if and only if the wanted file is where the target resolves to |
| `SyncLedgerProofs.RefusedUploadRetries` | appliance/sync.py:577-600 | In every later state of any run in which the row still holds the refused session, a repeated completion succeeds if and only if the wanted file is where the target resolves to; the stored file stays there if both readings of the target agree |
| `SyncLedgerProofs.RefusedUploadCompletableIff` | appliance/sync.py:427-600 | Right after the refusal a repeated completion commits the row, and a repeated preflight of a first target adopts it with one event, if and only if both readings of the target agree or the wanted file was at the resolved place already |
| `SyncLedgerProofs.UploadRetried` | appliance/sync.py:359-624 | Preflight, any number of chunks and at most two completions store exactly the sent bytes and log exactly one event, precisely when both readings of the answered target agree |
| `SyncLedgerProofs.ReadsBackIff` | appliance/files/manager.py:804-822 | Both readings of a usable target agree if and only if its name does not begin with whitespace and its folder neither ends with it nor is a dot part |
| `SyncLedgerProofs.TargetTrimmedIffSource` | appliance/sync.py:291-293 | That condition on the first target can be read off the source path alone |
| `SyncLedgerProofs.UploadRoundTrip` | appliance/sync.py:359-624 | Preflight, any number of chunks and one completion store exactly the sent bytes and log exactly one event, precisely when the answered target is trimmed |
| `SyncLedgerProofs.ChunksConcatenate` | appliance/sync.py:556-571 | An upload in any number of chunks leaves exactly their concatenation in the session |
| `SyncLedgerProofs.PreflightResumes` | appliance/sync.py:427-440 | Asking again for an upload in progress changes nothing and answers with the same target |
| `SyncLedgerProofs.TornChunkContinues` | appliance/files/manager.py:1135-1182 | A partly stored chunk can be continued: the refused offset tells how much arrived, and the rest from there gives the whole chunk |
| `SyncLedgerProofs.ScopeOffStopsUploads` | appliance/sync.py:255-289 | Withdrawing a scope leaves no upload of it, its sessions are gone and refused, and every other row is as before |
| `SyncLedgerProofs.CancelledIsGone` | appliance/sync.py:643-657 | After a cancel the session can be neither continued, finished nor cancelled again, and nothing was logged |
| `SyncPreflight.OwnPlaces` | appliance/sync.py:291-293 | Two assets have one place if and only if their devices share a folder and they agree in scope and source path |
| `SyncPreflight.KnownAssets` | appliance/sync.py:381-419 | An upload of the same content that is under way is resumed with its target and flag, and a committed asset whose file is still in place is skipped; no row, file or event changes |
| `SyncPreflight.GoesToOwnPlace` | appliance/sync.py:401-424 | Any other asset that is not committed with other content, and whose own place is free, is never adopted, and an upload of it is answered with just that place and no conflict |
| `SyncPreflight.AdoptsOwnPlace` | appliance/sync.py:424-475 | If the wanted file is at its own place already, it is adopted with one event, flagged as a conflict exactly if the asset was committed with other content |
| `SyncPreflight.GoesToConflictName` | appliance/sync.py:334-345 | Otherwise the upload goes to the first keep-both name that is free and is a conflict, and is refused if all 999 are taken |
| `SyncPreflight.BeginsIff` | appliance/sync.py:479-530 | An upload that is called for begins if and only if its folder can be made, its name is usable, the path it creates is not taken, its session id is new and neither the disk nor the database refuses; then its session is there, empty, and the row holds it |
| `SyncPreflight.FirstUpload` | appliance/sync.py:359-530 | On an empty appliance every asset with a usable name begins at its own place without conflict |
| `SyncCalls.OwnerAnswers` | appliance/sync.py:532-541 | Only the device that holds an upload under way reaches its session, and only while its scope is granted |
| `SyncCalls.ChunkTaken` | appliance/files/manager.py:1135-1182 | A chunk is taken if and only if it is not empty, at most 8 MiB, begins where the stored bytes end and fits the declared size; it is then appended |
| `SyncCalls.FinishedIff` | appliance/files/manager.py:1184-1221 | A session is finished if and only if all bytes are there, their digest is the declared one and the place is free; the file is then exactly them |
| `SyncCalls.GrantAllows` | appliance/sync.py:255-289 | A grant lets the device reach its uploads of that scope and changes nothing else |
| `SyncCalls.CancelTaken` | appliance/sync.py:643-657 | A cancel by the owner is taken, and ends the row and its session |
| `SyncCalls.PageShows` | appliance/sync.py:694-727 | A page is exactly the first events after the cursor that belong to the device and a granted scope, as many as the bounded limit |
| `SyncPaths.UploadPathFixed` | appliance/files/manager.py:804-822 | The path an upload creates is the requested one if and only if the path is trimmed |
| `SyncPaths.ResolvedFixed` | appliance/files/manager.py:253-264 | Resolving leaves a path alone if and only if its last part is neither a dot part nor ends in whitespace |
| `SyncPaths.ConflictNamesDiffer` | appliance/sync.py:334-345 | Different attempts propose different keep-both names, so the search tries that many files |
| `SyncPaths.ConflictNameShape` | appliance/sync.py:334-345 | A keep-both name stays in the folder and is the wanted name, cut to leave room but never to nothing, with the digest before its extension; with an extension of at most 158 characters its length is at most 179 and the counter |
| `SyncPaths.ConflictKeepsSuffix` | appliance/sync.py:334-345 | It has the extension of the wanted name |
| `SyncLedger.ConflictTarget` | appliance/sync.py:334-345 | A conflict target does not exist yet |
| `SyncLedger.PlanUpload` | appliance/sync.py:401-477 | A new upload never starts at an existing file, and an adopted file has the wanted content; which place it is and with which flag is fixed by `SyncPreflight` |
| `FileStore.WithFoldersPreserves` | appliance/files/manager.py:706-711 | Creating folders replaces nothing that exists |
| `FileStore.FileManager.EnsureFolder` | appliance/sync.py:295-300 | The folder loop adds exactly the missing folders or reports a file in the way |
| `FileStore.FileManager.CreateUpload` | appliance/files/manager.py:1064-1126 | A session is created only for a new target, and all error cases are as specified |
| `FileStore.FileManager.AppendChunk` | appliance/files/manager.py:1135-1182 | Bytes are appended only at the exact offset, within the declared size; a torn write keeps a prefix |
| `FileStore.FileManager.CompleteUpload` | appliance/files/manager.py:1184-1221 | A verified session becomes a new file; nothing is overwritten |
| `SyncService.DeviceSyncService.SetScope` | appliance/sync.py:255-289 | The service refines the ledger step: withdrawing a grant cancels exactly the uploads it allowed and frees their sessions |
| `SyncService.DeviceSyncService.Preflight` | appliance/sync.py:359-530 | The service refines the ledger step, error cases included, so it gives the answers that `SyncPreflight` fixes |
| `SyncService.DeviceSyncService.FindConflictTarget` | appliance/sync.py:334-345 | The bounded search returns the first free conflict name, or nothing if all attempts are taken |
| `SyncService.DeviceSyncService.AppendChunk` | appliance/sync.py:556-571 | The service refines the ledger step |
| `SyncService.DeviceSyncService.Complete` | appliance/sync.py:577-624 | The service refines the ledger step |
| `SyncService.DeviceSyncService.Cancel` | appliance/sync.py:643-657 | The service refines the ledger step |
| `SyncService.DeviceSyncService.Changes` | appliance/sync.py:694-727 | One page: the first visible cursors above the given one, the cursor to follow, and whether the page was full |
| `SyncChanges.MatchingExact` | appliance/sync.py:694-727 | The visible cursors are exactly those of the device and its granted scopes, each once, increasing |
| `SyncChanges.MatchingResumes` | appliance/sync.py:694-727 | Resuming at any returned cursor continues exactly after it |
| `SyncChanges.FollowIsGapFree` | appliance/sync.py:694-727 | However the log grows between pages, the collected cursors are a gap-free beginning of the visible ones |
| `SyncChanges.ShortPageEnds` | appliance/sync.py:694-727 | A short page means that everything visible has been collected |
| `SyncChanges.PagesMakeProgress` | appliance/sync.py:694-727 | Once the log stops growing, k pages collect k times the page size or everything |
| `SyncChanges.PagingStops` | appliance/sync.py:694-727 | On a log that grows and then stops, the first page that is not full is the one after count / limit full ones, and with it every visible cursor has been collected |
| `SyncChanges.LateGrantMissesEarlierEvents` | appliance/sync.py:694-727 | The fixed grant set matters: an event of a scope granted later is found if and only if the cursor has not passed it |
| `Varint.ReadEncode` | appliance/lan_discovery_proxy.py:112-133 | Reading inverts writing for every value below 2^64, whatever bytes follow |
| `Varint.EncodeShortest` | appliance/lan_discovery_proxy.py:125-133 | No shorter encoding reads back as the value |
| `Varint.ReadLocal` | appliance/lan_discovery_proxy.py:112-122 | Only the bytes of the varint itself decide what is read |
| `Varint.ReadDigits` | appliance/lan_discovery_proxy.py:112-122 | A varint ends at its first byte below 128, which must be among the first ten, and the low seven bits of its bytes are the digits of the value |
| `Varint.ReadVarint` | appliance/lan_discovery_proxy.py:112-122 | The reading loop computes the specified value and position, or fails |
| `Varint.EncodeVarint` | appliance/lan_discovery_proxy.py:125-133 | The writing loop computes the specified encoding |
| `Announcement.OutputParses` | appliance/lan_discovery_proxy.py:164-244 | Accepted output parses to the input fields in order; all but the addresses are the same fields with the same bytes |
| `Announcement.TransformIdempotent` | appliance/lan_discovery_proxy.py:164-244 | Transforming again with the same source changes nothing as long as the output fits one packet, and is refused otherwise |
| `Announcement.RewriteStable` | appliance/lan_discovery_proxy.py:136-161 | A rewritten address is left alone by a second rewrite |
| `Announcement.RewriteCounts` | appliance/lan_discovery_proxy.py:164-244 | Rewriting adds no field and touches no other kind of field |
| `Announcement.FieldsReparse` | appliance/lan_discovery_proxy.py:164-244 | Parsed fields make up the whole packet and read back from their own bytes |
| `Announcement.DottedSpecified` | appliance/lan_discovery_proxy.py:136-161 | The sender address that is filled in is never itself an unspecified one |
| `Announcement.ReadOne` | appliance/lan_discovery_proxy.py:164-205 | One field is read as specified |
| `Announcement.TransformAnnouncement` | appliance/lan_discovery_proxy.py:164-244 | The rewriting loop computes the field-by-field specification, refusals included, whose meaning `AnnouncementMeaning` fixes |
| `AnnouncementMeaning.FieldIsRead` | appliance/lan_discovery_proxy.py:164-205 | A key and a body of its wire type (varint, eight bytes, counted bytes, four bytes) read as that field, whatever follows |
| `AnnouncementMeaning.FieldIsRefused` | appliance/lan_discovery_proxy.py:164-205 | Field number zero, any other wire type and a body that is cut off are refused |
| `AnnouncementMeaning.AnnouncementPasses` | appliance/lan_discovery_proxy.py:136-244 | Field by field: everything but an address passes with its bytes, and so does an address that is not direct or names a host; with a known sender a direct address that leaves its host open is dropped if its scheme ends in 6, and otherwise splits to the same scheme, port and rest with the host of the sender |
| `AnnouncementMeaning.NoHostLeftOpen` | appliance/lan_discovery_proxy.py:136-161 | With a known sender no address of the output leaves its host open |
| `AnnouncementMeaning.AcceptedIff` | appliance/lan_discovery_proxy.py:164-244 | An announcement is accepted if and only if its size, magic and sender are good, its fields can be read, it has one device id of 32 bytes, at most one instance and 1 to 32 addresses, each address is acceptable by itself, and not all are dropped |
| `RecentForwards.Guard.Expire` | appliance/lan_discovery_proxy.py:79-84 | Popping from the front removes every expired entry and nothing else |
| `RecentForwards.Guard.SeenBefore` | appliance/lan_discovery_proxy.py:86-90 | The answer is exactly: unexpired and among the most recently remembered distinct digests |
| `RecentForwards.Guard.Remember` | appliance/lan_discovery_proxy.py:92-99 | Remembering extends the history by one entry and keeps the table consistent with it |
| `RecentForwards.LiveAfterRemember` | appliance/lan_discovery_proxy.py:92-99 | Replacing and cutting the live table gives the live table of the longer history |
| `RecentForwards.RememberConsistent` | appliance/lan_discovery_proxy.py:58-99 | The table stays ordered by expiry, bounded, and equal to what the history prescribes |
| `ApprovalTokens.ApprovalsAreOneShot` | appliance/approval.py:245-422 | From start, in every run: no token is accepted twice, and each acceptance answers a recorded request for exactly its actor, action, target and bound intent, less than the lifetime after that request |
| `ApprovalTokens.AtMostOnce` | appliance/approval.py:343-422 | No token is accepted twice while the clock does not run backwards and the memory has room |
| `ApprovalTokens.AcceptedWasIssued` | appliance/approval.py:314-341 | Without forgery every acceptance matches an unexpired issue |
| `ApprovalTokens.IssuedIsAcceptedOnce` | appliance/approval.py:314-422 | An issued token is accepted for its own claim until it expires, and not a second time |
| `ApprovalTokens.ExpiredIsRefused` | appliance/approval.py:314-400 | In no state and for no claim is a token accepted at or after its issue time plus the lifetime |
| `ApprovalTokens.IssuedIsAcceptedIff` | appliance/approval.py:314-422 | A token not yet used is accepted under the same key if and only if it is presented for its own actor, action, target and bound, well-formed intent, from 5 seconds before its issue until before the end of its lifetime |
| `ApprovalTokens.RotatedTokenRefused` | appliance/approval.py:151-173 | After a rotation no older token is accepted although the memory was cleared |
| `ApprovalTokens.ReplayIffFull` | appliance/approval.py:238-243 | The bound is exact: the oldest consumed token can be used again if and only if the memory already held 10,000 unexpired ids |
| `Lockout.RateBound` | appliance/approval.py:204-236 | In any half-open 60-second window at most the maximum number of wrong passwords is evaluated, whatever happened before |
| `Lockout.BurstReachesBound` | appliance/approval.py:204-236 | The bound is reached exactly |
| `Lockout.ForgottenInTime` | appliance/approval.py:204-221 | A lock that is over, or failures that are all out of the window, leave no trace |
| `Lockout.LockedBurst` | appliance/approval.py:212-221 | Nothing is evaluated while a lock lasts |
| `Lockout.ReachableStep` | appliance/approval.py:204-236 | Every attempt keeps what the rate bound assumes of a record |
| `LockoutTable.ServiceRateBound` | appliance/approval.py:275-314 | The rate bound holds per key of the whole service, however other keys interleave |
| `LockoutTable.AttemptIsLocal` | appliance/approval.py:212-236 | An attempt follows its own record alone and changes no other record, except for one eviction from a full table |
| `LockoutTable.SoundStep` | appliance/approval.py:204-236 | Every table the service can hold is bounded, without repeated keys, and has only reachable records |
| `LockoutTable.RateBoundFromStart` | appliance/approval.py:204-314 | After any history of attempts and password changes since the start, any later undisturbed window of a key evaluates at most the allowed number of wrong passwords |
| `LockoutTable.WaitIsTold` | appliance/approval.py:212-236 | A refused caller is told the whole seconds until the lock ends, rounded up; one with a wrong password is told 60 exactly if that locked the key |
| `LockoutRules.WrongPassword` | appliance/approval.py:204-236 | A wrong password of a key that is not locked counts with those of the last 300 seconds, and locks the key for 60 seconds exactly if that makes the maximum |
| `LockoutRules.RightPassword` | appliance/approval.py:289-314 | A right password is accepted and clears the failures |
| `LockoutRules.LockedKey` | appliance/approval.py:204-221 | A locked key refuses every password until the lock ends and tells the whole seconds left; from then on it starts over |
| `LockoutRules.MaximumLocks` | appliance/approval.py:204-236 | The maximum number of wrong passwords within any 300 seconds are all evaluated and the last one sets a lock of 60 seconds |
| `ApprovalService.HighRiskApprovalService.PruneFailures` | appliance/approval.py:204-210 | The popping loop computes the pruned record |
| `ApprovalService.HighRiskApprovalService.RetryAfter` | appliance/approval.py:212-221 | Refines the table: the pruned record and the waiting time |
| `ApprovalService.HighRiskApprovalService.RecordFailure` | appliance/approval.py:223-236 | Refines the table: the failure is counted, the key moves to the end, the oldest key is evicted |
| `ApprovalService.HighRiskApprovalService.PruneConsumed` | appliance/approval.py:238-243 | Drops exactly the expired ids, then the oldest beyond the bound |
| `ApprovalService.HighRiskApprovalService.Issue` | appliance/approval.py:245-341 | Refines one table attempt; a token is returned only for a right password and a written audit record, and is the specified token, whose lifetime `ApprovalTokens.IssuedIsAcceptedIff` fixes |
| `ApprovalService.HighRiskApprovalService.Consume` | appliance/approval.py:343-422 | Refines the atomic consume step |
| `ApprovalService.HighRiskApprovalService.UpdatePasswordHash` | appliance/approval.py:165-173 | A new password forgets all failures and rotates the key; an empty one changes nothing |
| `OmvSharingProofs.ApplyIsTransactional` | appliance/omv_bridge_sharing.py:229-319 | Whatever the host does between calls: success grants the principal exactly the wanted permission and everyone else what the approved plan was based on; an error without a failed rollback sent nothing or left exactly that base |
| `OmvSharingProofs.OnlyApprovedPlansMutate` | appliance/omv_bridge_sharing.py:229-250 | Nothing is sent that changes the host unless a fresh plan equals the approved one |
| `OmvSharingProofs.EveryListAccepted` | appliance/omv_bridge_runners.py:120-154 | Every list sent, forward or in rollback, passes the canonical check of the runner |
| `OmvSharingRecovery.SingleFaultRecovers` | appliance/omv_bridge_sharing.py:290-313 | One failing call, wherever it falls and whether or not it took effect, never ends in a failed rollback |
| `OmvSharingRecovery.WorkingHostApplies` | appliance/omv_bridge_sharing.py:229-319 | On a working host an approved change is applied, verified and deployed to exactly the modules it made dirty; the host then differs in that folder's permissions alone |
| `OmvSharingRecovery.StoreGrants` | appliance/omv_bridge_sharing.py:266-285 | Storing a list makes the host grant exactly that list |
| `OmvSharingRecovery.AscendingUnique` | appliance/omv_bridge_sharing.py:284-286 | Two ordered lists with the same settings are the same list, so comparing the read-back list decides |
| `OmvSharingProofs.InventoryRead` | appliance/omv_bridge_sharing.py:42-85 | An inventory that was read is valid, ordered and bounded and says exactly what the host grants |
| `OmvSharingProofs.InstalledIsRead` | appliance/omv_bridge_sharing.py:116-136 | A completed installation leaves exactly the list that was sent |
| `OmvSharingAnswers.GrantedBits` | appliance/omv_bridge_sharing.py:229-319 | A verified success grants the principal exactly the bits 7, 5 or 0 of read-write, read-only or no access, or no own setting where the share default applies |
| `OmvSharingAnswers.PlanAnswers` | appliance/omv_bridge_sharing.py:138-227 | What planning answers to each of five views of a working host: unfinished changes and each unusable folder or list are refused with their own error, and otherwise the plan tells the permission that is stored now |
| `OmvSharingAnswers.OneView` | appliance/omv_bridge_sharing.py:138-227 | These views leave nothing out |
| `OmvSharingAnswers.ApplyAnswers` | appliance/omv_bridge_sharing.py:229-250 | On a working host any plan but the approved one is refused, one that changes nothing is answered as not applied, and any other is applied |
| `Privileges.WantedMeaning` | appliance/omv_bridge_sharing.py:262-281 | The list to send grants the wanted permission to the principal and leaves every other setting alone |
| `Privileges.WantedAccepted` | appliance/omv_bridge_sharing.py:262-281 | The forward list is sorted, unique, bounded and has only known permissions |
| `Privileges.OriginalAccepted` | appliance/omv_bridge_sharing.py:99-104 | So has the rollback list |
| `Privileges.SortAscending` | appliance/omv_bridge_contract.py:660-661 | Sorting distinct principals gives a strictly ascending list |
| `Privileges.BeforeOrder` | appliance/omv_bridge_contract.py:660-661 | The sort key is a strict total order |
| `OmvSharingService.OmvSharingControl.Checked` | appliance/omv_bridge_sharing.py:54-85 | The row loop accepts exactly valid, distinct, bounded rows and returns them sorted |
| `OmvSharingService.OmvSharingControl.ApplyPrivilegeModules` | appliance/omv_bridge_sharing.py:116-136 | The deploy loop refines its specification |
| `OmvSharingService.OmvSharingControl.PlanSharePrivilege` | appliance/omv_bridge_sharing.py:164-227 | Refines the plan, invalid requests included |
| `OmvSharingService.OmvSharingControl.ApplySharePrivilege` | appliance/omv_bridge_sharing.py:229-319 | Refines the apply transaction |
| `OmvPlanClient.EveryPlanAccepted` | appliance/omv_response.py:579-689 | Every plan the bridge builds is accepted by its client and returned unchanged |
| `OmvPlanClient.EveryOutcomeAccepted` | appliance/omv_response.py:579-689 | So is every result of an apply |
| `OmvPlanClient.AcceptedIsConsistent` | appliance/omv_response.py:579-689 | The client accepts only plans for the requested change that need approval exactly when they update, list that one change, and are accepted again as they stand |
| `OmvQuota.QuotaIsTransactional` | appliance/omv_bridge_quota.py:165-202 | Whatever the host does: success leaves the requested limit; an error without a failed rollback sent nothing or left the limit of the approved plan |
| `OmvQuota.RollbackFailsIffPartialKib` | appliance/omv_bridge_quota.py:141-202 | With a single failing call the rollback fails if and only if the original limit is not a multiple of 1024 bytes |
| `OmvQuota.OneByteIsLost` | appliance/omv_bridge_quota.py:141-154 | A limit of one byte can be read but never be written back |
| `OmvQuota.ApplyKeepsOthers` | appliance/omv_bridge_quota.py:165-202 | However the calls fail, no other subject's quota changes |
| `OmvQuota.StoredReads` | appliance/omv_bridge_quota.py:141-154 | Storing a limit rounds it down to whole KiB |
| `OmvQuota.WholeKib` | appliance/omv_bridge_contract.py:634-647 | A limit in KiB reads back as exactly that many bytes |
| `OmvQuota.Validated` | appliance/omv_bridge_contract.py:586-631 | An accepted request is a bounded multiple of 1024 bytes |
| `OmvQuotaAnswers.LimitMeaning` | appliance/omv_bridge_contract.py:634-647 | A limit reads as a number of bytes if and only if its unit is known and value times unit is that whole number, not negative and below 2^63 |
| `OmvQuotaAnswers.PlanAnswers` | appliance/omv_bridge_quota.py:34-139 | What planning answers to each of six views of a working host, and the limit the plan then starts from |
| `OmvQuotaAnswers.OneView` | appliance/omv_bridge_quota.py:34-80 | These views leave nothing out |
| `OmvQuotaAnswers.ApplyAnswers` | appliance/omv_bridge_quota.py:165-202 | On a working host any plan but the approved one is refused, one that changes nothing is answered as not applied, and any other is applied |
| `OmvQuotaService.OmvQuotaControl.MatchingRows` | appliance/omv_bridge_quota.py:57-80 | The row loop collects exactly the matching subjects and fails on an unreadable limit |
| `OmvQuotaService.OmvQuotaControl.ApplyFilesystemQuota` | appliance/omv_bridge_quota.py:165-202 | Refines the apply transaction, invalid requests included |
| `OmvGroup.GroupIsTransactional` | appliance/omv_bridge_accounts.py:116-151 | Whatever the host does: success leaves the requested empty group; an error without a failed rollback leaves no listed group of that name |
| `OmvGroup.RollbackRestoresIffAbsent` | appliance/omv_bridge_accounts.py:116-151 | A reported rollback removes the name and changes no other group: it restores the host if and only if the name was absent before |
| `OmvGroup.SuccessAddsIffAbsent` | appliance/omv_bridge_accounts.py:116-151 | Success keeps every other group, and adds one row if and only if the name was absent before |
| `OmvGroup.ShortListingsMissNothing` | appliance/omv_bridge_accounts.py:65-90 | With at most 1,024 groups, all well-formed, a plan is only built for a name that is absent |
| `OmvGroup.HiddenGroupIsEmptied` | appliance/omv_bridge_accounts.py:65-90 | A group beyond the first 1,024 rows is taken for new, and applying the plan empties it |
| `OmvGroup.StaffIsEmptied` | appliance/omv_bridge_accounts.py:65-90 | A concrete host with 1,025 groups where that happens |
| `OmvGroupAnswers.ListingNames` | appliance/omv_bridge_accounts.py:65-82 | The listing names exactly the groups of well-formed rows among the first 1,024 |
| `OmvGroupAnswers.PlanAnswers` | appliance/omv_bridge_accounts.py:84-114 | On a working host a plan is refused if and only if the listing has the name |
| `OmvGroupAnswers.ApplyAnswers` | appliance/omv_bridge_accounts.py:116-151 | On a working host any plan but the approved one is refused, and the approved one is done and leaves one empty group of that name and comment |
| `OmvGroupAnswers.SetLeaves` | appliance/omv_bridge_accounts.py:116-130 | Storing a group leaves every other group alone and one empty group of that name and comment |
| `OmvGroupService.OmvAccountControl.NormalGroups` | appliance/omv_bridge_accounts.py:65-82 | The listing loop keeps the well-formed rows among the first 1,024, sorted |
| `OmvGroupService.OmvAccountControl.ApplyGroup` | appliance/omv_bridge_accounts.py:116-151 | Refines the apply transaction |
| `AccountSecurity.LiveViewAgrees` | appliance/account_security.py:206-299 | After any sequence of link, status, password, unlink, revoke and rotate, failures included, the login map is exactly the active stored accounts with their hashes, the active set is its key set, and the stored directory is valid |
| `AccountSecurity.RevocationIsPermanent` | appliance/account_security.py:131-150 | A token below a floor is rejected in every later state, even after the member is unlinked and linked again |
| `AccountSecurity.RevocationCoversEarlierTokens` | appliance/account_security.py:194-204 | A revocation that takes effect, even one reported as failed afterwards, puts every token issued so far below a floor: all of them, or those of the one member |
| `AccountSecurity.FailuresAreCleanOrLate` | appliance/accounts.py:301-356 | A failure after the write (the last audit record, or the login wait of a member operation) leaves exactly the state of success; every other failure changes nothing |
| `AccountSecurity.MemberOperationsArePrecise` | appliance/account_security.py:206-242 | An operation on one member never changes the verdict on another subject's token, and one that does not take effect changes no verdict |
| `AccountSecurity.FreshTokensAreCurrent` | appliance/account_security.py:131-150 | After an operation that takes effect, a token issued at the new floor is accepted if and only if the member is active |
| `AccountSecurity.RunRises` | appliance/account_security.py:194-204 | Floors never decrease in any run |
| `AccountSecurity.RunStaysNear` | appliance/account_security.py:194-204 | Floors that start at most one second ahead of the clock stay so in every run |
| `AccountSecurity.RestartAccepts` | appliance/account_security.py:89-124 | The stored file then passes the checks of a restart and gives the same state back |
| `AccountSecurity.DoAgrees` | appliance/accounts.py:386-540 | Every operation of the account directory keeps the live view in agreement with the file |
| `AccountSecurity.WithMemberShape` | appliance/account_security.py:222-240 | Replacing or removing one member gives a valid directory that differs in that member only |
| `AccountEffects.LinkLeaves` | appliance/accounts.py:510-539 | An effective link leaves exactly one more record, an active member with the cleaned name and the given hash, which logs in with that hash |
| `AccountEffects.SetStatusLeaves` | appliance/accounts.py:386-401 | An effective status change leaves exactly that active flag changed, and the member logs in with its hash exactly if it is active |
| `AccountEffects.ResetPasswordLeaves` | appliance/accounts.py:423-443 | An effective reset leaves exactly that hash changed, and the member, if active, logs in with it |
| `AccountEffects.UnlinkLeaves` | appliance/accounts.py:464-477 | An effective unlink removes exactly that record, which was inactive, and nobody else's login |
| `AccountEffects.RotateLeaves` | appliance/account_security.py:251-299 | An effective rotation leaves the given hash as the administrator's in the file, in the directory and in the login map, every member's record and login as they were, and earlier approvals void |
| `AccountEffects.RevokeLeaves` | appliance/account_security.py:261-269 | Revoking all sessions changes no record and no login |
| `AccountEffects.LinkTakesEffectIff` | appliance/accounts.py:510-539 | A link takes effect if and only if the name is a user name not taken, there is room, the display name and hash are usable, and audit, write and floors allow it |
| `AccountEffects.MemberTakesEffectIff` | appliance/accounts.py:386-477 | So for status, password and unlink: the member must be there and, for the first and last, in the state they change |
| `AccountEffects.GlobalTakesEffectIff` | appliance/account_security.py:251-299 | A revocation or rotation takes effect if and only if its first audit record and its write succeed |
| `AccountEffects.NewFloorIs` | appliance/account_security.py:194-204 | The new floor is the next second or an earlier floor that is later still, and it is set for the subject alone |
| `AccountEffects.GlobalEndsEarlier` | appliance/account_security.py:131-150 | An operation on all sessions ends exactly the tokens issued before its floor |
| `AccountDirectory.NormalizedIsStable` | appliance/auth.py:58-148 | A normalized directory is valid and normalizes to itself |
| `AccountDirectory.NormalizedAccounts` | appliance/auth.py:58-142 | The record loop computes the specified validation |
| `AccountDirectory.Checked` | appliance/auth.py:84-127 | One record is good as specified; the check for repeated OMV users never decides |
| `AccountDirectory.StripTwice` | appliance/auth.py:129-135 | Cleaning a display name twice is cleaning it once |
| `AccountService.WaitForLoginWindow` | appliance/account_security.py:244-249 | The loop ends: either the clock has reached the floor, or a reading before the deadline check was still below it and the deadline has passed |
| `AccountService.WaitNeverFailsIff` | appliance/account_security.py:244-249 | For floors at most one second ahead, no wait on any clock whose readings are at most a gap apart fails if and only if the gap is at most 1.5 s |
| `AccountService.WaitIsTimelyIff` | appliance/account_security.py:244-249 | Every such wait succeeds before its deadline if and only if the gap is at most 0.75 s |
| `AccountService.WaitSucceeds` | appliance/account_security.py:244-249 | How late one such wait ends, in terms of the gap |
| `AccountService.JumpFailsTheWait` | appliance/account_security.py:244-249 | Any jump of more than 1.5 s and at most 2.5 s between the two readings fails a wait although the window has opened |
| `AccountService.MemberChangesAreReported` | appliance/accounts.py:301-356 | With floors near the clock, as in every run, a stored member change is reported as done on every clock with gaps of at most 1.5 s |
| `AccountService.ApplianceAccountDirectory.PersistAndWait` | appliance/accounts.py:301-356 | Refines the specified step: a change is stored, then its login window is waited for; a wait that fails does not take the change back |
| `AccountService.ApplianceAccountSecurity.ClaimsAreCurrent` | appliance/account_security.py:131-150 | Computes the specified verdict |
| `AccountService.ApplianceAccountSecurity.PersistMemberAccount` | appliance/account_security.py:206-242 | Refines the specified step, every refusal included |
| `AccountService.ApplianceAccountSecurity.Revoke` | appliance/account_security.py:261-269 | Refines the specified step: once written it holds even if the last audit record fails |
| `AccountService.ApplianceAccountSecurity.RotatePassword` | appliance/account_security.py:271-299 | Refuses short, long and unchanged passwords; otherwise refines the specified step, whose effect `AccountEffects.RotateLeaves` fixes, and keeps the live view |
| `AccountService.ApplianceAccountDirectory.ApplyLink` | appliance/accounts.py:510-539 | Refines the specified operation, with the outcome of its login wait decided by the clock |
| `AccountService.ApplianceAccountDirectory.ApplyStatus` | appliance/accounts.py:386-401 | Refines the specified operation, with the outcome of its login wait decided by the clock |
| `AccountService.ApplianceAccountDirectory.ApplyPassword` | appliance/accounts.py:423-443 | Refines the specified operation, with the outcome of its login wait decided by the clock |
| `AccountService.ApplianceAccountDirectory.ApplyUnlink` | appliance/accounts.py:464-477 | Refines the specified operation, with the outcome of its login wait decided by the clock |
| `DeviceLink.PairingIsSafe` | appliance/device_link.py:243-293 | In every run, with failing writes and restarts: each invitation token binds at most one device, ids are distinct and at most 64 |
| `DeviceLink.RevocationIsPermanent` | appliance/device_link.py:570-587 | Once a revocation was reported, the old credential is refused by both checks, for every device id, in every later state and across restarts |
| `DeviceLink.UnwrittenRevocationIsLost` | appliance/device_link.py:570-587 | A revocation whose write failed is not reported; over any run that does not revoke the device again, its credential is accepted at the end if and only if the file still lists it and the service restarts before the next write |
| `DeviceLink.PairedDeviceStays` | appliance/device_link.py:243-323 | Over any run that does not revoke the device, restarts and failing writes included, its credential is accepted at the end if and only if its pairing was written or no restart came before the next write |
| `DeviceLink.FirstDecides` | appliance/device_link.py:225-323 | Over any run without a revocation of the device, the first of a restart and a write decides for good whether a used credential is listed |
| `DeviceLink.PairedDeviceIsAccepted` | appliance/device_link.py:243-323 | A device that pairs is accepted right away by both checks, and its pairing is on disk |
| `DeviceLink.PairingNeedsInvitation` | appliance/device_link.py:264-293 | An unknown device is refused if and only if its invitation is missing or expired or the registry is full, and a refusal binds nothing |
| `DeviceLink.DisablingDropsInvitations` | appliance/device_link.py:390-407 | After disabling no unknown device gets in, even once the link is enabled again |
| `DevicePairing.InvitesIff` | appliance/device_link.py:409-439 | An invitation is given out if and only if the link is enabled, listening and has a host, and it touches neither registry nor switch |
| `DevicePairing.InvitedForFiveMinutes` | appliance/device_link.py:409-439 | After an invitation given out at a time, an unknown device with its token is accepted by a written hello at t if and only if t is before the whole second plus 300 and there is room; every other live invitation stays usable until its own time |
| `DevicePairing.InvitationLasts` | appliance/device_link.py:225-472 | The same after any run without a restart, a disabling that stops the link, a second invitation with that token or a use of it |
| `DevicePairing.NewcomerAccepted` | appliance/device_link.py:273-293 | An unknown device gets in if and only if its invitation has not expired and there is room |
| `DevicePairing.PairingLists` | appliance/device_link.py:279-293 | Pairing lists the newcomer last with its credential and uses up the invitation |
| `DevicePairing.KnownDeviceHello` | appliance/device_link.py:259-271 | A known device gets in with a hello if and only if the credential is its own; only its last contact and description change |
| `DevicePairing.KnownDeviceAuthenticates` | appliance/device_link.py:295-323 | Other transports need the link enabled, too, and note the contact at most every 15 seconds |
| `DevicePairing.OthersAreRejected` | appliance/device_link.py:243-323 | Unknown devices cannot authenticate, and malformed ids and tokens are rejected everywhere |
| `DevicePairing.SwitchAnswers` | appliance/device_link.py:373-407 | What enabling and disabling answer and leave, for every outcome of the listener and the write |
| `DevicePairing.RevokeAnswers` | appliance/device_link.py:570-588 | A revocation answers success if and only if the device was known and the write worked, and leaves exactly the other devices |
| `DeviceLink.RunKeeps` | appliance/device_link.py:225-323 | Every token is in at most one place, an invitation or one device, in memory and on disk |
| `DeviceLink.NowhereRefused` | appliance/device_link.py:243-323 | A token that is nowhere is refused by both checks |
| `DeviceLinkService.ReadState` | appliance/device_link.py:167-213 | The loading loop accepts exactly bounded files with valid, distinct ids |
| `DeviceLinkService.DeviceLinkService.CheckHelloAuth` | appliance/device_link.py:243-293 | Refines the specified step |
| `DeviceLinkService.DeviceLinkService.AuthenticateDevice` | appliance/device_link.py:295-323 | Refines the specified step |
| `DeviceLinkService.DeviceLinkService.CreatePairingInvitation` | appliance/device_link.py:409-438 | Refines the specified step, whose effect `DevicePairing.InvitedForFiveMinutes` fixes |
| `DeviceLinkService.DeviceLinkService.DisableLink` | appliance/device_link.py:390-407 | Refines the specified step: invitations are dropped |
| `DeviceLinkService.DeviceLinkService.RevokeDevice` | appliance/device_link.py:570-587 | Refines the specified step; an unknown device changes nothing |
| `DeviceLinkService.DeviceLinkService.Reload` | appliance/device_link.py:167-213 | A file the service wrote always loads |
| `HealthMonitor.LogReplaysToActive` | appliance/omv_health.py:514-665 | Replaying the whole log gives exactly the active alerts, each alert's events read opened, changed*, resolved, and the kept events are the last 256 |
| `HealthMonitor.FailedPollFreezes` | appliance/omv_health.py:600-665 | A failed poll resolves nothing and keeps every storage alert exactly as it was, adding the outage |
| `HealthMonitor.OccurrencesCountSuccesses` | appliance/omv_health.py:534-560 | A storage alert counts the successful polls since it opened, was first seen by the first and last seen by the last |
| `HealthReload.LoadableIff` | appliance/omv_health.py:82-237 | The state file is accepted at the next start if and only if the last poll was not an outage right after 128 alerts, no raising entry of the last successful reading holds a by-id path in its device file, health or label, and none of the last 256 reports of the readings is about such an entry; while there have not been more reports, that is: no reading ever had such an entry |
| `HealthReload.LogIsNews` | appliance/omv_health.py:514-665 | The whole event log is a function of the readings: each poll reports what is new or changed against the last successful one, then what has gone, then the end of an outage |
| `HealthReload.KeptIff` | appliance/omv_health.py:514-598 | A finding has a kept event if and only if some poll reported it and this and what was reported after it are at most 256 events |
| `HealthReload.RestartsForgetOnly` | appliance/omv_health.py:334-353 | With restarts and failing writes the monitor is always as if only the polls that still count had happened: a restart goes back to the last one written, or to none if the file is refused |
| `HealthReload.RestartsAreInvisible` | appliance/omv_health.py:334-353 | If every snapshot is written and every file accepted, restarts change nothing |
| `HealthReload.RefusalStartsAnew` | appliance/omv_health.py:334-353 | After a refused file the alerts and the log are those of the later polls alone |
| `HealthReload.AlertsAreLastFound` | appliance/omv_health.py:514-665 | The active alerts are about what the last successful poll found, in its order, followed by the outage if the last poll failed |
| `HealthReload.LabelIsRefused` | appliance/omv_health.py:82-237 | One reading of a full filesystem with such a label, which the client accepts, gives a file that is refused |
| `HealthReload.LoggedIffSeen` | appliance/omv_health.py:514-598 | The log speaks of a storage finding if and only if some successful poll found it |
| `HealthReload.StorageIsLastFound` | appliance/omv_health.py:514-665 | The storage alerts are always about what the last successful poll found, in its order |
| `HealthMonitor.DuplicateOpensTwice` | appliance/omv_health.py:514-545 | A reading that lists a resource twice opens one alert twice, so listing each once is needed |
| `HealthMonitor.HistoryKeeps` | appliance/omv_health.py:514-665 | The invariant of every history of successful and failed polls |
| `HealthMonitor.MergePhases` | appliance/omv_health.py:514-585 | One merge moves each alert's phase exactly to whether it is active |
| `HealthMonitor.ReplayIsOpen` | appliance/omv_health.py:514-585 | A well-formed log replays to the alerts that are open |
| `HealthAlerts.DerivedIsBatch` | appliance/omv_health.py:414-493 | A reading that lists every resource once raises different alerts, none about the bridge |
| `HealthAlerts.SmartAlertIffFaulty` | appliance/omv_health.py:414-433 | A disk alert is raised if and only if such a disk is listed with a bad health value |
| `HealthAlerts.UnreadableIffOffending` | appliance/omv_health.py:82-196 | Of the views the client accepts, exactly those raise an alert whose texts are refused at reload in which a raising entry holds a by-id path in its device file, health or label |
| `HealthFindings.TemperatureAlertIff` | appliance/omv_health.py:433-444 | A temperature alert of a severity is raised if and only if a listed disk is at or above the warning threshold, critical from the critical one on |
| `HealthFindings.CapacityAlertIff` | appliance/omv_health.py:446-462 | A capacity alert is raised if and only if a listed volume is used to the warning threshold, critical from the critical one on; the used percentage is the reported one or the nearest whole, halves to even |
| `HealthFindings.UsedIsUnique` | appliance/omv_health.py:447-451 | Only one percentage is that near |
| `HealthFindings.RaidAlertIff` | appliance/omv_health.py:464-490 | A RAID alert is raised if and only if a listed array has that status and is not fine, critical unless it is recovering or being checked |
| `HealthFindings.ReportedOrNot` | appliance/omv_health.py:491-493 | A reading fails if and only if it has more than 128 findings; otherwise the critical ones come first |
| `HealthStates.StateIs` | appliance/omv_health.py:514-667 | After any polls the last one alone decides the state shown: outage if it failed, critical, warning or healthy by its findings |
| `HealthStates.LastSuccessIs` | appliance/omv_health.py:514-667 | The last success shown is the time of the latest poll that succeeded |
| `HealthStates.OutageAlert` | appliance/omv_health.py:600-667 | During an outage its alert comes last, counts the failed polls since the last success and was first seen at the first of them |
| `HealthService.OmvHealthMonitor.DeriveAlerts` | appliance/omv_health.py:414-493 | The three loops compute the specified findings, critical ones first |
| `HealthService.OmvHealthMonitor.MergeAlerts` | appliance/omv_health.py:514-598 | The loops compute the specified snapshot and events |
| `HealthService.OmvHealthMonitor.PollOnce` | appliance/omv_health.py:600-665 | Refines one step of the history |
| `ArchivePaths.PortableSymlink` | appliance/state_backup.py:85-99 | The depth counter accepts exactly the links whose lexical normalization never leaves the root |
| `ArchivePaths.NormalizedIsPlain` | appliance/state_backup.py:85-99 | What normalization leaves contains no parent part |
| `ArchivePaths.PartsJoined` | appliance/state_backup.py:102-115 | Joining parts and splitting again gives the parts back |
| `ArchivePaths.CanonicalIsUnique` | appliance/state_backup.py:182-220 | Every list of parts has exactly one canonical spelling |
| `StateBackupRestore.RestoreNeverWritesThroughLinks` | appliance/state_backup.py:182-520 | Restoring an accepted archive whose links have canonical names never follows a link and never leaves the destination: it leaves exactly the archive or fails, and it fails exactly if the archive cannot be laid out as its names say |
| `StateBackupCreate.BackupRoundTrip` | appliance/state_backup.py:139-520 | Restoring an archive that was created from a state directory gives back exactly what was kept of it, on every host, unless something kept has the name of the decrypted archive; then restoring fails |
| `StateBackupCreate.CreateIff` | appliance/state_backup.py:139-235 | An archive is created if and only if it keeps to its limits, nothing kept is called like the manifest, no kept name has a backslash, and every kept link passes the depth count |
| `StateBackupCreate.ListingIs` | appliance/state_backup.py:139-180 | What is written is everything but the lock files and the NAS data with all below them, each entry once |
| `StateBackupCreate.ExactIsUnique` | appliance/state_backup.py:438-481 | Only one tree holds an archive exactly |
| `StateBackupRestore.NestedDecides` | appliance/state_backup.py:464-469 | With a link below an earlier one and everything in front of it in place, the extraction goes on where the folder of the link leads: it fails, or makes the link in the destination or, if the host lets it, outside, and continues with the rest |
| `StateBackupRestore.ThroughOrAwayIff` | appliance/state_backup.py:438-481 | Some link is made through another one or some entry leaves the destination if and only if the archive is valid and some link lies below an earlier one, while all files and directories and the links in front of it are restorable together and its folder then leads out of the destination or to a directory of it in which its name is free; the host does not matter |
| `StateBackupRestore.WritesThroughIff` | appliance/state_backup.py:438-481 | Some link is made through another one, inside or outside the destination, if and only if that holds with a folder in the destination with the name free, or with a folder outside in which the host lets the link be made |
| `StateBackupRestore.LeavesOnlyNested` | appliance/state_backup.py:464-469 | No entry leaves the destination without a link below an earlier one |
| `StateBackupRestore.ExactOrThrough` | appliance/state_backup.py:486-520 | On every host, a restore that ends well has left exactly the archive, or has made some link through another one, inside or outside, and never both |
| `StateBackupRestore.FilesAreAlwaysExact` | appliance/state_backup.py:438-481 | Through links or not, inside or outside, an extraction that ends well has every file and directory at its own path and has replaced nothing of the destination |
| `StateBackupLayout.LaidExactly` | appliance/state_backup.py:438-481 | A completed layout is exactly the archive: each entry at its own path below real directories, and nothing else |
| `StateBackupRestore.RestoredExactlyIff` | appliance/state_backup.py:486-520 | The restored directory holds exactly the archive if and only if the archive is accepted, nothing lies at or below a file or a link but itself, files and links have names and links targets, and nothing lies at or below the place of the decrypted archive; the order of entries does not matter |
| `StateBackupLayout.LaysIff` | appliance/state_backup.py:438-481 | An archive can be laid out as its names say if and only if nothing lies at or below a file or a link but itself, and files and links have names and links targets |
| `StateBackupExamples.DotSlashWritesThroughLink` | appliance/state_backup.py:213-220 | The name "./a" slips past the comparison of names: that archive is accepted, restored without an error, and its last link "a/c" is made at "b/c" |
| `StateBackupExamples.DanglingIsRefused` | appliance/state_backup.py:464-469 | The same archive without the folder "b" is accepted too, and fails to restore |
| `StateBackupExamples.LeavesTheDestination` | appliance/state_backup.py:464-469 | An accepted archive with "d/a" -> "..", "./l" -> "d/a/.." and "l/c" leaves the destination with its last link; where the host lets it be made the restore can end well, without that entry |
| `StateBackupExamples.PayloadNameIsRefused` | appliance/state_backup.py:486-504 | An accepted archive with a file at the place of the decrypted archive fails to restore |
| `StateBackupExamples.ClimbingLeadsOutside` | appliance/state_backup.py:85-99 | Canonical names and a passed depth count do not keep a link inside: "l" -> "d/a/.." with "d/a" -> ".." is restored exactly and leads out of the directory |
| `StateBackupLinks.TargetIsSafeIff` | appliance/state_backup.py:85-99 | Among the link targets that pass the depth count, exactly those whose ".." parts all come before the first name lead inside in every tree around them whose other links have that shape |
| `StateBackupLinks.RestoredLinksStayInside` | appliance/state_backup.py:85-99 | No link of an exactly restored archive whose targets all have that shape leads outside |
| `StateBackupRestore.CanonicalLinksAreApart` | appliance/state_backup.py:213-220 | In an accepted archive with canonical link names no link lies below another |
| `StateBackupAcceptance.AcceptedIff` | appliance/state_backup.py:102-220 | An archive is accepted if and only if it has at most 1,000,000 entries of at most 100 GiB, each a file, directory or link with a safe name and target, no name twice, a compatible manifest, and no entry below the name of a link |
| `StateBackupAcceptance.SizeInsert` | appliance/state_backup.py:200-202 | One more entry adds its bytes to the size, and none if their number is negative |
| `StateBackupAcceptance.AcceptanceIgnoresOrder` | appliance/state_backup.py:182-220 | Whether an archive is accepted does not depend on the order of its entries |
| `StateBackupService.InspectArchive` | appliance/state_backup.py:182-220 | The scan with its sets and totals decides exactly the specified acceptance |
| `StateBackupService.TraversesLink` | appliance/state_backup.py:213-219 | The parent loop finds a link name among the parents if there is one |
| `StateBackupService.ExtractArchive` | appliance/state_backup.py:438-481 | The two extraction loops compute the specified tree or failure, links on the way followed, and whether an entry went outside |
| `StateBackupService.MakeLinks` | appliance/state_backup.py:464-469 | The link loop computes the specified links, inside and outside |
| `StateBackupService.MakeLink` | appliance/state_backup.py:464-469 | One link comes to lie in whatever directory its parents lead to, outside, or nowhere |
| `StateBackupService.RestoreBackup` | appliance/state_backup.py:486-520 | Check, extraction, removal of the decrypted archive and renaming compute the specified result |
| `Topology.TopologyIsClosed` | appliance/omv_bridge_inventory.py:348-407 | At most 1,024 nodes, each once, no node its own parent, every parent a node |
| `Topology.TopologyIsExact` | appliance/omv_bridge_inventory.py:348-407 | Nodes and parents all come from the payload, and all of the payload is there when the limit was not reached |
| `TopologyOrder.NodesInOrder` | appliance/omv_bridge_inventory.py:348-407 | The nodes are the first 1,024 devices in the order of the payload, each with what it shows where it is met first |
| `Topology.VisitKeeps` | appliance/omv_bridge_inventory.py:358-396 | One visit keeps the dictionary valid and only adds |
| `Topology.Walk.VisitItem` | appliance/omv_bridge_inventory.py:358-396 | The recursive visit on the shared dictionary refines the specification |
| `Topology.Walk.VisitItems` | appliance/omv_bridge_inventory.py:391-401 | So does the loop over children with its early exit |
| `Mdstat.RaidArrays` | appliance/omv_bridge_inventory.py:409-434 | The nested loops over one index terminate and return the first 256 of one entry per array line |
| `Mdstat.Section` | appliance/omv_bridge_inventory.py:420-431 | The inner loop collects the details of one array and hides no array line |
| `Mdstat.OneEntryPerHeader` | appliance/omv_bridge_inventory.py:409-434 | One entry per array line, in order and named after it |
| `Mdstat.DetailsAreContiguous` | appliance/omv_bridge_inventory.py:420-431 | The details are the lines after the array line up to the next array or empty line |
| `Mdstat.EntryOfHeader` | appliance/omv_bridge_inventory.py:409-434 | Each array line has the entry of its rank, with exactly the texts of the lines after it up to the next array or empty line |
| `DataAccess.PermissionIsNearest` | appliance/data_access.py:82-92 | The decision by longest prefix is the decision of the nearest rule at or above the path |
| `DataAccess.LongestIsUnique` | appliance/data_access.py:82-92 | In a built scope the longest matching rule is unique |
| `DataAccess.PermissionIgnoresOrder` | appliance/data_access.py:325-333 | The decision does not depend on the order of the rules |
| `DataAccess.EntryInherits` | appliance/data_access.py:82-92 | Without a rule of its own an entry has the permission of its folder |
| `DataAccess.ListableIsClosedUpwards` | appliance/data_access.py:94-125 | Write implies read implies list, and every folder above a listable path is listable |
| `DataAccess.ListableLeadsToReadable` | appliance/data_access.py:112-125 | What is listable but not readable lies above something readable |
| `DataAccess.PathPartsAreClean` | appliance/data_access.py:40-53 | An accepted path has no parent, reserved or empty part |
| `ScopeMeaning.PlainPathIsRead` | appliance/data_access.py:40-53 | The plain spelling of a list of plain parts is accepted and read as that list |
| `DataAccess.RootSlipsThroughIff` | appliance/data_access.py:40-53 | Where the root is not allowed, a path is still read as the root if and only if it consists of slashes and single dots and is longer than its two refused spellings |
| `DataAccess.DotPathIsRoot` | appliance/data_access.py:40-53 | The concrete path "./." |
| `DataScope.EffectiveIgnoresOrder` | appliance/data_access.py:204-243 | The effective permission does not depend on the order of the privilege list |
| `DataScope.OwnRowWins` | appliance/data_access.py:238-243 | A member's own row decides whatever their groups have |
| `DataScope.BestIsHighest` | appliance/data_access.py:238-243 | Otherwise the highest permission of the groups decides |
| `DataScope.RulesAreBuilt` | appliance/data_access.py:322-333 | A scope that is built has no root twice |
| `DataScope.FolderDecidesItsRoot` | appliance/data_access.py:290-340 | Every online folder below the mount has a rule with its effective permission that decides at its root |
| `ScopeMeaning.EffectiveMeaning` | appliance/data_access.py:204-243 | Rows without a name or for one principal twice are refused; otherwise the member's own row decides, and without one the highest of their groups, or no access |
| `ScopeMeaning.ScopeIs` | appliance/data_access.py:290-340 | A scope is built if and only if no online folder has an unreadable path or unreadable rows and no two give a rule at one place; its rules are then exactly one for each online folder at mounted + root, with that root and the member's effective permission |
| `ScopeMeaning.NearestFolderDecides` | appliance/data_access.py:82-92 | A path has the permission of the nearest online folder at or above it, and no access without one |
| `DataScope.EffectivePermission` | appliance/data_access.py:204-243 | The privilege loop computes the specified permission |
| `DataScope.BuildScope` | appliance/data_access.py:245-340 | The folder loop computes the specified rules, ordered, or fails |
| `DataScope.OrderDecidesAlike` | appliance/data_access.py:334-340 | The rules of a scope are listed by length and text of their roots, and ordering them changes no decision |
| `DataScope.InOrderUnique` | appliance/data_access.py:334-334 | That order determines the list |

## Left out

- HTTP routers, request models, middleware, WebSocket transport, the audit chain, and all socket, process and file system calls below one atomic step.
- Cryptography and password hashing, JSON and base64 syntax, UTF-8 decoding, timestamps as text, and modification times of rows.
- Device sync: manifest syntax checks, the quota of upload sessions per device, session expiry times (any set of sessions may expire at any step), and the second look at the row at the end of completion, which the lock makes unreachable.
- OMV: SMB, NFS, shared folder and user apply, whose rollback is not read back; and the client checks of the quota and group plans.
- OMV quota: decimal limits with more than 28 significant digits, which the program rounds.
- OMV group: the id that the host gives a new group is its own choice and is a constant in the model.
- Accounts: plan ids of the directory operations, the check that the OMV user still exists, the check that a member's new password differs, and the directory without an account security service. The plan check of an apply, which precedes its lock, and the locked part are one step.
- Device link: the shared-credential mode of an external coordinator, the network listener, and the host name of an invitation.
- Health: scheduling, the unconfigured monitor, the flag for failed persistence, floating point rounding of a used percentage (it is rounded exactly here), how an array status text is classed, and the size of the state file in bytes, which is limited when writing (without the final line feed) and when reading (with it).
- Backup: encryption, the envelope, file permissions, the manifest's fields beyond readable and compatible, and what a directory outside the destination is like: whether a link can be made there is an answer of the host, and an entry that has left is taken not to lead back in. Paths are followed as Linux does, at most 40 links on one. A state directory holds directories, links and files with one name each; files below two names, devices and sockets are left out.
- Inventory: regular expressions on status lines, which are classified lines here, and the fields of a node and of an array besides its place.
- Data access: resolution of symbolic links below the mounted root, the cache of scopes, and operators' unrestricted scope beyond its flag.
- Announcement.TransformIdempotent: assumes, as `AnnouncementMeaning` does, of URL splitting and joining that a split direct address, joined again with its own port and an IPv4 host, splits back to the same scheme and rest, that host and port, and no credentials; the URL library is not part of this model.
- RecentForwards.Guard.SeenBefore: a packet is named by its digest, so two packets with the same digest are one.
- AccountService.WaitForLoginWindow: the floor is fixed during one wait; a concurrent revocation that raises it starts a longer wait.
- OmvGroup.GroupIsTransactional: says what the listing shows, which is what the program checks; the rollback and success lemmas beside it say what the host holds.
- HealthReload.LoadableIff: speaks of the contents of the state file, not of its size in bytes.
- HealthService.OmvHealthMonitor.DeriveAlerts: lists alerts of one severity as they were read; the program orders them by their digests, which are values here and have no order.
- Lockout.RateBound: an evicted key starts over, so the bound is for windows in which the key is not evicted.

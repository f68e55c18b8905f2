# Gateway protocols in Dafny

A model of the step-by-step protocols of the Copilot gateway, and proofs about all their runs.  Code that runs
between two points at which other work may come in is one method; a file protocol is one method per change of a
name or a byte, and the process may die before each of them.  Who runs next, when a process dies, what a clock
says and what a server answers are left to a schedule, and the results hold for every schedule.

| files | protocol |
|---|---|
| `AgentFiles`, `AgentInvariant`, `AgentPublication`, `AgentBackups`, `AgentManager`, `AgentStuck` | replacing the configuration files of an agent: plan, stage, move aside, archive, publish by link, clean up; recovery from a death anywhere, also during recovery |
| `CredentialStore`, `AccountInvariant`, `AccountDirectory` | account rows and a credential document without a common transaction: upsert, removal, sweep, reconciliation, racing token refreshes |
| `AccountCoordinator`, `LifecycleCoordinator` | serial lanes: lifecycle work, credential generations, operations per data directory |
| `EventHistory`, `AdminEvents`, `AdminEventHub` | the administration event stream: batched replay merged with live events under a budget |
| `LogFiles`, `LogPrune` | log rotation and retention, with a transaction for each deleted file |
| `InferencePool` | bounded connection pool: slots, waiters, eviction |
| `ModelCatalog`, `EndpointDiscovery` | shared fetches and caches under invalidation |
| `DeviceFlow` | device authorization, the client side of sections 3.4 and 3.5 of RFC 8628 |
| `Admission` | admission queue |
| `OperationLease` | cross-process lease: first use, lock, owner file, cleanup |
| `CheckpointDiagnostics` | incremental summary against the whole history |

Where the code does not do what one would expect of it, the model does what the code does:

* Recovery of a configuration replacement does not always complete.  `AgentManager.Manager.Recover` says exactly when
  it does, and `AgentManager.Manager.RecoverAgain` that repeating it does not help.  The states it does not leave
  (`AgentInvariant.Stuck`) are: the target's second link already in a cleanup quarantine
  (`AgentStuck.QuarantineRemains`); a publication over no file between link and unlink
  (`AgentStuck.HalfPublicationRemains`), and its later form as a second link of `previous`; an archive stage that did not
  get its mode (`AgentStuck.TornArchiveRemains`); a backup name tracked with the digest of other bytes
  (`AgentStuck.ForeignBackupRemains`); and a target that a client recreated (`AgentStuck.RecreatedTargetRemains`).  In
  none of them is a displaced byte lost.  Without clients an apply leads there by dying after one of three changes and
  by no other death (`AgentManager.Manager.Apply`, `AgentInvariant.Hazard`).
* A crash between the link of a backup and the save that tracks it can leave a name that the journal tracks with the
  digest of other bytes; that backup is then not tracked when a recovery has completed (`AgentStuck.UntrackedBackup`).
  It is tracked if and only if there was no such name before the recovery (`AgentManager.Manager.Recover`), and always
  after an apply that was not interrupted (`AgentManager.Manager.Apply`).
* A removed account may still have a stored credential, of an upsert that stopped between its put and its commit
  (`AccountDirectory.AbortedUpsert`).  It has one if and only if that happened and no commit, removal or sweep of the
  account has taken effect since, or such an upsert is on its way (`AccountInvariant.RemovedLeavesNothing`,
  `AccountDirectory.AccountDirectory.Run`); every finished sweep removes it.
* The admission limit can be exceeded (`Admission.Overtaking`).  The slots held or promised exceed it exactly when a
  newcomer is admitted below the limit although all slots are held or promised
  (`Admission.AdmissionController.Run`), and then resuming the promises makes too many active
  (`Admission.AdmissionController.ResumeAll`).
* A subscriber that is reset when the store is empty is from then on sent only events after the id it asked to resume
  from, because that id becomes the bound of its replay (`AdminEventHub.ResetLosesEvent`).  A live event that the first
  answer did not cover is never sent after a reset if and only if that answer had no newest id and the event's id is at
  most the one to resume from (`EventHistory.AfterReset`, `AdminEvents.Subscriber.LostAfterReset`).

`dafny verify dfyconfig.toml` checks the project.

## Model

| member | source | states |
|---|---|---|
| AgentManager.Manager.Run | src/agents/manager.ts:408-625 | One replacement followed by any number of recoveries, each dying after any number of file or journal operations: either nothing has happened, or every target is its new image and every displaced original is in its backup, or the replacement is pending, the invariant of all pending states holds and every displaced original is still held somewhere.  Without clients, whatever the deaths, the original of every target that existed is the one a completed replacement has backed up and a pending one still holds; an undisturbed run completes; and after an undisturbed last recovery the replacement is complete or some step is stuck |
| AgentManager.Manager.Recover | src/agents/manager.ts:91-96 | Without clients, an undisturbed recovery completes if and only if no step is stuck, and no recovery completes otherwise; being stuck is a test on the files and the journal that can be made before it starts; completing gives the new images, the `expected` images, no pending entry and revision + 1, and the backup of what a step displaced is tracked if and only if before the recovery no file with other bytes than the tracked digest had its name; otherwise the invariant of all pending states is kept, and what was stuck is stuck.  If no step was stuck or had such a backup, a recovery that dies leaves a step stuck if and only if its last change was one of three (see `Apply`)  The backups tracked before are carried over in the same way, and a recovery that dies forgets none of them but the oldest beyond the limit.  Without clients no original changes |
| AgentManager.Manager.RecoverAgain | src/agents/manager.ts:91-96 | Once a step is stuck, no number of recoveries completes the replacement, wherever each of them dies |
| AgentManager.Manager.Apply | src/agents/manager.ts:103-116 | An undisturbed apply completes with exactly the requested images and every backup tracked; one that is cut short has either changed nothing or left the replacement pending with its invariant.  Without clients it leaves a step stuck if and only if the last change before the death was the write of that step's archive stage, the original having another mode; the link of its new file where there was none; or the rename of the new file's other link to its quarantine  Done, of each target the backups that were tracked before and still had their bytes are tracked in the same order, followed by the step's own with the private mode; only the oldest beyond 365 are dropped, and exactly their files are gone; cut short, no such backup is forgotten but those.  Without clients the step of each target records as its original exactly the image that was there, or that there was none, however far the apply got |
| AgentBackups.ShelvedIsCarried | src/agents/manager.ts:541-625 | Making room, recording, completing and the final trim together keep the tracked backups as promised: nothing new but the step's own, nothing lost but the oldest beyond the limit |
| AgentBackups.CutIsEnd | src/agents/manager.ts:614-620 | What the trims of all targets leave, one after the other, is what the end of each target promises |
| AgentManager.Manager.Plan | src/agents/manager.ts:389-406 | The planned steps record the images now at the targets and backup names that are free, and none of them is stuck; the journal expects those images |
| AgentManager.Manager.RequireRecoverable | src/agents/manager.ts:349-368 | Fails before anything is changed only when some step is stuck, and revalidating the displaced originals neither makes a step stuck nor frees one |
| AgentManager.Manager.ValidateDisplaced | src/agents/manager.ts:369-379 | Adopts the image that is really at `previous`; fails exactly when the stage is a second link of it |
| AgentInvariant.Classification | src/agents/manager.ts:380-387 | For every state a crash can leave: "after" means the new file is in place, "gap" means the original is displaced and the target empty, "before" means nothing was displaced or the step is stuck, and an unrecognised image only occurs in a stuck step |
| AgentInvariant.Revalidation | src/agents/manager.ts:369-379 | Revalidation keeps the invariant of the step and does not change whether it is stuck |
| AgentInvariant.DisplacedIsKept | src/agents/manager.ts:408-590 | In every state a crash can leave, a displaced original is at `previous`, at its cleanup quarantine, or has its bytes in the backup |
| AgentManager.Manager.EarlierAreReplaced | src/agents/manager.ts:410-413 | Whenever a target has been displaced or replaced, all earlier targets already show their new files, so the catalog precedes the configuration |
| AgentManager.Manager.Locate | src/agents/manager.ts:417-420 | The position found for a step is the one its files are in, and a step found "after" is marked published |
| AgentManager.Manager.PrepareNext | src/agents/manager.ts:421-444 | Ends with the complete new file in the scratch directory, adopting a stage that an earlier run left with the right bytes, and never makes a step stuck |
| AgentManager.Manager.RereadTargets | src/agents/manager.ts:445-457 | Exactly the steps whose original has not moved come to record the image now at their target; nothing else changes |
| AgentManager.Manager.Displace | src/agents/manager.ts:464-499 | Moves the original aside only from a clean scratch directory; the journalled image is the one that was moved, even if the target changed after its last read, and without clients that is the image that was at the target |
| AgentManager.Manager.ArchiveDisplaced | src/agents/manager.ts:524-590 | Ends with the displaced bytes in the step's backup and the backup tracked; otherwise the original is still at `previous` |
| AgentManager.Manager.SecureBackup | src/agents/manager.ts:541-589 | Passes over names other files have, adopts a backup only when its digest is the displaced one, and terminates |
| AgentManager.Manager.MakeRoom | src/agents/manager.ts:546-571 | What is tracked afterwards are exactly the entries tracked before whose files still had the recorded bytes, in the same order, the newest 364 of them; exactly the files of the older ones are gone, and the backup and the archive of the step are untouched |
| AgentManager.Manager.RecordAndDrop | src/agents/manager.ts:566-585 | The backup of the step is tracked last, behind what room was made among, in one save; then the archive stage goes |
| AgentManager.Manager.Trim | src/agents/manager.ts:665-685 | Deletes exactly the oldest tracked backups beyond the limit, and only those whose file still has the recorded bytes; what stays tracked keeps its order |
| AgentManager.Manager.RemoveBackup | src/agents/manager.ts:687-727 | If the backup is no longer the gateway's nothing changes; otherwise it is gone when this is done, and at every crash nothing but that backup is |
| AgentManager.RetainedBackups | src/agents/manager.ts:665-685 | What trimming keeps is distinct, within the limit, and none of what it deletes; a name that is not tracked, or has no file, is neither |
| AgentManager.LastIsRetained | src/agents/manager.ts:618-620 | The final trim never deletes the backup that was just recorded |
| AgentManager.Manager.Link | src/agents/manager.ts:508-517 | A publication never replaces a file that appeared in the gap |
| AgentManager.Manager.LinkOverDisplaced | src/agents/manager.ts:508-521 | Publishes over a displaced original: on success the target is the new file; at every crash the invariant holds |
| AgentManager.Manager.PublishOverNothing | src/agents/manager.ts:508-521 | Publishes where there was no file, with the same promise |
| AgentPublication.PublicationOverDisplaced | src/agents/manager.ts:508-516 | Linking and then unlinking the stage keep the invariant at each point, and neither makes the step stuck |
| AgentPublication.PublicationOverNothing | src/agents/manager.ts:380-387 | A publication over no file passes through a stuck state between link and unlink, although the final state is in order |
| AgentPublication.TornArchive | src/agents/manager.ts:535-540 | A crash between the write of the archive stage and its change of mode leaves a step that is stuck exactly when the modes differ |
| AgentPublication.NextQuarantined | src/agents/manager.ts:758-771 | Cleanup passes through a stuck state, with the target's twin in quarantine |
| AgentStuck.TornArchiveRemains | src/agents/manager.ts:535-540 | Witness from a fresh manager: dies between the write of the archive stage and its change of mode, and no recovery completes |
| AgentStuck.HalfPublicationRemains | src/agents/manager.ts:508-521 | Witness from a fresh manager: dies between link and unlink where there was no file, and no recovery completes |
| AgentStuck.QuarantineRemains | src/agents/manager.ts:758-771 | Witness from a fresh manager: dies between link and unlink, then in the cleanup of the recovery, and no recovery completes |
| AgentStuck.RecreatedTargetRemains | src/agents/manager.ts:380-387 | Witness from a fresh manager: dies with the original out of the way, a client puts another file at the target, and no recovery completes |
| AgentStuck.UntrackedBackup | src/agents/manager.ts:541-571 | Witness from a fresh manager whose journal tracks the backup's name with other bytes and no such file: dies between the link of the backup and the save that would track it; an undisturbed recovery completes and the backup is not tracked |
| AgentStuck.ForeignBackupRemains | src/agents/manager.ts:556-564 | Witness that a recovery from there which dies once the archive stage is gone leaves a step that no recovery completes |
| AgentPublication.PreviousQuarantined | src/agents/manager.ts:758-771 | Moving the original to its quarantine keeps everything recovery needs |
| AgentPublication.BackupAdopted | src/agents/manager.ts:556-564 | A tracked backup is adopted in place of the archive exactly when its bytes are the displaced ones; if it cannot be, the step is stuck |
| AgentManager.Manager.PublishAll | src/agents/manager.ts:458-522 | Every step is published, in order; a step that was done before is left alone |
| AgentManager.Manager.PublishOne | src/agents/manager.ts:458-522 | One step is carried from where it is to its publication, without touching any other; its original is not lost or changed |
| AgentManager.Manager.Execute | src/agents/manager.ts:408-522 | Without clients, an undisturbed execution publishes every step exactly when none is stuck |
| AgentManager.Manager.Finish | src/agents/manager.ts:592-625 | All targets verified, all scratch directories empty and gone, pending cleared and the revision raised by one, in one final save; the backup of what was displaced is tracked in the end if and only if the file at its name was not tracked with the digest of other bytes; each backup of what was displaced has the private mode, and exactly the oldest entries beyond the limit are dropped with their files |
| AgentManager.Manager.ExpectNewFiles | src/agents/manager.ts:594-600 | Succeeds exactly when every target is readable as its new image, and then expects those; fails otherwise |
| AgentManager.Manager.Cleanup | src/agents/manager.ts:729-787 | At every crash each file of the scratch directory is untouched, in its quarantine or gone, and no other name has changed; done, nothing of the transaction is left, also when a crash had left a quarantine |
| AgentManager.Manager.Save | src/agents/store.ts:89-108 | The durable journal is the old one or the new one; a document that breaks the schema is never written |
| AgentManager.NextCollision | src/agents/manager.ts:636-644 | The next backup name is the first free one from the given sequence number on |
| AgentFiles.BackupEntry | src/agents/manager.ts:542 | Finds a tracked entry for a backup name if and only if there is one |
| AgentFiles.StillOwned | src/agents/manager.ts:670-677 | Keeps exactly the tracked backups whose file still has the recorded bytes, in order |
| CredentialStore.MemoryCredentialStore.PutGeneration | src/accounts/credential_store.ts:58-69 | The in-memory store answers every later read as the flat map of all generations with this one added would |
| CredentialStore.MemoryCredentialStore.RemoveAccount | src/accounts/credential_store.ts:71-73 | All generations of the account are gone and no other entry has changed |
| CredentialStore.MemoryCredentialStore.Prune | src/accounts/credential_store.ts:75-90 | Deleting while iterating leaves exactly the referenced generations that existed |
| CredentialStore.FileCredentialStore.UpdateDocument | src/accounts/credential_store.ts:189-243 | At every crash the live document is the old one or the new one, with the stage that the writes before the crash left, and a stage left by an earlier crash never reaches it |
| CredentialStore.FileCredentialStore.CleanupOrphanedStages | src/accounts/credential_store.ts:257-260 | Stages left behind are removed without touching the live document |
| CredentialStore.FileCredentialStore.PutGeneration | src/accounts/credential_store.ts:110-125 | The stored entries are the old ones, or those with the generation added, and the latter if it finished |
| CredentialStore.FileCredentialStore.RemoveAccount | src/accounts/credential_store.ts:127-133 | The stored entries are the old ones, or those without the account |
| CredentialStore.FileCredentialStore.Prune | src/accounts/credential_store.ts:135-148 | Rebuilding the document from the references leaves the same entries as deleting what is not referenced |
| CredentialStore.Alike | src/accounts/credential_store.ts:58-148 | After any sequence of operations the in-memory store and the file store hold what one flat map of all generations would and answer every read alike, although one prunes in place and the other rebuilds the document |
| AccountDirectory.AccountDirectory.Run | src/accounts/account_directory.ts:122-286 | After every step of every interleaving of upserts, removals, cleanups, token refreshes, aborts, store faults and restarts: each active account has its own generation stored with the token it was last authenticated with; a removed or never committed account has nothing stored if and only if no upsert of it is in flight past its put or was abandoned there; the default is none or active, generations and revisions never decrease, and a generation that stopped being active never is again |
| AccountDirectory.AccountDirectory.BeginUpsert | src/accounts/account_directory.ts:133-144 | Refused while a removal is under way, or at capacity for an account that is not active, and only then; otherwise the next generation |
| AccountDirectory.AccountDirectory.PutUpsert | src/accounts/account_directory.ts:144-146 | The new generation is stored before any row refers to it; if the put fails, no row has changed and the account is abandoned exactly if the put took effect |
| AccountDirectory.AccountDirectory.AbortUpsert | src/accounts/account_directory.ts:146-149 | An abort after the put abandons the put credential: pruning with the aborted signal does nothing |
| AccountDirectory.AbortedUpsert | src/accounts/account_directory.ts:146-149 | Witness from an empty directory: an account is added, removed and added again with an abort after the put; it is removed and has a stored credential |
| AccountInvariant.RemovedLeavesNothing | src/accounts/account_directory.ts:144-149 | Of an account that is removed or was never committed something is stored if and only if an upsert of it is between its put and its commit, or stopped there (abort, failed put, failed transaction or restart) and neither a commit, a removal nor a sweep has taken effect since |
| AccountDirectory.AccountDirectory.CommitUpsert | src/accounts/account_directory.ts:151-192 | The row moves to the next generation and becomes active in one step with the default: one that was set stays, with its revision, and a missing one becomes this account, one revision on; a commit that fails changes nothing |
| AccountDirectory.AccountDirectory.FailUpsert | src/accounts/account_directory.ts:193-196 | A failed transaction changes no row, abandons the put credential and is followed by a sweep; the default stays |
| AccountDirectory.AccountDirectory.Prune | src/accounts/account_directory.ts:325-330 | A finished sweep leaves exactly the active accounts' own generations, each with the token it was authenticated with |
| AccountDirectory.AccountDirectory.BeginRemove | src/accounts/account_directory.ts:231-261 | Refused by revision or absence exactly as documented; otherwise the account stops being active and default before any credential is touched; the default is cleared, one revision on, exactly if it was this account |
| AccountDirectory.AccountDirectory.DeleteCredentials | src/accounts/account_directory.ts:264 | All of the account's credentials are gone, or the row stays in removal |
| AccountDirectory.AccountDirectory.FinishRemove | src/accounts/account_directory.ts:265-268 | The row is marked removed only when nothing of the account is stored |
| AccountDirectory.AccountDirectory.RemoveUnlocked | src/accounts/account_directory.ts:231-274 | A removal from end to end: the account stops being active and default, then nothing of it is stored, then its row is removed; a failing store leaves the row in removal |
| AccountDirectory.AccountDirectory.Use | src/accounts/account_directory.ts:110-120 | Sets the default exactly when the revision is the expected one and the account is active |
| AccountDirectory.AccountDirectory.Bind | src/accounts/account_directory.ts:288-308 | Binds exactly the active accounts, to their current generation |
| AccountDirectory.AccountDirectory.BeginRefresh | src/copilot/token_refresh.ts:45-56 | The credential is missing exactly when it is not stored, never for an account still active with the bound generation; a token handed out has a minute left |
| AccountDirectory.AccountDirectory.FinishRefresh | src/copilot/token_refresh.ts:57-64 | A refreshed token is stored under the generation it was read from, keeping the account token |
| AccountDirectory.AccountDirectory.UpsertAuthenticated | src/accounts/account_directory.ts:122-212 | From end to end: refused exactly when a removal is under way or capacity is reached, bound to the next generation otherwise, with the document holding the active accounts' credentials and nothing else; the abort between put and commit changes no row and leaves the account abandoned with its credential stored; of an account not committed in the end something is stored if and only if it is abandoned; the default changes exactly if it was missing and the account was committed, to that account and one revision on |
| AccountDirectory.AccountDirectory.Reconcile | src/accounts/account_directory.ts:276-286 | After a restart no account is left half removed, nothing else has changed, and the document holds exactly the active accounts' credentials; without faults it always finishes |
| AccountInvariant.SweptExactly | src/accounts/account_directory.ts:325-330 | What a sweep leaves, from any reachable state |
| AccountInvariant.CommitKeeps | src/accounts/account_directory.ts:151-192 | The invariant survives the commit, including the capacity bound |
| AccountInvariant.WithdrawKeeps | src/accounts/account_directory.ts:250-261 | The invariant survives the withdrawal of an account |
| AccountInvariant.SweepKeeps | src/accounts/account_directory.ts:198-199 | A sweep never deletes a credential that an active account, or an upsert between put and commit, needs |
| AccountInvariant.RefreshPutKeeps | src/copilot/token_refresh.ts:58-63 | A refresh that was under way during other accounts' operations cannot bring back a removed credential or overwrite a newer generation |
| AccountInvariant.RowsAdvance | src/accounts/account_directory.ts:151-268 | Every row operation moves revisions, generations and the default forward only |
| AccountInvariant.AdvancesTransitive | src/accounts/account_directory.ts:122-286 | What single steps keep, whole runs keep |
| AccountCoordinator.CoordinationLane.Enter | src/accounts/account_coordinator.ts:27-60 | A job runs at once in an idle lane and queues behind all earlier ones otherwise |
| AccountCoordinator.CoordinationLane.Finish | src/accounts/account_coordinator.ts:67-83 | The longest waiting job takes over from the one that ended, and the flag stays set exactly while a job runs |
| AccountCoordinator.CoordinationLane.Abort | src/accounts/account_coordinator.ts:39-49 | Only the aborted job leaves the queue; the order of the others stays |
| AccountCoordinator.AccountCoordinator.WithCredentialGeneration | src/accounts/account_coordinator.ts:103-119 | An account with work pending keeps its lane; one without gets a new one |
| AccountCoordinator.AccountCoordinator.FinishGeneration | src/accounts/account_coordinator.ts:165-171 | Exactly the finished job leaves, whoever awaited it goes on, and a lane is dropped exactly when it runs empty, so of all lanes ever made for an account only the current one has work |
| AccountCoordinator.AccountCoordinator.Changed | src/accounts/account_coordinator.ts:172-180 | Drains are resolved together, and only when nothing is pending |
| AccountCoordinator.AccountCoordinator.Drain | src/accounts/account_coordinator.ts:134-139 | A drain is resolved at once exactly when idle |
| AccountCoordinator.AccountCoordinator.SomethingRuns | src/accounts/account_directory.ts:133-133 | In every reachable state with work some running job waits for nothing, and no job waits for itself through others, although a lifecycle job may wait in a generation lane |
| AccountCoordinator.Unblocked | src/accounts/account_coordinator.ts:27-85 | From every pending job a chain of waiting leads to a running job that waits for nothing |
| AccountCoordinator.NoCycle | src/accounts/account_directory.ts:221-229 | Waiting goes down a rank in which lifecycle jobs are above all generation jobs, so no chain of it closes |
| AccountCoordinator.AccountCoordinator.EnterNested | src/accounts/account_directory.ts:133-133 | A running lifecycle job enters a generation lane and awaits its job there; refused after a stop |
| AccountCoordinator.AccountCoordinator.FinishLifecycle | src/accounts/account_directory.ts:276-286 | A lifecycle job ends only when no generation job it entered is pending, which is a premise taken from how the account directory awaits the jobs it enters; exactly that job leaves |
| AccountCoordinator.AccountCoordinator.FinishAll | src/accounts/account_coordinator.ts:62-84 | In whatever order the jobs that can end do end, all of them come to an end and every drain is resolved |
| AccountCoordinator.AccountCoordinator.Close | src/accounts/account_coordinator.ts:121-139 | After a stop, whatever is still called and however the jobs end, the coordinator runs idle and every drain is resolved |
| AccountCoordinator.AccountCoordinator.Run | src/accounts/account_coordinator.ts:98-180 | Over every interleaving, with nested entries and aborts: of the jobs started in a lane and not ended there is at most one, and one exactly while the flag of the lane is set; the lanes are first come first served and what is awaited stays pending; after a stop no lane is made and no job enters one |
| EventHistory.ExactlyOnce | src/admin/events.ts:118-170 | A subscriber that resumes from an id is sent a prefix of the events after it, in strictly increasing order, and all of them once nothing is waiting and everything recorded is published |
| EventHistory.PublishKeeps | src/admin/events.ts:193-210 | Skipping a live event exactly when the replay covers it keeps what was sent and what is waiting equal to what is owed |
| EventHistory.StartKeeps | src/admin/events.ts:276-287 | Fixing the bound and dropping covered live events keeps that equality, also when the answer is a reset |
| EventHistory.BatchKeeps | src/admin/events.ts:293-314 | A batch keeps that equality and moves the cursor strictly towards the bound |
| EventHistory.LostKeeps | src/admin/events.ts:287-291 | A cursor lost in mid-replay ends in a reset that loses no live event |
| EventHistory.AfterReset | src/admin/events.ts:276-337 | After a reset, what was sent and is queued is the part that was replayed and then exactly the live events after the bound; a live event newer than the newest id of the first answer is missing if and only if that answer had no newest id and the event's id is at most the resume id |
| EventHistory.QueryAnswers | src/telemetry/admin.ts:279-296 | If the cursor is still stored, the rows are the next events of the whole history, whatever retention deleted |
| EventHistory.AtMostIsPrefix | src/admin/events.ts:294-298 | Filtering a batch by the bound takes a prefix of it |
| EventHistory.AfterMeans | src/telemetry/admin.ts:287-293 | The events after an id are exactly those with a larger one, in order |
| AdminEvents.Subscriber.Enqueue | src/admin/events.ts:212-235 | A counted frame that would exceed 128 events or 1,048,576 bytes closes the subscriber, and only that does; the counters stay the sums over the buffers; a waiting reader is woken |
| AdminEvents.Subscriber.Receive | src/admin/events.ts:193-210 | The next event to one subscriber: not queued exactly if the replay covers it; otherwise the subscriber closes exactly if the event would make more than 128 events or 1,048,576 bytes with what is buffered, and else has it last in its queue and, if it waited, is woken |
| AdminEvents.Subscriber.ReceivePerformance | src/admin/events.ts:193-210 | A performance frame is queued last, or closes the subscriber exactly if it would exceed the budget; whoever waits is woken |
| AdminEvents.Subscriber.DiscardReplayedLiveEvents | src/admin/events.ts:322-337 | Splicing from the back removes exactly the covered live events and their counts |
| AdminEvents.LiveEvents | src/admin/events.ts:322-337 | What is left of the queue are the events after the bound, in order |
| AdminEvents.Subscriber.Pull | src/admin/events.ts:118-170 | A pull sends the head of the replay buffer, then a reset once, then a performance frame that is owed, then the head of the queue, whichever is the first there is; it asks the store when the replay needs it, waits on an empty queue without ending the stream, and ends exactly on a closed subscriber |
| AdminEvents.Subscriber.Replayed | src/admin/events.ts:271-319 | After a batch the replay is done or its cursor has strictly advanced within the bound, so it terminates |
| AdminEvents.Subscriber.TakeAnswer | src/admin/events.ts:271-319 | An answer fixes the bound the first time, drops exactly the covered live events, and is buffered, or closes the subscriber exactly if it is over budget; without the cursor the replay ends in a reset to the newest id answered |
| AdminEvents.Subscriber.Start | src/admin/events.ts:276-286 | The first answer fixes the bound, at the newest event or at the id to resume from, and drops exactly the live events up to it; it leads to a replay or to a reset |
| AdminEvents.Subscriber.Buffer | src/admin/events.ts:293-314 | A batch closes the subscriber exactly if it exceeds 128 events or 1,048,576 bytes with what is buffered; otherwise it is the replay buffer, cut at the bound, and the replay is done exactly if nothing is left up to the bound |
| AdminEvents.Subscriber.Awake | src/admin/events.ts:153-169 | A reader that was woken always finds a frame, or is closed |
| AdminEvents.Subscriber.ExactIsSound | src/admin/events.ts:118-170 | What an open subscriber was sent is sound, and stays so when it is cut off |
| AdminEvents.Subscriber.LostAfterReset | src/admin/events.ts:276-337 | The same of one subscriber, in terms of the frames it was sent and has queued |
| AdminEvents.Subscriber.NeverSent | src/admin/events.ts:276-337 | Such an event is never sent, whether the subscriber is open or was cut off |
| AdminEventHub.AdminEventStreamHub.Publish | src/admin/events.ts:193-210 | The next event goes to every open subscriber by the rule of `Subscriber.Receive`; exactly those it overflows leave the hub, and the others have it queued or covered |
| AdminEventHub.AdminEventStreamHub.PublishPerformance | src/admin/events.ts:193-210 | The frame of the current status is queued last for every open subscriber; exactly those it overflows leave the hub |
| AdminEventHub.AdminEventStreamHub.Open | src/admin/events.ts:63-117 | Refused at eight subscribers, after close, or for an id that is not a safe integer, and only then |
| AdminEventHub.AdminEventStreamHub.Close | src/admin/events.ts:182-191 | Every subscriber is closed, and what they were sent stays as it was |
| AdminEventHub.AdminEventStreamHub.Run | src/admin/events.ts:118-337 | Over every interleaving of recording, retention, publication, pulls, heartbeats, aborts and closes every subscriber ever opened stays in good standing: exact while open, sound forever, within the budget; after a reset exactly the live events after the newest id of the first answer, or after the resume id if there was none, are still owed |
| AdminEventHub.ResetLosesEvent | src/admin/events.ts:276-291 | Witness: a subscriber that resumes from 500 on an empty store is reset, event 1 is recorded and published, and whatever happens then it is never sent to it |
| LogPrune.JsonlLogger.RecoverPrune | src/daemon/logger.ts:240-281 | Gives up exactly on records that contradict each other or the files, whatever the directory holds; otherwise it removes exactly the records and what they name in quarantine, and it never touches a log file; from every state a crash inside a prune or a recovery can leave it does not give up and leaves log files only |
| LogPrune.JsonlLogger.FinishTransaction | src/daemon/logger.ts:246-281 | Refused exactly if a record is invalid, the two are not of one transaction, or the file in quarantine is not the one described; otherwise that file goes first, then the commit, then the prepared state |
| LogPrune.JsonlLogger.Restarts | src/daemon/logger.ts:240-281 | However often the process dies during recovery, the last one finishes with the log files the first crash left |
| LogPrune.JsonlLogger.PruneObservedFile | src/daemon/logger.ts:193-238 | At every crash all log files are untouched or exactly the target is gone; finished, exactly the target is gone and no record is left; a file that changed since it was observed is kept |
| LogPrune.JsonlLogger.PublishPruneState | src/daemon/logger.ts:440-501 | A record is published whole or not at all; a death before the write leaves nothing, one before its end a torn temporary file, one before the move a complete one |
| LogPrune.JsonlLogger.RecoverStateTemporary | src/daemon/logger.ts:540-560 | A temporary record, torn or complete, is removed, unless a record or a file in quarantine contradicts it, and then nothing is |
| LogPrune.JsonlLogger.RecoverCommitTemporary | src/daemon/logger.ts:562-584 | The same for a temporary commit, which must match its prepared state |
| LogFiles.Consistent | src/daemon/logger.ts:252-277 | None of the consistency checks of a recovery fails in a reachable state, and without the records and what they name it has log files only |
| LogFiles.Quarantined | src/daemon/logger.ts:208-228 | The quarantined states are recoverable, with every stage of the commit record |
| LogFiles.Unlinked | src/daemon/logger.ts:234-237 | Unlinking the commit before the prepared state leaves recoverable states only |
| LogPrune.JsonlLogger.Prune | src/daemon/logger.ts:167-191 | Finished: nothing is expired, at most four rotated files are left, and an unexpired file was deleted only to make room for newer ones |
| LogPrune.RetainedIs | src/daemon/logger.ts:170-190 | Deleting the expired and then the oldest beyond the limit, in order of age, is what retention promises |
| LogPrune.JsonlLogger.Listing | src/daemon/logger.ts:170-174 | Every rotated file once, oldest first |
| LogPrune.JsonlLogger.Rotate | src/daemon/logger.ts:155-165 | The active file moves, whole, to a name that was free; nothing is overwritten; the search for a name ends |
| LogPrune.JsonlLogger.AppendLine | src/daemon/logger.ts:140-149 | The line ends the active file, behind the old text if that was neither expired nor too long; a text that leaves no room for the line is whole in a rotated file until retention deletes that file for its age or to make room; no file outgrows its limit; the line is lost exactly when its file is already expired at the second prune |
| InferencePool.InferencePoolEntry.Acquire | src/copilot/inference_pool.ts:288-327 | Granted at once exactly when a slot is free, and then nobody was waiting; queued last exactly when the slots are taken and the queue is not full, and refused when it is; a use stops the idle timer and is the last use |
| InferencePool.InferencePoolEntry.Release | src/copilot/inference_pool.ts:388-406 | The slot goes to whoever has waited longest or becomes free; a second release changes nothing; the active count is the number of leases outstanding; a return is a use, and an idle timer is asked for exactly if then nothing is out, waiting or connecting |
| InferencePool.InferencePoolEntry.Abandon | src/copilot/inference_pool.ts:302-322 | An abort or timeout removes that waiter only |
| InferencePool.InferencePoolEntry.Close | src/copilot/inference_pool.ts:349-355 | Nobody waits at a closed entry, and it grants nothing |
| InferencePool.BoundedInferencePoolRegistry.EntryFor | src/copilot/inference_pool.ts:156-194 | Finds the open entry of the key, makes one when there is room, evicts the least recently used idle one when there is not, by the times of last use, and is saturated only when no entry is idle; a use of an entry stops its idle timer |
| InferencePool.BoundedInferencePoolRegistry.Evict | src/copilot/inference_pool.ts:189-208 | What is evicted had no lease outstanding |
| InferencePool.BoundedInferencePoolRegistry.Acquire | src/copilot/inference_pool.ts:83-87 | What the entry answers is what the caller gets: granted exactly when it is open and has a free slot, queued last exactly when it is full and its queue is not, saturated exactly when both are full, and refused exactly when it is closed; no other entry changes |
| InferencePool.BoundedInferencePoolRegistry.Release | src/copilot/inference_pool.ts:83-98 | At the registry: an outstanding ticket is returned exactly once, its slot goes to the longest waiter or becomes free, and no other entry changes |
| InferencePool.BoundedInferencePoolRegistry.Close | src/copilot/inference_pool.ts:117-154 | Every entry is closed and none is found any more; leases that are out stay out |
| InferencePool.BoundedInferencePoolRegistry.Run | src/copilot/inference_pool.ts:70-98 | Over every interleaving, with requests holding on to entries however old: slots are conserved, no ticket overtakes a waiting one, and tracked plus draining entries stay within the limit |
| ModelCatalog.CopilotModelCatalog.Get | src/copilot/model_catalog.ts:70-115 | A hit has the requested credentials and was fetched after the last invalidation, and starts nothing; otherwise the request joins the registered fetch exactly if that is of these credentials, of the current generation and not given up, making its waiters one more, and else starts exactly one fetch and registers it; nothing is answered or started after a close |
| ModelCatalog.CopilotModelCatalog.Leave | src/copilot/model_catalog.ts:117-130 | Whoever waited is given a catalog of the account and credentials asked for, fetched since the last invalidation before its request, whatever was invalidated later; the last to leave a running fetch cancels it, exactly then |
| ModelCatalog.CopilotModelCatalog.Complete | src/copilot/model_catalog.ts:138-155 | A late answer is cached only if it is still current, and a cached catalog always is of the current generation |
| ModelCatalog.CopilotModelCatalog.Invalidate | src/copilot/model_catalog.ts:158-161 | No catalog asked for before is current any more |
| ModelCatalog.CopilotModelCatalog.CurrentIsFresh | src/copilot/model_catalog.ts:163-166 | A current catalog was fetched after the last invalidation, with the newest credentials anybody asked for |
| ModelCatalog.CopilotModelCatalog.Close | src/copilot/model_catalog.ts:175-184 | Nothing is cached after a close, however late a fetch completes |
| ModelCatalog.CopilotModelCatalog.Settle | src/copilot/model_catalog.ts:107-113 | A finished fetch is forgotten unless a newer one has taken its place |
| ModelCatalog.CopilotModelCatalog.Run | src/copilot/model_catalog.ts:70-184 | All of this over every interleaving, with exact waiter counts |
| EndpointDiscovery.EndpointDiscovery.Discover | src/copilot/endpoint_discovery.ts:39-72 | An endpoint is answered from the lane exactly when the registered lane has one for these credentials, and it was asked for after the last invalidation; otherwise the request waits for the one live operation of its account and credential generation, or for a new one if there is none |
| EndpointDiscovery.EndpointDiscovery.OneLive | src/copilot/endpoint_discovery.ts:105-150 | Of one account and credential generation at most one operation is live: neither finished nor given up, and begun after the last invalidation |
| EndpointDiscovery.EndpointDiscovery.KeptIsFresh | src/copilot/endpoint_discovery.ts:127-147 | What a registered lane keeps was asked for with its credentials after the last invalidation of the account, however late it was answered |
| EndpointDiscovery.EndpointDiscovery.LaneFor | src/copilot/endpoint_discovery.ts:51-59 | A lane of newer credentials replaces the registered one; one of older credentials is not registered |
| EndpointDiscovery.EndpointDiscovery.Answered | src/copilot/endpoint_discovery.ts:127-137 | An answer is kept exactly if its lane is still registered and the operation still the one of that lane, it was not given up, and nothing is closed |
| EndpointDiscovery.EndpointDiscovery.Left | src/copilot/endpoint_discovery.ts:61-70 | Whoever waited is answered with what was asked for with its credentials, since the last invalidation before its request; the last to leave a running operation gives it up, exactly then, and its lane |
| EndpointDiscovery.EndpointDiscovery.Invalidate | src/copilot/endpoint_discovery.ts:74-77 | Nothing that was begun before can be joined, or be found in a lane, afterwards |
| EndpointDiscovery.EndpointDiscovery.Run | src/copilot/endpoint_discovery.ts:39-163 | All of this over every interleaving: exactly the live operations may be joined, waiters are counted, and nobody waits for an operation that was given up before the close |
| DeviceFlow.DeviceFlowService.Poll | src/accounts/device_flow.ts:190-239 | The token endpoint is asked exactly when the flow is pending, not authorized, not being polled, due and not expired, and then every earlier exchange has been answered and the next poll is an interval on; every other answer is tied to the flow, who is told to wait is told a later time, an expired flow becomes an outcome, and no other flow changes |
| DeviceFlow.AskedIsPaced | src/accounts/device_flow.ts:227-231 | An exchange that is due starts at least the current interval after the last one and before the code expires |
| DeviceFlow.DeviceFlowService.Answered | src/accounts/device_flow.ts:255-345 | On `slow_down` the interval grows by five seconds, or to what the server asks for, and the next poll counts from the start of the exchange; a refusal, an expiry or a permanent failure becomes the outcome, and nothing else does; an authorization extends the flow once and is recorded with the exchange that brought it; no other flow changes |
| DeviceFlow.DeviceFlowService.SlowDownKeeps | src/accounts/device_flow.ts:287-296 | The longer interval counts from the start of the exchange that was told to slow down |
| DeviceFlow.DeviceFlowService.Started | src/accounts/device_flow.ts:151-171 | A new flow lasts what the server says but at most 15 minutes, with an interval of at least a second |
| DeviceFlow.DeviceFlowService.Begin | src/accounts/device_flow.ts:126-142 | Admitted exactly while the starting flows and those pending ones that have not expired yet are fewer than eight; expired ones are ended first |
| DeviceFlow.DeviceFlowService.RememberTerminal | src/accounts/device_flow.ts:500-525 | The outcome takes the place of the flow, last in line; of the other outcomes only the oldest makes room, and only if there are eight |
| DeviceFlow.DeviceFlowService.Gc | src/accounts/device_flow.ts:414-423 | Exactly the pending flows that have not expired stay pending, unchanged; the others become outcomes, outcomes that have expired are gone, and no other outcome is, unless there are more than eight |
| DeviceFlow.DeviceFlowService.Forget | src/accounts/device_flow.ts:522-524 | The removal timer forgets an outcome and nothing else |
| DeviceFlow.DeviceFlowService.Cancel | src/accounts/device_flow.ts:350-367 | Answers with the account exactly if the flow is complete; otherwise the flow goes, unless it is being polled |
| DeviceFlow.DeviceFlowService.Close | src/accounts/device_flow.ts:369-387 | Exactly the authorized flows whose account is being stored stay, unchanged |
| DeviceFlow.DeviceFlowService.Settled | src/accounts/device_flow.ts:306-348 | The poll of an authorized flow ends with its outcome remembered, or with nothing changed |
| DeviceFlow.DeviceFlowService.Run | src/accounts/device_flow.ts:125-536 | Over every interleaving each flow's exchanges are paced as section 3.5 of RFC 8628 asks, only the last of them can be unanswered, none starts at or after expiry or follows the one that was authorized, the history of an authorized flow never changes, and at most eight flows are pending |
| Admission.AdmissionController.Acquire | src/gateway/admission.ts:31-47 | Admitted exactly when active is below the limit, whatever is promised; queued otherwise; refused when the queue is full |
| Admission.AdmissionController.Release | src/gateway/admission.ts:58-64 | The count falls by one, never clamped, and the longest waiting request is woken |
| Admission.AdmissionController.Resume | src/gateway/admission.ts:45-47 | A woken request is counted when it resumes |
| Admission.AdmissionController.Run | src/gateway/admission.ts:31-122 | Over every interleaving: the count is the number of holders, nobody waits while a slot is free and unpromised, and the slots held or promised have stayed within the limit if and only if no newcomer was ever admitted when all slots were held or promised |
| Admission.AdmissionController.ResumeAll | src/gateway/admission.ts:41-47 | From any reachable state, resuming every outstanding promise ends with more active than the limit if and only if more slots than that are held or promised |
| Admission.Overtaking | src/gateway/admission.ts:36-47 | Witness that such a newcomer makes the active count exceed the limit |
| LifecycleCoordinator.LifecycleCoordinator.Run | src/daemon/lifecycle_coordinator.ts:46-87 | Refused when 64 operations wait; otherwise started at once or queued last |
| LifecycleCoordinator.LifecycleCoordinator.Abort | src/daemon/lifecycle_coordinator.ts:72-79 | An operation that waits is settled and exactly it leaves its queue; one that has started is not touched |
| LifecycleCoordinator.LifecycleCoordinator.LeaseAnswered | src/daemon/lifecycle_coordinator.ts:99-109 | The operation starts under the lease, or is settled, once, with the lease given back if that works; then the next one in the queue asks for the lease, or the lane goes; no other lane changes |
| LifecycleCoordinator.LifecycleCoordinator.OperationEnded | src/daemon/lifecycle_coordinator.ts:109-125 | The lease is given back and only then the operation is settled, once, with the outcome its result, its signal and the release call for; a lease whose release fails, also when it is tried again, stays out; then the next one in the queue asks for the lease, or the lane goes |
| LifecycleCoordinator.LifecycleCoordinator.GiveBack | src/daemon/lifecycle_coordinator.ts:109-125 | The operation has no outcome when its lease is given back |
| LifecycleCoordinator.LifecycleCoordinator.Settle | src/daemon/lifecycle_coordinator.ts:109-125 | An operation is settled while it waits for its lease or after its lease was returned, never while it runs, and had no outcome before |
| LifecycleCoordinator.LifecycleCoordinator.Continue | src/daemon/lifecycle_coordinator.ts:89-134 | The drain starts the first operation of the queue, or removes the lane if none waits; none that waits has been aborted |
| LifecycleCoordinator.LifecycleCoordinator.RunAll | src/daemon/lifecycle_coordinator.ts:46-135 | Over every interleaving: of the drains started in a lane and not ended there is at most one, and one exactly while the flag is set, so of two leases that are out and were not left behind by a failed release no two are of one directory; what is settled holds no other lease; every submitted operation is settled or in its lane and never both, and no outcome ever changes |
| LifecycleCoordinator.LifecycleCoordinator.SettleAll | src/daemon/lifecycle_coordinator.ts:46-135 | However the leases are answered, the operations end and the releases go, every submitted operation is settled in the end, no lane is left, and the leases still out are those whose release failed |
| LifecycleCoordinator.SettleKeeps | src/daemon/lifecycle_coordinator.ts:109-125 | Moving an operation from its lane to the outcomes neither loses nor repeats one |
| OperationLease.LeaseDirectory.MutualExclusion | src/daemon/operation_lease.ts:182-213 | Of all running processes at most one is between taking the lock and giving it up |
| OperationLease.LeaseDirectory.Link | src/daemon/operation_lease.ts:244-258 | The path comes to name the prepared file exactly if it named none, and keeps what it names |
| OperationLease.LeaseDirectory.TryLock | src/daemon/operation_lease.ts:185-197 | The lock taken is that of the file the path names, and only if nobody has it |
| OperationLease.LeaseDirectory.Inspect | src/daemon/operation_lease.ts:322-347 | Exactly a second name of the database is removed without asking; of any other file its initializer is asked for |
| OperationLease.LeaseDirectory.Sweep | src/daemon/operation_lease.ts:348-415 | The file is removed exactly if the process number of its initializer had another start identity or none; one that runs keeps its file |
| OperationLease.LeaseDirectory.VerifyOwner | src/daemon/operation_lease.ts:436-456 | Passes exactly when there is no owner, it released, or its process number belongs to nobody; otherwise the lock is given up |
| OperationLease.LeaseDirectory.PublishHeld | src/daemon/operation_lease.ts:478-512 | From here until the release the owner file names this process |
| OperationLease.LeaseDirectory.PublishReleased | src/daemon/operation_lease.ts:514-546 | The owner file says released before the lock is given up |
| OperationLease.LeaseDirectory.Die | src/daemon/operation_lease.ts:208-211 | The dead process loses its locks and nothing else changes; all of this continues from there |
| OperationLease.LeaseDirectory.Run | src/daemon/operation_lease.ts:154-546 | Any processes, any interleaving, deaths anywhere: the database path names one file forever and the invariant behind mutual exclusion holds |
| CheckpointDiagnostics.SlowestIsUnique | scripts/tooling/checkpoint_diagnostics.ts:454-462 | Only one list is the first k of a history by time and then ordinal |
| CheckpointDiagnostics.RetainKeeps | scripts/tooling/checkpoint_diagnostics.ts:454-462 | Push, sort and truncate turn the slowest of a history into the slowest of the longer one |
| CheckpointDiagnostics.MergeIsConcat | scripts/tooling/checkpoint_diagnostics.ts:445-452 | Merging aggregates is aggregating all their observations |
| CheckpointDiagnostics.Full | scripts/tooling/checkpoint_diagnostics.ts:454-462 | A sample is left out only when the list is full |
| CheckpointDiagnostics.OperationMeans | scripts/tooling/checkpoint_diagnostics.ts:445-452 | The running total of an operation is the number, the sum and the largest of all its timings |
| CheckpointDiagnostics.StateMeans | scripts/tooling/checkpoint_diagnostics.ts:168-193 | The running total of a state is the number, the sum and the largest of all its samples |
| CheckpointDiagnostics.ExceedingMeans | scripts/tooling/checkpoint_diagnostics.ts:168-193 | The threshold count is the number of samples that took longer |
| CheckpointDiagnostics.SortSamples | scripts/tooling/checkpoint_diagnostics.ts:459-460 | The sorted list has the same samples, in the one order there is |
| CheckpointDiagnostics.CheckpointDiagnosticsCollector.CompleteCheckpoint | scripts/tooling/checkpoint_diagnostics.ts:168-193 | All totals, counts, maxima and the slowest list are those of the history with this sample; a negative time or a finished sample is refused |
| CheckpointDiagnostics.CheckpointDiagnosticsCollector.Abandon | scripts/tooling/checkpoint_diagnostics.ts:160-166 | An abandoned sample leaves no trace |
| CheckpointDiagnostics.CheckpointDiagnosticsCollector.Reset | scripts/tooling/checkpoint_diagnostics.ts:136-146 | Starts a new history, unless a sample is under way |

## Left out

* Ownership, permission and access-list checks, symbolic links and Windows branches; of the file checks only identity, the
  number of links and the mode are modelled.
* Partial writes of one file: a file is written in one step, except prune records, which can be torn; a change of mode is a
  step of its own.  Power loss, and what `fsync` is for.
* Agents: the projection of configurations, the takeover and revision checks before a replacement, the creation of parent
  directories, the list of garbage directories (always empty here), and `restoreCleanupArtifact`, which only runs when
  another process interferes in the scratch directory.  The new image is never absent and every target has a step, as in
  all callers.
* AgentManager.Manager.RemoveBackup: the quarantine is one name per file; a crash leaves it behind as the source leaves its
  scratch directory behind.
* AgentManager.Manager.Recover: while clients write the targets only the invariant is promised, neither completion nor
  where a death leaves a step stuck.
* AgentManager.Manager.ClientWrites: clients write only the target, only between the last read and the publication, and do
  not put the very image being published there while the original is displaced; that image would be taken for the
  publication itself and the original would not be archived.
* Accounts: profile fields, the fallback when there is no default, model preferences, and the size limit of the credential
  document.  Account rows always have a generation.
* AccountDirectory.AccountDirectory.SetMaxAuthenticated: the number of active accounts is bounded by the largest capacity
  ever set, since lowering it removes nobody.
* Events: the encoding of frames; sizes are given.  A recorded event is published eventually and in order, and retention
  deletes the oldest events, as the recorder does.
* Logger: line formatting, the channel prefix of names, and link counts.  One process writes one channel.
* InferencePool.BoundedInferencePoolRegistry.DropFailed: an entry forgotten after a failed initialization is not counted by
  the limit, as in the source.
* Inference pool: dispatchers are created or not; how they are closed or destroyed is left out.
* Model catalog: parsing of models, and `clear` outside `close`.
* Endpoint discovery: the fallback endpoint, redirects, and the wait of `close` for aborted operations.
* Device flow: the account commit at the end of a flow is the account directory's; its retries are one outcome.  Intervals
  are whole seconds.
* Admission: one configuration for all requests.
* Operation lease: the validation of database files and side files; a file that cannot be validated ends the acquisition,
  as any error does.
* What a `Run` states is kept by every schedule; that an event of the schedule took effect is stated by the method that
  does it.
* Objects that the source keeps in lists and maps are objects here in the pool, the coordination lanes of accounts, and
  the event hub; fetches in flight, lanes and operations of the endpoint discovery, device flows, queued operations and
  journal steps are values found by number or position.

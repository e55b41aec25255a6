# DriveMPVD verification

DriveMPVD is a single-owner cloud drive: a FastAPI service over PostgreSQL and a local file
store, with a React client. This project models its hard logic in Dafny and proves what the
drive relies on. `dafny verify dfyconfig.toml` checks everything.

| module | what it models |
|---|---|
| StorageTree, StorageTreeProofs, StorageTreeResults, StaleTrashRun | the entry and trash rows, each tree command as one transaction, and what every run of commands keeps |
| CommandEffects | what each tree command answers and changes, said on the rows alone |
| TreeCommands | the same commands as they run: recursive queries, the two-pass folder copy, and a `Drive` that updates its tables |
| Bytes, LocalStorage | buffered writes, appends with truncation, and range reads of the local file store |
| UploadProtocol, UploadAnswers, UploadUseCases | resumable uploads between a client, a lossy network and one session, as a protocol and as the client and server loops |
| ObjectGc, CollectionEffects, StrandedObjectRun, OutboxWorker | garbage collection of shared storage objects through the transactional outbox, under interleaving and as the polling worker |
| Ranges, RangeDelivery, MultipartReader | byte-range headers, the responses to them, and how a client takes them apart |
| RateLimiter, Lockout, RefreshRotation | fixed-window limits, account lock, refresh-token rotation with reuse detection |
| Uuid7, Pagination | identifiers and keyset-paged listings |
| Outcomes, Decimals, Bits | result types, decimal text, bitwise operators |

The specification of a stateful part is a function or relation on values; the class or loop
beside it is proved to follow it, and the main results are lemmas about all runs of it. For
each command a lemma says, on the data alone, when it is accepted and with which error it is
refused otherwise, and a second one what it changes and what it leaves as it was.

Five places where the code does less than one might expect are kept as they are, each with the
exact condition and a witness:

- Restoring a folder also re-activates entries that had been trashed on their own and leaves
  their trash items behind. While such a stale item is there, its entry cannot be trashed,
  because the unique index on trash items refuses it, and no command takes the item away; it
  stops being stale only when a folder above the entry is trashed (`TrashRefusedIff`,
  `StaleAfterIff`, `StaleItemKept`, `StaleItemIsReachable`, `StaleItemWayOut`).
- Publishing an upload moves its staging file away. If the commit then fails, the session stays
  writable and fully acknowledged but can never be completed; the client has to start over
  (`CompletableIff`, `StrandedForever`, `FailedCommitStrandsUpload`).
- The orphan sweep skips locked rows. A copy that aborts after every sweep has passed over the
  object it held leaves the object without an event (`CoverageIff`, `AbortedCopyStrandsObject`).
- Some invalid range members are skipped instead of rejected: a last position below the first,
  a negative suffix, and unreadable text behind a first position outside the file
  (`OverlookedIff`, `InvalidMembersAccepted`).
- When the identifier counter wraps in the last representable millisecond, the generator stores
  a timestamp it can never use again (`FailsIff`, `WrapAtTheEndIsFinal`, `TwoCallsEndTheGenerator`).

The retry delay of the rate limiter keeps its promise only when a block lasts at least a
window (`RetryIsEnoughIff`); the default settings do.

## Model

| member | source | states |
|---|---|---|
| StorageTreeProofs.RunsFormTrees | backend/app/application/use_cases/storage/actions.py:142-176 | after any serial run of commands from the empty database the parent links of each owner form one tree: every chain of parents ends at the owner's only root, no row is its own ancestor, every parent is a folder of the same owner, and everything below a trashed row is trashed |
| StorageTreeProofs.EveryRunKeeps | backend/app/infrastructure/persistence/models/storage.py:33-63 | every state of every run satisfies the tree invariant and the database constraints |
| StorageTreeProofs.NextKeeps | backend/app/application/use_cases/storage/actions.py:85-471 | each single command, refused or accepted, keeps the invariant; the folder copy included |
| StorageTreeProofs.StepKeeps | backend/app/application/use_cases/storage/actions.py:85-471 | every command but a folder copy keeps the invariant |
| StorageTreeProofs.RestoreDestinationOutside | backend/app/application/use_cases/storage/actions.py:419-431 | an active destination lies outside the subtree of any trashed entry, so restore, which never asks, cannot close a cycle |
| StorageTreeProofs.DestinationOutside | backend/app/application/use_cases/storage/actions.py:162-168 | the descendant check of a move, made for folders only, is enough for files too |
| StorageTreeProofs.ReparentAcyclic | backend/app/application/use_cases/storage/actions.py:170-174 | re-parenting below a row outside the own subtree keeps the links acyclic |
| StorageTreeProofs.ReparentSubtree | backend/app/infrastructure/persistence/repositories/storage.py:736-766 | re-parenting an entry does not change what lies below it, so restore updates the same rows before and after |
| StorageTreeProofs.TrashedBelow | backend/app/application/use_cases/storage/actions.py:377-394 | whatever lies below a trashed entry is trashed |
| StorageTreeProofs.NoCycle | backend/app/infrastructure/persistence/repositories/storage.py:278-301 | no row is its own proper ancestor |
| StorageTreeProofs.HangsFromRoot | backend/app/infrastructure/persistence/models/storage.py:50-56 | climbing from any row ends at the one active root of its owner |
| StorageTreeProofs.AddLeafUnique | backend/app/application/use_cases/storage/actions.py:69-82 | the name check of create, upload and file copy is enough for the unique index |
| StorageTreeProofs.CopyFolderKeeps | backend/app/application/use_cases/storage/actions.py:223-295 | a folder copy keeps the whole invariant |
| StorageTreeProofs.CopyFolderNeverClashes | backend/app/application/use_cases/storage/actions.py:196-201 | one name check at the destination keeps active siblings distinct on every level of a folder copy |
| StorageTreeResults.NameChecksSuffice | backend/app/application/use_cases/storage/actions.py:69-82 | for create, rename, move, file copy, upload and purge the use case's own checks leave the unique indexes nothing to refuse |
| StorageTreeResults.TrashRefusedIff | backend/app/application/use_cases/storage/actions.py:365-394 | trashing an active entry is refused by the database exactly when an older trash item still points at it |
| StorageTreeResults.RestoreRefusedIff | backend/app/application/use_cases/storage/actions.py:398-433 | a restore that passed its checks is refused by the unique index exactly when it would re-activate two siblings of the same normalized name |
| StorageTreeResults.RestoreLeavesStaleItems | backend/app/application/use_cases/storage/actions.py:428-433 | restoring a folder re-activates entries trashed on their own but leaves their items; in the new state none of them can be trashed |
| StorageTreeResults.StaleAfterIff | backend/app/application/use_cases/storage/actions.py:365-433 | over any committed command, an item is stale afterwards (its entry active) exactly when a restore has just re-activated an entry that its own lies below, or it was stale before and no such entry has been trashed |
| StorageTreeResults.StaleItemKept | backend/app/application/use_cases/storage/actions.py:398-471 | no command removes or changes a stale item: neither its own restore or purge nor a purge above it |
| StaleTrashRun.StaleItemIsReachable | backend/app/application/use_cases/storage/actions.py:428-433 | a run to such a state: two nested folders, inner trashed, outer trashed, outer restored; the inner one is active, keeps its item and cannot be trashed |
| StaleTrashRun.OuterRestored | backend/app/application/use_cases/storage/actions.py:398-433 | the last step of that run, computed row by row |
| StaleTrashRun.StaleItemWayOut | backend/app/application/use_cases/storage/actions.py:365-433 | the run of StaleItemIsReachable, two steps longer: the outer folder trashed again and the old item restored to the root leave the inner folder active without an item, so that it can be trashed |
| StorageTreeResults.TrashThenRestore | backend/app/application/use_cases/storage/actions.py:416-433 | restoring a freshly trashed entry to where it was gives back every row and older item, except that entries below it that had been trashed before come back active; it is refused only when the unique index does not admit those |
| StorageTreeResults.TrashThenRestoreIsIdentity | backend/app/infrastructure/persistence/repositories/storage.py:450-468 | a fully active subtree comes back exactly as it was |
| StorageTreeResults.CopyOutsideIsIsomorphic | backend/app/application/use_cases/storage/actions.py:223-295 | copying a folder to a place outside it changes no old row, creates no storage object and hangs an isomorphic image of the source's active subtree below the destination, under a root row of the chosen name: same names, owners, kinds and shared objects |
| StorageTreeResults.CopyInsideAddsFreshRoot | backend/app/application/use_cases/storage/actions.py:241-249 | copying a folder into itself ends, and hangs below the destination an isomorphic image of the active source subtree together with the fresh root, one row more than the subtree has |
| StorageTreeResults.CopyIsWholeSubtree | backend/app/infrastructure/persistence/repositories/storage.py:519-551 | the copies are exactly what hangs below the fresh root afterwards |
| StorageTreeResults.QueryEndsIff | backend/app/infrastructure/persistence/repositories/storage.py:284-289 | a recursive query that keeps duplicates ends if and only if its root is not its own ancestor |
| StorageTreeResults.RunsKeepQueriesFinite | backend/app/infrastructure/persistence/repositories/storage.py:736-766 | in every reachable state every recursive query ends |
| StorageTreeResults.MoveThereAndBack | backend/app/application/use_cases/storage/actions.py:142-176 | a committed move can always be taken back, and that restores every row |
| StorageTreeResults.RenameThereAndBack | backend/app/application/use_cases/storage/actions.py:116-139 | a rename can be taken back, and that restores every row |
| StorageTreeResults.ParentIsFitDestination | backend/app/application/use_cases/storage/actions.py:162-174 | the parent of an active entry is an active owned folder outside its subtree |
| CommandEffects.ProvisionRootAnswers | backend/app/application/use_cases/auth/bootstrap_admin.py:71-83 | a root is provisioned exactly when the owner has none |
| CommandEffects.ProvisionRootEffect | backend/app/application/use_cases/auth/bootstrap_admin.py:71-83 | one new active folder without a parent, and nothing else changes |
| CommandEffects.CreateFolderAnswers | backend/app/application/use_cases/storage/actions.py:85-113 | accepted exactly when the parent is an active folder of the caller and no active child has the normalized name, with the error each failing check gives |
| CommandEffects.CreateFolderEffect | backend/app/application/use_cases/storage/actions.py:102-112 | one new active folder of that name below that parent, and nothing else changes |
| CommandEffects.UploadAnswers | backend/app/application/use_cases/storage/uploads.py:288-303 | the parent and name checks of a completed upload, and the error each gives |
| CommandEffects.UploadEffect | backend/app/application/use_cases/storage/uploads.py:304-357 | one new file of that name, carrying a new object that no row carried before |
| CommandEffects.RenameAnswers | backend/app/application/use_cases/storage/actions.py:116-139 | accepted exactly when the entry is the caller's, active, not a root, and no active sibling has the normalized name, with the error each failing check gives |
| CommandEffects.RenameEffect | backend/app/application/use_cases/storage/actions.py:136-138 | the entry carries the new name; its other columns and everything else stay |
| CommandEffects.MoveAnswers | backend/app/application/use_cases/storage/actions.py:142-176 | accepted exactly when the entry is the caller's, active and not a root, the destination an active folder of the caller that is neither the entry nor below it, and no other active child there has its name, with the error each failing check gives |
| CommandEffects.MoveEffect | backend/app/application/use_cases/storage/actions.py:173-175 | the entry's parent is the destination; its other columns and everything else stay, and all that hung below it hangs below the destination |
| CommandEffects.TrashAnswers | backend/app/application/use_cases/storage/actions.py:365-395 | an entry already trashed answers with its item or, below another trashed one, is refused; an active one is refused for a root, by the unique index for an older item, and else accepted |
| CommandEffects.TrashEffect | backend/app/application/use_cases/storage/actions.py:383-394 | exactly the entry and what lies below it become trashed, with their other columns as before, and one item records entry, parent and caller |
| CommandEffects.RestoreAnswers | backend/app/application/use_cases/storage/actions.py:398-434 | each failing check and its error in order; a restore that passes them is refused only for two clashing rows below the entry |
| CommandEffects.RestoreEffect | backend/app/application/use_cases/storage/actions.py:428-433 | the entry hangs below the destination, it and all below it are active, only its item is gone, and every other column stays |
| CommandEffects.PurgeAnswers | backend/app/application/use_cases/storage/actions.py:437-458 | accepted exactly when the item is the caller's and its entry owned and trashed |
| CommandEffects.PurgeEffect | backend/app/application/use_cases/storage/actions.py:459-471 | exactly the entry and what lies below it are gone, and exactly the items pointing there; all other rows, items and objects stay, and at least one row went |
| CommandEffects.CopyVerdict | backend/app/application/use_cases/storage/actions.py:179-201 | a copy passes exactly when the source is the caller's, active and not a root, the destination an active folder of the caller, and no active child there has the name it will carry: the one given, or else the source's |
| CommandEffects.CopyFileAnswers | backend/app/application/use_cases/storage/actions.py:202-209 | a file copy is refused for these checks alone |
| CommandEffects.CopyFileEffect | backend/app/application/use_cases/storage/actions.py:320-361 | one new active row with the chosen name below the destination, of the source's owner, kind and storage object; nothing else changes |
| CommandEffects.CopyFolderRoot | backend/app/application/use_cases/storage/actions.py:223-242 | a new active folder of the chosen name and the source's owner below the destination |
| CommandEffects.CopyFolderEffect | backend/app/application/use_cases/storage/actions.py:223-295 | every active row below the source has exactly one new row with its owner, kind, object and name below the copy of its parent; there are no other new rows, and the old ones stay |
| TreeCommands.SubtreeRows | backend/app/infrastructure/persistence/repositories/storage.py:639-658 | the round-by-round recursive query ends and returns exactly the subtree |
| TreeCommands.IsDescendant | backend/app/infrastructure/persistence/repositories/storage.py:278-301 | true exactly when the candidate lies strictly below the ancestor |
| TreeCommands.StreamSubtree | backend/app/infrastructure/persistence/repositories/storage.py:519-551 | the active rows of the subtree, each once, parents before children |
| TreeCommands.FolderPath | backend/app/infrastructure/persistence/repositories/storage.py:137-184 | the path from the root down to an active owned folder, with no ancestor filtered out; without a folder id the owner's root alone; nothing for any other anchor |
| TreeCommands.Climb | backend/app/infrastructure/persistence/repositories/storage.py:160-167 | the climb from one anchor ends at the root and keeps every row on the way |
| TreeCommands.CopyNode | backend/app/application/use_cases/storage/actions.py:267-294 | one streamed node becomes one fresh row under the copy of its parent; the parent has always been copied before |
| TreeCommands.CopyNodes | backend/app/application/use_cases/storage/actions.py:263-295 | the second pass never reaches its error branches and yields one copy for each streamed node below the source |
| TreeCommands.CopyFolderTree | backend/app/application/use_cases/storage/actions.py:223-295 | fresh root first, then the stream of the tables as they now stand, then the copies: the specified folder copy |
| TreeCommands.ReattachAndRevive | backend/app/application/use_cases/storage/actions.py:428-431 | the writes of a restore: re-parent, then re-activate everything the recursive query finds |
| TreeCommands.Drive.constructor | backend/app/infrastructure/persistence/models/storage.py:33-63 | an empty database |
| TreeCommands.Drive.ProvisionRoot | backend/app/application/use_cases/auth/bootstrap_admin.py:71-83 | creates the owner's root, refused when there is one |
| TreeCommands.Drive.CreateFolder | backend/app/application/use_cases/storage/actions.py:85-113 | follows its specification step and keeps the database valid |
| TreeCommands.Drive.Rename | backend/app/application/use_cases/storage/actions.py:116-139 | follows its specification step and keeps the database valid |
| TreeCommands.Drive.Move | backend/app/application/use_cases/storage/actions.py:142-176 | follows its specification step, descendant check included, and keeps the database valid |
| TreeCommands.Drive.CompleteUpload | backend/app/application/use_cases/storage/uploads.py:288-357 | the rows an upload adds, refused when the parent is gone or the name taken |
| TreeCommands.Drive.Trash | backend/app/application/use_cases/storage/actions.py:365-395 | trashes the whole subtree and adds one item, or finds the item of an entry already trashed |
| TreeCommands.Drive.Restore | backend/app/application/use_cases/storage/actions.py:398-434 | follows its specification step, in the order of its checks, and keeps the database valid |
| TreeCommands.Drive.PermanentlyDelete | backend/app/application/use_cases/storage/actions.py:437-471 | removes the subtree with the items that point into it and reports how many rows went |
| TreeCommands.Drive.Copy | backend/app/application/use_cases/storage/actions.py:179-221 | copies a file as one row and a folder as specified, and keeps the database valid |
| LocalStorage.AddFragment | backend/app/infrastructure/storage/local.py:356-379 | one fragment passes through the pending buffer: nothing lost or reordered, the buffer stays within its limit and emitted blocks are full |
| LocalStorage.CoalesceChunks | backend/app/infrastructure/storage/local.py:356-379 | the emitted blocks are the concatenation of the fragments for any fragmentation; every block but the last is at least the buffer size |
| LocalStorage.NextFragment | backend/app/infrastructure/storage/local.py:356-379 | empty and oversized fragments included, one turn of the loop keeps what it has collected |
| LocalStorage.FileHandle.WriteAll | backend/app/infrastructure/storage/local.py:339-348 | whatever positive partial writes occur, success appends exactly the payload and failure appends a prefix of it |
| LocalStorage.FileHandle.Truncate | backend/app/infrastructure/storage/local.py:351-353 | the file is cut to the size asked for, or unchanged on failure |
| LocalStorage.AppendChunk | backend/app/infrastructure/storage/local.py:52-84 | a file of another size than the offset is cut back and the call fails; otherwise success appends exactly the stream, a storage error cuts back to the offset if the disk lets it, and an aborted stream may leave a prefix of it behind |
| LocalStorage.WriteBlocks | backend/app/infrastructure/storage/local.py:64-73 | all blocks in order, or a prefix of them |
| LocalStorage.StreamPath | backend/app/infrastructure/storage/local.py:231-264 | the chunks read are exactly the range (or the file) for any short reads and block size; only an inverted or negative range is rejected |
| UploadProtocol.UploadIsFaithful | backend/app/application/use_cases/storage/uploads.py:176-274 | in every run with lost, delayed, repeated or cut requests the staging file starts with exactly the acknowledged bytes, these are a prefix of the client's file, a client told of completion has exactly one committed file, and the live object is the whole file |
| UploadProtocol.EveryRunKeeps | frontend/src/features/uploads/model/uploads-provider.tsx:100-180 | every state of every run of client, network and server satisfies the protocol invariant |
| UploadProtocol.NextKeeps | backend/app/application/use_cases/storage/uploads.py:176-396 | each event keeps the invariant and takes no acknowledgement back |
| UploadProtocol.AppendKeeps | backend/app/application/use_cases/storage/uploads.py:176-244 | an append keeps the server's invariant whatever part of the body arrived |
| UploadProtocol.CompleteKeeps | backend/app/application/use_cases/storage/uploads.py:247-372 | a completion that answers success has published the whole file and committed its row; later ones change nothing |
| UploadProtocol.AcknowledgedGrows | backend/app/domain/storage/entities.py:169-176 | the acknowledged offset never decreases |
| UploadProtocol.CommittedBytesStay | backend/app/infrastructure/storage/local.py:86-111 | after completion only the delete event of a detached row changes the bytes under the key |
| UploadProtocol.FailedAppendHeals | backend/app/infrastructure/storage/local.py:63-81 | an append onto bytes left by a broken request fails; if its truncation succeeds the file is back at the acknowledged offset, and on a disk that refuses nothing changes |
| UploadProtocol.CompletableIff | backend/app/application/use_cases/storage/uploads.py:252-272 | some completion of a session succeeds exactly when it is writable, fully acknowledged and its staging file is there, that is, nothing was published before; it then commits the file's own bytes |
| UploadProtocol.StrandedForever | backend/app/application/use_cases/storage/uploads.py:356-365 | after a publication whose commit failed no run ever completes the upload, because the staging file is gone |
| UploadProtocol.StrandedStays | backend/app/infrastructure/storage/local.py:94-104 | published and uncommitted is kept by every later event |
| UploadProtocol.FailedCommitStrandsUpload | backend/app/application/use_cases/storage/uploads.py:304-365 | a run to a writable, fully acknowledged session that can no longer be completed: chunk acknowledged, publication, failed commit, compensation |
| UploadProtocol.LateCompensationIff | backend/app/application/use_cases/storage/uploads.py:232-237 | a truncation that runs late breaks the invariant exactly when it cuts below the acknowledged offset |
| UploadProtocol.LateCompensationLosesBytes | backend/app/application/use_cases/storage/uploads.py:232-237 | a run to a state in which it does: append written, commit failed, healed retry, accepted append, and then the first truncation |
| UploadAnswers.AppendAnswers | backend/app/application/use_cases/storage/uploads.py:195-215 | refused exactly when expired or no longer open, a mismatch exactly for another offset; accepted it has written the first bytes of the body behind the acknowledged ones and acknowledges just these, otherwise nothing |
| UploadAnswers.CompleteAnswers | backend/app/application/use_cases/storage/uploads.py:261-357 | a completion succeeds exactly when the session is unexpired, open, fully acknowledged and staged in full, the file passes its checks, nothing is stored and the commit takes effect; a refused file changes nothing |
| UploadAnswers.CancelAnswers | backend/app/application/use_cases/storage/uploads.py:386-393 | only a completed session refuses; a cancelled one keeps all but its staging file |
| UploadAnswers.RefusedFileStaysOut | backend/app/application/use_cases/storage/uploads.py:279-303 | in runs whose completions were all refused by the checks or expired nothing is published, stored or listed, and the client is never told done |
| UploadAnswers.CancelledForever | backend/app/application/use_cases/storage/uploads.py:492-496 | a cancelled session refuses every later append and completion, and commits nothing |
| UploadUseCases.LetThrough | backend/app/application/use_cases/storage/uploads.py:403-433 | the bounded stream passes a prefix of the body within both limits and stops exactly at the fragment that exceeds one |
| UploadUseCases.InspectStream | backend/app/application/use_cases/storage/uploads.py:435-444 | the total size and the first 64 KiB of the content, for any chunking |
| UploadUseCases.UploadServer.constructor | backend/app/application/use_cases/storage/uploads.py:100-163 | a new session with an empty staging file satisfies the invariant for every file of its size |
| UploadUseCases.UploadServer.Append | backend/app/application/use_cases/storage/uploads.py:176-244 | the use case takes a step of the protocol; undisturbed it is accepted, and on a dirty staging file it fails and heals |
| UploadUseCases.UploadServer.Persist | backend/app/application/use_cases/storage/uploads.py:198-244 | write, check, record, commit, with the compensating truncation: a step of the protocol |
| UploadUseCases.UploadServer.Receive | backend/app/application/use_cases/storage/uploads.py:199-215 | what reaches the file is a prefix of the body within the expected size |
| UploadUseCases.UploadServer.Complete | backend/app/application/use_cases/storage/uploads.py:247-372 | the use case takes a completion step of the protocol, and an undisturbed one on a full session succeeds |
| UploadUseCases.UploadServer.Cancel | backend/app/application/use_cases/storage/uploads.py:375-400 | cancelling commits before it discards, and is refused after completion |
| UploadUseCases.SendChunk | frontend/src/features/uploads/model/uploads-provider.tsx:137-174 | one turn of the client loop, resynchronisation included |
| UploadUseCases.ProcessUpload | frontend/src/features/uploads/model/uploads-provider.tsx:100-190 | the client loop against the server keeps the invariant, over a calm network ends with the whole file committed after one request per chunk and one to complete, and on a session stranded by a failed commit always ends broken |
| UploadUseCases.RetryUpload | frontend/src/features/uploads/model/uploads-provider.tsx:232-250 | from any open session that has not published yet, clean or dirty, a retry resumes from the server's offset and finishes over a calm network |
| ObjectGc.NothingLiveIsLost | backend/app/application/use_cases/storage/outbox.py:139-205 | under any interleaving of copies, purges, sweeps, deletions, crashes and retries every committed version names an existing object with its bytes on disk at the recorded size, and no pending or retried delete names the key of a live object or of an upload in flight |
| ObjectGc.EveryRunKeeps | backend/app/application/use_cases/storage/outbox.py:139-205 | every state of every interleaving is safe |
| ObjectGc.NextKeeps | backend/app/infrastructure/persistence/repositories/storage.py:387-429 | each single step, of any transaction, keeps safety |
| ObjectGc.DetachedUnreferenced | backend/app/infrastructure/persistence/repositories/storage.py:413-429 | what a sweep detaches is referenced by no committed and no inserted row |
| ObjectGc.VersionStays | backend/app/infrastructure/persistence/models/storage.py:183-187 | a committed version keeps its object, unchanged, until a purge takes the version |
| ObjectGc.CoverageIff | backend/app/infrastructure/persistence/repositories/storage.py:387-411 | with any number of workers a step loses track of an unreferenced object exactly when it aborts a copy that was the last to hold it after every sweep had passed it over |
| ObjectGc.EveryRunCovers | backend/app/application/use_cases/storage/actions.py:459-470 | in runs without such an abort every unreferenced object is held by an open copy or carried by a pending sweep, and every byte on disk has an owner |
| ObjectGc.DrainedIsClean | backend/app/application/use_cases/storage/outbox.py:68-109 | with nothing pending or in flight no unreferenced object is left and the disk holds only bytes of referenced objects and of uploads that died between publication and commit |
| StrandedObjectRun.AbortedCopyStrandsObject | backend/app/infrastructure/persistence/repositories/storage.py:387-411 | a reachable state with an orphan and its bytes but no event: copy inserts, purge, sweep skips the locked row and is acknowledged, copy aborts |
| ObjectGc.OrphanStaysCovered | backend/app/infrastructure/persistence/repositories/storage.py:387-411 | per object and step: coverage carries over unless the last holder aborts |
| ObjectGc.OwnedKept | backend/app/application/use_cases/storage/outbox.py:188-205 | bytes on disk keep an owner in every step |
| CollectionEffects.VersionsChange | backend/app/infrastructure/persistence/models/storage.py:183-187 | versions come with a committed copy or upload and go with a purge that names them |
| CollectionEffects.ObjectsChange | backend/app/infrastructure/persistence/repositories/storage.py:413-429 | object rows come with an upload and go with a sweep that finds them unreferenced; none is altered |
| CollectionEffects.BytesChange | backend/app/infrastructure/storage/local.py:86-111 | bytes come with a publication and go with its undoing or the delete event of their key |
| CollectionEffects.EventsStay | backend/app/application/use_cases/storage/outbox.py:139-205 | a sweep stays pending until a commit that left nothing over, a delete until its bytes are gone |
| CollectionEffects.NewEvent | backend/app/application/use_cases/storage/outbox.py:144-180 | a new event is the sweep of a purge or the delete request of one collected object |
| CollectionEffects.CollectedIsRequested | backend/app/application/use_cases/storage/outbox.py:144-180 | each collected object has exactly one new delete event, for its key |
| CollectionEffects.PurgeSchedules | backend/app/application/use_cases/storage/actions.py:459-470 | a purge takes the versions and schedules a sweep in one step |
| OutboxWorker.SweptIsThreeSteps | backend/app/application/use_cases/storage/outbox.py:139-186 | a sweep that meets no other transaction is the protocol's read, claim and commit |
| OutboxWorker.SweptWork | backend/app/application/use_cases/storage/outbox.py:146-186 | twice the orphans plus the pending events strictly decreases with every processed or deferred sweep |
| OutboxWorker.ErasedIsTwoSteps | backend/app/application/use_cases/storage/outbox.py:188-205 | a physical delete, acknowledged or crashed, is a run of the protocol |
| OutboxWorker.JobsCount | backend/app/application/use_cases/storage/outbox.py:157-169 | a sweep requests exactly one delete for each detached object |
| OutboxWorker.FirstOf | backend/app/infrastructure/persistence/repositories/storage.py:387-411 | limit-plus-one selection: at most `limit` objects, and more exactly when some are left over |
| OutboxWorker.Worker.Oldest | backend/app/infrastructure/persistence/repositories/outbox.py:85-121 | the oldest pending event of a type, ties broken by identifier |
| OutboxWorker.Worker.NextPending | backend/app/application/use_cases/storage/outbox.py:96-109 | deletes come before sweeps, and nothing is returned only when nothing is pending |
| OutboxWorker.Worker.ClaimOrphans | backend/app/infrastructure/persistence/repositories/storage.py:387-411 | the claim of the protocol, taken from the tables |
| OutboxWorker.Worker.DetachNext | backend/app/application/use_cases/storage/outbox.py:151-170 | one object and its delete request change together, and an object with a concurrent reference is passed over |
| OutboxWorker.Worker.DetachAll | backend/app/application/use_cases/storage/outbox.py:146-170 | exactly the still unreferenced objects of the batch are detached, each requested once |
| OutboxWorker.Worker.SweepRows | backend/app/application/use_cases/storage/outbox.py:139-186 | the sweep's own event is acknowledged exactly when nothing was left over |
| OutboxWorker.Worker.ProcessSweep | backend/app/application/use_cases/storage/outbox.py:139-186 | a run of the protocol that shrinks the work, with exact counts |
| OutboxWorker.Worker.ProcessDelete | backend/app/application/use_cases/storage/outbox.py:188-205 | a run of the protocol that shrinks the work by one event |
| OutboxWorker.Worker.RecordFailure | backend/app/infrastructure/persistence/repositories/outbox.py:161-187 | the attempt is counted and the event stays pending |
| OutboxWorker.Worker.FailEvent | backend/app/application/use_cases/storage/outbox.py:135-137 | after a failure at most the event's bytes are gone; rows are as before |
| OutboxWorker.Worker.ProcessMessage | backend/app/application/use_cases/storage/outbox.py:111-137 | unclaimed changes nothing, a failure halts safely, anything else advances |
| OutboxWorker.Worker.ProcessCounted | backend/app/application/use_cases/storage/outbox.py:74-92 | one event adds its outcome to the report of its cycle |
| OutboxWorker.Worker.Execute | backend/app/application/use_cases/storage/outbox.py:56-94 | one bounded cycle is a run of the protocol, its report accounts for every row gone, every event and every delete event, and it stops only when drained, leased out, or right after the first failure |
| OutboxWorker.Worker.PollOnce | backend/app/infrastructure/cli/process_storage_outbox.py:68-75 | a cycle without failure leaves less work or nothing pending |
| OutboxWorker.Worker.PollUntilDrained | backend/app/infrastructure/cli/process_storage_outbox.py:79-87 | a worker that meets no failure empties the outbox and leaves no orphan and no bytes without an owner |
| Ranges.ParseRanges | backend/app/presentation/file_delivery.py:91-121 | exactly the bytes the members select, sorted, inside the file and at least a byte apart; a bytes header fails exactly when a member is rejected, there are none or more than 16, the file is empty, or nothing is satisfiable |
| Ranges.ResolveMember | backend/app/presentation/file_delivery.py:102-116 | one member resolves to exactly the bytes section 14.1.2 of RFC 9110 gives it, to nothing, or to a failure |
| Ranges.CoalesceRanges | backend/app/presentation/file_delivery.py:266-278 | the canonical list of the same bytes |
| Ranges.CanonicalUnique | backend/app/presentation/file_delivery.py:266-278 | there is only one canonical list for a set of bytes, so order and overlap of the members do not matter |
| Ranges.SortedOrdered | backend/app/presentation/file_delivery.py:270 | sorting by start and end keeps the members |
| Ranges.OverlookedIff | backend/app/presentation/file_delivery.py:105-116 | the members invalid by section 14.1.1 of RFC 9110 that are skipped instead of rejected are exactly those with a negative suffix or a last position below the first, and those that start outside the file with a negative number or with unreadable text after the hyphen |
| Ranges.InvalidMembersAccepted | backend/app/presentation/file_delivery.py:105-116 | a request with any of the three kinds next to a satisfiable member is accepted |
| Ranges.CopiesAcceptedIff | backend/app/presentation/file_delivery.py:91-121 | n copies of a member are accepted exactly for 1 <= n <= 16 and a member that selects something |
| RangeDelivery.MultipartLength | backend/app/presentation/file_delivery.py:177-188 | the announced length is the length of the multipart body |
| RangeDelivery.SendPart | backend/app/presentation/file_delivery.py:215-224 | header, exactly the stored range, line end |
| RangeDelivery.StreamDownload | backend/app/presentation/file_delivery.py:191-228 | the file, the one range or the multipart body arrives whatever short reads and block size occur, and the byte count is the file's bytes sent |
| RangeDelivery.PartIsFileRange | backend/app/presentation/file_delivery.py:252-263 | each part body is exactly the file from start to end, directly behind that range's own header |
| RangeDelivery.EachByteOnce | backend/app/presentation/file_delivery.py:266-278 | the lengths of canonical ranges add up to the number of distinct bytes selected |
| MultipartReader.PartReads | backend/app/presentation/file_delivery.py:252-263 | delimiter, type and range lines, an empty line, the bytes and a line end are read back as the part they announce |
| RangeDelivery.BodyReadsBack | backend/app/presentation/file_delivery.py:215-227 | a client that knows only the boundary reads back, for every range in order, its own start, end and total and exactly those bytes of the file, up to the closing delimiter and nothing else |
| RangeDelivery.ShortBodies | backend/app/presentation/file_delivery.py:206-214 | without a range the body is the file, for one range its bytes |
| RangeDelivery.Respond | backend/app/presentation/api/v1/storage.py:761-812 | the body sent is that of the canonical list covering exactly the bytes asked for, its announced length is the length sent, each file byte is sent once, and a multipart body reads back as those ranges |
| RateLimiter.Limiter.Consume | backend/app/infrastructure/persistence/repositories/auth.py:339-390 | one bucket changes as specified, every other stays |
| RateLimiter.RunBound | backend/app/infrastructure/persistence/repositories/auth.py:339-390 | any half-open interval of k windows admits fewer than (k + 1) times the limit, in every run of a subject |
| RateLimiter.RunBoundAttained | backend/app/infrastructure/persistence/repositories/auth.py:374-390 | for every policy and k a run that admits (k + 1) times the limit minus one: the bound is exact |
| RateLimiter.IntervalBound | backend/app/infrastructure/persistence/repositories/auth.py:339-390 | the same from any stored bucket |
| RateLimiter.WindowsBound | backend/app/infrastructure/persistence/repositories/auth.py:374-390 | what is left of the current window and n full ones bound the admissions up to n windows past it |
| RateLimiter.EveryRunKeeps | backend/app/infrastructure/persistence/repositories/auth.py:381-385 | a block is always set within its window and for the policy's duration |
| RateLimiter.BlockedChangesNothing | backend/app/infrastructure/persistence/repositories/auth.py:365-372 | any number of requests while blocked is denied and changes nothing |
| RateLimiter.AdmittedAfterWindowAndBlock | backend/app/infrastructure/persistence/repositories/auth.py:374-380 | at or after window start plus window plus block a request is admitted and opens a window |
| RateLimiter.RetryAdmittedIff | backend/app/infrastructure/persistence/repositories/auth.py:365-390 | coming back after the returned delay is admitted exactly when the window has ended |
| RateLimiter.RetryIsEnoughIff | backend/app/infrastructure/persistence/repositories/auth.py:381-390 | waiting the returned delay is always enough exactly when a block lasts at least a window |
| RateLimiter.AdmittedIff | backend/app/infrastructure/persistence/repositories/auth.py:351-390 | admitted exactly when no block is on and a window is opened or has room |
| RateLimiter.RetryIsLeast | backend/app/infrastructure/persistence/repositories/auth.py:365-389 | the announced delay is the least number of whole seconds after which the block is over |
| Lockout.Login | backend/app/application/use_cases/auth/login.py:76-167 | the order of the checks: unknown account, lock, disabled, then the password; with the reply each gives |
| Lockout.AdminAccount.RegisterFailedLogin | backend/app/domain/auth/entities.py:32-43 | the failure is counted and the threshold locks |
| Lockout.AdminAccount.RegisterSuccessfulLogin | backend/app/domain/auth/entities.py:45-50 | failures and lock are cleared |
| Lockout.AdminAccount.ChangePassword | backend/app/domain/auth/entities.py:52-58 | failures and lock are cleared |
| Lockout.IntervalBound | backend/app/domain/auth/entities.py:28-50 | any interval no longer than n lock times sees at most threshold - 1 wrong passwords and n more, plus threshold - 1 for each login and threshold for each password change in it |
| Lockout.WithoutResetsBound | backend/app/application/use_cases/auth/login.py:96-158 | between two resets: at most threshold - 1 and one for each started lock time |
| Lockout.FailuresBound | backend/app/domain/auth/entities.py:32-43 | the bound from any state of the account |
| Lockout.BoundAttained | backend/app/domain/auth/entities.py:28-50 | for every policy and n a run that verifies threshold - 1 + n wrong passwords in n lock times: the bound is exact |
| Lockout.RetryIsLeast | backend/app/application/use_cases/auth/helpers.py:22-24 | the announced delay is the least number of whole seconds after which the password is looked at again |
| Lockout.ResetGivesAllAttempts | backend/app/domain/auth/entities.py:45-58 | after a successful login or password change the account is open and locks exactly at the full number of wrong passwords, for the whole lock time |
| Lockout.LockedIgnores | backend/app/application/use_cases/auth/login.py:96-115 | attempts on a locked or disabled account change nothing |
| RefreshRotation.Sessions.CreateSession | backend/app/application/use_cases/auth/login.py:198-260 | a session whose current token is the one returned |
| RefreshRotation.Sessions.RefreshSession | backend/app/application/use_cases/auth/refresh.py:65-153 | the checks in their order, then rotation, or revocation for any other token |
| RefreshRotation.Sessions.LogOutSession | backend/app/application/use_cases/auth/sessions.py:27-55 | revokes the session, once |
| RefreshRotation.Sessions.RevokeAllActive | backend/app/infrastructure/persistence/repositories/auth.py:191-213 | revokes exactly the unrevoked sessions of the administrator and counts them |
| RefreshRotation.Sessions.Authenticate | backend/app/application/use_cases/auth/authenticate.py:40-50 | access succeeds exactly for an active session of an enabled matching account |
| RefreshRotation.AuthSession.Rotate | backend/app/domain/auth/entities.py:89-102 | replaces the only valid token |
| RefreshRotation.AuthSession.Revoke | backend/app/domain/auth/entities.py:104-109 | idempotent, the first instant and reason stay |
| RefreshRotation.AcceptedOnce | backend/app/application/use_cases/auth/refresh.py:81-135 | over any run each accepted token is the one returned by the acceptance before it, none is accepted twice, and the expiry never moves |
| RefreshRotation.RefreshesFormChain | backend/app/application/use_cases/auth/refresh.py:108-128 | the accepted tokens form one chain from the session's current token |
| RefreshRotation.GivenTokensAreNew | backend/app/application/use_cases/auth/refresh.py:108-121 | every token given out is new and carries the session's expiry |
| RefreshRotation.RevokedForever | backend/app/domain/auth/entities.py:81-109 | once revoked, no refresh and no access of the session succeeds again, and instant and reason stay |
| RefreshRotation.ReuseEndsSession | backend/app/application/use_cases/auth/refresh.py:89-107 | any other issued token that passes the account and CSRF checks revokes the session for good |
| RefreshRotation.CurrentIsLastGiven | backend/app/domain/auth/entities.py:89-102 | after any run the current token is the last one given out |
| RefreshRotation.AcceptedIsSuperseded | backend/app/application/use_cases/auth/refresh.py:81-88 | a token accepted once is, after any run, issued but no longer current |
| RefreshRotation.ReuseDetectedIff | backend/app/application/use_cases/auth/refresh.py:71-107 | whatever happened in between, showing an accepted token again is never accepted and revokes an unrevoked session exactly when it passes those checks |
| RefreshRotation.AcceptedIff | backend/app/application/use_cases/auth/refresh.py:81-88 | a token is accepted exactly when it is the current one and passes the checks |
| RefreshRotation.StepKeeps | backend/app/application/use_cases/auth/refresh.py:65-153 | rows describe their current token and all tokens of a session share family and expiry |
| RefreshRotation.EveryRunKeeps | backend/app/application/use_cases/auth/refresh.py:65-153 | in every state of every run with fresh identifiers |
| RefreshRotation.LoginOpens | backend/app/application/use_cases/auth/login.py:198-260 | a new session with exactly the token returned, accessible until its lifetime ends to an enabled account of its administrator |
| RefreshRotation.RefreshAnswers | backend/app/application/use_cases/auth/refresh.py:62-153 | the answer to a refresh, decided by the first check that fails, and the token an accepted one returns |
| RefreshRotation.RefreshReplaces | backend/app/domain/auth/entities.py:89-102 | an accepted refresh replaces token, identifier and CSRF secret of its session and nothing else |
| RefreshRotation.RefusedRefresh | backend/app/application/use_cases/auth/refresh.py:71-104 | a refused refresh issues nothing, revokes the session of a reused token, and otherwise changes nothing |
| RefreshRotation.OldSecretRejected | backend/app/application/use_cases/auth/refresh.py:78-79 | after an accepted refresh the earlier CSRF secret no longer gets past the check |
| RefreshRotation.LogOutEnds | backend/app/application/use_cases/auth/sessions.py:27-55 | logging out revokes the session for good and no other |
| RefreshRotation.RevokeAllEnds | backend/app/infrastructure/persistence/repositories/auth.py:191-213 | each session of the administrator ends for good, those of others stay as they are |
| Uuid7.Generator.New | backend/app/infrastructure/persistence/identifiers.py:30-58 | one call takes one step of the specified generator |
| Uuid7.StrictlyIncreasing | backend/app/infrastructure/persistence/identifiers.py:30-58 | whatever clock and random bits, backwards clocks and counter wrap included, returned identifiers strictly increase |
| Uuid7.IdentifierDecodes | backend/app/infrastructure/persistence/identifiers.py:48-58 | version 7, the RFC variant, and timestamp and counter read back; never behind the clock and at most one ahead of it or of the last |
| Uuid7.IdentifierFields | backend/app/infrastructure/persistence/identifiers.py:33-47 | a later millisecond carries the drawn bits, within one the counter goes up by one, and a wrap borrows the next millisecond with drawn bits |
| Uuid7.PackedReadsBack | backend/app/infrastructure/persistence/identifiers.py:48-58 | the packed fields read back, section 5.7 of RFC 9562 |
| Uuid7.PackedOrdered | backend/app/infrastructure/persistence/identifiers.py:50-57 | the integers are ordered like timestamp and counter |
| Uuid7.AssembledIsPacked | backend/app/infrastructure/persistence/identifiers.py:48-57 | combining the shifted and masked fields bitwise gives the packed integer |
| Uuid7.Assemble | backend/app/infrastructure/persistence/identifiers.py:48-57 | the bitwise assembly, shift by shift, returns the packed integer |
| Uuid7.NextCounter | backend/app/infrastructure/persistence/identifiers.py:38 | masking the incremented counter keeps it modulo 2 to the 74 |
| Bits.OrAdds | backend/app/infrastructure/persistence/identifiers.py:50-56 | bits that do not overlap combine by addition |
| Bits.MaskIsRemainder | backend/app/infrastructure/persistence/identifiers.py:11 | keeping the low bits is taking the remainder |
| Bits.ShiftRightDivides | backend/app/infrastructure/persistence/identifiers.py:48 | shifting right is dividing |
| Uuid7.FailsIff | backend/app/infrastructure/persistence/identifiers.py:33-43 | a call fails exactly when time is past 48 bits or the counter wraps in the last millisecond |
| Uuid7.WrapAtTheEndIsFinal | backend/app/infrastructure/persistence/identifiers.py:38-46 | that wrap stores a timestamp past 48 bits and every later call fails, whatever the clock shows |
| Uuid7.TwoCallsEndTheGenerator | backend/app/infrastructure/persistence/identifiers.py:36-46 | two calls after which no call ever returns an identifier |
| Pagination.PagesAreTheListing | backend/app/application/use_cases/storage/queries.py:38-75 | following the cursors from the start yields every matching row exactly once, in order, in as few pages as the limit allows, for each sort field and direction |
| Pagination.PagingEnds | backend/app/application/use_cases/storage/queries.py:71-75 | such a walk exists and ends |
| Pagination.PagesAreFewest | backend/app/application/use_cases/storage/queries.py:71-75 | the page count is the number of rows divided by the limit, rounded up, and one for an empty listing |
| Pagination.ResumesAt | backend/app/infrastructure/persistence/repositories/storage.py:228-252 | the keyset query behind the i-th row returns the listing from there, nothing skipped and nothing twice |
| Pagination.CursorReadsBack | backend/app/application/use_cases/storage/queries.py:183-239 | the key spelled into a cursor reads back as the very key the query sorts by, -1 for a folder's size included |
| Pagination.CursorIsBound | backend/app/application/use_cases/storage/queries.py:218-225 | a cursor of another field or direction is refused |
| Pagination.PageAt | backend/app/application/use_cases/storage/queries.py:42-75 | any page is the piece of the listing at its cursor, and its next cursor is that of the following piece |
| Pagination.SameRowsSameListing | backend/app/infrastructure/persistence/repositories/storage.py:243-249 | an ordered listing is determined by its rows |
| Pagination.ListingFacts | backend/app/infrastructure/persistence/repositories/storage.py:223-249 | the listing holds exactly the visible matching rows, strictly ordered |
| Pagination.ListedIff | backend/app/infrastructure/persistence/repositories/storage.py:223-235 | a row is listed exactly when it is the owner's, in the folder, not trashed, and passes each filter given |
| Pagination.ListingOrder | backend/app/infrastructure/persistence/repositories/storage.py:236-252 | names by the collation, dates and sizes by number, types by their text, equal keys by id; reversed when descending |
| Pagination.DescendingIsBackwards | backend/app/infrastructure/persistence/repositories/storage.py:236-252 | the other direction shows the same rows from the other end |
| Pagination.ListAnswers | backend/app/application/use_cases/storage/queries.py:46-54 | the error of the first failing check: limit, filters, cursor, folder; otherwise at most the limit of rows |
| Decimals.ShowReads | backend/app/application/use_cases/storage/queries.py:183-190 | decimal text of any integer, negative included, reads back |

## Left out

- Concurrent tree commands: each command of the tree model is one committed transaction. At row-lock granularity two disjoint moves could each pass its descendant check; interleaving is modelled for the object collection only.
- Concurrent requests on one upload: one request, with its compensation, ends before the next begins; what goes wrong otherwise is `UploadProtocol.LateCompensationLosesBytes`.
- Commits with unknown outcome: a commit that reports failure has not taken effect, and nothing fails after a completion has committed (metrics, mapping).
- TreeCommands.Drive.CreateFolder: ids come from a counter instead of UUIDs, and timestamps are left out.
- TreeCommands.StreamSubtree: rows carry no creation time, so the order within one level is arbitrary; the copy does not depend on it.
- TreeCommands.Drive.Rename: `EntryName` validation and Unicode normalization are not modelled; a command carries an already validated name, and re-validating a stored name is taken to give the same name.
- TreeCommands.Drive.CompleteUpload: only its effect on the tree; MIME detection, extension policy, virus scanning and checksums are one accept-or-reject input of the upload protocol.
- TreeCommands.Drive.PermanentlyDelete: upload sessions, favorites and recents that cascade with a folder are left out, and so are thumbnails and previews, for which no use case exists here.
- The total-path-length limit of uploads (`logical_path_length`), start policy and session expiry sweeps.
- UploadProtocol.UploadIsFaithful: SHA-256 is not modelled; bytes are compared directly.
- StrandedObjectRun.AbortedCopyStrandsObject: finer statement-level races inside one sweep transaction are not modelled; a sweep re-checks and commits in one step.
- OutboxWorker.Worker.ClaimOrphans: objects carry no creation time, so which orphans are claimed first is arbitrary; no property depends on it.
- OutboxWorker.FirstOf: the same for the selection it makes.
- OutboxWorker.Worker.ProcessDelete: payload validation is left out, because only sweeps write delete events, with keys the provider made.
- OutboxWorker.Worker.PollUntilDrained: the sleep between polls and the heartbeat file are left out, and no other transaction runs meanwhile.
- Ranges.ParseRanges: header text is tokenized; what Python's `int` accepts beyond digits, and case folding of the unit, are not modelled.
- RangeDelivery.StreamDownload: the stored object is taken to have its recorded size, as `ObjectGc.NothingLiveIsLost` proves; cancellation and error outcomes of the metrics are left out.
- RangeDelivery.Respond: preconditions, ETags, HEAD requests, internal redirects and the headers of the response as a whole are left out.
- RangeDelivery.BodyReadsBack: the boundary, made of a hexadecimal checksum, and the media type are taken to contain no carriage return.
- RateLimiter.Limiter.Consume: the subject fingerprint is taken to be injective and the advisory lock to serialize calls.
- Lockout.Login: password hashing and rehashing are an input, the rate limit before it is the module RateLimiter, and security events are left out.
- RefreshRotation.Sessions.RefreshSession: signatures are unforgeable and digests injective; the JWT time window, in whole seconds, is an input.
- Uuid7.Generator.New: the lock that serializes callers is left out.
- Pagination.CursorReadsBack: JSON, base64 and ISO date text are left out; an instant is spelled as a decimal integer.
- Pagination.PagesAreTheListing: the collation is any total order that distinguishes different strings, and filters come already normalized. Trash and outbox listings, the same scheme with one sort key, are left out.
- Favorites, recents, health, bootstrap of the administrator beyond the root folder, settings, logging, metrics, benchmarks, reconciliation and quarantine, and the user interface apart from the per-file upload loop.

# A Dafny model of the vault server's protocols and formats

The server keeps encrypted vaults, imports and indexes them in the background, derives thumbnails, and streams
video. This project models four parts of it and proves what they promise.

- **Vault lifecycle.** `TaskManager` and `ThumbnailGenerator` hold the tables the two components guard with a
  mutex, a specification function for each locked section, and a class whose methods compute it. `TaskProtocol`
  and `ThumbnailProtocol` are the state machines whose steps are those sections, in any interleaving of
  threads; their invariants tie every map and counter to the threads. `TaskTheorems` and `ThumbnailTheorems`
  are the statements about whole runs: quiesce and shutdown barriers, deferred resumes, exclusive slots, stale
  commits, exact reference counts.
- **Video streams.** `HlsStreams`, `HlsProtocol` and `HlsTheorems` do the same for pending starts, published and
  retained streams: one transcode a path within a budget of three, references conserved across publication,
  and the stop barrier around a file replacement.
- **Encrypted content.** `SealedStreams` is the file format over an abstract seal/open pair, `ContentStream`
  the buffering writer, `ContentReader` the buffering reader, `ContentSizes` the size and offset arithmetic,
  `RangeRequest` the Range handler and `ContentService` all of it end to end. `Bytes` holds byte strings.
- **Key wrap, names and the tree.** `KeyWrap` (RFC 3394) and `Siv` (RFC 5297 with the CMAC of RFC 4493) over an
  abstract block permutation, `SivStandard` (the parts of `Siv` against the words of those standards),
  `VaultNames` (file names under SIV), `VaultTree` (what an entry looks like on disk) and `VaultFiles`
  (resolving, listing, walking, writing).

A protocol's main theorems quantify over every finite run: a list of states and a list of events in which each
state follows from the one before by an enabled step. What a step does is the specification function that the
class method of the same section is proved to compute; the table below names those methods that have loops.

## Hypotheses

- Task ids, stream ids and session ids are fresh, and a stream start is for the vault of its session. A vault id
  that `ForgetVault` found in the generator is enqueued there only while its tombstone is left to refuse the call.
- A queued or running thumbnail job sees fewer than 2^64 deletions of its path: tokens are unsigned 64-bit and
  wrap. Vault ids contain no NUL; then the joined keys and the prefix test of a purge separate vaults
  (`ThumbnailGenerator.JobKeysSeparateVaults`).
- AES under a key is a permutation of 16-byte blocks. Under a file's key exactly the chunks of the file open,
  each under its own number (`SealedStreams.IdealCipherExists` shows this consistent).
- Base64 and the digest of long names are injective and contain no dot; base64 text is no shorter than the bytes
  (`VaultNames.StandardTextsExist` shows this consistent).
- New names are single non-empty segments in existing directories; virtual paths are absolute.

## Where the code and its comments differ

- internal/task/manager.go:666-668 promises that a quiesced vault rejects tasks until ResumeVault is called. An
  earlier deferred resume is not cleared and reopens the vault when its last owner exits
  (`TaskTheorems.QuiesceBarrierCanFail`); `TaskTheorems.QuiesceBarrierExactly` and `TaskTheorems.TombstoneExactly`
  give the exact conditions.
- internal/task/manager.go:855-857 skips the deferred resume for an empty vault id
  (`TaskTheorems.UnnamedVaultStaysClosed`).
- internal/thumbnail/thumbnail.go:548-551 promises that no thumbnail work touches a quiesced vault after
  QuiesceVault returned. A resume deferred earlier behind a running job, which ResumeVault also records for an
  open vault, is replayed by the end of the very run QuiesceVault waits for
  (`ThumbnailTheorems.QuiesceBarrierCanFail`, and exactly when in `ThumbnailTheorems.QuiesceBarrierExactly`). On a
  stopped generator QuiesceVault waits for nothing, and a running job may still write its thumbnail
  (`ThumbnailTheorems.StoppedQuiesceCanFail`, `ThumbnailTheorems.StoppedQuiesceExactly`).
- internal/thumbnail/thumbnail.go:585-588 defers a resume behind work that is winding down, but only endJob
  replays it, not the refusal of a queued job, so a resume deferred while a job waits is lost
  (`ThumbnailTheorems.DeferredResumeCanGetStuck`; `ThumbnailTheorems.ResumeTakesEffectExactly` and
  `ThumbnailTheorems.DeferredResumeHonouredExactly` are exact).
- internal/api/files_content.go:303-304 announces the first satisfiable segment of a list of ranges, but only the
  first range is looked at (`RangeRequest.LaterRangeIsIgnored`, `RangeRequest.FirstSatisfiableExactly`).
- internal/api/files_content.go:350-356 serves the last byte for a range that starts at the end of the file,
  where section 2.1 of RFC 7233 has it unsatisfiable, and deviates nowhere else
  (`RangeRequest.DeviatesExactlyAtLogicalEnd`).
- Keys of 0 and 8 bytes wrap but do not unwrap (internal/crypto/keys.go:232); `KeyWrap.UnwrapInvertsWrap` is the
  exact statement.

## Model

| member | source | states |
|---|---|---|
| `TaskTheorems.QuiesceBarrier` | internal/task/manager.go:669-724 | If QuiesceVault finds no deferred resume and returns nil, the vault has no running worker and no in-flight start, and gets none until ResumeVault or ForgetVault, over every interleaving |
| `TaskTheorems.QuiesceBarrierExactly` | internal/task/manager.go:685-690 | For a named vault of an open manager that nobody resumes, forgets or quiesces again, the tombstone still stands after the wait if and only if no deferred resume was outstanding on entry |
| `TaskTheorems.QuiesceBarrierCanFail` | internal/task/manager.go:685-690 | A concrete run in which QuiesceVault of a named vault returns nil in an open manager and the vault is open |
| `TaskTheorems.TombstoneExactly` | internal/task/manager.go:669-724 | For every vault, also the unnamed one, and whatever becomes of the manager: a tombstone nobody resumes, forgets or renews is gone if and only if a deferred resume was outstanding on entry and the last owner has left since while the manager was open, as a start if the vault id is empty |
| `TaskTheorems.ResumeTakesEffectExactly` | internal/task/manager.go:727-760 | Until somebody resumes, forgets or quiesces it again, a vault is open after ResumeVault if and only if it was open, had no owner at the call, or its last owner has left an open manager since (as a start, if the id is empty); without an owner no deferred resume is left |
| `TaskTheorems.ForgetTakesEffectExactly` | internal/task/manager.go:765-785 | The same for ForgetVault: it removes the tombstone of a vault without an owner at once and leaves a vault with an owner to an earlier deferred resume |
| `TaskTheorems.OnlyQuiescedVaultsAreClosed` | internal/task/manager.go:685-690 | A vault is closed only by an earlier QuiesceVault of an open manager |
| `TaskTheorems.ReopenIsOwnerFree` | internal/task/manager.go:310-326 | Every step that takes a vault out of quiescing leaves it without a worker or a start |
| `TaskTheorems.LastExitAppliesResume` | internal/task/manager.go:847-859 | The exit of any vault's last owner from an open manager leaves its deferred resume behind if and only if the vault id is empty and the owner was a run; otherwise the vault is reopened |
| `TaskTheorems.DeferredResumeNeverLost` | internal/task/manager.go:727-760 | In every reachable open state a deferred resume of a named vault still has an owner to apply it |
| `TaskTheorems.UnnamedVaultStaysClosed` | internal/task/manager.go:855-857 | A concrete run after which the vault with the empty id is closed with a deferred resume and no owner |
| `TaskTheorems.ExclusiveSlots` | internal/task/manager.go:511-546 | In every reachable state the two slot maps are mutually inverse and no two registered workers share a vault and a type |
| `TaskTheorems.SlotHeldExactly` | internal/task/manager.go:511-533 | A slot is held if and only if a registered worker or an unfinished reserved start of exactly that vault and type exists |
| `TaskManager.RunKeyInjective` | internal/task/manager.go:511-512 | Slot keys of different (vault, type) pairs differ, whatever characters a vault id contains |
| `TaskTheorems.CountersAgree` | internal/task/manager.go:269-308 | The two wait counters are the number of in-flight starts and of workers that have not exited |
| `TaskTheorems.ClosedRun` | internal/task/manager.go:790-813 | Closed is permanent; from then on starts and workers only go away |
| `TaskTheorems.AdmissionExactly` | internal/task/manager.go:269-546 | In every interleaving a start begins, takes its slot, or becomes a worker exactly when the manager is open, the vault is not quiesced at that moment, and the id is not empty, the slot free, or the task row written, respectively |
| `TaskTheorems.ShutdownBarrier` | internal/task/manager.go:820-845 | Once Wait has seen the two counters at zero there is no start and no worker, now or in any later state |
| `TaskProtocol.StepKeepsInv` | internal/task/manager.go:269-326 | Every enabled section of every thread keeps the tables, counters, slots and deferred resumes consistent with the threads |
| `TaskManager.Manager.StartTask` | internal/task/manager.go:329-390 | The answer of a whole Start call is the first admission condition that fails; a failed call with a fresh id gives back the start and the slot |
| `TaskManager.Manager.MaybeResumeVaultLocked` | internal/task/manager.go:310-326 | The two loops over runs and starts decide whether a deferred resume is applied: only when the manager is open and the vault has no owner |
| `TaskManager.Manager.QuiesceVault` | internal/task/manager.go:685-706 | On an open manager the tombstone is set without clearing a deferred resume; the loops collect exactly the vault's runs and starts |
| `TaskManager.Manager.ResumeVault` | internal/task/manager.go:727-760 | Deferred exactly when the loops find an owner, else applied |
| `TaskManager.Manager.ForgetVault` | internal/task/manager.go:765-785 | Refused exactly when the loops find an owner |
| `ThumbnailTheorems.NoStaleCommit` | internal/thumbnail/thumbnail.go:1222-1235 | A thumbnail is committed if and only if no DeleteThumbnail of its path ran between the enqueue of its job and the commit |
| `ThumbnailTheorems.CacheIsNeverStale` | internal/thumbnail/thumbnail.go:850-871 | In every reachable state each cached thumbnail comes from a job enqueued after the last deletion of its path |
| `ThumbnailTheorems.BookkeepingIsExact` | internal/thumbnail/thumbnail.go:467-499 | A path's reference count is its number of outstanding jobs, it is marked queued if and only if exactly one of them is current, and without any it keeps no token or count |
| `ThumbnailTheorems.PendingIsExact` | internal/thumbnail/thumbnail.go:504-522 | pending is the number of the vault's jobs enqueued and not yet claimed; active is the worker's run |
| `ThumbnailTheorems.ReopenIsVacant` | internal/thumbnail/thumbnail.go:524-608 | A vault leaves quiescing only with no waiting job and no run |
| `ThumbnailTheorems.QuiesceDoomsQueue` | internal/thumbnail/thumbnail.go:548-583 | Every job waiting when its vault is quiesced is discarded: no later state of any run has it running |
| `ThumbnailTheorems.QuiesceBarrier` | internal/thumbnail/thumbnail.go:548-583 | Once QuiesceVault has returned nil no job of the vault runs: on a stopped generator if none was running at the call, for a vault being forgotten always, and otherwise until Resume or Forget unless a deferred resume was outstanding with no job waiting and one running |
| `ThumbnailTheorems.StoppedQuiesceExactly` | internal/thumbnail/thumbnail.go:559-563 | On a stopped generator no job of the vault runs after the call if and only if none was running at the call |
| `ThumbnailTheorems.StoppedQuiesceCanFail` | internal/thumbnail/thumbnail.go:559-563 | A concrete run in which QuiesceVault returns on a stopped generator and the running job still writes its thumbnail afterwards |
| `ThumbnailTheorems.QuiesceBarrierExactly` | internal/thumbnail/thumbnail.go:548-583 | On a running generator, for a vault not being forgotten, the tombstone is in place after the wait, while nobody resumes, forgets or quiesces the vault again, if and only if it was not the case at the call that a deferred resume was outstanding, no job waiting and one running |
| `ThumbnailTheorems.QuiesceBarrierCanFail` | internal/thumbnail/thumbnail.go:539-543 | A concrete run in which the end of the collected run opens the vault again and QuiesceVault returns without a barrier |
| `ThumbnailTheorems.DeferredResumeHonouredExactly` | internal/thumbnail/thumbnail.go:524-546 | Over any run, once the vault is idle an outstanding deferred resume has opened it if and only if, while it was outstanding, a job of the vault was running and none was waiting |
| `ThumbnailTheorems.ResumeTakesEffectExactly` | internal/thumbnail/thumbnail.go:585-608 | A ResumeVault of a quiescing vault has opened it by the time its last job is gone if and only if no job of the vault was waiting at the call |
| `ThumbnailTheorems.DeferredResumeCanGetStuck` | internal/thumbnail/thumbnail.go:511-513 | A concrete run after which a vault is idle and still closed with its deferred resume waiting |
| `ThumbnailTheorems.ClosesExactly` | internal/thumbnail/thumbnail.go:548-627 | A vault gets a tombstone exactly by QuiesceVault of a running generator or by ForgetVault of a vault with work left |
| `ThumbnailTheorems.DeferredExactly` | internal/thumbnail/thumbnail.go:524-608 | A deferred resume is recorded exactly by ResumeVault of a vault with work left that is not being forgotten, and goes exactly when ResumeVault or the end of a run finds the vault idle, or with the vault |
| `ThumbnailTheorems.CooldownExactly` | internal/thumbnail/thumbnail.go:929-963 | In every reachable state a path has a cooldown if and only if a current job of it was skipped or failed and since then nothing dropped it: no deletion, no later end of a current job, no pruning, no retirement; its deadline is the one set then |
| `ThumbnailTheorems.CoolingDownExactly` | internal/thumbnail/thumbnail.go:777-788 | An enqueue that gets to the check is answered CoolingDown if and only if such a deadline lies ahead and the cap of 5000 has not just evicted it |
| `ThumbnailTheorems.SuccessDoesNotCool` | internal/thumbnail/thumbnail.go:949-962 | After a current job succeeded or went stale the path has no cooldown until a later one is skipped or fails |
| `ThumbnailTheorems.PruningExactly` | internal/thumbnail/thumbnail.go:818-830 | After the pruning of an enqueue no cooldown is over, at most 5000 are left, and a live one is missing only if 5000 are |
| `ThumbnailTheorems.EnqueueAnswersExactly` | internal/thumbnail/thumbnail.go:763-814 | Each answer to an enqueue in terms of the run: stopped, behind a tombstone, already queued while a current job is outstanding, cooling down, full, admitted; only an admitted one adds a job, current and last in the channel |
| `ThumbnailTheorems.ForgetDrainsExactly` | internal/thumbnail/thumbnail.go:427-441 | From ForgetVault on no new run of the vault begins, and, unless it is quiesced again, its tombstone stands exactly as long as one of its jobs waits or runs |
| `ThumbnailTheorems.RetirementLeavesNothing` | internal/thumbnail/thumbnail.go:427-465 | A retired vault leaves no mark, cooldown, token, count, tombstone or deferred resume |
| `ThumbnailProtocol.StepKeepsInv` | internal/thumbnail/thumbnail.go:408-627 | Every section of every caller and of the worker keeps tokens, counts, marks, pending, active and the cache consistent |
| `ThumbnailProtocol.CurrentIffUndeleted` | internal/thumbnail/thumbnail.go:1216-1220 | A job's token is the path's token if and only if the path was not deleted since it was enqueued |
| `ThumbnailProtocol.ReleaseShape` | internal/thumbnail/thumbnail.go:479-499 | In exact books a release takes the token along if and only if the path has no other outstanding job |
| `ThumbnailGenerator.JobKeysSeparateVaults` | internal/thumbnail/thumbnail.go:884-886 | For vault ids without NUL, joined keys are injective and the purge's prefix test picks exactly one vault |
| `ThumbnailGenerator.Generator.TryEnqueue` | internal/thumbnail/thumbnail.go:763-814 | Admission in the order of the checks, after a pruning that may evict any of the excess cooldowns |
| `ThumbnailGenerator.Generator.PruneFailedLocked` | internal/thumbnail/thumbnail.go:818-830 | The two loops leave no expired cooldown, change none, and keep at most 5000 |
| `ThumbnailGenerator.Generator.PurgeVaultCachesLocked` | internal/thumbnail/thumbnail.go:443-465 | The four loops remove exactly the vault's entries |
| `HlsTheorems.OneTranscodeWithinBudget` | internal/api/files_hls.go:150-237 | In every reachable state starts and active are exact counts, their sum is at most 3, and a path has at most one pending start or usable stream |
| `HlsTheorems.StartsNewExactly` | internal/api/files_hls.go:172-237 | A start makes a new transcode exactly when open, the path has none, and the budget has room |
| `HlsTheorems.StartAnswersExactly` | internal/api/files_hls.go:150-237 | Each answer to a start: closing, joined with the path's usable stream, joined with a pending start that would become a stream if ready, retry for one that would not, at capacity, and otherwise started |
| `HlsTheorems.AnswerIsServed` | internal/api/files_hls.go:186-237 | A session answered with an id has a usable stream of that id or a pending start that a ready completion turns into one |
| `HlsTheorems.RetryWasHopeless` | internal/api/files_hls.go:143-199 | A start told to wait and retry waited for one that never becomes a stream in any later state |
| `HlsTheorems.ReferencesAreConserved` | internal/api/files_hls.go:398-458 | Over every step a session's references to an entry change by exactly its own joins and releases, also across publication |
| `HlsTheorems.ReferencesOverRun` | internal/api/files_hls.go:882-980 | In every reachable state a session's references to an entry are its starts answered with the entry's id, the creating one included, less what it gave back over the whole run |
| `HlsTheorems.AssetsByBalance` | internal/api/files_hls.go:1401-1410 | So an unstopped stream's assets are served to exactly the sessions whose balance over the run is positive |
| `HlsTheorems.EntryIsUnique` | internal/api/files_hls.go:417-428 | An id names at most one entry, in one of the two tables |
| `HlsTheorems.ReleaseTouchesOneEntry` | internal/api/files_hls.go:903-913 | A release by stream id leaves every other entry's owners and stop flag alone |
| `HlsTheorems.LastReferenceStops` | internal/api/files_hls.go:882-902 | An owner-scoped request stops a covered entry if and only if it takes its last reference |
| `HlsTheorems.StopReaches` | internal/api/files_hls.go:855-947 | A release by stream or path takes one reference of the named session from an entry it names, the end of a session all of them |
| `HlsTheorems.StopTouchesNothingElse` | internal/api/files_hls.go:855-947 | A stop request leaves an entry it is not for as it was |
| `HlsTheorems.StopBelowStaysBelow` | internal/api/files_hls.go:949-956 | A stop below a directory leaves every entry outside the directory as it was |
| `HlsTheorems.AssetsOnlyForOwners` | internal/api/files_hls.go:1401-1410 | In every reachable state an unstopped stream's assets are served to exactly the sessions of its vault that hold a reference |
| `HlsTheorems.StopChannelClosedOnce` | internal/api/files_hls.go:864-875 | stopCh is closed once if the stream was asked to stop, and else not at all |
| `HlsTheorems.CancelledNeverPublished` | internal/api/files_hls.go:417-431 | A start that was stopped or timed out while pending never becomes a stream in any later state |
| `HlsTheorems.TimedOutNeverPublished` | internal/api/files_hls.go:410-431 | A start whose deadline has passed while pending never becomes a stream |
| `HlsTheorems.StreamsComeAndGoExactly` | internal/api/files_hls.go:417-428 | A stream appears exactly by the ready completion of a start nobody stopped in time, and goes exactly by its process's end, unless retained, or by the end of its retention |
| `HlsTheorems.FinishExactly` | internal/api/files_hls.go:1321-1338 | A finished stream is retained if and only if its playlist is complete and nobody stopped it; its place in the budget is free either way and no other stream changes |
| `HlsTheorems.RetainedIsServed` | internal/api/files_hls.go:1355-1370 | A retained stream is served to its owners until its retention ends or a stop request |
| `HlsTheorems.ReadyStartIsServed` | internal/api/files_hls.go:417-428 | A ready, unstopped start is published with its owners, and the next start of the path finds exactly it |
| `HlsTheorems.StopBarrier` | internal/api/files_hls.go:1161-1187 | When the wait for an unconditional stop returns true, nothing it covers is left as long as no start is admitted |
| `HlsTheorems.ReplacementBarrier` | internal/api/files_hls.go:1205-1238 | From BeginFileReplacement of an absolute normalized path until its release no stream or pending start is at or below the path |
| `HlsTheorems.LogoutBarrier` | internal/api/auth.go:105-116 | After a logout under the write lock the session owns no stream and no pending start and holds no reference, in any later state |
| `HlsTheorems.ShutdownBarrier` | internal/api/files_hls.go:1050-1073 | After Shutdown's wait there is no stream and no start in any later state |
| `HlsTheorems.HlsPathWithinIsPrefix` | internal/api/files_hls.go:949-956 | On absolute normalized paths the string test is the prefix order on segments |
| `HlsProtocol.StepKeepsInv` | internal/api/files_hls.go:398-458 | Every section keeps ids, budget, uniqueness, owners and stop channels consistent |
| `HlsProtocol.WithdrawAgrees` | internal/api/files_hls.go:882-902 | A withdrawal keeps owners and positive reference counts in step and stops an entry it leaves without owners |
| `HlsStreams.Server.HandleHLSStart` | internal/api/files_hls.go:150-237 | The loop finds a usable stream of the path if there is one; then joining, waiting, capacity and a new start follow in the code's order |
| `HlsStreams.Server.CollectHLSStopTargets` | internal/api/files_hls.go:855-947 | The loops withdraw the reference from, or mark, every covered entry and no other, and collect exactly those that fired |
| `ContentService.StoreAndServe` | internal/api/files_content.go:291-402 | For any cut of a plaintext into writes and any Range header, serving the stored file returns exactly the selected plaintext or 416 |
| `RangeRequest.HandleRangeRequest` | internal/api/files_content.go:291-402 | Whatever the file holds and announces, a body is a prefix of the plaintext's part of the resolved interval; on the writer's output it is all of it |
| `RangeRequest.ResolveRange` | internal/api/files_content.go:303-360 | The served interval is the set of positions the first range of the header selects, but the last byte for a range at the logical end of the file; later ranges are not looked at |
| `RangeRequest.WellFormedHeaderParses` | internal/api/files_content.go:303-345 | Every byte range of section 2.1 of RFC 7233 whose numbers fit an int64 is understood, alone or first of a list |
| `RangeRequest.SpacedHeaderParses` | internal/api/files_content.go:303-345 | It is understood as well with white space around it, before a comma too, and without the unit |
| `RangeRequest.DecimalHeaderParses` | internal/api/files_content.go:303-345 | A header whose numbers are written in decimal, by repeated division by ten and with any leading zeros, is understood as the range of just these numbers |
| `RangeRequest.ParsesDecimal` | internal/api/files_content.go:316-345 | Numbers are read in base ten, signed or not, and refused exactly when they do not fit an int64 |
| `RangeRequest.FirstSatisfiableExactly` | internal/api/files_content.go:303-308 | On a well-formed list whose first range is not at the logical end, the first satisfiable range is served if and only if the first range is satisfiable or no later one is |
| `RangeRequest.LaterRangeIsIgnored` | internal/api/files_content.go:303-308 | bytes=9-,0-0 on a file of five bytes gets no interval although 0-0 is satisfiable |
| `RangeRequest.DeviatesExactlyAtLogicalEnd` | internal/api/files_content.go:350-360 | The answer to the first range is that of section 2.1 of RFC 7233 if and only if the range does not start at the logical end of the file |
| `RangeRequest.LogicalEndFirstExactly` | internal/api/files_content.go:303-356 | On a list whose first range is at the logical end, the first satisfiable range is served if and only if it selects just the last byte |
| `RangeRequest.ServeInterval` | internal/api/files_content.go:362-402 | Whatever the file holds and however long it claims to be, the body is a prefix of the plaintext's bytes in the interval; on the writer's output it is all of them |
| `RangeRequest.SkipAndCopy` | internal/api/files_content.go:378-396 | Skipping and copying deliver the wanted bytes from the skip on, whatever the read sizes |
| `RangeRequest.CopyLimited` | internal/api/files_content.go:390-396 | A limited copy delivers the reader's next bytes and falls short only when they end |
| `ContentReader.DecryptingReader.DeliversOnlyPrefix` | internal/crypto/content.go:335-387 | However a reader was read, also after errors, it has delivered a prefix of the plaintext from its start chunk |
| `ContentReader.DecryptingReader.Read` | internal/crypto/content.go:335-387 | Read appends to what was delivered; on the writer's own output it ends only with all of it |
| `ContentReader.DecryptingReader.NextChunk` | internal/crypto/content.go:346-383 | A record is buffered only if it opens under its chunk number; a genuine file yields its next chunk or its end |
| `ContentReader.OpenedChunkIsExpected` | internal/crypto/content.go:126-130 | Chunk numbers in the associated data make an opened record the expected chunk |
| `ContentReader.RecordAtChunk` | internal/crypto/content.go:391-396 | Seeking k whole records into the stream finds the record of chunk k |
| `ContentStream.EncryptingWriter.Write` | internal/crypto/content.go:195-216 | All of p is accepted unless sink or randomness fails, with whole chunks sealed in order |
| `ContentStream.EncryptingWriter.FlushChunk` | internal/crypto/content.go:218-240 | A flush seals exactly the buffered bytes under the next chunk number |
| `ContentStream.EncryptingWriter.Close` | internal/crypto/content.go:243-245 | After Close the file is the header and the sealed stream of all accepted bytes; after a failed sink write it still begins with the header and the chunks that were whole by then |
| `SealedStreams.SealStreamAppend` | internal/crypto/content.go:195-240 | Sealing chunk by chunk is independent of where the plaintext was cut |
| `SealedStreams.ChunkAADFormat` | internal/crypto/content.go:119-130 | The associated data is the chunk number as eight bytes, most significant first, then the header nonce |
| `SealedStreams.SealStreamLength` | internal/crypto/content.go:399-412 | The stream's length is what PlaintextSize2CipherSize computes |
| `SealedStreams.SealStreamDrop` | internal/crypto/content.go:391-396 | Seeking past whole records leaves the stream of the remaining plaintext |
| `SealedStreams.IdealCipherExists` | internal/crypto/content.go:133-164 | The assumptions on the cipher are consistent for every plaintext |
| `ContentSizes.SizesAreGaloisConnection` | internal/crypto/content.go:399-432 | PlaintextSize2CipherSize(p) <= c if and only if p <= CipherSize2PlaintextSize(c) |
| `ContentSizes.SizeRoundTrip` | internal/crypto/content.go:399-432 | The round trip from a plaintext size is exact |
| `ContentSizes.PlaintextSizeMonotone` | internal/crypto/content.go:415-432 | The inverse is monotone and never negative, also below the header size |
| `ContentSizes.OffsetLandsOnChunk` | internal/crypto/content.go:391-396 | An offset maps to the start of the chunk holding the byte, within the file |
| `ContentSizes.NoOverflowExactly` | internal/crypto/content.go:399-412 | The int64 computation is exact if and only if the plaintext has at most 9215497466265925459 bytes |
| `KeyWrap.UnwrapInvertsWrap` | internal/crypto/keys.go:178-285 | For inputs of whole 8-byte words, unwrapping what was wrapped returns it if and only if there are at least 16 bytes |
| `KeyWrap.WrapInvertsUnwrap` | internal/crypto/keys.go:178-285 | Whatever is unwrapped wraps back to the same ciphertext |
| `KeyWrap.UnwrapRoundsInvertWrapRounds` | internal/crypto/keys.go:195-280 | The 6n steps are undone in reverse order |
| `KeyWrap.WrapRoundsInvertUnwrapRounds` | internal/crypto/keys.go:195-280 | And the other way around |
| `KeyWrap.WrapMeetsStandard` | internal/crypto/keys.go:178-228 | The in-place loops compute the shift-register algorithm of section 2.2.1 of RFC 3394 |
| `KeyWrap.UnwrapMeetsStandard` | internal/crypto/keys.go:231-285 | Unwrapping is the shift-register algorithm of section 2.2.2 of RFC 3394, with its check of the initial value |
| `KeyWrap.ShiftRegisterIsRotation` | internal/crypto/keys.go:195-225 | Indexing the registers and shifting them are the same up to rotation |
| `Bytes.BE64Value` | internal/crypto/keys.go:205-260 | The step counter's eight bytes, most significant first, denote it modulo 2^64 |
| `KeyWrap.AESKeyWrap` | internal/crypto/keys.go:178-228 | The nested loops over the byte buffers compute the wrapping, with its length error |
| `KeyWrap.AESKeyUnwrap` | internal/crypto/keys.go:231-285 | The nested loops compute the unwrapping, with its length and integrity errors |
| `Siv.OpenInvertsSeal` | internal/crypto/filename.go:139-202 | sivDecrypt of sivEncrypt returns the plaintext |
| `Siv.SealInvertsOpen` | internal/crypto/filename.go:139-202 | Accepted data is the one encryption of its plaintext |
| `Siv.CtrIsInvolution` | internal/crypto/filename.go:150-196 | The counter mode undoes itself |
| `Siv.DblIsFieldDoubling` | internal/crypto/filename.go:292-303 | The carry loop's result is multiplication by z in GF(2^128), coefficient by coefficient |
| `Siv.FieldDoubleUnique` | internal/crypto/filename.go:292-303 | There is only one such block |
| `Siv.DblLoop` | internal/crypto/filename.go:292-303 | The loop over the bytes computes it |
| `Siv.AesCMAC` | internal/crypto/filename.go:242-281 | The block loop computes CMAC as the recurrence of section 2.4 of RFC 4493, for every length |
| `Siv.GenerateSubkeys` | internal/crypto/filename.go:283-290 | The subkeys of section 2.3 of RFC 4493 |
| `Siv.BuildLastBlock` | internal/crypto/filename.go:256-275 | A complete last block takes the first subkey, an incomplete one is padded and takes the second |
| `Siv.S2vTwo` | internal/crypto/filename.go:205-239 | s2v is the S2V of section 2.4 of RFC 5297 on the vector of associated data and plaintext |
| `Siv.LastInput` | internal/crypto/filename.go:220-238 | Long inputs take the xorend branch, short ones are padded after a doubling |
| `Siv.SivEncrypt` | internal/crypto/filename.go:139-166 | Tag and counter ciphertext of section 2.6 of RFC 5297 |
| `Siv.SivDecrypt` | internal/crypto/filename.go:169-202 | Section 2.7 of RFC 5297, with its length and authentication errors |
| `Siv.XorBytes` | internal/crypto/filename.go:312-316 | The loop exclusive-ors src into dst in place and leaves the rest of dst |
| `SivStandard.CmacMeetsStandard` | internal/crypto/filename.go:242-290 | The tag is the end of the block chain of section 2.4 of RFC 4493, its last block masked with the subkeys of section 2.3, which are given by field doubling |
| `SivStandard.S2vMeetsStandard` | internal/crypto/filename.go:205-239 | For one associated string the tag is CMAC of the plaintext with the doubled and added values of section 2.4 of RFC 5297 at its end, or of its padding with them |
| `SivStandard.SealedMeetsStandard` | internal/crypto/filename.go:139-166 | The output is the tag and then, byte by byte, the plaintext under the key stream of the encryption key |
| `SivStandard.CtrStartClearsTwoBits` | internal/crypto/filename.go:148-151 | The counter starts at the tag with just bits 31 and 63 cleared |
| `SivStandard.CtrKeyStream` | internal/crypto/filename.go:153-159 | Byte j of the output is byte j of the input plus byte j mod 16 of the encryption of counter block j / 16 |
| `SivStandard.CounterBlockCounts` | internal/crypto/filename.go:153-159 | Counter block k denotes the start plus k modulo 2^128 |
| `VaultNames.NameRoundTrip` | internal/crypto/filename.go:22-65 | An encrypted name decrypts to itself under its directory id, has no dot, and has at least 16 characters |
| `VaultNames.NamesAreLawful` | internal/crypto/filename.go:22-65 | AES-SIV names meet all the encrypted tree asks of its names |
| `VaultNames.StandardTextsExist` | internal/crypto/filename.go:22-65 | The assumptions on base64, name bytes and digests are consistent |
| `VaultFiles.BuildAndRead` | internal/crypto/vault.go:156-472 | After any sequence of creations, path requests and writes in a new vault, a listing and a walk show exactly the plain tree, and a file resolves to every path that was given for it, with its contents there |
| `VaultFiles.Vault.Replay` | internal/crypto/vault.go:358-472 | The encrypted tree follows the plain tree through any such sequence; no directory is moved or gets another id, other entries are untouched, and every path given on the way is the path of its name at the end |
| `VaultFiles.StoreThenResolve` | internal/crypto/vault.go:358-426 | A stored file resolves, after any sequence of operations, to the path it was stored at, with its contents there |
| `VaultFiles.AskWriteResolve` | internal/crypto/vault.go:358-426 | A path given by GetEncryptedFilePath may be written to after any sequence of operations, and after any more the file resolves to it |
| `VaultFiles.Vault.ResolvePath` | internal/crypto/vault.go:156-210 | A directory resolves to its place and id; any other path to where a file of the first name that is no directory is stored |
| `VaultFiles.Vault.ListDirectory` | internal/crypto/vault.go:213-318 | A listing has each child once with its kind and sizes and nothing else, across the long-name threshold, and fails exactly on non-directories |
| `VaultFiles.ListedSizes` | internal/crypto/vault.go:226-315 | A listed file as long as the writer's output for n bytes has size n and its own length; a directory has neither |
| `VaultFiles.Vault.WalkFiles` | internal/crypto/vault.go:330-355 | A walk ends and visits each file below the directory once |
| `VaultFiles.Vault.GetEncryptedFilePath` | internal/crypto/vault.go:358-384 | The path depends only on parent and name, whatever has the name; reserving a long name shows no file |
| `VaultFiles.Vault.ResolveExistingFilePath` | internal/crypto/vault.go:388-426 | For a file it is the path GetEncryptedFilePath gave, with the contents there; for a directory its place |
| `VaultFiles.Vault.CreateEncryptedDirectory` | internal/crypto/vault.go:429-472 | The plain tree gains the directory; every other entry keeps its place, id and contents |
| `VaultFiles.Vault.StoreFile` | internal/crypto/vault.go:358-384 | The plain tree gains or replaces the file, whose contents are at the returned path; every other entry keeps its place, id and contents |
| `VaultTree.AgreeGrows` | internal/crypto/vault.go:358-472 | Writing the parts of an entry that fits adds it to the tree and touches no other entry's files |
| `VaultTree.PartsDiffer` | internal/crypto/vault.go:486-493 | No file of one entry is in the place of a file of another |
| `VaultTree.ProbeFindsDirectory` | internal/crypto/vault.go:186-204 | The id-file probe succeeds exactly on directories, long name or not |
| `VaultFiles.ChildInfo` | internal/crypto/vault.go:226-315 | Reading a directory entry yields the child as the plain tree has it |
| `VaultFiles.ContentsAreNoDirectory` | internal/crypto/vault.go:488-490 | Where a name's contents would be there is never a directory |

## Left out

- FFmpeg, ffprobe and HEIF processes, hardware profiles, process groups: readiness, exit and completeness are
  nondeterministic parameters of the steps. The stop barriers are about the tables: a cancelled start closes
  its done channel before its process is reaped.
- AES, GCM, SHA-256, scrypt, base64, UTF-8 and randomness: abstract, as the hypotheses say. The 68-byte file
  header is opaque bytes; deriving content keys is not modelled.
- Gin handlers, cookies, status codes, SQLite, the web front end, page-cache hints, buffer pools, log lines: the
  database answers a task insertion with a flag, and timers are steps that may come at any time.
- Contexts and cancellation of workers: a cancelled run is one that ends. Waits appear as having seen a channel
  closed or a counter at zero in some state; that a wait returns at all is not claimed.
- Records of the tables (runs, vault lifecycles, pending starts, streams) are values in maps, not shared objects:
  pointer identity is replaced by fresh ids.
- The generator's run and queue ids are unbounded: their 64-bit wrap would need 2^64 admissions of one vault.
- PrepareVaultRebuild purges the generator's counts while jobs may be queued and is outside its invariants.
- WaitVaultIdle, GetPath and the other read-only queries of the generator: easy members.
- Streams without a key, entries without owners or reference maps, and starts without a session, which the code
  keeps for older tests.
- An empty path, for which stopHLSForPath answers without stopping anything.
- Cleaning virtual paths: the tree takes a path as its list of segments, so relative paths and dot segments are
  not modelled.
- VaultFiles.Vault.CreateEncryptedDirectory: not over an existing file or directory, whose id the code would
  overwrite, and like the other writes only in an existing directory.
- Errors of the file system (permissions, full disk, races with other programs): operations on the tree succeed
  as they would on a healthy disk. Modification times are not part of a listing, and a callback that stops a
  walk early is not modelled. The order of a listing is left open.
- Uploads, session store, path guard, duplicate paging, tail buffers, metadata: smaller claims.

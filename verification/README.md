# Archivon in Dafny

Archivon gives clients access to protected folders in exchange for Proof of Work. This project models the parts of
its backend where several functions, or several services, have to agree, and proves what they keep.

* **Access queue** (`Progress`, `ProgressLaws`, `AccessModel`, `AccessInvariant`, `AccessReconcile`, `AccessHandlers`,
  `AccessRuns`, `AccessQueue`, `AccessEffects`, `AccessLaws`, `AccessPrompt`, `AccessOverdue`, `AccessService`). Jobs
  wait, run and succeed; sessions open and end; shares arrive; permissions, folders and users go away. Each SQL
  statement is a function on the tables, each handler a composition of them, and `AccessService.Store` runs the
  handlers as statements on its fields. One invariant is kept by every step and by the clock; mutual exclusion, sound
  and prompt success, grants and the order of the queue follow for whole runs.
* **Shares** (`Hex`, `Coinbase`, `Header`, `Version`, `Target`, `WorkLaws`, `Gateway`, `GatewaySubmit`,
  `GatewayHashes`, `GatewayReplay`). From a submitted share to the coinbase transaction, the 80-byte header and the
  comparison with the target, and from there to what the sessions of a run were paid with: counted once per
  submission, and once per header. SHA-256 is any function to 32 bytes; where a lemma needs it, it has no collision on
  the coinbases at hand.
* **Archive** (`Text`, `TextLaws`, `Numerals`, `PrintLaws`, `DavNames`, `DavCopies`, `EntryTree`, `UploadPaths`,
  `ArchiveModel`, `ArchiveReads`, `ArchiveRemovals`, `ArchiveDuplicates`, `ArchiveRuns`, `ArchiveService`, `Backup`,
  `BackupChecks`, `BackupRoundTrip`, `BackupLimits`, `Listing`, `Href`, `Propfind`, `PropfindAnswers`). Paths, the
  tree of entries, files and their objects, display names, listings, links, PUT, backups, and whole runs of these
  requests. A Go string is a sequence of bytes; character c stands for byte c. The content hash is a function.
* **Audit log** (`AuditModel`, `AuditCleanup`, `AuditRestore`, `AuditService`). Cleanups hand events out in a backup,
  restores bring them back. The checksum is an injective function of what it covers.
* **Policy seal** (`Numerals`, `PolicySeal`, `PolicyCreation`). The text that is sealed, the two services that check
  it, and the rounding of a new folder's policy. The seal is an injective function where a lemma says so.

Where proofs and methods depend on choices:

* Transactions are serial and each handler, with its leading reconcile, happens at one instant. `now()` of the
  database and `time.Now()` are one clock, in microseconds.
* Ids are numbers. Random ids become ids never used before: counters, or an argument required to be new.
  `ORDER BY created_at` without a further key is decided by the id.
* A transaction that is rolled back leaves the state of its start, counters included.
* What a handler is told by the file system, the database or the network becomes a parameter (`stored`, `committed`,
  `lookedUp`, `sealOk`). Clean-up calls on the file system succeed.
* Lists that the code sorts for display are unordered here; nothing proved depends on their order.
* JSON, zip and URL parsing return what was put in, as long as the text is read whole. The length of an encoded text is
  a function of what it holds, given as a parameter, so that the limits on what is read apply to it.
* The reconcile that a valid share triggers succeeds; the code drops its error.

Some things the proofs brought to light, all kept as the code has them. Where a property fails, a lemma shows an input:

* The give-up branch of `openSessionForCompletedJob` (access service, lines 917-929) and the fourth phase of
  `reconcile` never do anything in a reachable state.
* Permission changes, folder deletions and user deletions promote without timing jobs out, so a job past its own
  deadline can start (`AccessOverdue.AnOverdueJobStarts`), exactly if `AccessOverdue.StartsOverdueIff` says so.
* `cancelJob` (access service, lines 659-698) records `previous_status` from a statement that returns the new row, so
  it is always `canceled` (`AccessEffects.CancelOutcome`).
* A share counts at every submission: nothing tells a header that was sent before. One header, sent twice on one
  connection, can open a session (`GatewayReplay.OneHeaderOpensASession`). The distinct headers behind a session cost
  the accepted hashrate times the window if its submissions differ, and otherwise fall short by no more than the
  hashes of those sent again (`GatewayHashes.RunsPayInDistinctHeaders`).
* `hexLen` trims its text and the coinbase does not, so `verifyShare` by itself refuses an extranonce2 with outer
  spaces as an invalid coinbase (`Header.SpacedExtranonceIsRefused`). Since the Stratum handler trims all parameters
  first, no submission meets that refusal (`Gateway.TrimmedMeetsNoCoinbaseError`).
* A PUT whose lookup fails goes on and can store a path twice (`ArchiveDuplicates.BlindPutStoresTwice`), and so does an
  upload to a stored path. A PUT to such a path can read back the other file
  (`ArchiveDuplicates.PutReadsBackAnother`): exactly if the files left after the replacement show one under that path
  and the listing, which orders equal paths by the random id, has it before the new file
  (`ArchiveReads.PutIsReadBackIff`).
* A file and a directory may share a path. PROPFIND lists both, and the link of the collection leads to the file
  (`Propfind.FileHidesCollection`).
* A collection that is within the limits for entries can still be refused by an import, which wants room for one more
  segment; MKCOL knows no limit (`BackupLimits.DeepCollectionIsRefused`).
* An export writes a manifest of any length and an import reads 8 MiB of it, so a folder of enough files can be
  exported and not imported (`BackupLimits.TooManyFilesAreRefused`).
* In a second backup, a file that was shown as a numbered copy carries the copy's name
  (`BackupLimits.CopyChangesItsName`).
* Once a user is deleted, a backup that names the user as an actor cannot be restored: the rows violate the foreign
  key (`AuditModel.DeletedActorBlocksRestore`).
* A cleanup hands out a payload of any length and a restore reads 20 MiB of it, so a large cleanup is final
  (`AuditModel.LargeCleanupIsFinal`).
* Clearing the whole activity log is never refused, since the loaded policy always allows it.
* On a row that breaks the table's checks the two copies of the seal check part (`PolicySeal.ChecksPartOnBareRow`).
* A new folder's policy is sealed as requested and stored rounded. Text and column round ties differently, so a folder
  with a tolerance of an eighth of a percent is created and refused by every check
  (`PolicyCreation.CreatedFolderIsRefused`, exactly when in `PolicyCreation.CreatedFolderPassesIff`).

## Model

| member | source | states |
|---|---|---|
| Progress.BestAttemptProgress | backend/internal/access/service.go:1113-1136 | the loop with its early exit returns the largest valid work of any of the attempt windows, the first attempt that reaches it, and that window's worker count |
| Progress.GatewayProgress | backend/internal/compute/service.go:927-956 | the gateway's copy of the loop returns the same best work and worker count |
| Progress.ProgressIsUnique | backend/internal/access/service.go:1113-1136 | the specification of the loop leaves one answer only |
| Progress.BestWorkIsMaximum | backend/internal/access/service.go:1113-1136 | the best work is a bound on every window and is reached by one of them |
| Progress.LaterWindowsEmpty | backend/internal/access/service.go:1120-1124 | windows that begin after now hold no work, so stopping early loses nothing |
| Progress.BestWorkGrows | backend/internal/access/service.go:1098-1136 | best work never decreases when shares are added |
| Progress.SpanWorkBound | backend/internal/access/service.go:1098-1136 | all valid work in the whole span is at most attempts times the best window |
| Progress.EnoughTotalForcesAWindow | backend/internal/access/service.go:1098-1136 | enough total work forces one single window to have enough |
| ProgressLaws.WindowWorkIs | backend/internal/access/service.go:1098-1111 | the work of a window is the sum over the valid shares of the tenant's job from its first to its last instant, both included; a window is so many seconds long |
| ProgressLaws.WorkersAre | backend/internal/access/service.go:1098-1111 | the workers of a window are those that submitted a share counting in it |
| AccessService.Store.PromoteNextQueued | backend/internal/access/service.go:1049-1096 | starts the oldest queued job exactly when the tenant has no running job and no unexpired session |
| AccessService.Store.PromoteNextQueuedAccessJob | backend/internal/archive/service.go:3517-3537 | the one-statement form does what the model says of it |
| AccessService.Store.OpenSessionForCompletedJob | backend/internal/access/service.go:905-986 | finishes the job, opens the session and cancels the queue, or changes nothing if a session is open |
| AccessService.Store.CompleteRunningJobs | backend/internal/access/service.go:852-903 | the loop over running jobs completes exactly the job that has enough work |
| AccessService.Store.Reconcile | backend/internal/access/service.go:788-850 | the four phases keep the invariant and leave the tenant quiet |
| AccessService.Store.CreateJob | backend/internal/access/service.go:551-657 | the transaction of a creation, with its answer |
| AccessService.Store.HandleCreate | backend/internal/access/service.go:551-657 | a creation after reconcile is one step of the model and keeps the invariant |
| AccessService.Store.HandleCancel | backend/internal/access/service.go:659-698 | a cancellation after reconcile is one step of the model and keeps the invariant |
| AccessService.Store.HandleClose | backend/internal/access/service.go:700-742 | a close after reconcile is one step of the model and keeps the invariant |
| AccessService.Store.HandleAdminClose | backend/internal/access/service.go:744-786 | an administrator's close after reconcile is one step of the model and keeps the invariant |
| AccessService.Store.HandleUpdatePermission | backend/internal/archive/service.go:1453-1550 | a permission change, with its revocations and promotion, is one step of the model and keeps the invariant |
| AccessService.Store.RevokeAccess | backend/internal/archive/service.go:3477-3515 | revokes the active sessions and cancels the open jobs selected, and reports how many of each |
| AccessService.Store.HandleDeleteFolder | backend/internal/archive/service.go:1021-1157 | a folder deletion is one step of the model and keeps the invariant |
| AccessService.Store.HandleDeleteUser | backend/internal/auth/service.go:853-981 | a user deletion is one step of the model and keeps the invariant |
| AccessService.Store.SubmitShare | backend/internal/compute/service.go:745-813 | a share with refused version bits is stored as invalid whatever job runs; any other is stored exactly when its job is the one being served, and a valid one triggers reconcile |
| AccessHandlers.PromotionsAgree | backend/internal/auth/service.go:1184-1204 | the promotion routines of the access service and of the other two services yield the same state |
| AccessHandlers.ClockKeepsInv | backend/internal/access/service.go:811-850 | time passing alone never breaks the invariant |
| AccessHandlers.StartsAtOnceOnlyAlone | backend/internal/access/service.go:598-604 | a job can start directly only if the tenant has no queued or running job |
| AccessInvariant.RequiredWorkIs | backend/internal/access/service.go:1751-1764 | one hundred times the stored work is hashrate times window times one hundred less the tolerance, which is kept between 0 and 90 |
| AccessInvariant.EnoughIff | backend/internal/access/service.go:852-903 | a job has enough work exactly if one of its attempt windows holds the required hashrate, less the tolerance, for its whole length |
| AccessHandlers.CreateKeepsInv | backend/internal/access/service.go:551-657 | creation keeps the invariant |
| AccessHandlers.CancelKeepsInv | backend/internal/access/service.go:659-698 | cancellation keeps the invariant |
| AccessHandlers.ClosingKeepsInv | backend/internal/access/service.go:700-786 | closing a session keeps the invariant |
| AccessHandlers.UpdatePermissionKeepsInv | backend/internal/archive/service.go:1503-1528 | a permission change keeps the invariant, in particular that open jobs and active sessions are granted |
| AccessHandlers.DeleteFolderKeepsInv | backend/internal/archive/service.go:1087-1135 | a folder deletion keeps the invariant |
| AccessHandlers.DeleteUserKeepsInv | backend/internal/auth/service.go:886-934 | a user deletion keeps the invariant, cascades included |
| AccessHandlers.SubmitKeepsInv | backend/internal/compute/service.go:756-794 | a submitted share keeps the invariant: only jobs that have been running own valid shares |
| AccessHandlers.StoreRefusedKeepsInv | backend/internal/compute/service.go:745-750 | a share stored for refused version bits keeps the invariant, also when its job no longer runs |
| AccessReconcile.CompletionIsUnobstructed | backend/internal/access/service.go:917-929 | a running job never meets an active session, so the branch that gives up, and the unique index on active sessions, are never reached |
| AccessReconcile.ReconcilePhases | backend/internal/access/service.go:788-809 | after reconcile no lapsed session is active, no open job is overdue, no running job has enough work and the queue is not stuck; the last promotion is redundant |
| AccessReconcile.ReconcileIsIdempotent | backend/internal/access/service.go:788-809 | a second reconcile at the same instant changes nothing |
| AccessReconcile.ReconcileSameElsewhere | backend/internal/access/service.go:788-809 | reconcile leaves the jobs of every other tenant alone |
| AccessReconcile.ReconcileKeepsInv | backend/internal/access/service.go:788-903 | reconcile keeps the invariant |
| AccessRuns.RunKeepsInv | backend/internal/access/service.go:551-986 | every state of every run of requests, shares and administrative changes satisfies the invariant at every later clock value |
| AccessRuns.RunsAreMutuallyExclusive | migrations/0007_phase1g_pow_access_sessions.up.sql:1-7 | at every clock value a tenant has one unexpired session and nothing open, or no such session, at most one running job and a queue only behind a running job |
| AccessRuns.RunsSucceedSoundly | backend/internal/access/service.go:905-971 | in every run sessions and succeeded jobs correspond one to one, each session opened in time, and one attempt window of its job holds the accepted hashrate for its whole length |
| AccessRuns.RunsRespectGrants | backend/internal/access/service.go:1138-1150 | in every run each open job and each active session belongs to an existing user, an active folder and an unlock permission |
| AccessRuns.NoOvertaking | backend/internal/access/service.go:1076-1096 | over whole runs, of two jobs of a tenant that both get started, the one created earlier starts first or at the same time |
| AccessPrompt.RunsLeaveNoneEnough | backend/internal/compute/service.go:791-796 | in every state of every run no running job of any tenant has an attempt window with valid work of the required hashrate, less the tolerance, times the window: the share that completes one opens the session in the same step |
| AccessPrompt.StillNotEnough | backend/internal/access/service.go:1098-1136 | a job that had not enough work, or had not started, has not enough after any step that adds no work to it |
| AccessOverdue.StartsOverdueIff | backend/internal/archive/service.go:3517-3537 | a request starts a job that was overdue before it exactly if it takes access away, everything that kept the queue waiting is closed with it, and the oldest job left is overdue; requests that reconcile first, and shares, never do |
| AccessOverdue.AnOverdueJobStarts | backend/internal/archive/service.go:1087-1150 | a run of nine requests in which a folder deletion starts a job past its deadline |
| AccessOverdue.ReconcileTimesOut | backend/internal/access/service.go:789-797 | reconcile times an overdue job out before it starts any |
| AccessQueue.PositionsAreOrdered | backend/internal/access/service.go:1622-1628 | an earlier job has a smaller queue position, and positions lie between 1 and the queue length |
| AccessQueue.PositionsAreOneToN | backend/internal/access/service.go:1622-1628 | with distinct creation times the positions are exactly 1 to n |
| AccessQueue.PromotionAdvancesQueue | backend/internal/access/service.go:1076-1096 | a promotion moves every other queued job up by one |
| AccessEffects.CreateOutcome | backend/internal/access/service.go:551-657 | when a job is created, what its row says, when it starts at once and that it otherwise goes to the end of the queue; the work it stores is the required hashrate, less the tolerance in percent, times the window |
| AccessEffects.CreateAnswers | backend/internal/access/service.go:551-657 | each of the other answers to a creation applies exactly when the permission, its unlock right, the seal, an own session, an own open job or somebody's session says so, in this order |
| AccessEffects.CancelOutcome | backend/internal/access/service.go:659-698 | when a cancellation succeeds, that the status it records as the previous one is always the new one, and that of all other jobs only the head of the queue can change, and does exactly if the canceled job ran |
| AccessEffects.CloseOutcome | backend/internal/access/service.go:700-742 | when a close succeeds, and that it leaves the tenant idle with only the session's own row changed |
| AccessEffects.AdminCloseOutcome | backend/internal/access/service.go:744-786 | the same for an administrator's close |
| AccessEffects.SubmitOutcome | backend/internal/compute/service.go:756-796 | a share is stored exactly if its job runs and no running job of any tenant started before it, under the connection's tenant and worker, with its credit only if it is valid, and only a valid one reconciles |
| AccessEffects.RefusedOutcome | backend/internal/compute/service.go:745-750 | a share with refused version bits is stored without credit as long as its job exists, and nothing else changes |
| AccessEffects.CompletionOutcome | backend/internal/access/service.go:905-986 | the session that opens for a job with enough work, and that exactly the queued jobs are dropped for it |
| AccessEffects.PermissionOutcome | backend/internal/archive/service.go:1503-1528 | the stored permission, what is revoked with it, and that other sessions stay |
| AccessEffects.FolderOutcome | backend/internal/archive/service.go:1087-1135 | a deleted folder keeps no active session, open job or permission; other sessions stay |
| AccessEffects.UserOutcome | backend/internal/auth/service.go:886-962 | a deleted user keeps no job, session or permission; other users keep theirs |
| AccessEffects.FolderTakenIff | migrations/0017_phase1q_folder_pow_policy_and_deletion.up.sql:33-62 | a folder row is taken exactly with a policy in the ranges of the table checks |
| AccessLaws.PromotionStartsNext | backend/internal/access/service.go:1049-1096 | a promotion starts the job next in line and changes nothing else: the tenant runs none, no session runs on, and no queued job was created before it; so does the one-statement form |
| AccessLaws.ReconcileSweepsAndStarts | backend/internal/access/service.go:788-903 | reconcile times out exactly the jobs past their deadline and expires exactly the lapsed sessions, starts the job next in line, and stops there unless an attempt window has enough work |
| AccessLaws.PermissionRows | backend/internal/archive/service.go:1503-1528 | losing a permission revokes exactly the user's active sessions and open jobs on the folder, each with its reason, and then starts the job next in line |
| AccessLaws.FolderRows | backend/internal/archive/service.go:1087-1135 | deleting a folder revokes exactly the active sessions and open jobs on it, and then starts the job next in line |
| AccessLaws.UserRows | backend/internal/auth/service.go:886-962 | deleting a user removes exactly the user's jobs, sessions and permissions and the shares of these jobs, and then starts the job next in line |
| Hex.ReverseBytes | backend/internal/compute/service.go:1357-1363 | the loop returns the bytes in opposite order |
| Hex.ReverseWords | backend/internal/compute/service.go:1349-1354 | the loop reverses the bytes of every group of four |
| Hex.SwapTwice | backend/internal/compute/service.go:1339-1355 | reversing the groups twice gives the bytes back |
| Hex.EncodeDecode | backend/internal/compute/service.go:1331-1355 | text that decodes is, in lower case, the encoding of its bytes |
| PrintLaws.HexDigitsAre | backend/internal/compute/service.go:1331-1355 | the sixteen digits in both cases have the values 0 to 15, nothing else is a digit, and printing uses the lower-case ones |
| PrintLaws.EncodedAt | backend/internal/compute/service.go:1331-1355 | a byte is printed as two digits, the higher first |
| Coinbase.CompactSizeReads | backend/internal/compute/service.go:1229-1242 | reading a CompactSize inverts writing it, for every value below 2^64 |
| Coinbase.CoinbaseIsWellFormed | backend/internal/compute/service.go:1199-1227 | with any extranonces of the announced sizes the two parts make one complete transaction whose script has its true length and content |
| Header.StratumHeaderBytes | backend/internal/compute/service.go:1297-1329 | the bytes assembled are those of the specification, errors included |
| Header.ReverseHexBytes | backend/internal/compute/service.go:1331-1337 | decodes the trimmed text and reverses it |
| Header.ReverseHexWords | backend/internal/compute/service.go:1339-1355 | decodes the trimmed text and reverses each word, refusing other lengths |
| Header.HeaderReadsBack | backend/internal/compute/service.go:1297-1329 | texts of the right lengths always make 80 bytes from which all six fields are recovered |
| Header.AcceptedIff | backend/internal/compute/service.go:1258-1295 | for work the gateway built, a share is accepted exactly if its texts are in order and the little-endian double hash of its header is at most the target |
| Header.SubmittedNamesSeed | backend/internal/compute/service.go:1178-1189 | the header of a submission has the seed of its work as the block before it |
| Header.DecodesIffTrimmed | backend/internal/compute/service.go:1265-1277 | an extranonce2 with spaces around it passes the length check and fails in the coinbase; without them it never does |
| Header.SpacedExtranonceIsRefused | backend/internal/compute/service.go:1265-1277 | the check by itself refuses texts in order but for one space before the extranonce2 as an invalid coinbase |
| Version.RolledOnlyInMask | backend/internal/compute/service.go:1563-1593 | a rolled version has the submitted bits inside the mask and the job's bits outside it |
| Version.RolledDigits | backend/internal/compute/service.go:1563-1593 | each digit of a rolled version has the submitted bits where the mask has ones and the job's elsewhere; the mask is the negotiated one unless that is unusable |
| Version.RollsIff | backend/internal/compute/service.go:1563-1593 | a version is rolled exactly if rolling was agreed on and both texts are words of eight digits |
| Version.RolledVersionPasses | backend/internal/compute/service.go:1262-1264 | a rolled version always passes the version check of the share |
| Target.TargetInRange | backend/internal/compute/service.go:1417-1433 | every valid difficulty gives a target from 1 to 2^256 - 1 |
| Target.TargetIsAntitone | backend/internal/compute/service.go:1417-1433 | a higher difficulty never gives a higher target |
| Target.CreditNeverExceedsCost | backend/internal/compute/service.go:1169-1197 | the work credited for a share is less than the hashes it costs on average, also where the target is clamped |
| Target.CreditIsTight | backend/internal/compute/service.go:1417-1433 | without the clamp, one more on the target would make a share cheaper than its credit |
| Target.TargetTextReads | backend/internal/compute/service.go:1193 | the 64 digits sent with the work read back as the target |
| WorkLaws.TargetIs | backend/internal/compute/service.go:1417-1433 | the target is the largest number that times the difficulty does not exceed 65535 * 2^208, cut at 2^256 - 1; a difficulty that is not positive has none |
| WorkLaws.CreditIs | backend/internal/compute/service.go:1195 | a share of difficulty d is credited for d * 2^32 hashes |
| WorkLaws.WorkIsMadeFrom | backend/internal/compute/service.go:1169-1197 | the short id of a job is its id without the dashes and the last eight digits; seed, time, extranonce1 and target are those given, version and bits are fixed |
| Gateway.SubmitShare | backend/internal/compute/service.go:723-813 | what the trimmed parameters of a submission store and reconcile is its one request of the queue; it is answered with yes exactly if it is valid and for the job being served |
| GatewaySubmit.SubmitIsValidIff | backend/internal/compute/service.go:738-791 | for built work a share is valid exactly if parameter 0 is empty or the worker, 1 the job's id, 2 and 4 words of eight digits, 3 the time of the work, 5 absent or a word while rolling is on, and the double hash of the header is at most the target; that header says the time of 3, the nonce of 4 and the version of 5, and its coinbase script ends with extranonce1 and 2 |
| GatewaySubmit.TooFewAreRefused | backend/internal/compute/service.go:738-744 | fewer than five parameters never make a valid share |
| GatewaySubmit.StoredUnderConnection | backend/internal/compute/service.go:1152-1167 | what is stored is under the connection's tenant, job and worker, with the credit of the difficulty, and refused version bits make an invalid share |
| Gateway.TrimmedMeetsNoCoinbaseError | backend/internal/compute/service.go:1490-1502 | since every parameter is trimmed, a submission to work the gateway built is never refused for its coinbase, header or target |
| Gateway.AcceptedIsBacked | backend/internal/compute/service.go:723-791 | a valid share has its texts in order, and its header of 80 bytes on the seed of its own job has a double hash that meets the target of the difficulty it is credited for |
| Gateway.RunsKeepBacked | backend/internal/compute/service.go:1152-1167 | in every run fed by the gateway each share goes back to a submission of its own, and every share that counts is backed by the header of that submission |
| GatewayHashes.CreditCostsHashes | backend/internal/compute/service.go:1192-1196 | the work credited for a share is positive and at most the hashes it costs on average |
| GatewayHashes.SameHeaderIff | backend/internal/compute/service.go:1258-1295 | two valid submissions for one job make the same header exactly if extranonces, time, nonce and effective version agree, unless the hash has a collision on their coinbases |
| GatewayHashes.RunsCountEachSubmission | backend/internal/access/service.go:905-971 | in every run fed by the gateway each session was paid for in one attempt window, by submissions whose headers cost at least the accepted hashrate times the window, in hashes, each counted once per submission |
| GatewayHashes.RunsPayInDistinctHeaders | backend/internal/compute/service.go:1152-1167 | in every such run the distinct headers of that window reach the price if its submissions differ in extranonces, time, nonce or version; what they fall short of it is at most the hashes of headers sent again, and nothing was sent again exactly if they all differ |
| GatewayHashes.NoRepeatsIff | backend/internal/compute/service.go:1152-1167 | the hashes of headers sent again are zero exactly if all headers differ |
| GatewayReplay.OneHeaderOpensASession | backend/internal/compute/service.go:723-796 | a run of six requests in which one header, sent twice, opens a session although it cost less than the accepted hashrate times the window |
| GatewayReplay.FiveParameters | backend/internal/compute/service.go:738-744 | five different parameters that make a valid share with the time and nonce they give; with the two exchanged they are refused |
| Text.CleanSegmentAccepts | backend/internal/archive/service.go:3717-3728 | the cleaning of a segment lets through exactly the good names and leaves those alone |
| Text.DirAndBase | backend/internal/archive/service.go:2704-2711 | path.Dir and path.Base split a clean path at its last segment |
| TextLaws.TrimSpaceIs | backend/internal/archive/service.go:3717-3728 | the trimming takes the white space of unicode.IsSpace, in UTF-8, off both ends, and all of it |
| TextLaws.TrimSlashesIs | backend/internal/archive/service.go:2700 | the trimming of slashes takes them off both ends, and all of them |
| TextLaws.ForwardSlashesAre | backend/internal/archive/service.go:2700 | backslashes become slashes and every other character stays |
| TextLaws.SplitsAndJoins | backend/internal/archive/service.go:3683-3700 | splitting and joining at slashes undo each other |
| TextLaws.BaseIs | backend/internal/archive/service.go:2708-2711 | path.Base is what follows the last slash, slashes at the end apart |
| DavNames.DavDisplayPaths | backend/internal/archive/service.go:2696-2744 | the loops with their per-directory counts terminate and give every file the first free candidate, as if each had been tried from the start |
| DavNames.UniquePath | backend/internal/archive/service.go:2723-2740 | the retry loop ends with a free candidate, none before it being free |
| DavNames.CandidatesDiffer | backend/internal/archive/service.go:2726-2731 | the candidates of one name are pairwise distinct |
| DavNames.RetriesAreBounded | backend/internal/archive/service.go:2725-2740 | at most one retry for each path given out before |
| DavNames.DisplayPathsAreDistinct | backend/internal/archive/service.go:2696-2744 | distinct files get distinct display paths, whatever their stored paths |
| DavNames.DisplayPathIsCandidate | backend/internal/archive/service.go:2696-2744 | every file is shown in its directory under its own name or a numbered copy of it |
| DavCopies.ShownAsCopy | backend/internal/archive/service.go:2712-2734 | a file under a clean path is shown in its directory under its own name or as a copy: the mark stands before the last dot of the name, or at the end if the name has no dot but its first character |
| DavCopies.CutSomewhere | backend/internal/archive/service.go:2712-2717 | one of the two cases applies to every name |
| DavCopies.ReportsAreShown | backend/internal/archive/service.go:2696-2744 | three files under report.txt are shown as report.txt, report (copy).txt and report (copy 2).txt |
| DavNames.DisplayPathIsClean | backend/internal/archive/service.go:2696-2744 | the display path of a clean path is clean and in the same directory |
| DavNames.ShownAsStoredIffDistinct | backend/internal/archive/service.go:2696-2744 | clean paths are shown as stored exactly when no two of them are equal |
| DavNames.ShownAsStoredIff | backend/internal/archive/service.go:2696-2744 | a file under a clean path is shown as stored exactly if no file before it is shown under that path |
| DavNames.DistinctInDirAreKept | backend/internal/archive/service.go:2696-2744 | the files of a directory with distinct stored paths are shown as stored, whatever other directories hold |
| DavNames.DavFindFile | backend/internal/archive/service.go:2755-2764 | returns the file shown under the path, or nothing if there is none |
| DavNames.FindInvertsDisplay | backend/internal/archive/service.go:2755-2764 | looking up a file's display path gives that file |
| ArchiveService.EntryPaths | backend/internal/archive/service.go:1358-1375 | the recursive query ends with every entry of the folder, each once under its joined path |
| EntryTree.QueryListsPaths | backend/internal/archive/service.go:1358-1375 | an entry is listed in exactly the round of its depth |
| ArchiveService.Store.EnsureFolderEntryPath | backend/internal/archive/service.go:3761-3801 | the loop computes the walk of the model |
| EntryTree.WalkReaches | backend/internal/archive/service.go:3761-3801 | the walk keeps the tree acyclic and sibling directories unique, changes no old row, and ends at the directory whose path is the segments |
| EntryTree.WalkIsIdempotent | backend/internal/archive/service.go:3761-3801 | a second walk creates nothing and ends at the same row |
| EntryTree.WalkFinds | backend/internal/archive/service.go:3764-3785 | a path that leads to a directory is found, not created |
| EntryTree.WalkAddsTheWay | backend/internal/archive/service.go:3786-3799 | a walk adds only directories on the way to its end |
| EntryTree.PathDecides | backend/internal/archive/service.go:3761-3801 | directories of one folder are told apart by their paths |
| EntryTree.EnsurePathMakesDirs | backend/internal/archive/service.go:3761-3801 | after the walk exactly the old directories and the prefixes of the segments exist |
| ArchiveService.Store.FilesForFolder | backend/internal/archive/service.go:1357-1390 | lists every active file of the folder once, with its path |
| ArchiveService.Store.FolderCollections | backend/internal/archive/service.go:1392-1425 | lists every directory of the folder |
| ArchiveService.Store.StoreNewFile | backend/internal/archive/service.go:2026-2128 | object, transaction, rollback and clean-up: on success the state of the model, on any failure the state before |
| ArchiveService.Store.HandleUploadFile | backend/internal/archive/service.go:1174-1325 | an upload succeeds exactly if path, store and transaction do; otherwise tables and objects are as before |
| ArchiveService.Store.HandleAdminDavPut | backend/internal/archive/service.go:2001-2138 | a PUT replaces the file shown at the path; if the lookup failed it replaces nothing |
| ArchiveService.Store.HandleAdminDavMkcol | backend/internal/archive/service.go:2140-2170 | makes the path or changes nothing |
| ArchiveService.Store.HandleDeleteFile | backend/internal/archive/service.go:966-1019 | removes row, entries and object of an active file, or changes nothing |
| ArchiveService.Store.HandleDeleteFolder | backend/internal/archive/service.go:1045-1157 | removes all files of the folder and their objects, or changes nothing |
| ArchiveService.Store.HandleDavRead | backend/internal/archive/service.go:1932-1965 | returns the content of the file shown at the path |
| ArchiveRuns.RunsStoreWhatIsActive | backend/internal/archive/service.go:1013-1017 | in every state of every run of uploads, PUTs, MKCOLs, deletions and imports, each of which may fail, files, entries and objects belong together and the stored object ids are exactly those of active files |
| ArchiveRuns.RunsKeepContents | backend/internal/archive/service.go:1013-1017 | over all such runs a file that is still active holds what it held before, and a deleted one never comes back |
| ArchiveRuns.ImportKeeps | backend/internal/archive/service.go:2172-2376 | the import of any zip at all keeps the archive invariant, and every active file with its contents |
| ArchiveModel.PutFileEffect | backend/internal/archive/service.go:2056-2110 | a PUT stores one new file at its path and takes away the replaced one, and no other |
| ArchiveModel.PutFileContents | backend/internal/archive/service.go:2056-2110 | every other active file keeps row and object, and the new one holds what was sent |
| ArchiveModel.RemoveFolderKeeps | backend/internal/archive/service.go:1045-1157 | a folder deletion keeps the archive invariant |
| ArchiveRemovals.RemoveFileEffect | backend/internal/archive/service.go:966-1019 | deleting a file takes it from its path and its bytes from the store; every other file keeps path, row and bytes, and every directory stays |
| ArchiveRemovals.RemoveFolderEffect | backend/internal/archive/service.go:1045-1157 | deleting a folder takes exactly its files, with their bytes, and its directories |
| ArchiveReads.FindFollowsTree | backend/internal/archive/service.go:1932-1945 | in a directory with distinct stored paths, display paths and entry tree agree on every path |
| ArchiveReads.PutKeepsPathsDistinct | backend/internal/archive/service.go:2001-2138 | a PUT keeps the stored paths of a folder distinct |
| ArchiveReads.PutKeepsDirDistinct | backend/internal/archive/service.go:2001-2138 | a PUT keeps the stored paths of each single directory distinct |
| ArchiveReads.PutThenGet | backend/internal/archive/service.go:2001-2138 | after a PUT the path reads back what was sent and every other path reads as before, in every directory with distinct stored paths, whatever the others hold |
| ArchiveReads.PutListing | backend/internal/archive/service.go:2056-2110 | after a PUT the listing is the one before without the replaced file, with one new row in some place |
| ArchiveReads.PutIsReadBackIff | backend/internal/archive/service.go:2001-2138 | in any folder and wherever the listing puts the new file, its path leads to it exactly if the old files listed before it, without the replaced one, show none under that path; a GET then reads what was sent, and otherwise finds a file the folder held before |
| ArchiveReads.PutIsReadBackAnywhereIff | backend/internal/archive/service.go:1357-1375 | the new file is found in every place of the listing exactly if the old files, without the replaced one, show none under its path |
| ArchiveReads.BlindPutKeepsDistinctIff | backend/internal/archive/service.go:2049-2058 | if the lookup failed, stored paths stay distinct exactly if nothing was stored at the path |
| ArchiveDuplicates.UploadKeepsDistinctIff | backend/internal/archive/service.go:1242-1317 | an upload keeps stored paths distinct exactly if its path was free |
| ArchiveDuplicates.BlindPutStoresTwice | backend/internal/archive/service.go:2049-2058 | a PUT whose lookup failed, onto a stored path: the path is stored twice |
| ArchiveDuplicates.PutReadsBackAnother | backend/internal/archive/service.go:2001-2138 | a PUT to a path stored twice after which a GET of the path reads the other file |
| UploadPaths.CleanUploadPath | backend/internal/archive/service.go:3675-3700 | accepts a path or refuses it, and returns segments fit for entries |
| TextLaws.PathTakenIff | backend/internal/archive/service.go:3675-3700 | a path is accepted exactly if, without outer space and slashes, it is not empty and has at most 1024 bytes and 64 segments, each of them, trimmed, a name without control characters that is not a dot or two; the result is those names |
| TextLaws.UploadNameIs | backend/internal/archive/service.go:3663-3673 | the name an upload falls back to is the last part of the name sent |
| TextLaws.CollectionTakenIff | backend/internal/archive/service.go:3702-3715 | a collection is taken as a path with one more segment is, which then is taken off |
| UploadPaths.CleanPathIsTaken | backend/internal/archive/service.go:3675-3700 | a clean path is taken as it is exactly if it keeps to both limits |
| UploadPaths.AcceptedPathIsFixed | backend/internal/archive/service.go:3675-3700 | cleaning an accepted path again changes nothing |
| UploadPaths.CleanCollectionIsTaken | backend/internal/archive/service.go:3702-3715 | a clean collection is taken as it is exactly if it leaves room for a file in it |
| ArchiveService.Store.HandleExportFolderBackup | backend/internal/archive/service.go:757-839 | the manifest and entries written are those of the model |
| ArchiveService.Store.ImportFolderBackup | backend/internal/archive/service.go:2172-2376 | an import succeeds exactly if the model's does, the limit on the manifest included, and otherwise leaves tables and objects as they were |
| ArchiveService.Store.ImportRows | backend/internal/archive/service.go:2275-2358 | the two loops stop at the first refusal and otherwise add everything |
| BackupChecks.CheckItemIff | backend/internal/archive/service.go:2289-2328 | each of the four refusals of a file applies exactly when the archive path, the entry, the path, or size and hash are wrong, in this order; otherwise the file is accepted with its path and content |
| BackupChecks.FirstRefusal | backend/internal/archive/service.go:2289-2328 | the first file refused decides the error of the whole list |
| BackupChecks.ImportsIff | backend/internal/archive/service.go:2206-2358 | any zip is imported exactly if its manifest is there, short enough, of the right format and version, with a name and a valid policy, and every collection and file is accepted |
| BackupChecks.ImportStoresGenuine | backend/internal/archive/service.go:2289-2358 | whatever zip is imported, each file of its manifest is stored at its path with the content of its entry, whose size and hash, up to case, are those of the manifest |
| BackupChecks.DamagedIsRefused | backend/internal/archive/service.go:2326-2328 | one file whose entry has another size or hash, and the import fails |
| BackupChecks.SwappedTextIsRefused | backend/internal/archive/service.go:2326-2328 | a zip that is imported, and the same zip with another text of the same length, which is refused for its checksum |
| BackupChecks.ExportWrites | backend/internal/archive/service.go:757-839 | an export lists every collection as an empty entry with a slash at the end, and every file by its display path with its size, its hash and its bytes, in the order given |
| BackupChecks.ArchivePathFallsBack | backend/internal/archive/service.go:3730-3743 | a file without a display path is put under the last part of its path, else of its name, else as file.bin |
| BackupChecks.ImportedFolderIs | backend/internal/archive/service.go:2206-2265 | the imported folder is named as a backup, keeps its description, and gets the defaults for what its policy lacks |
| BackupRoundTrip.ImportSucceedsIff | backend/internal/archive/service.go:2206-2358 | an exported folder can be imported exactly if its manifest is no longer than the import reads, its name is not blank and all paths keep to the import limits |
| BackupRoundTrip.RestoredFiles | backend/internal/archive/service.go:2289-2358 | the restored folder has exactly the exported files, at their display paths, and no other folder changes |
| BackupRoundTrip.RestoredContents | backend/internal/archive/service.go:2317-2343 | contents, hashes and sizes arrive unchanged |
| BackupRoundTrip.RestoredDirs | backend/internal/archive/service.go:2275-2288 | the restored folder has exactly the directories of the exported one |
| BackupRoundTrip.OthersAreKept | backend/internal/archive/service.go:2172-2376 | files of other folders keep rows and contents |
| BackupRoundTrip.RestoredPathsDistinct | backend/internal/archive/service.go:2289-2358 | the restored folder stores no path twice |
| BackupRoundTrip.ExportedAgain | backend/internal/archive/service.go:771-781 | exported again, a file has the same path, archive path, size and hash, and the same name exactly if it was shown as stored |
| BackupRoundTrip.NothingElseExported | backend/internal/archive/service.go:771-781 | the second export lists no further file |
| BackupRoundTrip.SameCollections | backend/internal/archive/service.go:751-761 | the second export lists the same collections |
| BackupLimits.ImportRestores | backend/internal/archive/service.go:2172-2376 | whatever import accepts of an export becomes a folder with exactly the exported files at their display paths, their contents, hashes and sizes, the same directories and policy, and nothing else changes |
| BackupLimits.ExportAgainIsSecond | backend/internal/archive/service.go:757-839 | whatever import accepts of an export is exported again with the same collections, the same policy and exactly the same files, each once, the names of those shown as copies excepted |
| BackupLimits.TooManyFilesAreRefused | backend/internal/archive/service.go:2206-2215 | a folder of 131073 files whose export the import refuses as an invalid manifest |
| BackupLimits.DeepCollectionIsRefused | backend/internal/archive/service.go:2275-2280 | a directory of 64 segments, as many as an upload may have, whose export the import refuses |
| BackupLimits.CopyChangesItsName | backend/internal/archive/service.go:771-781 | two files under one path: in the second backup the copy has another name |
| Listing.DavCollectionExists | backend/internal/archive/service.go:2766-2778 | true exactly for the root and prefixes of a display path |
| Listing.CollectionExistsIff | backend/internal/archive/service.go:2766-2778 | a clean path is a collection exactly if it is the root or has a file somewhere below |
| Listing.DavAllCollections | backend/internal/archive/service.go:2868-2893 | the explicit collections and every directory above a display path, and nothing else |
| Listing.DirectoriesAbove | backend/internal/archive/service.go:2876-2886 | climbing with path.Dir visits exactly the proper prefixes |
| Listing.DavCollectionExistsWith | backend/internal/archive/service.go:2780-2791 | true exactly for the root and the collections of the list |
| Listing.ExistenceChecksAgree | backend/internal/archive/service.go:2766-2791 | without explicit collections both existence checks agree |
| Listing.DavImmediateChildren | backend/internal/archive/service.go:2793-2823 | the loop collects the children of the specification |
| Listing.DavImmediateChildrenWith | backend/internal/archive/service.go:2825-2866 | the loop adds the explicit children to them |
| Listing.FilesListedOnce | backend/internal/archive/service.go:2793-2823 | a file is listed under its own directory and nowhere else |
| Listing.CollectionsListed | backend/internal/archive/service.go:2793-2823 | exactly the next steps on the way to deeper files are listed as collections |
| Listing.WalkReachesFile | backend/internal/archive/service.go:1788-1821 | descending from the root through listed collections reaches every file |
| Listing.ListedCollectionExists | backend/internal/archive/service.go:1788-1821 | every listed collection passes the existence check |
| Listing.ListedWithExists | backend/internal/archive/service.go:1892-1930 | the same with explicit collections |
| Listing.ListedIsKnown | backend/internal/archive/service.go:2825-2866 | every collection listed is one of all collections, under a clean path |
| Listing.DisplayPathsAreDisplayed | backend/internal/archive/service.go:2696-2744 | the display paths of files stored under clean paths are clean and belong to these files |
| Listing.ListingsAgree | backend/internal/archive/service.go:2825-2866 | without explicit collections the second listing adds nothing to the first |
| Listing.ExplicitListedOnce | backend/internal/archive/service.go:2829-2841 | an explicit collection is listed under its parent and nowhere else |
| Href.DavResourceHref | backend/internal/archive/service.go:2907-2922 | the loop prints the escaped segments |
| Href.DavPathParts | backend/internal/archive/service.go:2932-2960 | returns segments fit for entries, or nothing |
| Href.UnescapeEscaped | backend/internal/archive/service.go:2907-2960 | unescaping an escaped segment gives it back |
| PrintLaws.EscapeStep | backend/internal/archive/service.go:2913-2916 | letters, digits and ten marks stand for themselves in a link, every other byte is a percent sign and two upper-case digits |
| PrintLaws.UnescapeStep | backend/internal/archive/service.go:2938-2952 | a percent sign and two digits are read as one byte, and any other percent sign is refused |
| PrintLaws.PathPartsIff | backend/internal/archive/service.go:2932-2960 | a request path is accepted exactly if its first segment is the user's name and every other, unescaped and trimmed, a name that may be used; the parts are those names |
| PrintLaws.RootHrefIs | backend/internal/archive/service.go:2962-2964 | the root link is the proxy's prefix, the base and the user's name |
| Href.HrefRoundTrip | backend/internal/archive/service.go:2907-2964 | the link printed for any clean segments reads back as those segments, for files and collections |
| Propfind.HandleDavPropfind | backend/internal/archive/service.go:1788-1821 | answers with the file shown at the path, or the collection and what lies below it, or not found, as specified |
| Propfind.HandleAdminDavPropfind | backend/internal/archive/service.go:1892-1930 | the same with the collections made by MKCOL |
| PropfindAnswers.AnswerIs | backend/internal/archive/service.go:1788-1821 | a path a file is shown at answers with that file by its name, any other path that is no directory is not found, and a directory answers for itself and what lies below |
| PropfindAnswers.DirectoryAnswers | backend/internal/archive/service.go:1809-1821 | a directory answers with itself and, unless the depth is 0, exactly one response for each directory and each file directly below, linked to the path it is shown at and named by its last segment |
| Propfind.LinksLeadBack | backend/internal/archive/service.go:1788-1821 | every link of an answer, requested back, leads to the file it was printed for, whose content a GET returns, or to the collection it was printed for, exactly unless a file is shown under the same path |
| Propfind.FileHidesCollection | backend/internal/archive/service.go:1797-1803 | a folder whose root lists a collection whose link leads to a file |
| AuditService.AuditLog.QueryFileActivityEvents | backend/internal/audit/service.go:704-728 | lists exactly the matching events, each once |
| AuditService.AuditLog.DeleteEvents | backend/internal/audit/service.go:810-822 | removes exactly the listed events |
| AuditService.AuditLog.InsertAll | backend/internal/audit/service.go:824-843 | inserts and counts as the specification says, stopping at the first refusal |
| AuditService.AuditLog.CleanupFileActivity | backend/internal/audit/service.go:410-486 | a cleanup is the step of the model or changes nothing; clearing everything is never refused |
| AuditService.AuditLog.RestoreBackup | backend/internal/audit/service.go:488-559 | a restore is the step of the model or changes nothing |
| AuditService.AuditLog.HandleRestore | backend/internal/audit/service.go:377-408 | a body longer than the limit is refused; otherwise the restore of its payload |
| AuditService.AuditLog.DeleteUser | migrations/0001_phase1_foundation.up.sql:168-179 | deleting a user clears the actor of the events in the log and keeps the invariant |
| AuditModel.InsertEventsEffect | backend/internal/audit/service.go:824-843 | old rows stay, missing ones come back as they were, and the count is of exactly those |
| AuditModel.CleanupConserves | backend/internal/audit/service.go:410-486 | a cleanup splits the log into the matching events, all in the payload, and the rest plus one marker |
| AuditCleanup.CleanupTakesIff | backend/internal/audit/service.go:704-728 | a cleanup takes exactly the events of the tenant about files or folders, markers excepted, that are older than the days asked for and from before the instant asked for; all others stay as they are |
| AuditCleanup.OlderGoToo | backend/internal/audit/service.go:707-714 | with an event goes every older one of the tenant that is about files and no marker |
| AuditCleanup.QueryFindsDue | backend/internal/audit/service.go:704-760 | the query finds exactly those events |
| AuditCleanup.OldGoesRecentStays | backend/internal/audit/service.go:711-714 | a cleanup of thirty days takes a download of forty days ago and leaves one of yesterday and another tenant's |
| AuditModel.CleanupIsUndoneIff | backend/internal/audit/service.go:377-559 | a cleanup can be undone with the file it handed out exactly if that file keeps to the limit of a request and all its actors are known; the log is then as before plus the two markers, and the true number is reported |
| AuditModel.AcceptedIsGenuine | backend/internal/audit/service.go:488-532 | a payload that is accepted is the one handed out, unchanged |
| AuditModel.RestoreSucceedsIff | backend/internal/audit/service.go:377-559 | a genuine payload is restored exactly if its text keeps to the limit of a request, it was not restored before and none of its actors has been deleted since |
| AuditRestore.RestoreAnswers | backend/internal/audit/service.go:377-559 | which of its errors a restore answers with, for any request: body cut, backup not found, broken or other checksum, restored already, and then what stops the insertion |
| AuditRestore.InsertsUntilStopped | backend/internal/audit/service.go:824-843 | the first event of another tenant, or with an actor gone and no row to keep, decides the error; without any, all missing rows are back and counted once each |
| AuditRestore.RestoreWrites | backend/internal/audit/service.go:488-559 | a restore writes the missing events, date and count on the backup's row and one warning naming user and backup, and nothing else |
| AuditRestore.UserLeavesLog | migrations/0001_phase1_foundation.up.sql:168-179 | deleting a user clears the actor of exactly the user's events in the log; everything else stays |
| AuditRestore.CleanupWrites | backend/internal/audit/service.go:410-486 | a cleanup writes one warning and the backup's row, with the checksum of the payload it hands out |
| AuditModel.RunLosesNothing | backend/internal/audit/service.go:410-559 | over any run every event ever logged is in the log or in exactly one unrestored backup |
| AuditModel.MarkersSurvive | backend/internal/audit/service.go:704-707 | markers stay in the log whatever follows |
| AuditModel.NeverRestoredTwice | backend/internal/audit/service.go:526-528 | once restored, a backup is refused for ever |
| AuditModel.LargeCleanupIsFinal | backend/internal/audit/service.go:388 | the events of a cleanup that no request has room for never come back into the log, whatever follows |
| AuditModel.DeletedActorBlocksRestore | backend/internal/audit/service.go:831-836 | a run in which a genuine, small and unrestored backup is refused since its actor is gone |
| PolicySeal.PayloadIsInjective | backend/internal/policyseal/folder_pow.go:14-30 | equal sealed texts mean equal tenant, folder and all four policy fields |
| PrintLaws.PayloadLines | backend/internal/policyseal/folder_pow.go:14-30 | the sealed text has these seven lines |
| PrintLaws.SealedExample | backend/internal/policyseal/folder_pow.go:14-30 | the sealed text of one policy, line by line |
| PrintLaws.DecimalIs | backend/internal/policyseal/folder_pow.go:19-22 | a number is printed in decimal digits that read back as it, without a leading zero |
| PrintLaws.FixedIs | backend/internal/policyseal/folder_pow.go:19-20 | a number of a fixed scale is printed as its whole part, a point and as many digits as the scale, which together make up the number |
| PrintLaws.DefaultsAre | backend/internal/access/service.go:1675-1699 | what is not positive becomes 1 TH/s, 60 seconds or 3 attempts in both services |
| PrintLaws.FallbackIs | backend/internal/archive/service.go:3377-3406 | an empty policy is replaced by the fallback as a whole, any other field by field |
| PolicySeal.NormalizingKeepsIff | backend/internal/access/service.go:1675-1699 | normalising changes nothing exactly if the three positive fields are positive; on rows that meet the table's checks neither normalisation changes anything |
| PolicySeal.ChecksAgree | backend/internal/archive/service.go:3435-3459 | on rows that meet the table's checks the two copies of the check accept the same rows, leave the same row behind and expect the same seal |
| PolicySeal.ChecksPartOnBareRow | backend/internal/access/service.go:1720-1749 | on a row that breaks those checks each copy refuses the seal the other wrote |
| PolicySeal.SealedRowPassesIffUnchanged | backend/internal/access/service.go:1720-1749 | a sealed row passes exactly as long as tenant, folder and policy are those it was sealed with |
| PolicySeal.BackfilledRowKeepsPassing | backend/internal/archive/service.go:3435-3459 | a row sealed by a check passes every later one |
| PolicyCreation.CreateSucceedsIff | backend/internal/archive/service.go:569-616 | a folder is created exactly if its policy is valid and the required hashrate, rounded to its column, is neither zero nor too long |
| PolicyCreation.StoredIsNearest | backend/internal/archive/service.go:580-616 | the row of a new folder holds what was requested, hashrate and tolerance rounded to the nearest millionth and hundredth with ties upwards, and its seal is of the same with ties to the even digit |
| PolicyCreation.CreatedFolderPassesIff | backend/internal/archive/service.go:580-616 | a folder just created passes its checks, in both services, exactly unless hashrate or tolerance is a tie above an even digit, which the sealed text rounds down and the column up |
| PolicyCreation.StoredPolicyPassesAgain | backend/internal/archive/service.go:2223-2237 | a policy that comes out of the table, as in a backup, is stored as it is and passes |
| PolicyCreation.CreatedFolderIsRefused | migrations/0017_phase1q_folder_pow_policy_and_deletion.up.sql:1-5 | a valid policy, sealed with a tolerance of 0.12 and stored with 0.13, whose folder every check refuses |

## Left out

- HTTP routing, JSON, cookies, XML, logging and the Stratum socket loop: plumbing around the steps.
- Cryptography and random numbers: SHA-256, HMAC, bcrypt and AES-GCM are functions or absent.
- Concurrent transactions: interleavings inside one handler would need other claims.
- Floating-point rounding: work, difficulty and requested policies are exact reals, stored policies exact in the
  decimals of their columns.
- Who may call what: sessions, roles and `canManageUser` are not part of this model.
- WebDAV credentials of access sessions and the enrichment of answers with them.
- The job status `failed`: no code writes it.
- Queue position and progress as shown in job lists, beyond the queue position itself.
- Database limits: the number of parameters of one DELETE, and clocks printed with more than eight hexadecimal digits.
- Sorting of listings, manifests and query results, and Postgres collation.
- Folder rows of the archive: name, description and policy travel with a backup; of the creation of a folder only the
  policy is modelled, and the listing of folders is not.
- How a Stratum connection comes by its state: subscription, authorisation, dispatch of work and counters. Gateway takes
  a connection as it is, with work built for a difficulty that passed validation.
- The gateway's registry of connections, which can keep an old key when a connection authorises twice under different names.
- Backup retention, audit filters, paging and export.
- AuditModel.MarkerEvent: of the details only two keys are kept, since no property depends on their values.
- The React frontend, the debugger command and deployment files.

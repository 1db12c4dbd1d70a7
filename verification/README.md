# Verified model of the golden rotation, the env-file parser, the job lifecycle and the body cap

This project models four parts of win-validator in Dafny and proves what they promise.

**The golden rotation** (`golden_rotate.py`, `golden_build.py`). `Host.dfy` is the machine the rotator works on: a map from
paths to files with bytes and dates, a clock that only moves forward, and the privileged commands as methods that may fail.
`cp` may stop after any prefix with any return code, `mv -T` happens or does not, `rm` and `touch` may be refused; on a host made
`reliable` every command that can be carried out is, so the same contracts say what must happen when nothing fails. `failures`
counts the removals that were refused and `refusals` every other command that did not do its work, so a contract can also say how
much has to go wrong before an outcome is allowed, and that each step of a recovery is tried; `asked` logs every question for
free space with its answer. Every single
command adds the state it leaves to `visited`, so a statement about all states gained by a call is a statement about every point
at which the process can be killed. On that host stand, as imperative methods: the promotion with its backup and rollback
(`Promotion.dfy`), the depth record with its mirror and markers (`Chain.dfy`), the prune with its holds (`Retention.dfy`), the
rotation (`Rotation.dfy`), the preflight (`Preflight.dfy`), the timer's cycle (`Cycle.dfy`) and the hand-run retry (`Retry.dfy`).
The gate asks a worker booted off the candidate about the benign and the revoked sample; what a worker says of a sample is any
function of the image's bytes, and it may also not boot or not answer. Whole runs, with cycles killed at any command among them, are in `Runs.dfy`, those of the retention in
`RetentionRuns.dfy`; the exact condition for a recorded depth to be read back is in `DepthExactness.dfy`; the holds under every
interleaving of builders and rotations are a state machine in `Holds.dfy`, and `HoldingCode.dfy` has the retry, the build from a
retained backup and the prune themselves, each step of theirs a step of that machine among any number of others'; the space sum
against what a run really holds is in `Space.dfy`. `Decimal.dfy` is `str(int)` and `int(str)`.

**The env-file parser** (`parse_env_file`, in `golden_rotate.py` and again in `deploy/compose-env.sh`). `EnvFile.dfy` has the
nine-state machine as a function and the source's character loop as a method proved equal to it. `EnvGrammar.dfy` has a reader
with no machine, by entries, quoted parts and unquoted text, and proves that the machine reads every text so; `EnvNaive.dfy` proves
that without quotes it refines a reader made of lines and trims, `EnvPrint.dfy` that printing and parsing undo each other and that one file appended to
another overlays it, `EnvMint.dfy` when the minted URL is read as one override.

**The job lifecycle** (`winval_blastbox/ingress.py`, `winval_blastbox/pool_manager.py`). `Jobs.dfy` is a state machine whose
steps are single store calls, file operations and failures of uploads, claim threads, orphan recovery, the retention sweep and a
hand that tampers with spooled bytes; every store write may commit and then raise, and every actor may stop for ever. `JobRuns.dfy`
has the theorems over whole runs, `JobEvidence.dfy` those about an input kept for a digest mismatch. `Tiers.dfy` has the code itself, the end of `scan`, `_process`, `_recover_orphans` and
`_sweep_one`, with any number of others' steps between any two of its own; every step it takes is a step of the machine, so every
theorem over runs holds of it, and it counts what is refused to it, so that its contracts also say what it does when nothing is. `Spool.dfy` is the upload's chunk loop.

**The body cap** (`winval_blastbox/body_cap.py`). `BodyCap.dfy` has the wrapper with the flags of its `state`, for every
application (any order of receives and sends, any end) and every request stream, against a stateless description of what the
application is to see and what the client is to get.

## What the proofs found

- The guard of `--mint` lets a file through whose last line begins with `#` inside a continuation: the minted URL is swallowed
  into that knob (`EnvMint.CommentInContinuation`). The append is safe if and only if the last line does not end in an unquoted
  escape (`EnvMint.MintIsReadAsOne`).
- A depth that a store took is read back whichever removals failed if and only if the candidate's sidecar is a file of its own
  (`DepthExactness.RecordedDepthIsRead`). Two candidates fail: the disk golden promoted onto itself, whose sidecar path is the
  record (`DepthExactness.SelfPromotionLosesDepth`), and the path whose sidecar is the mirror
  (`DepthExactness.MirrorStemLosesDepth`); there the tidying up removes what was just written.
- A blank sidecar counts as depth 0 when it is recorded and as unknown when it is kept as a marker
  (`DepthExactness.MarkerDepthIsRead`).
- "No more than MAX_CHAIN promotions in a row from the golden" needs a record that holds no negative number: from any depth
  below MAX_CHAIN the cycles can promote from the golden as often as the distance to it (`Runs.RebakeUntilDue`, which runs them).
- While a rotation has the lock, a hold does not protect a rebake-source copy whose builder is gone, nor a rotator temporary
  (`Holds.ExposedIsExact`); while nobody has it, only the former (`Holds.UnlockedIsExact`).
- The preflight's space sum is an upper bound if and only if neither the removal of a source copy that shares the backup directory
  with candidate and backup nor that of an overlay can be refused (`Space.SumIsExact`); a refused removal of either exceeds it
  (`Space.StuckSourceCopyExceeds`, `Space.StuckOverlayExceeds`).
- A queued or running job lacks its input exactly in the case the ingress names, the store silent twice
  (`JobRuns.LiveJobHasItsInput`), given that the upload took less than the retention (`JobRuns.SlowUploadLosesTheInput`).
- Evidence kept for a sha256 mismatch stays named exactly until an upload's clean-up, an orphan recovery or a sweep unlinks it
  (`JobEvidence.EvidenceSurvives`). Orphan recovery does so at the next start when the failure write was lost
  (`JobEvidence.EvidenceConsumedAtRestart`), and never when it was committed (`JobEvidence.RecordedEvidenceIsSafe`).
- A refused upload's client gets nothing of the application's if and only if the application had sent nothing before the crossing;
  messages other than a response start would get through before it (`BodyCap.RefusedOnce`).

## Model

| member | source | states |
|---|---|---|
| Host.Host.Cp | golden_rotate.py:989-995 | a copy may leave any prefix under any return code; only a target it never opened keeps its content, and then it says so |
| Host.Host.Mv | golden_rotate.py:1038-1044 | `mv -fT` is done with return code 0 or changes nothing; a directory at the name refuses it |
| Host.Host.WriteSmall | golden_rotate.py:1230-1240 | a small write leaves the whole new text, freshly dated, or the file as it was |
| Promotion.CheckedCopy | golden_rotate.py:989-998 | what passes return code, size and mode is a prefix of the source of the wanted length with mode 0644 |
| Promotion.SweepOwnTemps | golden_rotate.py:959-979 | a sweep whose removals succeed leaves no temporary of the rotation or the pool manager and no `.part` file, and touches nothing else |
| Promotion.StageOne | golden_rotate.py:982-998 | one temporary that was not there before, with a checked copy in it when it says so |
| Promotion.StageCopies | golden_rotate.py:1022-1032 | both temporaries are staged with checked copies of the candidate, or none |
| Promotion.BackupCurrent | golden_rotate.py:917-951 | a backup's name only ever appears over a whole copy of the live golden, dated after the call began; room for the golden's size is asked for first; every refusal leaves the name as it was, at every kill point |
| Promotion.CopyToPart | golden_rotate.py:935-944 | the whole live golden under the `.part` name, or nothing there but what a refused removal left |
| Promotion.NamePart | golden_rotate.py:945-951 | the copy gets the backup's name or is removed, and the name shows nothing in between |
| Promotion.MarkKept | golden_rotate.py:1174-1184 | a reported hold is on a store, beside the backups or beside the mirror, and nothing but holds on that image is written; none is reported only after two refused commands |
| Promotion.RollBack | golden_rotate.py:1053-1069 | the disk twin becomes the backup's bytes, or stays because a command was refused, and is one of the two at every kill point |
| Promotion.Restore | golden_rotate.py:1053-1091 | with a backup there: everything rolled back and the duplicate backup dropped, or, after a refused command, a split state that names the backup and its hold; two more refusals if it is not held |
| Promotion.RenameRam | golden_rotate.py:1042-1091 | the second rename, or what follows when it fails: published, rolled back or split; when it alone is refused over a golden everything is rolled back and no backup is left, and a split takes a second refusal |
| Promotion.Recover | golden_rotate.py:1047-1091 | after a failed RAM rename: rolled back, or split because a command of the rollback was refused, and no temporary left when the removals succeed |
| Promotion.RenameBoth | golden_rotate.py:1038-1091 | the two renames and every failure of them end all or nothing, crash safe after each command; published when neither is refused, and split over a golden only after two refusals |
| Promotion.Publish | golden_rotate.py:1033-1091 | with both copies staged: a refused backup publishes nothing; else the renames, with the displaced golden backed up exactly when something was published over it, and a split over a golden only after two refusals |
| Promotion.Prepare | golden_rotate.py:1014-1032 | before the backup nothing but temporaries and `.part` files is written; it ends in an exception if and only if the candidate is missing or a question for room raised; what it stages is every byte of the candidate |
| Promotion.RoomBesideBases | golden_rotate.py:1019-1021 | room for a temporary is asked for beside either base; the exception, the refusal and the consent are each the last answer |
| Promotion.Promote | golden_rotate.py:1001-1091 | Published: both bases hold the candidate's bytes; a question for room that raised is the only exception but a missing candidate, one that was denied publishes nothing, and what is published asked for exactly the room it takes; nothing published: both hold exactly their earlier bytes; split: disk is the candidate, RAM is untouched; every state on the way has each base wholly old or wholly new, RAM never new under an old disk, no partial backup and the depth as it was; when every removal succeeds no temporary is left that was not there before; it is Published when no command but removals is refused, and over an earlier golden one refused command never splits: a split takes two, and four if its backup is not held |
| Promotion.ThenSteady | golden_rotate.py:1001-1091 | crash safety is kept by any steps that leave bases and backups alone |
| Chain.MarkerCopyIsNewest | golden_rotate.py:314-318 | the marker that is read is there when any marker is, and no marker is dated later |
| Chain.SameChain | golden_rotate.py:227-245 | the depth depends on the record, the mirror and the markers alone |
| Chain.LatestRules | golden_rotate.py:216-245 | the depth is what the latest copy says, by date and then record before mirror before marker; MAX_CHAIN where that is no number; 0 without a copy |
| Chain.NewestMarkerRules | golden_rotate.py:227-245 | a marker dated after every other copy is the depth |
| Chain.RuledBy | golden_rotate.py:227-245 | a record or mirror dated after the markers, with no newer rival that disagrees, is the depth |
| Chain.MarkerArrives | golden_rotate.py:227-245 | a marker that appears leaves the depth as it was or is the depth |
| Chain.WriteDepth | golden_rotate.py:1230-1255 | one write of a copy: every state on the way reads as before, the last one as was written if it was taken |
| Chain.WriteBoth | golden_rotate.py:1254-1255 | mirror, then record, and no state has the record new before the mirror was tried: every state reads as before until the first write that was taken, and as the new depth from then on |
| Chain.RecordReads | golden_rotate.py:1243-1270 | what the depth reads as after a recording, for every outcome of its writes, removals and renames and every candidate |
| Chain.KeepAsUnrecorded | golden_rotate.py:329-341 | a kept and re-dated marker holds the sidecar's text under a fresh date; a sidecar that is not kept so was refused a rename or a re-dating |
| Chain.AfterRecord | golden_rotate.py:1255-1260 | with the record written the depth reads as recorded whichever removals failed, at every command, unless the sidecar is the record itself |
| Chain.AfterMirror | golden_rotate.py:1261-1265 | with only the mirror written the depth reads as recorded whether or not the stale record could be removed, at every command, unless the sidecar is the mirror itself |
| Chain.RecordChain | golden_rotate.py:1243-1270 | the depth recorded is the candidate's; whenever a store took it or the marker was re-dated the depth reads as the stated function of the outcome, the two candidates whose sidecar is a copy of the depth included; every state on the way reads as before until a store took it; each store without the depth refused it, and a depth that is nowhere took a third refusal; stale copies and the sidecar are gone when the removals succeed |
| DepthExactness.RecordedDepthIsRead | golden_rotate.py:1243-1265 | from any stores, whichever store took the depth and whichever removals failed, it is read back, if and only if the candidate's sidecar is neither the record nor the mirror |
| DepthExactness.SelfPromotionLosesDepth | golden_rotate.py:1253-1258 | the failing input: depth 3 promoted onto itself with the mirror refusing writes reads as 0 |
| DepthExactness.MirrorStemLosesDepth | golden_rotate.py:1261-1264 | the other one: the path whose sidecar is the mirror, promoted while the record refuses writes, loses both copies |
| DepthExactness.MarkerDepthIsRead | golden_rotate.py:1248-1270 | with neither store writable and the sidecar kept and re-dated as the marker, the depth reads as recorded if and only if the sidecar was not blank |
| Decimal.ShowReads | golden_rotate.py:216-224 | every depth that is written reads back as itself |
| Decimal.ReadsGrouped | golden_rotate.py:216-224 | the texts that read as digits are exactly those with digits first, last and around every underscore |
| Decimal.SignedReads | golden_rotate.py:216-224 | a number with a sign or none, between spaces or line ends, reads as itself |
| Retention.HeldBackups | golden_rotate.py:1152-1171 | the images held are those of the holds that count, and only holds of dead builders are removed on the way |
| Retention.SortBackups | golden_rotate.py:1221-1221 | the listing has every backup once, oldest first by date and then name |
| Retention.NewerAreLater | golden_rotate.py:1221-1222 | in the sorted listing exactly the later ones are newer |
| Retention.ThinningKeepsChain | golden_rotate.py:1211-1215 | removing markers older than the record never changes the depth |
| Retention.PruneCount | golden_rotate.py:1216-1227 | with successful removals exactly the `keepN` newest backups and the kept ones are left, for every `keepN`, 0 included; with failures no retained one goes |
| Retention.PruneAged | golden_rotate.py:1199-1215 | images, sidecars and markers go only by age, never a kept one, and the depth reads as before |
| Retention.Prune | golden_rotate.py:1187-1227 | what goes was prunable and neither named nor held; with successful removals exactly the retained backups are left and everything due is gone: expired images, orphaned sidecars, superseded markers, dead builders' holds; the sidecar of an image that is still there stays; the depth reads as before |
| Retention.PrunedByDate | golden_rotate.py:1199-1215 | in dates: an image stays until its retention has passed, a sidecar or marker for an hour, a marker that is not older than the record, a live builder's source copy and hold, an operator's hold, and every other file but backups |
| Retention.DueByDate | golden_rotate.py:1152-1215 | in dates: what had run out when the prune began is gone when the removals succeed, but for what it was told to keep and the sidecars of images that are there |
| Retention.NewerIsRetained | golden_rotate.py:1216-1222 | whatever is retained for its date, a backup of a later date is, and of one date the one with the later name |
| Retention.PruneRetains | golden_rotate.py:1187-1227 | whatever failed in it, a prune takes no backup but surplus ones |
| Rotation.PromoteAndRecord | golden_rotate.py:894-912 | the outcome, the backup and the depth of a promotion with its recording, crash safe at every command |
| Rotation.OutcomeStands | golden_rotate.py:894-914 | recording and pruning do not disturb the promotion's outcome |
| Rotation.RecordPromotion | golden_rotate.py:898-912 | the recording after a promotion leaves its outcome, its backup and its crash safety, and the depth follows it |
| Rotation.RecordingOnTheWay | golden_rotate.py:1001-1270 | from the start of a promotion to the end of its recording, every state reads as the earlier depth until a store took the new one, and then as the new one over the new disk base |
| Rotation.PruneOnTheWay | golden_rotate.py:894-914 | and so does every state of the prune after it |
| Rotation.RotateLocked | golden_rotate.py:894-914 | the whole rotation: outcome, recorded depth, exact retention, and a split state's backup surviving this rotation's own prune |
| Rotation.Rotate | golden_rotate.py:865-891 | a candidate that is no file, or a held lock, changes nothing; an exception means that a question for room raised, and what was not promoted keeps its sidecar; else the rotation's promise, crash safe at every command, the prune's included, with the depth of every state stated, and what a split or a lost depth takes in refusals; when no command fails it is Published and both stores took the depth |
| Preflight.SeedRecord | golden_rotate.py:610-636 | reseeding never changes the depth; a run it lets through has a record that reads as it, and a mirror that does unless a command was refused |
| Preflight.Prove | golden_rotate.py:610-622 | a store is taken for writable only if a state on the way has the probe whole |
| Preflight.SweepStranded | golden_rotate.py:296-307 | only source copies past their hours in dates, of no live builder, go; with successful removals all of them |
| Preflight.HoldAndPrune | golden_rotate.py:595-608 | the retry's hold is on a store in the state the prune starts from and still there after it; the prune is a whole prune from that state, and what was due is gone when no removal failed |
| Preflight.UnderLock | golden_rotate.py:582-638 | under the lock the depth is unchanged, at every command, whichever copies exist, disagree or refuse writes; what was due is gone when no removal failed |
| Preflight.Run | golden_rotate.py:511-681 | the whole preflight: bases and depth never change, at any command; a run let through over a golden leaves the record reading as the depth, and the mirror unless a command was refused; no backup but surplus ones goes, whatever failed; a refusal withdraws the hold, with successful removals everything due and every stranded source copy is gone and no temporary is in the way of the space check, and when nothing refuses it lets the run through |
| Cycle.SnapshotSource | golden_rotate.py:354-392 | a private copy that is accepted is every byte of the live golden, and bases, backups and depth are untouched |
| Cycle.WriteSidecar | golden_rotate.py:776-776 | the depth is beside the candidate if the write was taken, and the candidate counts as unknown if not |
| Cycle.Flatten | golden_rotate.py:771-786 | the image and its sidecar, or neither; the source copy goes either way |
| Cycle.Build | golden_rotate.py:708-787 | a built candidate carries its source's depth plus one, 0 from the master, if the sidecar was written, and reads as unknown if it was not; a failed build leaves neither candidate nor source copy when the removals succeed; bases and depth are untouched at every command |
| Cycle.RmCandidate | golden_rotate.py:344-351 | removing a candidate leaves bases and backups, and every copy of the depth; one that is already gone, over a golden without a record, leaves its sidecar as the newest marker, which is then the depth |
| Cycle.ValidateGolden | golden_rotate.py:803-848 | it returns true only for a file whose worker calls the benign sample Valid and the revoked one, if any, Revoked; when nothing is refused it returns true for all of them |
| Cycle.RotationEnds | golden_rotate.py:1369-1379 | what a rotation of accepted bytes means for its cycle: the candidate still there, each base kept or gated, the depth kept or the candidate's |
| Cycle.RotateBuilt | golden_rotate.py:1369-1379 | an accepted candidate: published on both bases, or kept with its bytes and its depth when nothing was, or removed, the last without publishing only when a question for room raised; in every state on the way each base is kept or gated and the depth is the earlier one until a store took the candidate's |
| Cycle.GateAndRotate | golden_rotate.py:1364-1379 | whatever is rotated has bytes for which the gate returned true; a rejected candidate changes neither base nor depth at any command, and is removed |
| Cycle.ChooseSource | golden_rotate.py:1353-1362 | the source, by the operator's word, the depth and what there is: the master when it is forced or due and there, else a golden, else the master; with neither, and when a preflight refuses, the cycle does not go on |
| Cycle.ChooseAndBuild | golden_rotate.py:1353-1363 | a candidate is of that source, with its source's depth beside it or counted as unknown |
| Cycle.RefreshAndRotate | golden_rotate.py:1350-1389 | one cycle, whatever fails in it and wherever it is killed: each base kept or gated, the earlier depth until a store took the candidate's and that one from then on, no golden source at the limit, the master when it is forced; an accepted candidate that was not published is still there with gated bytes and its depth unless a question for room raised; when nothing fails and the gate accepts, published from the golden with its depth in both stores |
| Runs.AnyStateMayBeTheLast | golden_rotate.py:1350-1389 | every state a cycle goes through is one in which a run may go on with the next cycle |
| Runs.DepthAfterStep | golden_rotate.py:248-268 | a cycle, ended or killed, sets the depth to its candidate's if it promoted, and keeps it if not |
| Runs.ChainGrows | golden_rotate.py:248-268 | golden-based promotions deepen the chain by exactly one each where the sidecar was written, and end it at MAX_CHAIN where it was not; none starts at the limit |
| Runs.MasterWithinMaxChain | golden_rotate.py:205-268 | wherever in a run of ended and killed cycles it starts, a stretch of golden-based promotions is no longer than the distance to MAX_CHAIN |
| Runs.AtMostMaxChainInARow | golden_rotate.py:205-268 | from a depth that is not negative, any MAX_CHAIN+1 promotions in a row include a bake from the master, wherever cycles are killed save between publishing and recording |
| Runs.NeverNegative | golden_rotate.py:205-268 | a depth that is not negative never becomes so |
| Runs.OneRebake | golden_rotate.py:1350-1389 | a cycle in which nothing fails promotes from the golden and deepens the chain by one |
| Runs.RebakeUntilDue | golden_rotate.py:216-245 | the bound is tight from every depth below MAX_CHAIN, by running that many cycles: a record of -1 allows MAX_CHAIN+1 in a row |
| Runs.OnlyAcceptedBytesGoLive | golden_rotate.py:1350-1379 | over any run of cycles with any failures and kills, what is live is the initial bytes or bytes for which the gate returned true |
| Runs.BackupsAreGoldens | golden_rotate.py:917-1379 | over any such run every backup is an initial one or a whole copy of a golden that was live when one of its cycles began |
| RetentionRuns.RetainedOfListing | golden_rotate.py:1221-1222 | of a sorted listing the retained are the last `keepN` |
| RetentionRuns.OneRotation | golden_rotate.py:894-914 | a clean rotation turns the listing into the last `keepN` of it and the golden it displaced |
| RetentionRuns.OnePreflight | golden_rotate.py:511-681 | a preflight leaves a listing within `keepN` alone, whatever failed in it |
| RetentionRuns.LastDisplacedAreKept | golden_rotate.py:917-1227 | from an empty backup directory the backups are always precisely the last min(n, KEEP_N) displaced goldens, byte for byte; rotations that publish nothing and preflights between them, whatever failed in those, leave no mark |
| RetentionRuns.SplitLeavesRecoveryCopy | golden_rotate.py:1080-1091 | after a split over a golden the named backup has that golden's exact bytes and, when marked, its hold |
| RetentionRuns.HeldCopySurvives | golden_rotate.py:1152-1227 | a held backup keeps its bytes and its hold through any prune, rotation or preflight |
| RetentionRuns.RecoveryCopySurvives | golden_rotate.py:1152-1227 | and through any number of them, each under its own KEEP_N, 0 included |
| Retry.Redate | golden_rotate.py:1435-1447 | the candidate and its sidecar get fresh dates unless a command is refused, a retained backup never does, and no byte changes |
| Retry.RotateHeld | golden_rotate.py:1431-1434 | the rotation starts with the hold on a store and ends with it there, the candidate with its bytes |
| Retry.HoldOutlivesRotation | golden_rotate.py:1152-1227 | no rotation removes a live process's hold, nor the protected candidate it is on |
| Retry.Run | golden_rotate.py:1413-1451 | a retry of no file touches nothing; else the candidate is held from before the rotation starts until it ended, the outcome is all or nothing, a protected candidate is there afterwards with its bytes, freshly dated if the rotation published nothing and no command was refused, left as it was otherwise, and the hold is gone when its removal succeeds |
| Holds.StepKeepsInv | golden_rotate.py:1152-1171 | every step of every process keeps: a live builder's hold is on the store, and a prune under way keeps its image or has the hold still to judge |
| Holds.HeldImageStays | golden_build.py:158-182 | no prune and no sweep removes an image between the writing of a live process's hold and its release, the exposed kinds apart |
| Holds.HeldImageIsThere | golden_build.py:158-182 | and so it is there at the end of any stretch of steps over which it is held |
| Holds.ExposedIsExact | golden_rotate.py:287-307 | while anyone has the lock, some prune or sweep can take a held image if and only if it is a temporary or a source copy whose builder is gone |
| Holds.UnlockedIsExact | golden_rotate.py:287-307 | while nobody has it, if and only if it is a source copy whose builder is gone |
| HoldingCode.Stores.Prune | golden_rotate.py:1187-1227 | the prune as it runs among others: every hold on record when it begins is judged, then every surplus image that is not kept is tried or already gone, all under one lock |
| HoldingCode.Stores.BuildFromBackup | golden_build.py:158-182 | a retained backup is held in every state from the lock under which the hold was written, through the flattening, to the release that comes after it, and is there in all of them |
| HoldingCode.Stores.Retry | golden_rotate.py:1413-1451 | a retry's candidate is held from before its preflight's whole prune, across the gap between the two locks, until after its rotation's whole prune, when it is released, and is there all the while unless it is of an exposed kind |
| Space.SumDemands | golden_rotate.py:665-675 | each filesystem is charged with exactly the demands of the directories on it, for every placement |
| Space.SumIsAnUpperBound | golden_rotate.py:653-680 | at every step of build, gate, promotion and rollback a filesystem holds no more extra bytes than were summed for it, for every entry, placement and harmless refusal |
| Space.SumIsExact | golden_rotate.py:653-680 | the sum holds for every run and placement if and only if only harmless removals can be refused |
| Space.StuckSourceCopyExceeds | golden_rotate.py:658-665 | a source copy that could not be removed exceeds the sum in every entry that has one beside a golden |
| Space.StuckOverlayExceeds | golden_rotate.py:656-668 | so does an overlay that could not be removed, in every entry that bakes |
| EnvFile.ParseEnvFile | golden_rotate.py:89-154 | the character loop computes the machine's parse, refusals included; `EnvGrammar.ParserReadsTheGrammar` says what that is |
| EnvGrammar.ParserReadsTheGrammar | golden_rotate.py:89-154 | every text, quotes, escapes, NUL and undecodable bytes included, is read as a grammar says: entries, keys, quoted parts with their own escapes, unquoted text with its trailing blanks cut |
| EnvGrammar.ValueIsRead | golden_rotate.py:118-147 | from the '=' to the end of its line the machine holds what the grammar reads of the value |
| EnvGrammar.BareIsRead | golden_rotate.py:124-137 | unquoted: a backslash keeps any character, takes a newline, and blanks that nothing follows are no part of the value |
| EnvGrammar.QuotedPart | golden_rotate.py:138-147 | a double-quoted part means its body, escapables without their backslash, continued lines joined, any other pair as it stands, and then what follows it |
| EnvGrammar.AdjacentParts | golden_rotate.py:118-147 | two quoted parts beside each other are one value |
| EnvGrammar.OneAssignment | golden_rotate.py:89-154 | a name, '=', any value and a newline parse to that one assignment; with a NUL or an undecodable byte in it the file is refused |
| EnvFile.RunAppend | golden_rotate.py:107-149 | reading one text and then another is reading their concatenation |
| EnvFile.NewlineFlushes | golden_rotate.py:107-153 | a newline takes exactly what the end of the file would, outside escapes and quotes |
| EnvNaive.LineIsRead | golden_rotate.py:107-149 | in the middle of a line the machine holds the trimmed key and value read so far |
| EnvNaive.EndOfLine | golden_rotate.py:107-153 | at the end of a line it has made the naive reader's assignment |
| EnvNaive.ParserRefinesNaiveReader | golden_rotate.py:89-154 | without quotes, backslashes, NUL and undecodable bytes the parser is: split at newlines, trim, drop comments, split at the first `=`, keep names, last wins |
| EnvPrint.QuotedIsRead | golden_rotate.py:118-147 | a quoted value is read whole, edge blanks and newlines included |
| EnvPrint.PrintedParsesBack | deploy/winval.env.example:151-157 | every list of names and values, double-quoted with escapes or single-quoted, parses back to the last-wins map |
| EnvPrint.AppendOverlays | deploy/compose-env.sh:127-132 | a file appended to one whose last line is ended overlays it: nothing lost, nothing glued, refused or unterminated exactly when the second is |
| EnvMint.MintIsReadAsOne | deploy/compose-env.sh:121-132 | on every file the script appends to, the minted line is exactly one override of the old map if and only if the last line does not end in a continuation |
| EnvMint.EscapeMeansOdd | deploy/compose-env.sh:127-127 | the machine ends in a continuation only after an odd run of backslashes |
| EnvMint.GuardIsExact | deploy/compose-env.sh:127-127 | the guard refuses exactly a last line that is no comment and ends in an odd run of backslashes |
| EnvMint.EvenBackslashesAreSafe | deploy/compose-env.sh:127-127 | what the backslash guard lets through by its backslashes is safe to append to |
| EnvMint.RealCommentsAreSafe | deploy/compose-env.sh:127-127 | what it lets through as a comment is safe when the machine stands at a key position where that line begins |
| EnvMint.CommentInContinuation | deploy/compose-env.sh:127-127 | the input that fails: a `#` line inside a continuation passes the guard and swallows the URL |
| EnvMint.EnvStore.Mint | deploy/compose-env.sh:121-134 | it succeeds exactly when the file parses and has a URL that is not newlines alone, or passes both guards; a refusal leaves every byte; success with no continuation open gives the old map with the URL set |
| EnvMint.MintedLine | deploy/compose-env.sh:131-131 | the minted line, character for character |
| Spool.AbsorbedAppend | winval_blastbox/ingress.py:66-75 | hashing chunk by chunk is hashing the whole, however it is cut |
| Spool.StreamIsJoined | winval_blastbox/ingress.py:61-75 | a stream carries its chunks joined, up to an empty one or its end, and nothing after a read or a write that failed |
| Spool.JobDir.Scan | winval_blastbox/ingress.py:61-87 | an upload is accepted exactly when its stream ends unbroken within the cap; then the file is its bytes and the digest theirs; else the spool is gone when the clean-up calls succeed |
| Jobs.UploadKeeps | winval_blastbox/ingress.py:66-101 | every move of an upload keeps the job's invariant |
| Jobs.WorkKeeps | winval_blastbox/pool_manager.py:410-491 | every move of a claim thread keeps its job's invariant |
| Jobs.WorkKeepsWorker | winval_blastbox/pool_manager.py:408-491 | and what the thread knows: `recorded` means terminal, what it validates has the row's digest, what it publishes it won |
| Jobs.KnowledgeStays | winval_blastbox/pool_manager.py:453-461 | what a thread knows survives whatever others do to its job |
| Jobs.SweepKeeps | winval_blastbox/pool_manager.py:565-577 | the sweep's two checks and its removal keep the invariant under any interleaving |
| Jobs.OrphanKeeps | winval_blastbox/pool_manager.py:515-544 | so does orphan recovery beside threads that are still alive |
| Jobs.StepKeepsInv | winval_blastbox/pool_manager.py:395-580 | every step of every actor keeps the invariant and moves every row forward |
| JobRuns.RowsOnlyMoveForward | winval_blastbox/pool_manager.py:453-544 | over any run a row only goes QUEUED, RUNNING, DONE or FAILED, one stage a step, and never leaves a terminal stage |
| JobRuns.LostToSilence | winval_blastbox/ingress.py:88-101 | an input is lost only after `create` committed unacknowledged, `get` raised, and the clean-up unlinked |
| JobRuns.LiveJobHasItsInput | winval_blastbox/ingress.py:88-101 | in every reachable state a queued or running job whose upload was shorter than the retention has its input, if and only if that did not happen; untampered with, it is the uploaded bytes |
| JobRuns.LateUpload | winval_blastbox/pool_manager.py:565-577 | the proviso names exactly the uploads whose `create` committed a retention window or more after they began |
| JobRuns.SilentStoreLosesTheInput | winval_blastbox/ingress.py:91-100 | the ambiguous case happens: a run that ends in a queued row without its input |
| JobRuns.SlowUploadLosesTheInput | winval_blastbox/pool_manager.py:565-577 | an upload as long as the retention can lose its input to the sweep |
| JobRuns.PublishedOnceByTheWinner | winval_blastbox/pool_manager.py:453-467 | output is published only by the claim whose verdict write won, and at most once |
| JobRuns.DoneForTheRecordedDigest | winval_blastbox/pool_manager.py:435-456 | a job is DONE only for bytes within the bound whose digest is the one recorded at upload; of which the engine's envelope is no error; untampered with, for the uploaded bytes |
| JobRuns.SealedOutputStays | winval_blastbox/pool_manager.py:571-577 | a published output is there until the retention has passed since the job finished |
| JobEvidence.NameUnderStep | winval_blastbox/pool_manager.py:482-498 | while the job's thread reads its input or means to keep it, a step takes the name if and only if it is one of the three that unlink |
| JobEvidence.SparedThroughout | winval_blastbox/pool_manager.py:445-498 | from the opening of an input found to differ, no claim thread of its job takes its name, then or ever |
| JobEvidence.EvidenceSurvives | winval_blastbox/pool_manager.py:445-448 | after a mismatch, in any later state of any run, the input is named if and only if no upload's clean-up, no orphan recovery and no sweep has unlinked it since it was opened |
| JobEvidence.ConsumedAfterOrphan | winval_blastbox/pool_manager.py:515-546 | an orphan recovery consumes an input only after it took the RUNNING row and was told so |
| JobEvidence.RecordedEvidenceIsSafe | winval_blastbox/pool_manager.py:468-481 | once a claim's failure write was committed, no orphan recovery ever consumes that input, in any run |
| JobEvidence.EvidenceConsumedAtRestart | winval_blastbox/pool_manager.py:445-481 | a run in which the failure write is lost and orphan recovery consumes the kept input |
| Tiers.Tier.Submit | winval_blastbox/ingress.py:88-102 | the end of `scan` as written, step by step among others: accepted means a row, and with nothing refused it is accepted; a refused one without a row leaves no spool when nothing else is refused; the input of a refused upload with a row is lost exactly when the store was silent twice and the unlink succeeded |
| Tiers.Tier.CopyAndCheck | winval_blastbox/pool_manager.py:435-448 | the bounded copy with its running digest: what passes is within the bound and has the row's digest, `keep_input` is set for a mismatch alone, and with nothing refused an input that is left alone, within the bound and as recorded passes whole |
| Tiers.Tier.RecordVerdict | winval_blastbox/pool_manager.py:449-461 | the verdict's compare-and-set: acknowledged and won, acknowledged and lost, or raised; with nothing refused the row is terminal, and a claim that still holds it wins, with DONE unless the engine's envelope is an error |
| Tiers.Tier.RecordFailure | winval_blastbox/pool_manager.py:468-481 | the recovery write: when it raises, `recorded` stays what it was; when nothing is refused the row is terminal |
| Tiers.Tier.Process | winval_blastbox/pool_manager.py:395-498 | `_process` among any steps of others: `recorded` means a terminal row, it cleans up once, and unlinks the input only when the row is terminal and no mismatch was found; with nothing refused the row is terminal, and a job nobody else touches is DONE, or FAILED exactly when the engine's envelope for its input's bytes is an error, published and consumed |
| Tiers.Tier.RecoverOrphans | winval_blastbox/pool_manager.py:515-546 | every job listed as RUNNING is terminal afterwards, except those the store raised for, no more than there were refusals |
| Tiers.Tier.RecoverNow | winval_blastbox/pool_manager.py:527-546 | a job that is still RUNNING is FAILED and its input unlinked when nothing is refused |
| Tiers.Tier.SweepOne | winval_blastbox/pool_manager.py:565-577 | what the sweep removes has no row, or one terminal for a whole retention; only a row that landed too late can be caught; an entry that is due, with nothing refused and nobody touching it, is removed whole |
| BodyCap.Exchange.CountingReceive | winval_blastbox/body_cap.py:25-34 | after any history the application gets what the stateless description says for its next receive |
| BodyCap.Exchange.GuardedSend | winval_blastbox/body_cap.py:36-44 | after any history the client has what the stateless description says |
| BodyCap.Exchange.Call | winval_blastbox/body_cap.py:17-58 | a whole call for any application: anything but http untouched, a declared length over the cap refused unread, both streams and the ending as described |
| BodyCap.DeclaredLengths | winval_blastbox/body_cap.py:20-22 | a declared length is refused exactly when it is a number past the cap, zeros in front or not |
| BodyCap.OneHeader | winval_blastbox/body_cap.py:20-22 | and only in the header of that name |
| BodyCap.AtMostCapBytes | winval_blastbox/body_cap.py:25-34 | the application never gets more than `cap` body bytes |
| BodyCap.OnlyDisconnectsAfter | winval_blastbox/body_cap.py:25-33 | from the first message that does not fit it gets disconnects only |
| BodyCap.WithinTheCap | winval_blastbox/body_cap.py:25-46 | within the cap both streams pass unchanged |
| BodyCap.RefusedOnce | winval_blastbox/body_cap.py:36-64 | crossed before a response started: one response start, the 413, nothing after the refusal, and nothing else at all if and only if the application had sent nothing |
| BodyCap.RefusalAlone | winval_blastbox/body_cap.py:36-64 | which holds of every application that starts its response before it sends anything else |

## Left out

- Booting, ssh, virsh, qemu-img's work and PowerShell: a build leaves any bytes or fails, a worker's answer about a sample is any function of its image's bytes, and the engine's envelope for an upload is any function of its bytes.
- `restart_pool`, systemd units, timers and docker compose: service plumbing around the rotation.
- The egress refusals, the self-load gate and the preflight's static knob checks: the preflight may refuse at those points for any reason.
- `vm_pool.py`, `engine.py`, `host_runner.py`, `knobs.py`, the HTTP views and log texts: they would add flat case analysis only.
- blastbox's job store beyond `create`, `get`, `claim_next` and `update_if_status`: its own retention of terminal rows is not part of this model, so a row stays once it is there.
- Symlinks, hard links and swapped paths: paths are values of a datatype and a job directory is one object, so name collisions and link races cannot be expressed.
- SHA-256 and UTF-8: the hash is an arbitrary fold over bytes, text is code points in which undecodable bytes are lone surrogates.
- Dates: commands are dated strictly one after another and nothing is dated in the future; two markers of one date are listed in a fixed but unknown order, and backups have distinct stamps.
- `int()` for non-ASCII digits and past the interpreter's digit limit: a depth or length is read from ASCII text of any length.
- Reads of existing files do not fail on the rotator's host; writes, renames, removals, copies and free-space queries may.
- The order of the writes inside the output tree: publishing creates the output directory or does not.
- Concurrency inside one request of the body cap: a receive and a send are atomic, and the server's own send does not fail.
- Promotion.Promote: crash states are those the call adds to a trace that may already hold others; a caller that starts with an empty trace has them all.
- Cycle.Build: a source other than the live golden and the master (a hand-run build, which records MAX_CHAIN as unknown) is not one here.
- Runs.AtMostMaxChainInARow: leaves out a cycle killed between publishing and recording and a promotion whose depth no store took, after which the depth is not that of what is live; `Runs.OnlyAcceptedBytesGoLive` has both.
- Cycle.RmCandidate: the depth that a kill between renaming the sidecar and re-dating the marker leaves is not stated for a candidate that was already gone over a golden without a record.
- Space.SumIsAnUpperBound: the overlay is taken to be on the RAM base's filesystem and no larger than the estimate, as the preflight assumes.
- Holds.HeldImageStays: does not protect rebake-source copies of dead builders and temporaries, because the code does not; the exact set is proved.
- HoldingCode.Stores.Prune: which images are surplus is a parameter there, because that machine has no dates; `Retention.Prune` computes it.

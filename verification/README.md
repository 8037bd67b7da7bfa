# Verified model of locron's stateful core

locron is a local job scheduler with a command line client, a daemon and a few release scripts. This
project models six of its components that keep state or parse bytes, and proves what they promise over
whole runs.

- **Operation journal** (`JournalCodec`, `Journal`, `JournalRuns`, `JournalReservations`, `JournalGrowth`).
  An append-only file of length-prefixed frames, each linked to the one before by digest, with a budget
  reserved before any effect and a poison flag for uncertain writes. The hash and the record codec are
  parameters.
- **ZIP catalog admission** (`ZipRow`, `ZipCatalog`, `ZipAdmission`, `ZipWriter`, `ZipArchive`, with `Perms`). The
  byte-level check that local records, central rows and end record (sections 4.3.7, 4.3.12 and 4.3.16 of
  PKWARE APPNOTE) agree and cover every byte, and a writer to hold it against. CRC-32, inflate, name
  decoding and lower-casing are parameters.
- **Maintenance and pruning** (`OrphanSweep`, `PrunePlan`, `PruneProtocol`). The action-budgeted pass
  with its resumable orphan cursor, the two pruning plans, and the mark, remove, finish protocol.
- **Import, reconcile and streaming** (`ImportPlan`, `ImportRuns`, `ImportOutcome`, `Reconcile`,
  `OutputStream`). The import planner and the transaction that applies its plan, the daemon's cursor loop
  with its schedule cache, and the polling loops behind `wait` and `logs --follow`.
- **Bounded probe** (`Probe`). The admission lock, owner, reader threads and quarantine as a step
  relation, with interrupts.
- **Manifest writer** (`ManifestWriter`). The step-by-step writer and its undoing.

Whatever the outside decides is a parameter of the model: when a write stops, which call fails, what
other processes do in between, when a pass has to yield, what the clocks say. Loops and objects of the
source are methods and classes here; each is proved against a function or predicate, and the laws are
proved about those.

Three promises turned out to hold only under a condition. Each has a concrete run that breaks it and a
proof of exactly when it holds: an automatic prune pass stays within the explicit plan if and only if no
removal succeeds after a failed one (`PrefixOfPlanExactly`); waiting for a settled run shows all its
output if and only if no attempt after the one its polls had led to has any (`WaitRun`); and a probe whose
cleanup is not confirmed ends all probing unless an interrupt leaves its exception handler before cleanup
is confirmed or the owner is marked as retained, in which case another probe can always start
(`OneFailureEndsProbing`, `LostQuarantineReadmits`).
The prune protocol is likewise safe if workers do not take up each other's unfinished outputs, and from
every state in which one does it can be broken (`PruningIsSafe`, `OverlapBreaksSafety`).

Where comments and code differ, the code is followed: the writer's cleanup says it removes only objects
the attempt created, but for the directory it goes by what the first look after creating it found.

## Model

| member | source | states |
|---|---|---|
| `JournalCodec.DecodeBytes` | crates/locron-cli/src/windows_journal.rs:180-227 | the reading loop with its running offset, digest and previous record accepts exactly the files that fall apart into frames each linked to the one before, checksummed and acceptable, within both bounds, and returns their records, last digest and length |
| `JournalCodec.ReadFrame` | crates/locron-cli/src/windows_journal.rs:195-220 | a frame is passed over only if it is complete, linked to the expected digest, checksummed and acceptable after the previous record; it is refused only if one of those fails |
| `JournalCodec.Frame` | crates/locron-cli/src/windows_journal.rs:159-178 | a frame exists exactly when the payload serializes and fits the frame limit, and it is 68 bytes longer than the payload |
| `JournalCodec.FrameFields` | crates/locron-cli/src/windows_journal.rs:159-178 | what a reader finds in an encoded frame: its own length, the previous digest, the payload, and the hash of everything before the trailer |
| `JournalCodec.SplitFlattens` | crates/locron-cli/src/windows_journal.rs:188-226 | following the length fields of an accepted file loses no byte |
| `JournalCodec.SplitConcat` | crates/locron-cli/src/windows_journal.rs:188-226 | frames are self-delimiting: bytes after accepted bytes are cut up on their own |
| `JournalCodec.Refused` | crates/locron-cli/src/windows_journal.rs:190-220 | accepted bytes followed by anything that is not an acceptable frame are refused as a whole |
| `JournalCodec.GoodLocal` | crates/locron-cli/src/windows_journal.rs:209-222 | whether a frame stands depends only on itself and its predecessor |
| `JournalCodec.EncodeFrames` | crates/locron-cli/src/windows_journal.rs:159-178 | chained encoding puts record i into frame i, linked to the trailer of frame i-1 |
| `JournalCodec.SplitOfFlatten` | crates/locron-cli/src/windows_journal.rs:188-226 | concatenated frames fall apart into the same frames |
| `JournalCodec.RoundTrip` | crates/locron-cli/src/windows_journal.rs:159-227 | decoding the chained frames of any record list returns exactly those records, the final digest and the length if and only if every record passes its check and the list is within both bounds; otherwise it is refused |
| `JournalCodec.SplitPrefix` | crates/locron-cli/src/windows_journal.rs:188-226 | a prefix of a file falls apart into frames exactly when it is cut where the length fields land, and then into the first of them |
| `JournalCodec.PrefixAcceptedAtBoundaryOnly` | crates/locron-cli/src/windows_journal.rs:180-227 | a prefix of accepted bytes decodes if and only if it is cut at a frame boundary, and then to a prefix of the records |
| `JournalCodec.FindBreak` | crates/locron-cli/src/windows_journal.rs:188-226 | from two different linked frame lists with one final digest it computes two distinct inputs with equal hash or an input that hashes to 32 zero bytes |
| `JournalCodec.BeforeSameFrame` | crates/locron-cli/src/windows_journal.rs:209-222 | journals that end in the same frame already agreed on the digest before it |
| `JournalCodec.DigestCommitsToJournal` | crates/locron-cli/src/windows_journal.rs:188-226 | two different accepted journals with the same last digest yield such a break of the hash |
| `Journal.Admitted` | crates/locron-cli/src/windows_journal.rs:298-308 | an append passes its checks exactly if the object is unpoisoned, the record is acceptable after the last one, and its frame fits both the frame limit and a reserved frame; what it will then write is the frame linked to the current digest |
| `Journal.Journal.Create` | crates/locron-cli/src/windows_journal.rs:238-245 | a new journal is empty, unpoisoned and starts with its reservation |
| `Journal.Journal.Recovered` | crates/locron-cli/src/windows_journal.rs:247-273 | an opened journal holds the decoded chain and no reservation |
| `Journal.Journal.Open` | crates/locron-cli/src/windows_journal.rs:247-273 | opening refuses an empty or undecodable file and otherwise gives an object whose fields are what decoding gives |
| `Journal.Journal.Reserve` | crates/locron-cli/src/windows_journal.rs:281-291 | reserving replaces the reservation if and only if the object is unpoisoned and the new one is within both budgets after what exists |
| `Journal.Journal.Append` | crates/locron-cli/src/windows_journal.rs:293-341 | appending moves file, chain, poison flag and reservation together: unchanged on refusal, poisoned with the bytes that got written on an uncertain write, one record and one frame less reserved on success |
| `JournalRuns.CreatedInv` | crates/locron-cli/src/windows_journal.rs:238-245 | a new journal within budget satisfies the invariant tying file, chain, digest, poison flag and reservation together |
| `JournalRuns.ReopenedInv` | crates/locron-cli/src/windows_journal.rs:247-273 | so does every journal that opening accepts |
| `JournalRuns.DecodeAppended` | crates/locron-cli/src/windows_journal.rs:293-341 | accepted bytes plus the complete frame of an acceptable record decode to the old records plus that one |
| `JournalRuns.DecodeTorn` | crates/locron-cli/src/windows_journal.rs:180-227 | accepted bytes plus any proper non-empty part of such a frame are refused |
| `JournalRuns.DecodeAfter` | crates/locron-cli/src/windows_journal.rs:180-227 | accepted bytes followed by the first n bytes of the frame of an acceptable record decode to the old chain, to nothing, or to the old chain with the record, as n is zero, part of the frame or all of it |
| `JournalRuns.ReservedFits` | crates/locron-cli/src/windows_journal.rs:123-147 | a frame of reserved size fits both bounds and leaves room for every frame still reserved |
| `JournalRuns.StoppedAppend` | crates/locron-cli/src/windows_journal.rs:313-331 | an append that stops part way poisons the object, keeps its chain and leaves a torn frame behind the known bytes |
| `JournalRuns.CompletedAppend` | crates/locron-cli/src/windows_journal.rs:313-340 | an append that completes keeps the invariant and adds exactly its record |
| `JournalRuns.AppendKeepsInv` | crates/locron-cli/src/windows_journal.rs:293-341 | every append, refused, torn or complete, keeps the invariant and loses no record |
| `JournalRuns.ReopenKeepsRecords` | crates/locron-cli/src/windows_journal.rs:247-273 | whenever recovery accepts a file it keeps every record the object knew of |
| `JournalRuns.RunKeepsJournal` | crates/locron-cli/src/windows_journal.rs:238-341 | over every sequence of reserve, append with any I/O outcome and reopen: file, chain, digest and reservation agree, every reserved frame stays within both bounds, and no record is ever lost or changed |
| `JournalRuns.ReopenTorn` | crates/locron-cli/src/windows_journal.rs:247-273 | what recovery makes of a file after a torn append, case by case of how many bytes were written |
| `JournalRuns.TornAppendIsSafe` | crates/locron-cli/src/windows_journal.rs:247-340 | from any reachable journal an append stopped after any number of bytes reopens as exactly the old records, the old records plus the new one, or not at all, and which of them is decided by the byte count alone |
| `JournalRuns.PoisonIsFinal` | crates/locron-cli/src/windows_journal.rs:281-341 | an object that saw an uncertain write accepts no append and no reserve, and changes nothing, in any later sequence of calls |
| `JournalRuns.RefusedAppendChangesNothing` | crates/locron-cli/src/windows_journal.rs:293-341 | a failed append leaves file, chain and reservation unchanged if and only if it was refused before writing; otherwise the object is poisoned |
| `JournalRuns.ReservationHonoured` | crates/locron-cli/src/windows_journal.rs:105-147 | n reserved frames admit any n records that pass their checks and fit the reserved size, as long as no write fails |
| `JournalReservations.ReserveDecides` | crates/locron-cli/src/windows_journal.rs:123-147 | a reservation on an unpoisoned journal is granted exactly if it has frames, of more than 68 bytes and at most 128 KiB, that fit 128 frames and 16 MiB after what the file holds; refused or granted, the file and its records are untouched |
| `JournalReservations.ReserveThenAppend` | crates/locron-cli/src/windows_journal.rs:281-341 | after a granted reservation any records, as many as it has frames, that fit its size and pass their checks are all appended |
| `JournalReservations.CreateThenAppend` | crates/locron-cli/src/windows_journal.rs:238-341 | the same for the reservation a journal is created with |
| `JournalReservations.AppendsSpend` | crates/locron-cli/src/windows_journal.rs:335-339 | each append spends exactly one reserved frame and leaves the reserved size alone |
| `JournalReservations.NothingUnreserved` | crates/locron-cli/src/windows_journal.rs:301-308 | when every reserved frame is spent, or nothing was reserved since opening, every append is refused |
| `JournalGrowth.ObjectGrowth` | crates/locron-cli/src/windows_journal.rs:72-100 | growth is defined exactly for a positive number of slots that hold null or an object within an admissible maximum, without overflow, and is the difference in length times the repetitions |
| `JournalGrowth.GrowthExactly` | crates/locron-cli/src/windows_journal.rs:72-100 | in bytes: a null slot counts four bytes, an occupied one must hold a text in braces, neither may exceed a maximum of at most 131004 bytes, and otherwise there is no growth |
| `JournalGrowth.Preflight` | crates/locron-cli/src/windows_journal.rs:105-121 | a preflight succeeds exactly if the record with its growth fits a frame and that many frames fit both journal bounds, and reserves frames of just that size |
| `JournalGrowth.FillingBound` | crates/locron-cli/src/windows_journal.rs:72-100 | a record with its slots filled is no longer than the record as it stands plus the summed growth, and exactly that long when every slot is filled to its maximum |
| `JournalGrowth.GrowthCoversEveryFilling` | crates/locron-cli/src/windows_journal.rs:72-121 | a reservation preflighted with the growth of all slots admits the record with any admissible objects in the slots, and not a byte is reserved in vain |
| `JournalGrowth.RepeatedGrowth` | crates/locron-cli/src/windows_journal.rs:72-100 | asking for a slot several times is the same as counting it that often |
| `ZipRow.CheckCentral` | scripts/windows_zip.py:40-58 | the checks on a central header hold exactly when the row is an ordinary stored or deflated member without extras whose name ends inside the catalog |
| `ZipRow.CheckLocal` | scripts/windows_zip.py:59-70 | the checks on a local record hold exactly when it repeats the row's fields and name and ends inside the local area |
| `ZipRow.ScanRow` | scripts/windows_zip.py:40-70 | reading a row by absolute positions in the archive gives the same row as reading it from its own bytes and the local area |
| `ZipRow.ReadRow` | scripts/windows_zip.py:40-70 | a row that is read lies within the bytes it is read from, and its local record within the local area |
| `ZipCatalog.CatalogStart` | scripts/windows_zip.py:27-35 | an accepted end record gives the start it names, and the catalog from there, of the size it names, ends where the end record begins |
| `ZipCatalog.ScanRows` | scripts/windows_zip.py:37-78 | the scanning loop visits exactly the expected number of rows back to back and ends at the end record, whatever it accumulates |
| `ZipCatalog.ScanIsFold` | scripts/windows_zip.py:37-78 | checking while reading decides what reading everything and then checking decides |
| `ZipCatalog.TallyDecides` | scripts/windows_zip.py:53-75 | the running total and the running name set refuse exactly when the rows together repeat a lower-cased name or overrun the limit, and otherwise hold the totals of all rows |
| `ZipCatalog.WalkRanges` | scripts/windows_zip.py:79-85 | the walk over the sorted ranges succeeds if and only if they tile the area before the catalog |
| `ZipCatalog.ScanVerdict` | scripts/windows_zip.py:37-78 | the scan with running tables accepts exactly the row lists that read and stay within the totals |
| `ZipCatalog.ValidateRows` | scripts/windows_zip.py:37-86 | the loop over the rows and the walk together accept exactly the consistent row lists and return their sizes |
| `ZipCatalog.ValidateCatalog` | scripts/windows_zip.py:11-86 | the whole validator returns the name-to-size map of exactly the archives whose end record, rows and local records are sound, consistent and tile the file |
| `ZipAdmission.RowReaderSound` | scripts/windows_zip.py:40-70 | every row read has an expected name, a positive extent inside the local area, and the length its name field says |
| `ZipAdmission.LocalsCoverOnce` | scripts/windows_zip.py:79-85 | in an admitted archive each byte before the catalog lies in exactly one local record |
| `ZipAdmission.CentralCoverOnce` | scripts/windows_zip.py:37-78 | each byte of the catalog lies in exactly one central row |
| `ZipAdmission.EveryByteHasOneOwner` | scripts/windows_zip.py:27-86 | every byte of an admitted archive belongs to exactly one local record, one central row or the end record, with no gap and no overlap |
| `ZipAdmission.NamesDistinct` | scripts/windows_zip.py:53-55 | names distinct in lower case are distinct |
| `ZipAdmission.MembersAreTheExpected` | scripts/windows_zip.py:27-86 | the member names of an admitted archive are exactly the expected set, by pigeonhole, and each size is its row's |
| `ZipAdmission.ReadShaped` | scripts/windows_zip.py:37-78 | reading concatenated rows gives the rows one by one, if and only if their number is right and each reads |
| `ZipAdmission.ConsistentPermuted` | scripts/windows_zip.py:53-85 | the checks on all rows together do not depend on their order |
| `ZipAdmission.SizesPermuted` | scripts/windows_zip.py:71-75 | nor does the size map when names are distinct |
| `ZipAdmission.RowOrderIsIrrelevant` | scripts/windows_zip.py:37-86 | permuting the central rows of an archive changes neither whether it is accepted nor the name-to-size map, for accepted and refused archives alike |
| `ZipAdmission.RowReaderLocal` | scripts/windows_zip.py:40-70 | reading a row looks at no byte after it |
| `ZipWriter.WrittenRowReads` | scripts/windows_zip.py:40-70 | the reader gets back the row of a written member from wherever its local record was put |
| `ZipWriter.WrittenAdmitted` | scripts/windows_zip.py:11-86 | a written archive is admitted with exactly the written rows |
| `ZipWriter.WriterAndValidatorAgree` | scripts/windows_zip.py:11-86 | any four or five members, stored or deflated, with expected names distinct in lower case, ordinary attributes and any values in the free fields, laid out as records, rows and end record within the limits, are accepted with exactly the expected names and the right sizes |
| `ZipWriter.ReadMember` | scripts/windows_zip.py:89-115 | a member that decodes has the checksum of its header, and the announced size whenever it is deflated or its record lies within the data |
| `ZipWriter.OrdinaryExactly` | scripts/windows_zip.py:56-58 | the attribute fields that are admitted are exactly those made of an unspecified or regular file kind, any mode, and DOS bits without the directory and reparse bits |
| `ZipWriter.WrittenMembersDecode` | scripts/windows_zip.py:89-115 | reading each member of a written archive where its row points returns the content that was written, inflated if it was packed |
| `ZipArchive.AcceptedIsPartitioned` | scripts/windows_zip.py:27-86 | each byte of every archive the validator accepts has exactly one owner |
| `ZipArchive.AcceptedMembers` | scripts/windows_zip.py:11-86 | the table the validator returns holds exactly the expected names, each with its row's size |
| `ZipArchive.CatalogIsShaped` | scripts/windows_zip.py:37-78 | every catalog that reads is a concatenation of rows as long as their name fields say |
| `ZipArchive.AcceptedInAnyOrder` | scripts/windows_zip.py:37-86 | every accepted archive with its central rows in any other order is accepted with the same sizes |
| `ZipArchive.AcceptedBytes` | scripts/windows_zip.py:11-86 | about the bytes themselves: an accepted archive is local records, one row per expected name that is an ordinary unencrypted stored or deflated file without extras and that its local header and name repeat, and the one end record that fits them; names differ in lower case, archive and contents are within the limit |
| `ZipArchive.MemberIsContained` | scripts/windows_zip.py:59-70 | the local record of each accepted row ends before the catalog by its own length fields |
| `ZipArchive.MemberHasItsSize` | scripts/windows_zip.py:89-115 | whatever a member of an accepted archive decodes to has the size the catalog announced and the checksum in its header |
| `OrphanSweep.Pass.Ready` | crates/locron-cli/src/maintenance.rs:111-119 | a pass goes on only with budget left, nothing deferred and nobody waiting at that moment |
| `OrphanSweep.Pass.TakeAction` | crates/locron-cli/src/maintenance.rs:121-136 | an action is counted only while the budget lasts; otherwise the pass is deferred or has an error |
| `OrphanSweep.Cursor.Reset` | crates/locron-cli/src/maintenance.rs:50-55 | a reset cursor has no sweep in progress |
| `OrphanSweep.OpenNext` | crates/locron-cli/src/maintenance.rs:625-669 | moving to the next directory loses nothing of what the sweep still has to visit |
| `OrphanSweep.TakeEntry` | crates/locron-cli/src/maintenance.rs:682-690 | the next entry, pending or listed, comes off the front of what is left |
| `OrphanSweep.Settle` | crates/locron-cli/src/maintenance.rs:692-744 | settling an entry unlinks it exactly if it is an orphan, and nothing when the pass must stop first |
| `OrphanSweep.Unlink` | crates/locron-cli/src/maintenance.rs:727-744 | a verified orphan is unlinked within the action budget, or kept for the next pass when the budget is spent |
| `OrphanSweep.Begin` | crates/locron-cli/src/maintenance.rs:615-620 | a pass continues the sweep in progress where it stands, or lists the output root anew |
| `OrphanSweep.Turn` | crates/locron-cli/src/maintenance.rs:621-745 | each turn settles a front part of what is left and unlinks the orphans in it, or leaves everything in place; it fails only if something outside breaks |
| `OrphanSweep.Drive` | crates/locron-cli/src/maintenance.rs:621-747 | the sweep loop ends finished, paused with the rest kept, or failed, and has settled exactly what is no longer left |
| `OrphanSweep.RemoveVerifiedOrphans` | crates/locron-cli/src/maintenance.rs:600-747 | one pass of the sweep begins or continues it, settling the next entries in order, within the action budget |
| `OrphanSweep.Maintain` | crates/locron-cli/src/maintenance.rs:183-304 | a whole pass keeps the cursor sound, removes at most 100 files and only orphans, and succeeds whenever nothing breaks and no earlier phase left an error, however early it is asked to yield, with the sweep then standing exactly where it stopped; it forgets its cursor when it fails, and undisturbed it finishes the sweep or spends its whole remaining budget |
| `OrphanSweep.SweepSoFar` | crates/locron-cli/src/maintenance.rs:600-747 | at every point between passes, what was settled and what is left add up to the listing, and what was unlinked are the orphans among the settled |
| `OrphanSweep.InterruptedSweepIsOneSweep` | crates/locron-cli/src/maintenance.rs:600-747 | any sequence of successful passes that finishes a sweep has settled every listed entry once and in order and removed exactly the orphans, as one uninterrupted sweep would |
| `OrphanSweep.OrphansAreExactly` | crates/locron-cli/src/maintenance.rs:692-726 | the orphans are exactly the canonical, regular, unreferenced and old enough files |
| `PrunePlan.PlanExplicit` | crates/locron-cli/src/main.rs:3661-3685 | the selection loop refuses exactly unsound accounting and byte counts beyond 64 bits, and otherwise selects the shortest prefix that holds every over-age output and reaches the byte limit, or the whole list, with its exact byte count |
| `PrunePlan.ShortestIsUnique` | crates/locron-cli/src/main.rs:3661-3685 | there is only one such prefix |
| `PrunePlan.PlanIsShortest` | crates/locron-cli/src/main.rs:3661-3685 | stopping at the first young candidate within the limit gives the shortest sufficient prefix of an oldest-first list |
| `PrunePlan.PruneLimits` | crates/locron-cli/src/maintenance.rs:486-519 | an automatic pass tries ready candidates in order and removes the successful ones, up to the shortest prefix that is enough given what was really freed, or until it has to stop |
| `PrunePlan.AutomaticFollowsPlan` | crates/locron-cli/src/maintenance.rs:486-519 | a pass without a failed removal removes a prefix of the explicit plan, and all of it unless it had to stop |
| `PrunePlan.PrefixOfPlanExactly` | crates/locron-cli/src/maintenance.rs:486-519 | in general what a pass removes is a prefix of the explicit plan if and only if no removal succeeds after a failed one |
| `PrunePlan.FailedRemovalLeavesPlan` | crates/locron-cli/src/maintenance.rs:486-519 | two outputs and one failed removal that make a pass remove an output the plan keeps |
| `PruneProtocol.StepKeepsFiles` | crates/locron-cli/src/explicit_prune.rs:61-102 | each step of marking, unlinking, syncing and finishing keeps what is known of every file |
| `PruneProtocol.StepKeepsInv` | crates/locron-cli/src/maintenance.rs:521-578 | each step, a stop included, keeps rows, files and workers in agreement |
| `PruneProtocol.PruningIsSafe` | crates/locron-cli/src/main.rs:3688-3692 | in every interleaving of workers that do not take up each other's outputs, cut anywhere: a pruned row has no file, and a removed file has a pending or pruned row |
| `PruneProtocol.OverlapBreaksSafety` | crates/locron-cli/src/maintenance.rs:306-325 | the condition is needed: from every state in which a worker takes up an output another has not durably removed, a short run ends with a pruned row whose file is back |
| `PruneProtocol.UnsettledStopBreaksSafety` | crates/locron-cli/src/explicit_prune.rs:61-102 | if a stop left an unlink neither durable nor undone, the next resume would find no file, finish without a sync, and a later stop could bring the file of a pruned row back |
| `PruneProtocol.ResumeCompletes` | crates/locron-cli/src/maintenance.rs:306-325 | from any reachable state a worker completes any pending output nobody else is handling: its row becomes pruned, its file is durably absent, and no other row changes |
| `PruneProtocol.PruneCompletes` | crates/locron-cli/src/main.rs:3688-3692 | pruning a finalized output to the end leaves its row pruned and its file durably absent, and touches no other row or file |
| `PruneProtocol.ResumeOutputPrunes` | crates/locron-cli/src/maintenance.rs:306-325 | within its action budget the resume loop prunes the pending rows it was given, in order, with their files absent, and changes no other row |
| `ImportPlan.ByName` | crates/locron-cli/src/main.rs:3417-3420 | the name index gives the one live job of a name, and none only if no live job has it |
| `ImportPlan.ClaimedMember` | crates/locron-cli/src/main.rs:3448-3456 | a destination is in the claimed set exactly if an earlier source resolved to it |
| `ImportPlan.PlanImport` | crates/locron-cli/src/main.rs:3399-3537 | planning succeeds if and only if no source resolves to two jobs and no two sources to one, and then plans a no-op, update or create for every source in order, with IDs that avoid everything owned so far; what that does to each job is stated over the stores before and after by `ImportOutcome.ImportOutcome` |
| `ImportRuns.CheckDuplicates` | crates/locron-cli/src/main.rs:3293-3308 | reading a document accepts exactly those whose sources all differ in ID and in name |
| `ImportRuns.NewIdIsNew` | crates/locron-cli/src/main.rs:3504-3514 | a created ID belongs to no live or removed job and to no job created earlier in the plan, even when the source's own ID belongs to a removed job |
| `ImportRuns.PlanIsAccepted` | crates/locron-store/src/store.rs:1345-1401 | a plan passes every check of the applying transaction on the store it was made against |
| `ImportRuns.PlanIsSeparate` | crates/locron-cli/src/main.rs:3423-3530 | no two actions of a plan are about one job or give out one name |
| `ImportRuns.AfterTracks` | crates/locron-store/src/store.rs:1402-1440 | after any number of actions exactly the jobs of those actions have changed, to the name and content planned for them |
| `ImportRuns.UniqueAfterEveryAction` | crates/locron-store/src/store.rs:1345-1440 | live names and IDs stay unique after every single action of an accepted plan, renames included, and a created ID is new at its turn |
| `ImportRuns.AcceptedImport` | crates/locron-store/src/store.rs:1340-1440 | the same for a plan applied to a store that has changed since it was made, if it is still accepted; every source ends up under its planned ID and no other job changes |
| `ImportRuns.ReimportDoesNothing` | crates/locron-cli/src/main.rs:3399-3537 | after a document was applied, planning it again resolves every source to the job it made or updated, gives only no-ops, and finds the settings unchanged |
| `ImportRuns.ImportIsIdempotent` | crates/locron-cli/src/main.rs:3399-3537 | applying that second plan is accepted and leaves the whole store as it was |
| `ImportOutcome.ImportOutcome` | crates/locron-cli/src/main.rs:3431-3530 | after an import each source is in the job with its ID, else with its name, else in a new one; the cursor is kept unless the schedule changed and is then now, the revision is raised by one exactly if name or content changed, and a created job has revision 1 and cursor now |
| `ImportOutcome.OwnIdKept` | crates/locron-cli/src/main.rs:3504-3514 | a source that resolves to no job is created under its own ID unless a job, live or removed, owns it or an earlier source was given it |
| `ImportOutcome.RefusedExactly` | crates/locron-cli/src/main.rs:3439-3456 | a document is refused exactly if a source's ID and name belong to two live jobs, or two sources mean the same live job |
| `ImportOutcome.AcceptedExactly` | crates/locron-store/src/store.rs:1345-1401 | a plan is accepted by a store that changed since exactly if every source still resolves alike, created IDs are still free, updated jobs are at the planned revision and unchanged jobs are unchanged |
| `ImportOutcome.NoLostUpdate` | crates/locron-store/src/store.rs:1345-1401 | an accepted plan overwrites no revision it was not planned against |
| `Reconcile.MaterializeKeeps` | crates/locron-store/src/store.rs:1643-1648 | a compare-and-set that succeeds keeps every chain and everything recorded |
| `Reconcile.MaterializeAppends` | crates/locron-store/src/store.rs:1643-1648 | the compare-and-set goes through exactly for a live job at that revision whose cursor is where the window begins, and then appends that one window, moves that cursor, ends a pause, switches the job off exactly if it is resolved, and alters no other track or job |
| `Reconcile.PerformKeeps` | crates/locron-store/src/store.rs:1232-1278 | no edit by another client (add, revise, switch, remove, a rival reconciler) breaks a chain or alters a recorded definition |
| `Reconcile.Adapter.constructor` | crates/locron-cli/src/main.rs:4220-4252 | an adapter starts with an empty cache and no clock sample |
| `Reconcile.Adapter.Compiled` | crates/locron-cli/src/main.rs:4266-4287 | the schedule used for a job equals a fresh compile of its revision, and no other revision of the job stays cached |
| `Reconcile.Adapter.List` | crates/locron-cli/src/main.rs:4238-4252 | the pass works on the jobs as listed, and drops every cached schedule that is not of a listed revision |
| `Reconcile.Adapter.ReconcileJob` | crates/locron-cli/src/main.rs:4253-4341 | one job is left alone if the clock is not past its cursor, else gets one window from its listed cursor to now; it fails exactly if the schedule does not compile or evaluate or somebody changed the job, and then the store is as before |
| `Reconcile.Adapter.Commit` | crates/locron-cli/src/main.rs:4324-4339 | committing a window succeeds exactly if the job is live at the listed revision with the listed cursor |
| `Reconcile.Adapter.Turn` | crates/locron-cli/src/main.rs:4253-4341 | the same for a store that others have edited arbitrarily just before |
| `Reconcile.Adapter.Visit` | crates/locron-cli/src/main.rs:4253-4341 | after a successful walk over the listing every listed revision has been evaluated up to now; with nobody else writing the walk succeeds exactly if every listed schedule that is due compiles and evaluates, each of those got exactly the window a fresh evaluation gives, and nothing else changed; a walk that fails stopped at the first job that could not be evaluated with exactly the jobs before it stepped |
| `Reconcile.Adapter.PassOver` | crates/locron-cli/src/main.rs:4238-4341 | the same in terms of the listed jobs and their current revisions |
| `Reconcile.Adapter.Reconcile` | crates/locron-cli/src/main.rs:4220-4347 | a pass with any clock values and any interference keeps cache and chains sound; only a successful one moves the clock sample and clears the startup flag; with nobody else writing it succeeds exactly if every schedule that is due compiles and evaluates, gives exactly the listed jobs whose cursor the clock has passed the window a fresh evaluation gives, as missed time exactly after startup, a clock jump or a pause, ends their pause, and switches off exactly those that are thereby resolved |
| `Reconcile.JumpIsSkew` | crates/locron-cli/src/main.rs:4223-4232 | a clock discontinuity is exactly a skew of more than one second between wall and monotonic clock, either way; a monotonic clock that runs back counts as standing still |
| `Reconcile.SwitchOffAndOn` | crates/locron-store/src/store.rs:1450-1488 | switching a job off and on again makes the next evaluation count as missed time and changes nothing else |
| `Reconcile.ExactlyOnTime` | crates/locron-cli/src/main.rs:4238-4341 | walking the listing steps the current revisions of exactly the listed jobs, whatever their order |
| `Reconcile.EachInstantOnce` | crates/locron-cli/src/main.rs:4254-4341 | a chain of windows considers each instant after its first cursor and up to its last exactly once and no other instant |
| `Reconcile.TimeCoveredOnce` | crates/locron-cli/src/main.rs:4238-4341 | between any two reachable stores the windows a revision gained cover exactly the time between its two cursors, once, each evaluated with a fresh compile of the same definition |
| `Reconcile.RunsNeverRepeat` | crates/locron-cli/src/main.rs:4289-4307 | at one revision run instants strictly increase over all passes, so none is ever created twice |
| `Reconcile.PassesAddUp` | crates/locron-cli/src/main.rs:4289-4307 | when nothing is omitted, many passes create exactly the runs one pass over the whole time would create |
| `OutputStream.EventsEvolve` | crates/locron-cli/src/main.rs:2165-2209 | every interleaving of appends, renames, new attempts and the end of the run only extends what was there, and never a finalised attempt |
| `OutputStream.EmitAvailable` | crates/locron-cli/src/main.rs:2165-2209 | a poll fails exactly if it finds fewer frames than were emitted, and otherwise emits exactly the selected frames beyond them |
| `OutputStream.TagIsExactly` | crates/locron-cli/src/main.rs:2211-2219 | the frames that are emitted for a channel choice are exactly those of that channel, or all |
| `OutputStream.RegressedExactly` | crates/locron-cli/src/main.rs:2176-2201 | that failure is reported exactly when frames were already emitted and the rename fell between the poll's two reads |
| `OutputStream.WaitTurn` | crates/locron-cli/src/main.rs:2070-2105 | a turn fails exactly by a read error, by a rename between its reads once frames were emitted, or at the last attempt number; else it ends exactly when the run was seen ended, moves on exactly when the attempt was final, and has emitted exactly what it found |
| `OutputStream.WaitRun` | crates/locron-cli/src/main.rs:2062-2106 | where waiting ends, at which attempt and with which frames is decided by the polls; ending on a settled run it has emitted all frames if and only if no attempt after the one its earlier polls had led it to has any |
| `OutputStream.WaitShowsPrefix` | crates/locron-cli/src/main.rs:2062-2106 | at every moment of a wait, whatever its outcome, the emitted frames are a prefix of the frames of all attempts in order |
| `OutputStream.PatientWaitShowsAll` | crates/locron-cli/src/main.rs:2062-2106 | a wait that has had a turn for every attempt but the last since those were final, and then sees the settled end of the run, has shown every frame of every attempt |
| `OutputStream.FollowedFits` | crates/locron-cli/src/main.rs:2099-2103 | the followed attempt number stays within 16 bits, and a final attempt is moved on from exactly below the last number |
| `OutputStream.FaultEndsWait` | crates/locron-cli/src/main.rs:2176-2193 | a read error ends a wait as failed in that very turn |
| `OutputStream.WaitMissesLaterAttempt` | crates/locron-cli/src/main.rs:2083-2097 | waiting for a run with two finished attempts that ends well and has emitted only the first one's frame |
| `OutputStream.FollowAttempt` | crates/locron-cli/src/main.rs:2108-2144 | after every turn exactly the selected frames that turn found have been shown; following fails only by a read error or a rename between two reads, and when it ends well the attempt is final and all its selected frames have been shown |
| `OutputStream.FollowTurn` | crates/locron-cli/src/main.rs:2119-2142 | a turn ends following exactly when it finds the attempt final, and shows exactly what it found |
| `OutputStream.FollowShowsPrefix` | crates/locron-cli/src/main.rs:2108-2144 | what following has shown is at every moment a prefix of the attempt's selected frames |
| `OutputStream.FollowingPrefix` | crates/locron-cli/src/main.rs:2062-2106 | what a follower has emitted is a prefix of all selected frames in order |
| `OutputStream.EmittedOnce` | crates/locron-cli/src/main.rs:2165-2209 | such a prefix repeats no frame and is strictly in order |
| `Probe.ReadStream` | scripts/windows_probe.py:45-56 | the reader retains a prefix of its stream of at most 4097 bytes, and without an error it has either read all of it or is over the limit |
| `Probe.ActKeepsSound` | scripts/windows_probe.py:73-166 | every step of a caller, exceptions and interrupts included, keeps what must hold at its point of the probe |
| `Probe.ReactKeepsSound` | scripts/windows_probe.py:45-56 | so does every step of a child or reader |
| `Probe.NextKeepsInv` | scripts/windows_probe.py:120-166 | exactly the caller between taking and giving back the lock holds it |
| `Probe.ProbeIsBounded` | scripts/windows_probe.py:39-166 | in every interleaving at most one probe owns admission, buffers stay within 4097 bytes, a stream is closed only when no reader can touch it, success means the child has exited and both readers finished within 4096 bytes, and a probe that has ended keeps admission only after an unconfirmed cleanup and otherwise left no child and no reader behind |
| `Probe.ProbeCanSucceed` | scripts/windows_probe.py:119-166 | output of any size up to 4096 bytes on each stream can be captured: from every state in which nobody holds admission a caller that has not begun has a run in which the probe ends well and gives admission back |
| `Probe.OneFailureEndsProbing` | scripts/windows_probe.py:157-166 | in every run in which no interrupt leaves the handler before cleanup is confirmed or its owner marked as retained, nothing is spawned after an unconfirmed cleanup and the lock stays held |
| `Probe.LostQuarantineReadmits` | scripts/windows_probe.py:157-166 | that condition is needed: from every state in the handler up to that mark such an interrupt lets another caller in, which spawns while the first one's child and readers are as they were |
| `ManifestWriter.Disk.constructor` | scripts/render-winget-manifest.py:40-54 | a disk starts with the given contents and an empty history |
| `ManifestWriter.Disk.Lookup` | scripts/render-winget-manifest.py:22-26 | looking at a path reports what is there, and nothing changes when nobody else is at work |
| `ManifestWriter.Disk.Make` | scripts/render-winget-manifest.py:50-51 | creating never opens an existing object |
| `ManifestWriter.Disk.Write` | scripts/render-winget-manifest.py:52-53 | whatever others did before, writing through a stream changes the content of the opened object only; another object at its path is left alone |
| `ManifestWriter.Disk.RemoveRecorded` | scripts/render-winget-manifest.py:67-84 | only an object that still has the recorded identity and kind is removed, and a directory only when nothing is in it |
| `ManifestWriter.EncodeAll` | scripts/render-winget-manifest.py:31-38 | preparation succeeds exactly for a non-empty set of encodable documents with plain leaf names |
| `ManifestWriter.LeafStaysInside` | scripts/render-winget-manifest.py:33-35 | the accepted names are exactly those that, read as a path with either separator, name an entry of the output directory itself, on no other drive or stream |
| `ManifestWriter.MakeOutput` | scripts/render-winget-manifest.py:40-40 | an existing output is refused, and at most missing parents are created besides it |
| `ManifestWriter.WriteFile` | scripts/render-winget-manifest.py:46-54 | whatever fails on the way, every file that was created is recorded |
| `ManifestWriter.OpenNew` | scripts/render-winget-manifest.py:47-51 | a file is created only in the directory that was recorded |
| `ManifestWriter.FillFile` | scripts/render-winget-manifest.py:52-54 | writing, flushing and closing touch nothing but the new file, which then holds its document |
| `ManifestWriter.WriteFiles` | scripts/render-winget-manifest.py:46-54 | the files written so far hold their documents and are the only new objects |
| `ManifestWriter.TakeBack` | scripts/render-winget-manifest.py:59-75 | one step of the undoing takes back the last recorded file, or leaves everything when the directory was replaced |
| `ManifestWriter.TakeBackAll` | scripts/render-winget-manifest.py:59-75 | the reverse loop removes recorded objects only, and undisturbed it removes them all |
| `ManifestWriter.CleanUp` | scripts/render-winget-manifest.py:55-89 | undisturbed, cleanup restores the filesystem exactly as it was before the directory was made; disturbed, it removes only objects whose identity and kind were recorded, and reports a problem unless the output is gone by its own removal |
| `ManifestWriter.WriteDocuments` | scripts/render-winget-manifest.py:29-90 | without interference a failure at any open, write, flush or close leaves the output absent and every earlier object untouched apart from new parents, and a success leaves exactly the documents; without failing calls an absent output with usable parents and distinct writable documents always succeeds; with any interference only recorded objects are removed, and every recorded file is one this attempt created |

## Left out

- Reconcile.Adapter.Reconcile: does not count inserted runs, because with instants that never repeat the count is the number of selected instants; overlap policies and queueing of the created runs are not modelled.
- ImportRuns.PlanIsAccepted: compares definitions and tags as values, where the applying transaction compares their stored JSON text, which is taken to be the serialization of the value.
- ImportPlan.PlanImport: sources are planned in the order given; the sort by name and the checks on UUID spelling, metadata, schedules and redacted values that precede planning are not modelled.
- OutputStream.WaitRun: outputs are not pruned while they are followed, and a file is read at one moment; the byte format of frames and its checksums are not modelled.
- Probe.ProbeIsBounded: a child that a spawn call created before being interrupted inside that call is not tracked, because the code never learns of it.
- ManifestWriter.WriteDocuments: taking the identity of the stream just opened is assumed to succeed, and others do not act between an identity check and the removal that follows it, which the code does not claim to cover.
- PruneProtocol.PruningIsSafe: directory syncs succeed, because a later pass that finds the file missing finishes without another sync.
- OrphanSweep.Turn: a directory that stops being safe while it is being scanned, whose remaining entries the code drops, is not modelled; the listing is fixed.
- OrphanSweep.Maintain: the phases of a pass before the orphan sweep appear only by how many actions they use and how they end.
- ZipWriter.WriterAndValidatorAgree: deflating is a parameter: a packed member is any bytes the decoder inflates to its content.
- JournalCodec.DecodeBytes: the file is a byte sequence; handles, sharing and private permissions of the Windows file are not modelled.
- SHA-256, JSON text, CRC-32, DEFLATE, UTF-8 and lower-casing are parameters with small laws.
- The SQLite store beyond the calls these components make, the runner, the daemon loop, IPC and schedule enumeration.
- Argument parsing, rendering of results and tables, exit codes, and the plaintext and redaction rules of exports.
- Self-update, URL import, signing, publishing and smoke scripts, which are network clients and external tools.
- PE header and import reading of the release script, the Windows bootstrap, MCP arguments and paired evidence checks, which compare fields one by one without lasting state.
- The path checks of an explicit prune before its first removal.

# A verified model of the pgBackRest plugin for CloudNativePG

The plugin archives PostgreSQL's WAL segments to a pgBackRest repository and restores them from it. Both directions
work in batches: the plugin uploads or downloads more files than PostgreSQL asked for, concurrently, and remembers the
extra ones in a spool directory so that later requests can be answered from there. The project models that protocol
and five smaller parts that keep state: segment names, the caching Kubernetes client, the choice of a backup,
the sidecar injection, and the role that lets the instance read its secrets.

## How the model is organised

| files | what they hold |
|---|---|
| `Wrappers`, `Common`, `Paths`, `Hex`, `WalSegment` | Go path and string functions, shared definitions, fixed-width hexadecimal numbers, segment names and `NextSegments` on wrapping int32 fields |
| `Spool` | the spool directory as a map from names to contents, with operations that the operating system may refuse |
| `Gather`, `WalArchive` | the batch to archive, and its upload by one goroutine per file; a schedule is any sequence of goroutine numbers |
| `ArchiveMachine`, `ArchiveService`, `ExactlyOnce` | archiving as a step machine, the Archive call as a method, and the two connected: every sequence of calls is a run of the machine and therefore safe |
| `Restorer`, `RestoreService`, `RestoreRuns` | the concurrent download, the Restore call as a method, and runs of calls against an archive that grows |
| `TtlCache`, `TtlRuns` | the caching client as a class, and its interleavings with a changing cluster |
| `Catalog` | the scans of the backup catalog |
| `Roles`, `Credentials`, `Reconciler` | the role, the loader of credentials, and the reconciliation that keeps the role |
| `Sidecar` | the in-place changes to a pod |

Each method is proved equal to a function of its inputs and the old state, and the results are proved about those
functions. Each call to pgBackRest, the Kubernetes API or the file system is a parameter that says how it goes, so a
result that quantifies over the parameters holds for every pattern of failures.

## Assumptions

- The archive is write-once by name and may grow at any moment, also while a call downloads; archive-get writes the
  whole content or nothing. An exit status of 0 means that the file was in the archive when the call ended, and the
  exit status for a missing file that it was not there when the call started. The restore source stays the same
  within a run.
- Destination paths lie outside the spool directory, and the directory exists. The spool starts empty.
- PostgreSQL makes one Archive call at a time (internal/pgbackrest/archiver/archiver.go:100). A Backup, a stopped
  process and any interleaving of the goroutines may come between its steps. It makes one Restore call at a time, too; a
  call may lose its answer or stop at any moment of its downloads.
- Requested restore names are canonical, that is, in upper case; `ListStartsWithRequest` shows that this is exactly what
  is needed for the requested file to be the first of its own list.
- archive-push fails while the stanza is missing; creating a stanza that exists changes nothing.
- Archiving and restoring use the same directory (internal/cnpgi/operator/lifecycle.go:395-399,
  internal/cnpgi/common/wal.go:118-124 and 305), and markers are empty files. Runs of the two are therefore separate
  phases with an empty spool between them. `SuccessMeansPushedUnlessForeignMarker`, `LeftOverFileIsServed` and
  `ArchiveMarkerIsServedEmpty` say what a file left by the other phase would do: it is the one thing that makes a
  successful Archive call leave nothing in the repository, and a marker is restored as an empty WAL.
- The clock of the caching client never goes back, and the base client answers with an object that has the requested key.
- The API server reads policies without wildcards.
- Times and LSNs of the catalog arrive parsed, with a case for malformed ones; an LSN that does not parse is not below any
  target. A backup's first WAL name has at least eight characters.

## Where the code differs from what it says

- internal/pgbackrest/restorer/wal.go:183-186 says that the partial file is used only when the full one fails to
  download. The code downloads both at once, and the partial file takes the full file's place in the spool. When the full
  file was delivered and PostgreSQL asks for it again, it gets the partial content if that was fetched too, and "end of
  WAL" if the partial file was missing and the pod can stream. `AskingAgainDuringPromotion` shows that it gets the full
  file exactly in the other cases, and `MissingPartialRaisesFlag` that the missing partial file ends the stream for the
  next file too.
- internal/cnpgi/operator/specs/role.go:66-89 is there to grant the names that the archives refer to. An empty list of
  resource names stands for all names, and the source writes one when no secret is referred to, as for repositories with
  automatic credentials. `SecretsAreLeastPrivilegeExactly` and `ArchivesAreLeastPrivilegeExactly` say when the role
  grants exactly what is referred to.
- internal/pgbackrest/catalog/catalog.go:87-88 speaks of the start time of the first backup; the code returns the time
  at which it stopped. The model follows the code; `FirstRecoverabilityPoint` says when the two are the same.
- internal/pgbackrest/catalog/catalog.go:208-210 takes the first hit from the end for the latest backup. `ClosestExactly`
  says for which catalogs that is so, and `ScanMissesTheClosest` has one for which it is not. Where stop times are
  distinct, they are those in the order of stop times.
- internal/pgbackrest/archiver/command.go:44-119 recognises the requested file by a suffix test. On well-formed WAL names
  this is equality; `SuffixTestNeedsGrammar` has two other names for which it is not.
- The cache of internal/cnpgi/instance/internal/client/client.go is invalidated before the write. A lookup in between
  brings the old object back (`OverlapServesOldObject`). `StaleAnswerNeedsOverlap` says
  exactly when an answer is stale.

## Model

| member | source | states |
|---|---|---|
| WalSegment.ParsePrintedName | internal/cnpgi/common/wal_import.go:104-152 | Parsing the printed name of any segment with fields in [0, 2^31), alone or behind a directory, gives the segment back, and the name is a WAL file name. |
| WalSegment.GrammarExactly | internal/cnpgi/common/wal_import.go:46-68 | A name is in the grammar if and only if it is 24 digits, alone or followed by ".partial" or by an offset and ".backup", or eight digits followed by ".history". |
| Hex.DigitForms | internal/cnpgi/common/wal_import.go:149-152 | Digits are printed in upper case and read in both cases. |
| WalSegment.PrintParsedName | internal/cnpgi/common/wal_import.go:104-152 | Printing the segment of an accepted name gives the upper-case form of its last path element. |
| WalSegment.AcceptedNames | internal/cnpgi/common/wal_import.go:104-136 | A name is accepted if and only if its last element has 24 hexadecimal digits and each group of eight starts with a digit below 8. |
| WalSegment.NameInjective | internal/cnpgi/common/wal_import.go:149-152 | Different segments of natural timelines have different names, also those whose log or segment numbers have wrapped to negative ones. |
| WalSegment.NameOrder | internal/cnpgi/common/wal_import.go:149-152 | The string order of names is the order of timeline, log and segment. |
| WalSegment.SegmentsFillALogFile | internal/cnpgi/common/wal_import.go:155-160 | For the segment sizes from 1 MB to 1 GB, the segments of a log file fill 4 GB exactly, and leaving the last one out still leaves three. |
| WalSegment.NextSegments | internal/cnpgi/common/wal_import.go:167-194 | The loop returns the given number of segments, of which element i is i carry steps after the start, with the version and segment-size defaults of the source and int32 wrap-around. |
| WalSegment.NthOrdinal | internal/cnpgi/common/wal_import.go:167-194 | While the ordinal has a log number below 2^31, element i is in range, on the same timeline, and i ordinals after the start. |
| WalSegment.NextSegmentsAreOrdinalAddition | internal/cnpgi/common/wal_import.go:167-194 | The whole list is ordinal addition on one timeline if and only if its last ordinal still has a log number below 2^31. |
| WalSegment.FirstWrap | internal/cnpgi/common/wal_import.go:167-194 | The first ordinal beyond that has the log number -2^31. |
| WalSegment.NthOrdinalInCycle | internal/cnpgi/common/wal_import.go:167-194 | From any int32 log number and any segment number below the base, element i is i ordinals on, less a whole number of cycles of 2^32 log files, on the same timeline. |
| WalSegment.NextSegmentsDiffer | internal/cnpgi/common/wal_import.go:167-194 | Within one cycle no segment is listed twice, however the numbers wrap. |
| WalSegment.NextSegmentsRepeatExactly | internal/cnpgi/common/wal_import.go:167-194 | From a segment in range of its log file, two elements are equal if and only if they are a whole number of cycles apart. |
| WalSegment.OrdinalOrder | internal/cnpgi/common/wal_import.go:155-194 | On one timeline, ordinals identify and order the in-range segments. |
| WalSegment.NextNamesIncrease | internal/cnpgi/common/wal_import.go:149-194 | The names of the list strictly increase as strings. |
| WalSegment.NextSegmentsAreContiguous | internal/cnpgi/common/wal_import.go:155-194 | Without a skipped segment, element i starts i segment sizes after the start in the 64-bit WAL, with no gap and no overlap. |
| WalSegment.LastSegmentByVersion | internal/cnpgi/common/wal_import.go:167-194 | Before version 9.3 the last 16 MB segment of a log file is never listed; from then on, and without a version, it is. |
| Spool.WALSpool.Contains | internal/pgbackrest/spool/spool.go:56-60 | Answers whether the last path element is a name in the spool, or the failure of the operating system. |
| Spool.WALSpool.Remove | internal/pgbackrest/spool/spool.go:63-71 | Removes exactly that name; a name that is not there is its own error and changes nothing. |
| Spool.WALSpool.Touch | internal/pgbackrest/spool/spool.go:74-86 | Creates an empty file or empties the one that is there, and changes no other. |
| Spool.WALSpool.MoveOut | internal/pgbackrest/spool/spool.go:89-99 | Hands over the content of exactly the given name and removes it, or reports that it is not there. |
| Spool.TouchThenRemove | internal/pgbackrest/spool/spool.go:56-86 | A marker is found under any path to its name, and removing the marker of a new name undoes its creation. |
| Gather.GatherWALFilesToArchive | internal/pgbackrest/archiver/command.go:44-119 | The walk returns the batch of the specification, also when the directory cannot be read: first the requested file's path, and then only paths under the WAL directory of files that are ready. |
| Gather.ReadyExactly | internal/pgbackrest/archiver/command.go:84-94 | A WAL is ready if and only if the directory has a file whose name is the WAL's followed by ".ready". |
| Gather.ReadyInOrder | internal/pgbackrest/archiver/command.go:76-94 | A listing of such files, with directories and other files at any places in between, makes exactly these WALs ready, in their order. |
| Gather.BatchPaths | internal/pgbackrest/archiver/command.go:63-110 | The paths of the batch, from the listing: size, the requested file at the head, and ready files after it. |
| Gather.BatchMembers | internal/pgbackrest/archiver/command.go:63-110 | From the listing: a well-formed name in the batch is the requested one or ready, and below the limit every such name is in it. |
| Gather.BatchProperties | internal/pgbackrest/archiver/command.go:63-110 | The batch starts with the requested file, has at most max(1, parallel) members, takes the others from the ready files, and has no duplicates. |
| Gather.ShortBatchIsComplete | internal/pgbackrest/archiver/command.go:63-110 | A batch below its limit holds every ready file. |
| Gather.SuffixTestIsEquality | internal/pgbackrest/archiver/command.go:63-110 | On names of the WAL grammar (internal/cnpgi/common/wal_import.go:46-68), the suffix test holds if and only if the names are equal. |
| Gather.SuffixTestNeedsGrammar | internal/pgbackrest/archiver/command.go:63-110 | Two names outside the grammar that the test confuses. |
| WalArchive.PgbackrestArchiver.Archive | internal/pgbackrest/walarchive/cmd.go:66-104 | Succeeds if and only if there is a stanza and the push and the removal of the flag file work; counts the push unless it failed; and the flag file is gone after a success and untouched otherwise. |
| WalArchive.PgbackrestArchiver.ArchiveList | internal/pgbackrest/walarchive/cmd.go:107-152 | With goroutines run in an arbitrary order, the results and the whole store are those of the batch's specification; the flag file is gone if and only if it was before or some file was pushed and the flag removed after it. |
| WalArchive.ScheduleIndependence | internal/pgbackrest/walarchive/cmd.go:116-151 | Given the outcome of each push and touch, every interleaving that finishes ends with the same repository, spool, flag and errors. |
| WalArchive.BatchKeepsMarkersPushed | internal/pgbackrest/walarchive/cmd.go:116-151 | At every moment of every interleaving, each marker in the spool names a WAL in the repository. |
| WalArchive.NoErrorMeansPushed | internal/pgbackrest/walarchive/cmd.go:107-152 | A file whose result has no error is in the repository. |
| WalArchive.BatchResults | internal/pgbackrest/walarchive/cmd.go:116-126 | Each result tells exactly how the push went and, but for the first file, the marker. |
| WalArchive.BatchPushes | internal/pgbackrest/walarchive/cmd.go:116-151 | A name is pushed once for each file of the batch that has it and whose push has not failed. |
| WalArchive.BatchMarkers | internal/pgbackrest/walarchive/cmd.go:124-126 | Exactly the files after the first whose results carry no error get empty markers, and nothing else in the spool changes. |
| WalArchive.BatchFlag | internal/pgbackrest/walarchive/cmd.go:98-102 | The flag file is gone if and only if it was gone before or the result of some file is a success or a missing marker. |
| ArchiveMachine.ArchiveSafety | internal/cnpgi/common/wal.go:129-208 | In every run, whatever fails, whatever the order of the goroutines and wherever the process stops, each WAL that was answered with success is in the repository, and so is each WAL with a marker. |
| ArchiveMachine.RunsAreSafe | internal/cnpgi/common/wal.go:129-208 | The inductive invariant behind it, with what each goroutine in flight has done. |
| ArchiveMachine.StanzaPolicies | internal/pgbackrest/api/config.go:405-421 | In every run: under Disabled the stanza is never created; under OnBackup a repository that had none has one if and only if a Backup has created it, and no WAL reaches it before; a call that found none tries to create it before it uploads if and only if the policy is OnFirstArchive. |
| ArchiveMachine.BackupPrecedesFirstPush | internal/cnpgi/instance/backup.go:119-126 | Under OnBackup, in every run that has pushed to a repository without a stanza, a Backup that created the stanza comes at a moment when nothing had been pushed. |
| ArchiveMachine.RunsAccountForStanza | internal/cnpgi/common/wal.go:140-186 | The inductive invariant behind it: a stanza was there, or this call or a successful Backup created it, and nothing is pushed without one. |
| ArchiveMachine.FlagRemovedOnlyAfterPush | internal/pgbackrest/walarchive/cmd.go:98-102 | In every run, the flag that asks for an empty archive is gone only if something was pushed. |
| ArchiveMachine.FlagGoneAfterPush | internal/pgbackrest/walarchive/cmd.go:98-102 | Conversely, in every run, once a call has answered success or a marker is there, that flag is gone. |
| ArchiveMachine.BackupCreates | internal/cnpgi/instance/backup.go:119-126 | A Backup whose creation works creates the stanza under every policy but Disabled, and changes nothing else. |
| ArchiveService.WALService.DeleteFromSpool | internal/pgbackrest/archiver/archiver.go:95-108 | Reports whether there was a marker and removes exactly that one, with the errors of both file operations. |
| ArchiveService.WALService.Archive | internal/cnpgi/common/wal.go:88-208 | The call does to the store, and answers, what the specification says, for every pattern of failures. |
| ArchiveService.WALService.Upload | internal/cnpgi/common/wal.go:170-205 | Gathers and uploads the batch, and answers with the last error of its results. |
| ArchiveService.SuccessMeansPushedUnlessForeignMarker | internal/cnpgi/common/wal.go:129-208 | From any store, a successful call leaves its WAL in the repository if and only if the spool did not hold a marker for a WAL that was never pushed. |
| ArchiveService.FailureFreeCallSucceeds | internal/cnpgi/common/wal.go:129-208 | From any store that earlier failures left, a call in which nothing fails succeeds if and only if there is a marker, a stanza, or leave to create the stanza. |
| ArchiveService.SuccessExactly | internal/cnpgi/common/wal.go:88-208 | A call answers success exactly when its marker can be seen and removed or, without one, when there is a stanza or leave and means to create it and every push and further marker of its batch works. |
| ArchiveService.EarlyErrors | internal/cnpgi/common/wal.go:88-186 | Which error a call answers with, in terms of what fails first. |
| ArchiveService.LastErrorIsLast | internal/cnpgi/common/wal.go:189-205 | Of several failed uploads, the last one gives the error. |
| ArchiveService.MarkedCall | internal/cnpgi/common/wal.go:129-145 | A call that finds a marker takes it away, if it can, and does nothing else. |
| ArchiveService.CallIsRun | internal/cnpgi/common/wal.go:88-208 | Every behaviour of the call is a run of the machine that requests only names of files, as its safety theorem asks. |
| ArchiveService.CallsAreRun | internal/cnpgi/common/wal.go:88-208 | So is every sequence of calls, with Backups in between. |
| ArchiveService.ServiceIsSafe | internal/cnpgi/common/wal.go:88-208 | After every sequence of Archive calls and Backups, under every environment, each WAL whose call answered success is in the repository, and so is each WAL with a marker. |
| ArchiveService.ServiceRemovesFlag | internal/cnpgi/common/wal.go:88-208 | After every sequence of calls and Backups in which some call answered success, the flag that asks for an empty archive is gone. |
| ArchiveService.UploadFinishes | internal/pgbackrest/walarchive/cmd.go:116-151 | From any state of a batch in flight, the machine can finish it with the specified store and errors. |
| ExactlyOnce.PushedExactlyOnce | internal/cnpgi/common/wal.go:129-208 | Without failures, with requests in walk order and new files sorting last: every round succeeds, every archived WAL was pushed exactly once for any parallelism, and all further pushes have a marker in the spool. |
| ExactlyOnce.RoundKeepsAhead | internal/pgbackrest/archiver/command.go:63-110 | Each round keeps the invariant that the spool holds exactly a prefix of the pending ready files. |
| ExactlyOnce.UploadRound | internal/cnpgi/common/wal.go:146-205 | With an empty spool, a round pushes a prefix of the pending files once and marks all but the first. |
| ExactlyOnce.MarkerRound | internal/cnpgi/common/wal.go:129-145 | With a marker for the first pending file, a round only takes that marker away. |
| Restorer.ScheduleIndependence | internal/pgbackrest/restorer/wal.go:164-235 | Given the outcome of each download, and with no two different downloads in one place, every interleaving that finishes ends with the same spool, destination and errors. |
| Restorer.SharedPlaceDependsOnSchedule | internal/pgbackrest/restorer/wal.go:164-235 | Two downloads to one place end differently under two schedules, so the distinct places below are needed. |
| Restorer.FileOrigin | internal/pgbackrest/restorer/wal.go:164-235 | Whatever subset of the downloads has finished, a file in the spool is an old one or one that a successful download put there. |
| Restorer.StoredFile | internal/pgbackrest/restorer/wal.go:164-235 | A download that succeeds is in the spool with its content when the batch is done. |
| Restorer.WALRestorer.RestoreFromSpool | internal/pgbackrest/restorer/wal.go:99-111 | Moves exactly the requested file to the destination, or reports that it is not there. |
| Restorer.WALRestorer.SetEndOfWALStream | internal/pgbackrest/restorer/wal.go:114-130 | Afterwards the flag is there unless a file operation failed; a flag that is there is left alone. |
| Restorer.WALRestorer.IsEndOfWALStream | internal/pgbackrest/restorer/wal.go:133-140 | Answers whether the flag is there. |
| Restorer.WALRestorer.ResetEndOfWalStream | internal/pgbackrest/restorer/wal.go:143-150 | Removes exactly the flag. |
| Restorer.WALRestorer.RestoreList | internal/pgbackrest/restorer/wal.go:154-236 | For every list, with downloads finishing in an arbitrary order: results and destination are those of the batch's specification, the spool is one that some schedule reaches, and it is the specified one where no two different downloads share a place. |
| RestoreService.GatherWALFilesToRestore | internal/cnpgi/common/wal.go:482-510 | The list is the requested segment's name and its successors' up to the parallelism; the partial name follows if and only if a promotion is controlled and the parallelism is one. |
| RestoreService.ListSize | internal/cnpgi/common/wal.go:482-510 | As many files are listed as the parallelism allows; two for a controlled promotion with parallelism one; one for other than segments. |
| RestoreService.StreamingExactly | internal/cnpgi/common/wal.go:449-478 | A pod can stream if and only if there is a current primary and that is another pod, or the cluster is a replica with a connection to a known source. |
| RestoreService.ListStartsWithRequest | internal/cnpgi/common/wal.go:482-510 | The first download is for the requested name if and only if that name is what its segment prints. |
| RestoreService.ListHasDistinctPlaces | internal/cnpgi/common/wal.go:482-510 | No two prefetched files of a call share a place in the spool, for any batch of up to 2^40 files, also where segment numbers wrap. |
| RestoreService.ListPlaces | internal/pgbackrest/restorer/wal.go:174-187 | A prefetched file is kept under its own name, or in the place of the requested file if it is the partial one of a controlled promotion with parallelism one, and never under the flag's. |
| RestoreService.WALService.CheckEndOfWALStreamFlag | internal/cnpgi/common/wal.go:513-528 | Tells whether the flag is there and consumes it. |
| RestoreService.WALService.Restore | internal/cnpgi/common/wal.go:273-389 | The call does to the spool, and answers, what the specification says, for every request, parallelism and pattern of failures. |
| RestoreService.CallPlacesAreSeparate | internal/cnpgi/common/wal.go:495-507 | No two different downloads of a call share a place in the spool, for any parallelism. |
| RestoreService.WALService.FetchFiles | internal/cnpgi/common/wal.go:330-357 | The gathered list is downloaded with the specified results, destination and spool. |
| RestoreService.ScanForEndOfWALStream | internal/cnpgi/common/wal.go:532-540 | The scan finds whether some file was missing. |
| RestoreService.WALService.Download | internal/cnpgi/common/wal.go:330-388 | The downloading part of the call, with the decision to set the flag. |
| RestoreRuns.RestoreRefinesDirectFetch | internal/cnpgi/common/wal.go:309-388 | In every run, whatever prefetches fail and wherever calls stop, a delivered file has the archive's content for the requested name, or its partial file's only out of the spool and only after a controlled promotion with parallelism one was asked for that very file; "not found" is answered only for a file that was not archived. |
| RestoreRuns.SpooledFileHasItsOrigin | internal/cnpgi/common/wal.go:309-388 | In every run, what is delivered out of the spool was downloaded by an earlier call, as the file of that name, or as the partial form of the file which that call, a controlled promotion with parallelism one, was asked for. |
| RestoreRuns.SpooledFileIsServedFirst | internal/cnpgi/common/wal.go:309-318 | At every event of a run, a request for a file in the spool is answered with that file, which is an original, or fails with the file system; never with "not found" or "end of WAL". |
| RestoreRuns.PrefetchServesSuccessors | internal/cnpgi/common/wal.go:330-388 | After any call that gets as far as downloading, each successor that archive-get found waits in the spool with its content, also when other downloads failed, and for any parallelism. |
| RestoreRuns.FileWaits | internal/cnpgi/common/wal.go:309-388 | Over a run, nothing but a request for it takes a file out of the spool. |
| RestoreRuns.PrefetchedSuccessorIsServed | internal/cnpgi/common/wal.go:309-388 | Over a run, a successor that an earlier call found is answered from the spool with an original when it is first asked for. |
| RestoreRuns.LeftOverFileIsServed | internal/pgbackrest/restorer/wal.go:99-111 | Over any spool, an answer from the spool is an original if and only if the file that was there is one. |
| RestoreRuns.ArchiveMarkerIsServedEmpty | internal/pgbackrest/spool/spool.go:74-99 | A marker of the archiver is delivered as an empty WAL, which is an original only of an archived empty file. |
| RestoreRuns.CallAndFlag | internal/cnpgi/common/wal.go:319-388 | "End of WAL" consumes a flag that is there, setting it needs one that is not, both only while streaming is available and the file is not in the spool, and every other answer leaves the flag as it is. |
| RestoreRuns.FlagRestsWithoutStreaming | internal/cnpgi/common/wal.go:319-388 | Without streaming the flag is neither set nor consumed. |
| RestoreRuns.SetterSawMissing | internal/cnpgi/common/wal.go:359-369 | A call sets the flag only if a file it tried to prefetch was missing from the archive. |
| RestoreRuns.FlagAfterDownload | internal/cnpgi/common/wal.go:359-369 | After a call that downloads, the flag is there if and only if it was before, or the pod can stream, the exit statuses say that the requested file was found and another listed one missing, and the flag could be set. |
| RestoreRuns.MissingPrefetchEndsStream | internal/cnpgi/common/wal.go:309-369 | In every run, after such a call the next streaming request that is not in the spool is answered "end of WAL". |
| RestoreRuns.AnswerBeforeDownload | internal/cnpgi/common/wal.go:309-326 | What a call answers that gets no further than the spool and the flag, and what it takes away. |
| RestoreRuns.AnswerOfDownload | internal/cnpgi/common/wal.go:345-388 | A call that downloads answers by the exit status of the requested file: the content for 0, "not found" for 1, a failure otherwise or when the flag cannot be set. |
| RestoreRuns.EndOfWALHasItsOwnCause | internal/cnpgi/common/wal.go:309-369 | Every "end of WAL" answer has an earlier call that set the flag because a file to prefetch was missing, with no other such answer in between. |
| RestoreRuns.CausesAreDistinct | internal/cnpgi/common/wal.go:309-369 | Different "end of WAL" answers have different causes. |
| RestoreRuns.PromotionHandoff | internal/cnpgi/common/wal.go:500-507 | With parallelism one, a clear flag and an unspooled name: when the full file is missing and the partial one exists, one call answers "not found" and the next delivers the partial content. |
| RestoreRuns.MissingPartialRaisesFlag | internal/cnpgi/common/wal.go:359-369 | During a promotion a missing partial file alone sets the flag, and the next unspooled request is answered "end of WAL" even if it is archived. |
| RestoreRuns.AskingAgainDuringPromotion | internal/cnpgi/common/wal.go:359-369 | After the full file was delivered and when nothing fails, asking again delivers it again if and only if no partial file was fetched beside it and the pod cannot stream or the partial file was not missing; otherwise the answer is the partial content, or "end of WAL". |
| RestoreRuns.PromotionDelivers | internal/pgbackrest/restorer/wal.go:183-187 | What a promotion's download that delivers the full file does to the spool and the flag, for every outcome of the partial file. |
| TtlCache.ExtendedClient.GetCachedObject | internal/cnpgi/instance/internal/client/client.go:74-137 | A live entry is answered from the cache, which stays as it is; otherwise the base client answers, and its object replaces the expired entry in place or is appended. |
| TtlCache.ExtendedClient.Get | internal/cnpgi/instance/internal/client/client.go:61-72 | Secrets and archives, and no other kinds, go through the cache, with the answer and the cache of the lookup; at most one entry per key is kept. |
| TtlCache.ExtendedClient.RemoveObject | internal/cnpgi/instance/internal/client/client.go:140-152 | The scan removes the first entry with the key. |
| TtlCache.ExtendedClient.Write | internal/cnpgi/instance/internal/client/client.go:155-192 | Update, Delete and Patch leave no entry for a secret or an archive, whatever the base client answers, and leave the cache alone for other kinds. |
| TtlCache.LiveEntryAnswers | internal/cnpgi/instance/internal/client/client.go:88-117 | The first entry with the key answers as long as it is live, and the cache stays as it is. |
| TtlCache.ExpiredEntryIsReplaced | internal/cnpgi/instance/internal/client/client.go:100-136 | An expired one is replaced in its place by the base client's object with the time in whole seconds and ten seconds to live. |
| TtlCache.NewEntryIsAppended | internal/cnpgi/instance/internal/client/client.go:119-136 | Without one, the object is appended. |
| TtlCache.RemovalIsExact | internal/cnpgi/instance/internal/client/client.go:140-152 | Where keys are unique, removal deletes exactly that key and keeps all other entries and their order. |
| TtlCache.StoredLookup | internal/cnpgi/instance/internal/client/client.go:119-133 | An insertion is found under its key and changes what is found under no other key. |
| TtlRuns.OneEntryPerKey | internal/cnpgi/instance/internal/client/client.go:74-152 | In every interleaving there is at most one entry per key, and the index that a lookup remembers over its request is still the place of its key. |
| TtlRuns.OtherKindsAreNeverCached | internal/cnpgi/instance/internal/client/client.go:48-72 | In every interleaving, only secrets and archives are in the cache. |
| TtlRuns.GetAlone | internal/cnpgi/instance/internal/client/client.go:74-137 | The steps of a lookup, taken without interruption, leave the cache of the method above and give exactly its answer. |
| TtlRuns.WriteAlone | internal/cnpgi/instance/internal/client/client.go:155-192 | The steps of an update, a deletion or a patch, taken without interruption, leave the cache of the method and the cluster with the written object. |
| TtlRuns.LastStoreIsInCache | internal/cnpgi/instance/internal/client/client.go:119-133 | In every interleaving, the last insertion that was not removed is what the cache holds for its key. |
| TtlRuns.InCacheWasStored | internal/cnpgi/instance/internal/client/client.go:119-152 | Conversely, what the cache holds was inserted and neither removed nor replaced since. |
| TtlRuns.BoundedStaleness | internal/cnpgi/instance/internal/client/client.go:88-136 | In every interleaving, an object served from the cache was read from the cluster by the lookup that inserted it, was inserted no more than 10 seconds ago, and its key was not removed since that read. |
| TtlRuns.TruncationOnlyShortens | internal/cnpgi/instance/internal/client/client.go:27-29 | Keeping the time in whole seconds never lengthens the life of an entry and shortens it by exactly the part cut off. |
| TtlRuns.HitExactly | internal/cnpgi/instance/internal/client/client.go:88-117 | A lookup is answered from the cache if and only if some insertion was neither removed nor replaced and is within that life. |
| TtlRuns.FirstGetAfterRemovalReadsBase | internal/cnpgi/instance/internal/client/client.go:140-192 | If no lookup of the key starts after the removal that Update, Delete and Patch begin with, the next one reads the base client. |
| TtlRuns.StaleAnswerNeedsOverlap | internal/cnpgi/instance/internal/client/client.go:155-192 | After a removal and the last write, an object served from the cache was read after the removal, and it is the current one if and only if it was read after the write or the write did not change it. |
| TtlRuns.OverlapServesOldObject | internal/cnpgi/instance/internal/client/client.go:155-166 | A lookup between removal and write does make the next lookup answer with the old object. |
| Catalog.FindClosestBackupFromTargetLSN | internal/pgbackrest/catalog/catalog.go:165-188 | The scan finds the greatest position of a finished backup on the timeline that ended below the LSN, none if and only if there is none, and reports a malformed LSN. |
| Catalog.FindClosestBackupFromTargetTime | internal/pgbackrest/catalog/catalog.go:190-218 | The same for backups that stopped by the target time. |
| Catalog.FindLatestBackupFromTimeline | internal/pgbackrest/catalog/catalog.go:220-240 | The same without a bound. |
| Catalog.FindBackupFromID | internal/pgbackrest/catalog/catalog.go:242-255 | The first finished backup with the identifier, an error if and only if there is none, and an error for the empty identifier. |
| Catalog.LatestBackupInfo | internal/pgbackrest/catalog/catalog.go:53-66 | The finished backup after which no other is finished. |
| Catalog.FirstRecoverabilityPoint | internal/pgbackrest/catalog/catalog.go:89-104 | When the first finished backup stopped; none if and only if no backup is finished; and that is when it started if and only if it started and stopped at the same time. |
| Catalog.GetBackupIDFromAnnotatedName | internal/pgbackrest/catalog/catalog.go:259-269 | The identifier of the last backup with the annotation, or the empty string. |
| Catalog.FindBackupInfo | internal/pgbackrest/catalog/catalog.go:125-163 | Identifier before time before LSN before latest, each with its error, and a timeline that does not parse counts as the latest. |
| Catalog.SelectedEndedBelow | internal/pgbackrest/catalog/catalog.go:165-188 | The backup selected for an LSN is finished, on a timeline the target can follow, and ended below the LSN; no later backup is, and none is selected if and only if there is none. |
| Catalog.SelectedStoppedBy | internal/pgbackrest/catalog/catalog.go:190-218 | The same for a time: it had stopped by then. |
| Catalog.SelectedOnTimeline | internal/pgbackrest/catalog/catalog.go:220-240 | The same without a bound. |
| Catalog.LastEligibleUnique | internal/pgbackrest/catalog/catalog.go:165-240 | A position is the selected one if and only if it is eligible and no later one is. |
| Catalog.SelectionIsMonotone | internal/pgbackrest/catalog/catalog.go:165-240 | As target time, LSN or timeline grows, with "latest" as the greatest timeline, the selected position never decreases and never disappears. |
| Catalog.SelectionIsClosest | internal/pgbackrest/catalog/catalog.go:190-218 | For any measure in which the finished backups are in order, no eligible backup is beyond the selected one. |
| Catalog.SelectionIsRecoverable | internal/pgbackrest/catalog/catalog.go:53-104 | On a catalog in order of stop times, the selected backup lies between the first recoverability point and the last successful backup. |
| Catalog.RecoverableTargetsHaveABackup | internal/pgbackrest/catalog/catalog.go:89-104 | A target time from the first recoverability point on has a backup on the latest timeline. |
| Catalog.ClosestExactlyWhenSorted | internal/pgbackrest/catalog/catalog.go:165-218 | Where no two candidates for a timeline have the same stop time, or LSN, the scan finds the closest one for every target if and only if they are in order. |
| Catalog.ClosestExactly | internal/pgbackrest/catalog/catalog.go:165-218 | For any catalog and timeline, for times and for LSNs: the scan finds the closest backup for every target if and only if each pair in the wrong order is made up for by a later candidate with the stop time, or LSN, of the earlier one. |
| Catalog.ScanMissesTheClosest | internal/pgbackrest/catalog/catalog.go:190-218 | In a catalog of two backups that stopped at 9 and 5, listed in that order, the scan for the target 9 selects the one that stopped at 5. |
| Catalog.SelectedIDFindsSelection | internal/pgbackrest/catalog/catalog.go:242-255 | Where identifiers are distinct, asking for the identifier of a selected backup finds that backup and no other. |
| Catalog.StartTimelineIsTheSegments | internal/pgbackrest/catalog/catalog.go:373-375 | On the name of a WAL segment, the starting timeline is the segment's. |
| Roles.CollectSecretNamesFromCredentials | internal/cnpgi/operator/specs/secrets.go:28-47 | Collects exactly the names of the credential references that are there. |
| Roles.CollectSecretNamesFromRepositories | internal/cnpgi/operator/specs/secrets.go:51-62 | Collects exactly the names of the certificate and encryption-key references that are there. |
| Roles.BuildRole | internal/cnpgi/operator/specs/role.go:33-92 | The policy has the two rules of the source, and they name, in sorted order and once each, exactly the archives and exactly the secrets that their repositories refer to. |
| Roles.PolicyGrants | internal/cnpgi/operator/specs/role.go:66-89 | Evaluated as the API server does, the policy allows reading a secret or an archive if and only if the rule names it or names nothing. |
| Roles.SecretsAreLeastPrivilegeExactly | internal/cnpgi/operator/specs/role.go:76-89 | The role lets exactly the referred secrets be read if and only if some secret is referred to. |
| Roles.ArchivesAreLeastPrivilegeExactly | internal/cnpgi/operator/specs/role.go:61-74 | The role lets exactly its archives be read if and only if it has any. |
| Roles.AutomaticCredentialsOpenAllSecrets | internal/cnpgi/operator/specs/role.go:76-89 | An archive whose only repository uses automatic credentials is an input for which every secret may be read. |
| Roles.SortedListIsUnique | internal/cnpgi/operator/specs/role.go:66-89 | A set of names has one sorted list, so the rules can be compared as lists. |
| Roles.RoleDependsOnSetsOnly | internal/cnpgi/operator/specs/role.go:46-89 | Two lists of archives give the same rules if and only if they have the same names and refer to the same secrets. |
| Roles.ReorderedArchivesGiveTheSameRole | internal/cnpgi/operator/specs/role.go:46-89 | Listing the archives in another order, or more than once, gives the same rules. |
| Credentials.EnvSetAWSCredentials | internal/pgbackrest/credentials/credentials.go:133-184 | Appends the S3 variables of one repository, or answers with the first thing that is missing or cannot be read. |
| Credentials.EnvSetEncryptionCredentials | internal/pgbackrest/credentials/credentials.go:188-216 | Appends the encryption type, whatever it is, and the key, or answers with the first thing that is missing or cannot be read. |
| Credentials.EnvSetCloudCredentials | internal/pgbackrest/credentials/credentials.go:107-129 | Over all repositories, keeps what the environment had and appends in order, or answers with the first failure. |
| Credentials.EnvSetCredentials | internal/pgbackrest/credentials/credentials.go:63-103 | For backups and for restores, certificates of all repositories are read and written first; the first failure decides the error. |
| Credentials.EnvSetCertificates | internal/pgbackrest/credentials/credentials.go:70-78 | Appends the path of every repository's certificate, with the certificate written to it, or answers with the first one that cannot be read or written. |
| Credentials.EarlyFailure | internal/pgbackrest/credentials/credentials.go:114-129 | A failure among the first repositories is the failure of the whole list. |
| Credentials.EveryRepositoryHasItsOwnSettings | internal/pgbackrest/credentials/credentials.go:63-216 | The environment gets one variable for each setting of each repository, under that repository's number, no others, and none twice. |
| Credentials.LoadedSecrets | internal/pgbackrest/credentials/credentials.go:63-236 | When the loader succeeds, the S3 keys, the cipher pass phrase and the certificate of each repository are what the configured key of the configured secret holds, each under its own name. |
| Credentials.LoadedSettings | internal/pgbackrest/credentials/credentials.go:133-216 | Key type, region and cipher type of each repository are those of its configuration. |
| Credentials.ReadErrors | internal/pgbackrest/credentials/credentials.go:218-236 | Refused, missing secret and missing key are told apart. |
| Credentials.MissingKeysAreReported | internal/pgbackrest/credentials/credentials.go:146-175 | A missing access key is reported before a missing secret key, and both only where keys are shared. |
| Credentials.RepositoryErrors | internal/pgbackrest/credentials/credentials.go:188-216 | A missing encryption key and a certificate that cannot be written are reported as such. |
| Credentials.CertificatesComeFirst | internal/pgbackrest/credentials/credentials.go:63-103 | A certificate that cannot be read is reported before anything the other settings lack. |
| Credentials.NeverForbiddenExactly | internal/pgbackrest/credentials/credentials.go:63-236 | Whatever the secrets hold and whatever can be written, the loader is never refused if and only if the policy allows reading every name it asks for, up to the first thing the configuration lacks. |
| Credentials.RoleNeverForbiddenExactly | internal/cnpgi/operator/specs/role.go:76-89 | With a built role that is so if and only if its secrets rule names every such name or names nothing. |
| Credentials.ReadsAreReferred | internal/pgbackrest/credentials/credentials.go:63-216 | Every secret the loader asks for is one that the role is built from. |
| Credentials.RoleSuffices | internal/cnpgi/operator/specs/role.go:49-89 | With the role of any list of archives, reading one of them and loading its credentials is never refused. |
| Reconciler.GetReferredArchiveObjectsKey | internal/cnpgi/operator/config/config.go:106-128 | Exactly the non-empty names of the configuration, each once. |
| Reconciler.RestoreSourceExactly | internal/cnpgi/common/wal.go:235-257 | Which archive a restore chooses, as a condition on the cluster for each of the three. |
| Reconciler.ReconciledRoleSuffices | internal/cnpgi/common/wal.go:226-257 | Once the role is reconciled, the policy lets every archive be read that archiving, restoring or the status can choose, and loading its credentials is never refused. |
| Reconciler.ReconcilerImplementation.EnsureRole | internal/cnpgi/operator/reconciler.go:141-190 | Creates a missing role unless its owner cannot be set, patches the rules of a role whose stored rules are any others and nothing else of it, and once the role could be read sends no write to one whose rules are right. |
| Reconciler.ReconcilerImplementation.EnsureRoleAgain | internal/cnpgi/operator/reconciler.go:141-190 | After a success, a second call with the archives reordered or repeated sends no write. |
| Reconciler.ReconcilerImplementation.Pre | internal/cnpgi/operator/reconciler.go:63-126 | Leaves other kinds alone, fails on what cannot be decoded, requeues without any change when a referred archive is missing, and otherwise leaves the role of exactly the referred archives, unless a request fails. |
| Reconciler.RoleSurvivesReordering | internal/cnpgi/operator/reconciler.go:176-179 | A role that is right for a list of archives is right for the same archives in another order or repeated. |
| Sidecar.MergeEnv | internal/cnpgi/operator/lifecycle.go:423-457 | The nested loops keep the environment the list of first occurrences of everything merged so far. |
| Sidecar.PodSpec.InjectPluginVolumePodSpec | internal/cnpgi/operator/lifecycle.go:471-505 | Adds the plugin volume, and its mount to every container with the main name, if and only if the volume is not there. |
| Sidecar.PodSpec.InjectPluginSidecarPodSpec | internal/cnpgi/operator/lifecycle.go:513-555 | Appends the sidecar with the mounts of the last main container unless it is there; without a main container it fails after adding the volume. |
| Sidecar.PodSpec.ReconcilePodSpec | internal/cnpgi/operator/lifecycle.go:375-465 | The pod becomes the injected pod of the specification, with the merged environment. |
| Sidecar.FirstWins | internal/cnpgi/operator/lifecycle.go:423-457 | Dropping later duplicates leaves each name its first value. |
| Sidecar.FirstOccurrencesDistinct | internal/cnpgi/operator/lifecycle.go:423-457 | Dropping later duplicates leaves distinct names. |
| Sidecar.FirstOccurrencesPrefix | internal/cnpgi/operator/lifecycle.go:423-457 | More variables at the end only add to the end. |
| Sidecar.DistinctEnvStays | internal/cnpgi/operator/lifecycle.go:423-457 | Where no name occurs twice nothing is dropped and the order is kept. |
| Sidecar.SidecarDefaults | internal/cnpgi/operator/lifecycle.go:384-403 | Namespace, cluster name and spool directory reach the sidecar under their names unless the main container sets them. |
| Sidecar.FirstAndLastMain | internal/cnpgi/operator/lifecycle.go:424-540 | Of several containers with the main name, the first gives the environment and the last the mounts. |
| Sidecar.NewSidecar | internal/cnpgi/operator/lifecycle.go:375-555 | A pod with one main container and no sidecar gets exactly this volume, mount and init container. |
| Sidecar.SidecarEnvPrecedence | internal/cnpgi/operator/lifecycle.go:423-457 | The sidecar's names are distinct; the main container's value goes before the default, and the default before the archives'. |
| Sidecar.ReconcileIsIdempotent | internal/cnpgi/operator/lifecycle.go:375-555 | Reconciling again changes nothing, with the same or with other settings, and also after a failure. |
| Sidecar.InjectionKeepsThePod | internal/cnpgi/operator/lifecycle.go:471-555 | Existing volumes and init containers keep their order; other containers are untouched and the main one gains at most the plugin mount; nothing changes with the volume there or, but for the volume, without a main container. |
| Sidecar.InjectedOnce | internal/cnpgi/operator/lifecycle.go:471-555 | Volume names and init container names that were distinct stay distinct. |
| Sidecar.SidecarSeesTheMainContainersVolumes | internal/cnpgi/operator/lifecycle.go:533-552 | A new sidecar has all mounts of a main container, with the plugin directory among them when its volume was new, and is always restarted. |

## Left out

- RestoreService.WALService.Restore: gives two downloads of one name in a call the same outcome; names repeat in a list of more than 2^40 files only, which exceeds the memory of any machine.
- Catalog.FindClosestBackupFromTargetTime: takes the target as parsed nanoseconds, because `ParseTargetTime` belongs to a library that is not part of this model.
- Catalog.FindClosestBackupFromTargetLSN: takes parsed LSNs, because `types.LSN` belongs to the same library.
- Credentials.EnvSetCredentials: does not describe the certificate files that are left when a later step fails.
- Reconciler.ReconcilerImplementation.Pre: treats the role binding as present or absent, because the source never compares its content.
- TtlCache.ExtendedClient.GetCachedObject: treats objects as immutable values, so the shallow copy out of the cache and aliasing between callers are not captured.
- Roles.ToSortedList: stands for a function of a library that is not part of this model; only that its result is sorted and has the members of the set is used.
- Archive and restore phases that share a spool without emptying it; the assumption above says what a left-over file does.
- Running pgBackRest, its environment and its output: each command is an outcome.
- The gRPC services, command-line commands, manager start-up, health checks and the decoding of JSON.
- `NewFromCluster` and the CNPG library calls: the names of the archives and the role of a pod arrive as decoded values.
- Command-line option builders, among them `appendAdditionalCommandArgs`: append chains with easy properties.
- Moving the pg_wal directory, writing postgresql.auto.conf and generated deep-copy code.
- `SetFirstRequired`, which is not implemented, and `ensureArchiveContainsLastCheckpointRedoWAL`, which is not used.

/**
 * The concurrent download of a batch of WAL files, and the flag that remembers
 * the end of the WAL stream (internal/pgbackrest/restorer/wal.go).
 */
module Restorer {
  import opened Wrappers
  import opened Paths
  import opened Spool

  const END_OF_WAL_STREAM_FLAG := "end-of-wal-stream"

  const WAL_NOT_FOUND_EXIT_CODE := 1

  /** How a pgbackrest archive-get process ended. */
  datatype ExitStatus = Exited(code: int) | NotRun

  datatype FetchError = WALNotFound | ExitCode(code: int) | UnexpectedFailure

  function WalRestoreError(exit: ExitStatus): Option<FetchError> {
    match exit
    case NotRun => Some(UnexpectedFailure)
    case Exited(code) =>
      if code == 0 then None
      else if code == WAL_NOT_FOUND_EXIT_CODE then Some(WALNotFound)
      else Some(ExitCode(code))
  }

  /** One archive-get; it writes the whole content when it succeeds and nothing otherwise. */
  datatype Fetch = Fetch(exit: ExitStatus, content: Content) {
    function Error(): Option<FetchError> {
      WalRestoreError(exit)
    }
  }

  datatype RestoreResult = RestoreResult(walName: string, err: Option<FetchError>)

  /** Under which name a prefetched file is kept: a partial file takes the place of the full one. */
  function SpoolName(walName: string): string {
    TrimSuffix(walName, ".partial")
  }

  datatype FetchBatch = FetchBatch(names: seq<string>, fetches: seq<Fetch>) {
    predicate Valid() {
      |names| == |fetches|
    }

    /**
     * Apart from the first file, which goes to the destination, no two different downloads share a place in the spool.
     */
    predicate SeparatePlaces()
      requires Valid()
    {
      forall i, j :: 0 < i < j < |names| && SpoolName(names[i]) == SpoolName(names[j]) ==> fetches[i] == fetches[j]
    }
  }

  /** The destination file, the spool, and for each goroutine whether it is done and with what error. */
  datatype FetchState = FetchState(destination: Option<Content>, files: Files, done: seq<bool>,
                                   errs: seq<Option<FetchError>>) {
    predicate AllFinished() {
      forall i :: 0 <= i < |done| ==> done[i]
    }
  }

  predicate Shaped(batch: FetchBatch, s: FetchState) {
    batch.Valid() && |s.done| == |batch.names| && |s.errs| == |batch.names|
  }

  function Step(batch: FetchBatch, s: FetchState, i: nat): (s': FetchState)
    requires Shaped(batch, s) && i < |s.done|
    ensures Shaped(batch, s')
  {
    if s.done[i] then s
    else
      var fetch := batch.fetches[i];
      var ok := fetch.Error().None?;
      FetchState(if ok && i == 0 then Some(fetch.content) else s.destination,
                 if ok && i != 0 then s.files[SpoolName(batch.names[i]) := fetch.content] else s.files,
                 s.done[i := true],
                 s.errs[i := fetch.Error()])
  }

  function Start(batch: FetchBatch, files: Files): (s: FetchState)
    requires batch.Valid()
    ensures Shaped(batch, s)
  {
    FetchState(None, files, seq(|batch.names|, _ => false), seq(|batch.names|, _ => None))
  }

  function Run(batch: FetchBatch, s: FetchState, schedule: seq<nat>): (s': FetchState)
    requires Shaped(batch, s)
    ensures Shaped(batch, s')
    decreases |schedule|
  {
    if schedule == [] then s
    else
      var last := schedule[|schedule| - 1];
      var before := Run(batch, s, schedule[..|schedule| - 1]);
      if last < |before.done| then Step(batch, before, last) else before
  }

  // ----- The state as a function of which goroutines are done -----

  predicate Stores(batch: FetchBatch, done: seq<bool>, i: nat)
    requires batch.Valid() && |done| == |batch.names| && i < |done|
  {
    i != 0 && done[i] && batch.fetches[i].Error().None?
  }

  /** The spool after the finished ones among the first n goroutines. */
  function FilesAfter(batch: FetchBatch, files: Files, done: seq<bool>, n: nat): Files
    requires batch.Valid() && |done| == |batch.names| && n <= |done|
  {
    if n == 0 then files
    else if Stores(batch, done, n - 1) then
      FilesAfter(batch, files, done, n - 1)[SpoolName(batch.names[n - 1]) := batch.fetches[n - 1].content]
    else FilesAfter(batch, files, done, n - 1)
  }

  function DestinationAfter(batch: FetchBatch, done: seq<bool>): Option<Content>
    requires batch.Valid() && |done| == |batch.names|
  {
    if |done| > 0 && done[0] && batch.fetches[0].Error().None? then Some(batch.fetches[0].content) else None
  }

  predicate Answers(batch: FetchBatch, s: FetchState) {
    && Shaped(batch, s)
    && s.destination == DestinationAfter(batch, s.done)
    && forall i :: 0 <= i < |s.done| ==> s.errs[i] == if s.done[i] then batch.fetches[i].Error() else None
  }

  predicate Consistent(batch: FetchBatch, files: Files, s: FetchState) {
    Answers(batch, s) && s.files == FilesAfter(batch, files, s.done, |s.done|)
  }

  function AllDone(n: nat): seq<bool> {
    seq(n, _ => true)
  }

  /** What a batch does in the end. */
  function FetchedFiles(batch: FetchBatch, files: Files): Files
    requires batch.Valid()
  {
    FilesAfter(batch, files, AllDone(|batch.names|), |batch.names|)
  }

  function FetchErrors(batch: FetchBatch): seq<Option<FetchError>>
    requires batch.Valid()
  {
    seq(|batch.names|, i requires 0 <= i < |batch.names| => batch.fetches[i].Error())
  }

  /** Downloads to different places commute. */
  lemma {:induction false} FilesAfterUpdate(batch: FetchBatch, files: Files, done: seq<bool>, i: nat, n: nat)
    requires batch.Valid() && batch.SeparatePlaces() && |done| == |batch.names| && n <= |done|
    requires i < |done| && !done[i]
    ensures FilesAfter(batch, files, done[i := true], n) ==
            if i < n && i != 0 && batch.fetches[i].Error().None?
            then FilesAfter(batch, files, done, n)[SpoolName(batch.names[i]) := batch.fetches[i].content]
            else FilesAfter(batch, files, done, n)
  {
    hide TrimSuffix, WalRestoreError, SpoolName;
    if n > 0 {
      FilesAfterUpdate(batch, files, done, i, n - 1);
      if i < n - 1 && i != 0 && SpoolName(batch.names[i]) == SpoolName(batch.names[n - 1]) {
        assert batch.fetches[i] == batch.fetches[n - 1];
      }
    }
  }

  lemma {:induction false} NothingFetched(batch: FetchBatch, files: Files, done: seq<bool>, n: nat)
    requires batch.Valid() && |done| == |batch.names| && n <= |done|
    requires forall i :: 0 <= i < |done| ==> !done[i]
    ensures FilesAfter(batch, files, done, n) == files
  {
    if n > 0 {
      NothingFetched(batch, files, done, n - 1);
    }
  }

  lemma StartConsistent(batch: FetchBatch, files: Files)
    requires batch.Valid()
    ensures Consistent(batch, files, Start(batch, files))
  {
    NothingFetched(batch, files, Start(batch, files).done, |batch.names|);
  }

  lemma StepAnswers(batch: FetchBatch, s: FetchState, i: nat)
    requires Answers(batch, s) && i < |s.done|
    ensures Answers(batch, Step(batch, s, i))
  {
    hide TrimSuffix, WalRestoreError, SpoolName;
  }

  lemma StepConsistent(batch: FetchBatch, files: Files, s: FetchState, i: nat)
    requires Consistent(batch, files, s) && batch.SeparatePlaces() && i < |s.done|
    ensures Consistent(batch, files, Step(batch, s, i))
  {
    StepAnswers(batch, s, i);
    hide TrimSuffix, WalRestoreError, SpoolName, FilesAfter, Answers;
    if !s.done[i] {
      FilesAfterUpdate(batch, files, s.done, i, |s.done|);
    }
  }

  lemma {:induction false} RunConsistent(batch: FetchBatch, files: Files, schedule: seq<nat>)
    requires batch.Valid() && batch.SeparatePlaces()
    ensures Consistent(batch, files, Run(batch, Start(batch, files), schedule))
    decreases |schedule|
  {
    hide Consistent, Step, Start;
    if schedule == [] {
      StartConsistent(batch, files);
    } else {
      var n := |schedule| - 1;
      RunConsistent(batch, files, schedule[..n]);
      var before := Run(batch, Start(batch, files), schedule[..n]);
      if schedule[n] < |before.done| {
        StepConsistent(batch, files, before, schedule[n]);
      }
    }
  }

  lemma FinishedState(batch: FetchBatch, files: Files, s: FetchState)
    requires Answers(batch, s) && s.AllFinished()
    ensures Consistent(batch, files, s) ==> s.files == FetchedFiles(batch, files)
    ensures s.errs == FetchErrors(batch)
    ensures s.destination == DestinationAfter(batch, AllDone(|batch.names|))
  {
    hide FilesAfter, WalRestoreError;
    assert s.done == AllDone(|batch.names|);
  }

  /** Every schedule that lets all downloads finish ends with the same spool, destination and errors. */
  lemma ScheduleIndependence(batch: FetchBatch, files: Files, schedule: seq<nat>)
    requires batch.Valid() && batch.SeparatePlaces()
    requires Run(batch, Start(batch, files), schedule).AllFinished()
    ensures
      var s := Run(batch, Start(batch, files), schedule);
      && s.files == FetchedFiles(batch, files)
      && s.errs == FetchErrors(batch)
      && s.destination == DestinationAfter(batch, AllDone(|batch.names|))
  {
    RunConsistent(batch, files, schedule);
    hide Consistent;
    FinishedState(batch, files, Run(batch, Start(batch, files), schedule));
  }

  /** Two different downloads to one place do not commute, so separate places are needed. */
  lemma SharedPlaceDependsOnSchedule()
    ensures
      var batch := FetchBatch(["A", "B", "B.partial"],
                              [Fetch(Exited(0), []), Fetch(Exited(0), [1]), Fetch(Exited(0), [2])]);
      Run(batch, Start(batch, map[]), [0, 1, 2]).files != Run(batch, Start(batch, map[]), [0, 2, 1]).files
  {
    var batch := FetchBatch(["A", "B", "B.partial"],
                            [Fetch(Exited(0), []), Fetch(Exited(0), [1]), Fetch(Exited(0), [2])]);
    assert SpoolName("B") == "B" && SpoolName("B.partial") == "B";
    var s := Start(batch, map[]);
    RunThree(batch, s, 0, 1, 2);
    RunThree(batch, s, 0, 2, 1);
    var a := Step(batch, s, 0);
    assert Step(batch, Step(batch, a, 1), 2).files["B"] == [2];
    assert Step(batch, Step(batch, a, 2), 1).files["B"] == [1];
  }

  lemma RunSnoc(batch: FetchBatch, s: FetchState, schedule: seq<nat>, i: nat)
    requires Shaped(batch, s) && i < |s.done|
    ensures
      var s' := Run(batch, s, schedule);
      |s'.done| == |s.done| && Run(batch, s, schedule + [i]) == Step(batch, s', i)
  {
    hide Step;
    assert (schedule + [i])[..|schedule|] == schedule;
  }

  lemma RunThree(batch: FetchBatch, s: FetchState, i: nat, j: nat, k: nat)
    requires Shaped(batch, s) && i < |s.done| && j < |s.done| && k < |s.done|
    ensures Run(batch, s, [i, j, k]) == Step(batch, Step(batch, Step(batch, s, i), j), k)
  {
    RunSnoc(batch, s, [], i);
    RunSnoc(batch, s, [i], j);
    RunSnoc(batch, s, [i, j], k);
    assert Run(batch, s, []) == s;
    hide Step, Run;
    assert [] + [i] == [i] && [i] + [j] == [i, j] && [i, j] + [k] == [i, j, k];
  }

  /** What the spool holds after some of the downloads: an old file, or a file one of them stored. */
  lemma {:induction false} FileOrigin(batch: FetchBatch, files: Files, done: seq<bool>, n: nat, name: string)
    requires batch.Valid() && |done| == |batch.names| && n <= |done|
    requires name in FilesAfter(batch, files, done, n)
    ensures
      || (name in files && FilesAfter(batch, files, done, n)[name] == files[name])
      || exists i :: 0 < i < n && Stores(batch, done, i) && name == SpoolName(batch.names[i])
                     && FilesAfter(batch, files, done, n)[name] == batch.fetches[i].content
  {
    hide SpoolName, WalRestoreError;
    if n > 0 {
      if Stores(batch, done, n - 1) && name == SpoolName(batch.names[n - 1]) {
      } else {
        FileOrigin(batch, files, done, n - 1, name);
      }
    }
  }

  lemma {:induction false} FilesStay(batch: FetchBatch, files: Files, done: seq<bool>, n: nat)
    requires batch.Valid() && |done| == |batch.names| && n <= |done|
    ensures files.Keys <= FilesAfter(batch, files, done, n).Keys
  {
    if n > 0 {
      FilesStay(batch, files, done, n - 1);
    }
  }

  /** A file stored by a finished batch is there with its content. */
  lemma {:induction false} StoredFile(batch: FetchBatch, files: Files, i: nat, n: nat)
    requires batch.Valid() && batch.SeparatePlaces() && 0 < i < n <= |batch.names|
    requires batch.fetches[i].Error().None?
    ensures
      var after := FilesAfter(batch, files, AllDone(|batch.names|), n);
      SpoolName(batch.names[i]) in after && after[SpoolName(batch.names[i])] == batch.fetches[i].content
  {
    hide SpoolName, WalRestoreError;
    if i < n - 1 {
      StoredFile(batch, files, i, n - 1);
    }
  }

  // ----- The restorer -----

  lemma FlagIsAFile()
    ensures Base(END_OF_WAL_STREAM_FLAG) == END_OF_WAL_STREAM_FLAG == "end-of-wal-stream"
  {
    BaseOfPlain(END_OF_WAL_STREAM_FLAG);
  }

  predicate Finishes(batch: FetchBatch, files: Files, schedule: seq<nat>)
    requires batch.Valid()
  {
    Run(batch, Start(batch, files), schedule).AllFinished()
  }

  /** Some schedule that lets all downloads finish leaves these files. */
  ghost predicate ReachesFiles(batch: FetchBatch, files: Files, after: Files)
    requires batch.Valid()
  {
    exists schedule :: Finishes(batch, files, schedule) && after == Run(batch, Start(batch, files), schedule).files
  }

  lemma RunNothing(batch: FetchBatch, s: FetchState)
    requires Shaped(batch, s)
    ensures Run(batch, s, []) == s
  {
  }

  function Errors(results: seq<RestoreResult>): seq<Option<FetchError>> {
    seq(|results|, i requires 0 <= i < |results| => results[i].err)
  }

  class WALRestorer {
    const spool: WALSpool

    constructor (spool: WALSpool)
      ensures this.spool == spool
    {
      this.spool := spool;
    }

    /** The content moved to the destination, or nothing when the file is not in the spool. */
    method RestoreFromSpool(walName: string, works: bool) returns (r: Result<Option<Content>, SpoolError>)
      modifies spool
      ensures walName !in old(spool.files) ==> r == Ok(None)
      ensures walName in old(spool.files) && works ==> r == Ok(Some(old(spool.files)[walName]))
      ensures walName in old(spool.files) && !works ==> r == Err(FileSystemError)
      ensures spool.files ==
              if r.Ok? && r.value.Some? then old(spool.files) - {walName} else old(spool.files)
    {
      var moved := spool.MoveOut(walName, works);
      match moved
      case Err(NonExistentFile) => return Ok(None);
      case Err(e) => return Err(e);
      case Ok(content) => return Ok(Some(content));
    }

    method IsEndOfWALStream(works: bool) returns (r: Result<bool, SpoolError>)
      ensures r == if works then Ok(END_OF_WAL_STREAM_FLAG in spool.files) else Err(FileSystemError)
    {
      FlagIsAFile();
      r := spool.Contains(END_OF_WAL_STREAM_FLAG, works);
    }

    method SetEndOfWALStream(readWorks: bool, touchWorks: bool) returns (err: Option<SpoolError>)
      modifies spool
      ensures !readWorks ==> err.Some?
      ensures readWorks && END_OF_WAL_STREAM_FLAG in old(spool.files) ==> err == None && spool.files == old(spool.files)
      ensures readWorks && END_OF_WAL_STREAM_FLAG !in old(spool.files) && touchWorks ==>
        err == None && spool.files == old(spool.files)[END_OF_WAL_STREAM_FLAG := []]
      ensures readWorks && END_OF_WAL_STREAM_FLAG !in old(spool.files) && !touchWorks ==> err.Some?
      ensures err.Some? ==> spool.files == old(spool.files)
    {
      var contains := IsEndOfWALStream(readWorks);
      if contains.Err? {
        return Some(contains.error);
      }
      if contains.value {
        return None;
      }
      FlagIsAFile();
      err := spool.Touch(END_OF_WAL_STREAM_FLAG, touchWorks);
    }

    method ResetEndOfWalStream(works: bool) returns (err: Option<SpoolError>)
      modifies spool
      ensures err.None? <==> works && END_OF_WAL_STREAM_FLAG in old(spool.files)
      ensures spool.files == if err.None? then old(spool.files) - {END_OF_WAL_STREAM_FLAG} else old(spool.files)
    {
      FlagIsAFile();
      err := spool.Remove(END_OF_WAL_STREAM_FLAG, works);
    }

    /**
     * The loop lets an arbitrary unfinished download finish. Results and destination do not depend on the choice, and
     * the spool does not where no two different downloads share a place in it.
     */
    method RestoreList(fetchList: seq<string>, fetches: seq<Fetch>)
      returns (result: array<RestoreResult>, destination: Option<Content>)
      requires |fetchList| == |fetches|
      modifies spool
      ensures fresh(result) && result.Length == |fetchList|
      ensures ReachesFiles(FetchBatch(fetchList, fetches), old(spool.files), spool.files)
      ensures FetchBatch(fetchList, fetches).SeparatePlaces() ==>
        spool.files == FetchedFiles(FetchBatch(fetchList, fetches), old(spool.files))
      ensures Errors(result[..]) == FetchErrors(FetchBatch(fetchList, fetches))
      ensures destination == DestinationAfter(FetchBatch(fetchList, fetches), AllDone(|fetchList|))
      ensures forall i :: 0 <= i < result.Length ==> result[i].walName == fetchList[i]
    {
      hide Answers, Consistent, FetchBatch.SeparatePlaces, FilesAfter, FetchedFiles, FetchErrors, DestinationAfter,
        SpoolName, WalRestoreError, Undone, Run;
      ghost var batch := FetchBatch(fetchList, fetches);
      ghost var files := spool.files;
      var n := |fetchList|;
      result := new RestoreResult[n](_ => RestoreResult("", None));
      destination := None;
      var done := new bool[n](_ => false);
      StartConsistent(batch, files);
      ghost var s := Start(batch, files);
      ghost var schedule: seq<nat> := [];
      RunNothing(batch, s);
      while exists i :: 0 <= i < n && !done[i]
        invariant fresh(result) && fresh(done) && result.Length == done.Length == n
        invariant Answers(batch, s)
        invariant batch.SeparatePlaces() ==> Consistent(batch, files, s)
        invariant s == Run(batch, Start(batch, files), schedule)
        invariant s == FetchState(destination, spool.files, done[..], Errors(result[..]))
        invariant forall i :: 0 <= i < n && done[i] ==> result[i].walName == fetchList[i]
        decreases Undone(done[..])
      {
        var i :| 0 <= i < n && !done[i];
        StepAnswers(batch, s, i);
        if batch.SeparatePlaces() {
          StepConsistent(batch, files, s, i);
        }
        RunSnoc(batch, Start(batch, files), schedule, i);
        schedule := schedule + [i];
        UndoneUpdate(done[..], i);
        s := Step(batch, s, i);
        var fetch := fetches[i];
        result[i] := RestoreResult(fetchList[i], fetch.Error());
        done[i] := true;
        if fetch.Error().None? {
          if i == 0 {
            destination := Some(fetch.content);
          } else {
            spool.files := spool.files[SpoolName(fetchList[i]) := fetch.content];
          }
        }
        assert done[..] == s.done && Errors(result[..]) == s.errs;
      }
      FinishedState(batch, files, s);
      assert Finishes(batch, files, schedule);
    }
  }

  function Undone(done: seq<bool>): nat {
    if done == [] then 0 else Undone(done[..|done| - 1]) + if done[|done| - 1] then 0 else 1
  }

  lemma {:induction false} UndoneUpdate(done: seq<bool>, i: nat)
    requires i < |done| && !done[i]
    ensures Undone(done[i := true]) < Undone(done)
  {
    var n := |done| - 1;
    if i < n {
      assert done[i := true][..n] == done[..n][i := true];
      UndoneUpdate(done[..n], i);
    } else {
      assert done[i := true][..n] == done[..n];
    }
  }
}

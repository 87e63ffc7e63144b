/** The Restore call of the WAL service (internal/cnpgi/common/wal.go). */
module RestoreService {
  import opened Wrappers
  import opened Common
  import opened Paths
  import opened Hex
  import opened WalSegment
  import opened Spool
  import opened Restorer

  // ----- Streaming -----

  /** The fields of the cluster that tell whether a pod can stream. */
  datatype Cluster = Cluster(currentPrimary: string, isReplica: bool, sourceFound: bool, sourceHasConnection: bool)

  predicate IsStreamingAvailable(cluster: Option<Cluster>, podName: string) {
    if cluster.None? then false
    else if cluster.value.currentPrimary == "" then false
    else if cluster.value.currentPrimary != podName then true
    else if cluster.value.isReplica then
      if !cluster.value.sourceFound then false else cluster.value.sourceHasConnection
    else false
  }

  /**
   * A pod can stream exactly when the cluster has a current primary and either that is another pod, or the cluster is a
   * replica of one that it knows how to connect to.
   */
  lemma StreamingExactly(cluster: Cluster, podName: string)
    ensures !IsStreamingAvailable(None, podName)
    ensures IsStreamingAvailable(Some(cluster), podName) <==>
      && cluster.currentPrimary != ""
      && (podName != cluster.currentPrimary ||
          (cluster.isReplica && cluster.sourceFound && cluster.sourceHasConnection))
  {
  }

  // ----- Which files to fetch -----

  /** The name of the segment i steps after s; neither a version nor a segment size is passed. */
  function NthName(s: Segment, i: nat): string {
    Nth(s, i, PerFile(None), SkipsLast(None)).Name()
  }

  function NextNames(s: Segment, count: nat): (names: seq<string>)
    ensures |names| == count
  {
    seq(count, i requires 0 <= i < count => NthName(s, i))
  }

  lemma NoNextNames(s: Segment)
    ensures NextNames(s, 0) == []
  {
  }

  lemma NextNamesAppend(s: Segment, n: nat)
    ensures NextNames(s, n + 1) == NextNames(s, n) + [NthName(s, n)]
  {
    hide NthName;
  }

  lemma ListedName(list: seq<Segment>, s: Segment, i: nat)
    requires i < |list| && ListsNext(list, s, PerFile(None), SkipsLast(None))
    ensures list[i].Name() == NthName(s, i)
  {
    hide Nth, PerFile, SkipsLast;
  }

  function GatherList(walName: string, parallel: nat, controlledPromotion: bool): seq<string> {
    match SegmentFromName(walName)
    case None => [walName]
    case Some(s) =>
      var names := NextNames(s, parallel);
      if controlledPromotion && parallel == 1 then names + [names[0] + ".partial"] else names
  }

  method GatherWALFilesToRestore(walName: string, parallel: nat, controlledPromotion: bool)
    returns (walList: seq<string>)
    requires parallel >= 1
    ensures walList == GatherList(walName, parallel, controlledPromotion)
  {
    hide SegmentFromName, Segment.Name, Nth, PerFile, SkipsLast, NextNames, NthName, ListsNext;
    var segment := SegmentFromName(walName);
    if segment.None? {
      return [walName];
    }
    var segmentList := NextSegments(segment.value, parallel, None, None);
    walList := [];
    var idx := 0;
    NoNextNames(segment.value);
    while idx < |segmentList|
      invariant 0 <= idx <= |segmentList|
      invariant walList == NextNames(segment.value, idx)
    {
      NextNamesAppend(segment.value, idx);
      ListedName(segmentList, segment.value, idx);
      walList := walList + [segmentList[idx].Name()];
      idx := idx + 1;
    }
    if controlledPromotion && (|segmentList| < parallel || parallel == 1) {
      walList := walList + [walList[|walList| - 1] + ".partial"];
    }
  }

  /** The list that Restore downloads: the requested file, and more only after a regular segment. */
  function FetchList(walName: string, parallel: nat, controlledPromotion: bool): seq<string> {
    if IsWALFile(walName) then GatherList(walName, parallel, controlledPromotion) else [walName]
  }

  // ----- One call -----

  datatype RestoreEnv = RestoreEnv(
    setupWorks: bool,
    moveWorks: bool,
    readFlagWorks: bool,
    resetFlagWorks: bool,
    readFlagAgainWorks: bool,
    touchFlagWorks: bool,
    cluster: Option<Cluster>,
    podName: string,
    parallel: int,
    controlledPromotion: bool,
    fetches: map<string, Fetch>)

  datatype Reply =
    | FromSpool(content: Content)
    | FromArchive(content: Content)
    | EndOfWAL
    | NotFound
    | Failed

  /** The spool after the call, the answer, and whether the call found reason to set the flag. */
  datatype RestoreCallResult = RestoreCallResult(files: Files, reply: Reply, setsFlag: bool)

  predicate Streaming(env: RestoreEnv) {
    IsStreamingAvailable(env.cluster, env.podName)
  }

  function FetchOf(env: RestoreEnv, name: string): Fetch {
    if name in env.fetches then env.fetches[name] else Fetch(NotRun, [])
  }

  function CallList(walName: string, env: RestoreEnv): (list: seq<string>)
    ensures |list| >= 1
  {
    FetchList(walName, MaxParallel(env.parallel), env.controlledPromotion)
  }

  function CallFetches(walName: string, env: RestoreEnv): (b: FetchBatch)
    ensures b.Valid() && |b.names| >= 1
  {
    var list := CallList(walName, env);
    FetchBatch(list, seq(|list|, i requires 0 <= i < |list| => FetchOf(env, list[i])))
  }

  predicate IsEndOfWALStream(errs: seq<Option<FetchError>>) {
    exists i :: 0 <= i < |errs| && errs[i] == Some(WALNotFound)
  }

  /** The download, once the spool and the flag have had their say. */
  function FetchStage(files: Files, walName: string, env: RestoreEnv): RestoreCallResult {
    var batch := CallFetches(walName, env);
    var fetched := FetchedFiles(batch, files);
    var errs := FetchErrors(batch);
    if errs[0] == Some(WALNotFound) then RestoreCallResult(fetched, NotFound, false)
    else if errs[0].Some? then RestoreCallResult(fetched, Failed, false)
    else if Streaming(env) && IsEndOfWALStream(errs) then
      if !env.readFlagAgainWorks then RestoreCallResult(fetched, Failed, false)
      else if END_OF_WAL_STREAM_FLAG in fetched then
        RestoreCallResult(fetched, FromArchive(batch.fetches[0].content), false)
      else if !env.touchFlagWorks then RestoreCallResult(fetched, Failed, false)
      else RestoreCallResult(fetched[END_OF_WAL_STREAM_FLAG := []], FromArchive(batch.fetches[0].content), true)
    else RestoreCallResult(fetched, FromArchive(batch.fetches[0].content), false)
  }

  /** What one Restore call does to the spool, and what it answers. */
  function RestoreCall(files: Files, walName: string, env: RestoreEnv): RestoreCallResult {
    if !env.setupWorks then RestoreCallResult(files, Failed, false)
    else if walName in files then
      if env.moveWorks then RestoreCallResult(files - {walName}, FromSpool(files[walName]), false)
      else RestoreCallResult(files, Failed, false)
    else if Streaming(env) && !env.readFlagWorks then RestoreCallResult(files, Failed, false)
    else if Streaming(env) && END_OF_WAL_STREAM_FLAG in files then
      if env.resetFlagWorks then RestoreCallResult(files - {END_OF_WAL_STREAM_FLAG}, EndOfWAL, false)
      else RestoreCallResult(files, Failed, false)
    else FetchStage(files, walName, env)
  }

  // ----- What a list holds -----

  /** The name is what its own segment prints, as names in canonical upper case are. */
  predicate Canonical(walName: string) {
    && walName != END_OF_WAL_STREAM_FLAG
    && (SegmentFromName(walName).Some? ==> SegmentFromName(walName).value.Name() == walName)
  }

  lemma LastOfSuffix(s: string, t: string)
    requires s != "" && t != "" && s[|s| - 1] != t[|t| - 1]
    ensures !HasSuffix(s, t)
  {
    if |t| <= |s| {
      assert s[|s| - |t|..][|t| - 1] == s[|s| - 1];
    }
  }

  lemma DigitsAtTheEnd(s: Segment)
    ensures s.Name() != "" && !HasSuffix(s.Name(), ".partial") && s.Name() != END_OF_WAL_STREAM_FLAG
    ensures SpoolName(s.Name()) == s.Name() && SpoolName(s.Name() + ".partial") == s.Name()
  {
    hide Parse, Wrap32, Print;
    var name, last := s.Name(), FormatInt32(s.seg);
    assert IsHexDigit(last[|last| - 1]);
    assert name[|name| - 1] == last[|last| - 1];
    LastOfSuffix(name, ".partial");
    assert (name + ".partial")[..|name|] == name;
    assert (name + ".partial")[|name|..] == ".partial";
  }

  /** The requested file is fetched under its own name exactly when that name is canonical. */
  lemma ListStartsWithRequest(walName: string, parallel: nat, controlledPromotion: bool)
    requires parallel >= 1 && IsWALFile(walName)
    ensures FetchList(walName, parallel, controlledPromotion)[0] == walName <==>
            (SegmentFromName(walName).Some? ==> SegmentFromName(walName).value.Name() == walName)
  {
    hide SegmentFromName, PerFile, SkipsLast, IsWALFile;
  }

  lemma PlaceOfNth(s: Segment, i: nat)
    ensures NthName(s, i) != END_OF_WAL_STREAM_FLAG
    ensures SpoolName(NthName(s, i)) == NthName(s, i) && SpoolName(NthName(s, i) + ".partial") == NthName(s, i)
  {
    hide Nth, SpoolName;
    DigitsAtTheEnd(Nth(s, i, PerFile(None), SkipsLast(None)));
  }

  lemma FirstName(s: Segment)
    ensures NthName(s, 0) == s.Name()
  {
    hide PerFile, SkipsLast;
  }

  /** As many files are listed as the parallelism allows, and the partial one only beside a single one. */
  lemma ListSize(walName: string, env: RestoreEnv)
    ensures |CallList(walName, env)| ==
      if SegmentFromName(walName).None? || !IsWALFile(walName) then 1
      else if env.parallel > 1 then env.parallel
      else if env.controlledPromotion then 2
      else 1
  {
    hide SegmentFromName, IsWALFile, NthName;
  }

  /** A place in the spool belongs to a segment, and holds the file of that name or its partial form. */
  lemma ListPlaces(walName: string, parallel: nat, controlledPromotion: bool, i: nat)
    requires parallel >= 1 && 0 < i < |FetchList(walName, parallel, controlledPromotion)|
    ensures
      var name := FetchList(walName, parallel, controlledPromotion)[i];
      && SpoolName(name) != END_OF_WAL_STREAM_FLAG
      && (name == SpoolName(name) ||
          (controlledPromotion && parallel == 1 && name == SpoolName(name) + ".partial"
           && SegmentFromName(walName).Some? && SpoolName(name) == SegmentFromName(walName).value.Name()))
  {
    hide SegmentFromName, SpoolName, IsWALFile, NthName, Segment.Name;
    var s := SegmentFromName(walName).value;
    PlaceOfNth(s, i);
    PlaceOfNth(s, 0);
    FirstName(s);
  }

  /** A batch of this size would list some segment twice. */
  const CYCLE := 0x100_0000_0000

  /** After the first, the listed segments are those of a segment in range of its log file, or on the way to one. */
  lemma NthFromSuccessor(s: Segment, i: nat)
    requires s.IsInt32() && i > 0
    ensures
      var next := Successor(s, 255, false);
      && next.IsInt32() && next.tli == s.tli && next.seg < 256
      && Nth(s, i, 255, false) == Nth(next, i - 1, 255, false)
    decreases i
  {
    hide Wrap32;
    if i > 1 {
      NthFromSuccessor(s, i - 1);
    }
  }

  lemma DefaultSize()
    ensures PerFile(None) == 255 && !SkipsLast(None)
    ensures SegmentSize(0x100_0000) && WalSegmentsPerFile(0x100_0000) == 255
    ensures SegmentBase(0x100_0000, false) == 256 && Cycle(0x100_0000, false) == CYCLE
  {
  }

  lemma NthShape(s: Segment, i: nat)
    requires s.IsInt32()
    ensures Nth(s, i, 255, false).IsInt32() && Nth(s, i, 255, false).tli == s.tli
  {
    if i > 0 {
      hide Nth, Successor, SegmentBase, WalSegmentsPerFile, Cycle;
      NthFromSuccessor(s, i);
      DefaultSize();
      var _ := NthOrdinalInCycle(Successor(s, 255, false), i - 1, 0x100_0000, false);
    }
  }

  /** Within a cycle, no two prefetched names are equal, also where the numbers of the segments wrap. */
  lemma NextNamesDistinct(s: Segment, i: nat, j: nat)
    requires s.IsInt32() && s.tli >= 0
    requires 0 < i < j && j - i < CYCLE
    ensures NthName(s, i) != NthName(s, j)
  {
    hide Nth, Successor, SegmentBase, WalSegmentsPerFile, Cycle, PerFile, SkipsLast;
    DefaultSize();
    NthFromSuccessor(s, i);
    NthFromSuccessor(s, j);
    NextSegmentsDiffer(Successor(s, 255, false), i - 1, j - 1, 0x100_0000, false);
    NthShape(s, i);
    NthShape(s, j);
    NameInjective(Nth(s, i, 255, false), Nth(s, j, 255, false));
  }

  lemma ParsedIsInt32(walName: string)
    requires SegmentFromName(walName).Some?
    ensures SegmentFromName(walName).value.IsInt32() && SegmentFromName(walName).value.tli >= 0
  {
    hide Base, Upper;
    PrintParsedName(walName);
  }

  /** No two prefetched files of a call share a place in the spool. */
  lemma ListHasDistinctPlaces(walName: string, parallel: nat, controlledPromotion: bool, i: nat, j: nat)
    requires 1 <= parallel <= CYCLE
    requires 0 < i < j < |FetchList(walName, parallel, controlledPromotion)|
    ensures SpoolName(FetchList(walName, parallel, controlledPromotion)[i]) !=
            SpoolName(FetchList(walName, parallel, controlledPromotion)[j])
  {
    hide SegmentFromName, SpoolName, IsWALFile, NthName;
    ParsedIsInt32(walName);
    var s := SegmentFromName(walName).value;
    PlaceOfNth(s, i);
    PlaceOfNth(s, j);
    NextNamesDistinct(s, i, j);
  }

  // ----- The service -----

  class WALService {
    const restorer: WALRestorer

    constructor (restorer: WALRestorer)
      ensures this.restorer == restorer
    {
      this.restorer := restorer;
    }

    /** Whether the flag says that the stream has ended; a flag that is set is consumed. */
    method CheckEndOfWALStreamFlag(readWorks: bool, resetWorks: bool) returns (ended: bool, err: Option<SpoolError>)
      modifies restorer.spool
      ensures err.Some? <==> !readWorks || (END_OF_WAL_STREAM_FLAG in old(restorer.spool.files) && !resetWorks)
      ensures ended <==> err.None? && END_OF_WAL_STREAM_FLAG in old(restorer.spool.files)
      ensures restorer.spool.files ==
              if ended then old(restorer.spool.files) - {END_OF_WAL_STREAM_FLAG} else old(restorer.spool.files)
    {
      var contain := restorer.IsEndOfWALStream(readWorks);
      if contain.Err? {
        return false, Some(contain.error);
      }
      if contain.value {
        err := restorer.ResetEndOfWalStream(resetWorks);
        return err.None?, err;
      }
      return false, None;
    }

    method Restore(walName: string, env: RestoreEnv) returns (reply: Reply, ghost setsFlag: bool)
      modifies restorer.spool
      ensures RestoreCallResult(restorer.spool.files, reply, setsFlag) ==
              RestoreCall(old(restorer.spool.files), walName, env)
    {
      hide IsStreamingAvailable, FetchStage;
      setsFlag := false;
      if !env.setupWorks {
        return Failed, false;
      }
      var moved := restorer.RestoreFromSpool(walName, env.moveWorks);
      if moved.Err? {
        return Failed, false;
      }
      if moved.value.Some? {
        return FromSpool(moved.value.value), false;
      }
      if IsStreamingAvailable(env.cluster, env.podName) {
        var ended, err := CheckEndOfWALStreamFlag(env.readFlagWorks, env.resetFlagWorks);
        if err.Some? {
          return Failed, false;
        }
        if ended {
          return EndOfWAL, false;
        }
      }
      reply, setsFlag := Download(walName, env);
    }

    /** Gathers the list and downloads it. */
    method FetchFiles(walName: string, env: RestoreEnv)
      returns (walStatus: array<RestoreResult>, destination: Option<Content>)
      modifies restorer.spool
      ensures Errors(walStatus[..]) == FetchErrors(CallFetches(walName, env))
      ensures walStatus.Length > 0 && walStatus[0].err == FetchErrors(CallFetches(walName, env))[0]
      ensures walStatus[0].err.None? ==> destination == Some(CallFetches(walName, env).fetches[0].content)
      ensures restorer.spool.files == FetchedFiles(CallFetches(walName, env), old(restorer.spool.files))
    {
      hide IsWALFile, GatherList, FetchedFiles, ReachesFiles;
      var walFilesList;
      if IsWALFile(walName) {
        walFilesList := GatherWALFilesToRestore(walName, MaxParallel(env.parallel), env.controlledPromotion);
      } else {
        walFilesList := [walName];
      }
      var batch := CallFetches(walName, env);
      assert batch.names == walFilesList;
      CallPlacesAreSeparate(walName, env);
      walStatus, destination := restorer.RestoreList(walFilesList, batch.fetches);
      assert FetchErrors(batch)[0] == Errors(walStatus[..])[0] == walStatus[0].err;
    }

    method Download(walName: string, env: RestoreEnv) returns (reply: Reply, ghost setsFlag: bool)
      modifies restorer.spool
      ensures RestoreCallResult(restorer.spool.files, reply, setsFlag) ==
              FetchStage(old(restorer.spool.files), walName, env)
    {
      hide IsStreamingAvailable, FetchedFiles, FetchErrors, CallFetches, IsEndOfWALStream;
      var walStatus, destination := FetchFiles(walName, env);
      setsFlag := false;
      if walStatus[0].err.Some? {
        return if walStatus[0].err == Some(WALNotFound) then NotFound else Failed, false;
      }
      var endOfWALStream := ScanForEndOfWALStream(walStatus);
      if IsStreamingAvailable(env.cluster, env.podName) && endOfWALStream {
        ghost var before := restorer.spool.files;
        var err := restorer.SetEndOfWALStream(env.readFlagAgainWorks, env.touchFlagWorks);
        if err.Some? {
          return Failed, false;
        }
        setsFlag := END_OF_WAL_STREAM_FLAG !in before;
      }
      reply := FromArchive(destination.value);
    }
  }

  /** Whether some file was missing. */
  method ScanForEndOfWALStream(results: array<RestoreResult>) returns (found: bool)
    ensures found <==> IsEndOfWALStream(Errors(results[..]))
  {
    ghost var errs := Errors(results[..]);
    for i := 0 to results.Length
      invariant !IsEndOfWALStream(errs[..i])
    {
      assert errs[i] == results[i].err;
      EndOfStreamStep(errs, i);
      if results[i].err == Some(WALNotFound) {
        EndOfStreamPrefix(errs, i + 1);
        return true;
      }
    }
    EndOfStreamPrefix(errs, results.Length);
    return false;
  }

  /** Places that coincide, as beyond a cycle, belong to one name and so to one download. */
  lemma CallPlacesAreSeparate(walName: string, env: RestoreEnv)
    ensures CallFetches(walName, env).SeparatePlaces()
  {
    hide SegmentFromName, SpoolName, IsWALFile, NthName, FetchOf;
    var names := CallList(walName, env);
    forall i, j | 0 < i < j < |names| && SpoolName(names[i]) == SpoolName(names[j])
      ensures FetchOf(env, names[i]) == FetchOf(env, names[j])
    {
      PlaceOfNth(SegmentFromName(walName).value, i);
      PlaceOfNth(SegmentFromName(walName).value, j);
    }
  }

  lemma EndOfStreamStep(errs: seq<Option<FetchError>>, i: nat)
    requires i < |errs|
    ensures IsEndOfWALStream(errs[..i + 1]) <==> IsEndOfWALStream(errs[..i]) || errs[i] == Some(WALNotFound)
  {
    if IsEndOfWALStream(errs[..i]) {
      var k :| 0 <= k < i && errs[..i][k] == Some(WALNotFound);
      assert errs[..i + 1][k] == Some(WALNotFound);
    }
    if errs[i] == Some(WALNotFound) {
      assert errs[..i + 1][i] == Some(WALNotFound);
    }
    if IsEndOfWALStream(errs[..i + 1]) && errs[i] != Some(WALNotFound) {
      var k :| 0 <= k < i + 1 && errs[..i + 1][k] == Some(WALNotFound);
      assert errs[..i][k] == Some(WALNotFound);
    }
  }

  lemma EndOfStreamPrefix(errs: seq<Option<FetchError>>, i: nat)
    requires i <= |errs|
    ensures IsEndOfWALStream(errs[..i]) ==> IsEndOfWALStream(errs)
    ensures i == |errs| ==> (IsEndOfWALStream(errs[..i]) <==> IsEndOfWALStream(errs))
  {
    if IsEndOfWALStream(errs[..i]) {
      var k :| 0 <= k < i && errs[..i][k] == Some(WALNotFound);
      assert errs[k] == Some(WALNotFound);
    }
    if i == |errs| {
      assert errs[..i] == errs;
    }
  }
}

/**
 * Whole runs of Restore calls against one archive. The archive is write-once by
 * name and may grow at any time, even while a call downloads; archive-get is all
 * or nothing; the spool starts empty and only Restore uses it; destinations lie
 * outside the spool.
 */
module RestoreRuns {
  import opened Wrappers
  import opened Common
  import opened Paths
  import opened WalSegment
  import opened Spool
  import opened Restorer
  import opened RestoreService

  type Archive = map<string, Content>

  predicate Grows(a: Archive, b: Archive) {
    forall n :: n in a ==> n in b && b[n] == a[n]
  }

  /** How a call ends: with its answer, with the answer lost, or in the middle of its downloads. */
  datatype Ending = Answered | Unanswered | StoppedWhileFetching(done: seq<bool>)

  /** A call, with the archive as it is when the call starts and when it ends. */
  datatype Event = Event(before: Archive, after: Archive, walName: string, env: RestoreEnv, ending: Ending)

  /** The call gets as far as downloading. */
  predicate Downloads(files: Files, e: Event) {
    && e.env.setupWorks
    && e.walName !in files
    && (Streaming(e.env) ==> e.env.readFlagWorks && END_OF_WAL_STREAM_FLAG !in files)
  }

  function FilesAfterEvent(files: Files, e: Event): Files {
    match e.ending
    case StoppedWhileFetching(done) =>
      if Downloads(files, e) && |done| == |CallList(e.walName, e.env)| then
        FilesAfter(CallFetches(e.walName, e.env), files, done, |done|)
      else files
    case _ => RestoreCall(files, e.walName, e.env).files
  }

  /** The spool before event i. */
  function FilesAt(events: seq<Event>, i: nat): Files
    requires i <= |events|
  {
    if i == 0 then map[] else FilesAfterEvent(FilesAt(events, i - 1), events[i - 1])
  }

  function ReplyAt(events: seq<Event>, i: nat): Option<Reply>
    requires i < |events|
  {
    if events[i].ending.Answered? then Some(RestoreCall(FilesAt(events, i), events[i].walName, events[i].env).reply)
    else None
  }

  /** The exit status of an archive-get is true to the archive. */
  predicate SoundFetch(before: Archive, after: Archive, name: string, f: Fetch) {
    && (f.exit == Exited(0) ==> name in after && after[name] == f.content)
    && (f.exit == Exited(WAL_NOT_FOUND_EXIT_CODE) ==> name !in before)
  }

  predicate GoodEvent(e: Event) {
    && Canonical(e.walName)
    && Grows(e.before, e.after)
    && forall i :: 0 <= i < |CallList(e.walName, e.env)| ==>
         SoundFetch(e.before, e.after, CallList(e.walName, e.env)[i], CallFetches(e.walName, e.env).fetches[i])
  }

  predicate GoodRun(events: seq<Event>) {
    && (forall i :: 0 <= i < |events| ==> GoodEvent(events[i]))
    && (forall i :: 0 < i < |events| ==> Grows(events[i - 1].after, events[i].before))
  }

  // ----- What is delivered is what the archive holds -----

  /** The content is the archived file's, or its partial form's where a promotion of the file allows that. */
  predicate Original(a: Archive, name: string, c: Content, promoted: bool) {
    || (name in a && a[name] == c)
    || (promoted && name + ".partial" in a && a[name + ".partial"] == c)
  }

  /** The only calls that keep a partial file, and they keep it in the place of the file they were asked for. */
  predicate Promotes(e: Event) {
    e.env.controlledPromotion && MaxParallel(e.env.parallel) == 1
  }

  /** The files that such calls were asked for before event i. */
  function PromotedBefore(events: seq<Event>, i: nat): set<string>
    requires i <= |events|
  {
    set k | 0 <= k < i && Promotes(events[k]) :: events[k].walName
  }

  predicate Faithful(files: Files, a: Archive, promoted: set<string>) {
    forall n :: n in files && n != END_OF_WAL_STREAM_FLAG ==> Original(a, n, files[n], n in promoted)
  }

  lemma FaithfulGrows(files: Files, a: Archive, b: Archive, promoted: set<string>)
    requires Faithful(files, a, promoted) && Grows(a, b)
    ensures Faithful(files, b, promoted)
  {
  }

  /** A successful fetch at place i stores an original. */
  lemma StoredIsOriginal(e: Event, i: nat, promoted: set<string>)
    requires GoodEvent(e) && (Promotes(e) ==> e.walName in promoted)
    requires 0 < i < |CallList(e.walName, e.env)| && CallFetches(e.walName, e.env).fetches[i].Error().None?
    ensures SpoolName(CallList(e.walName, e.env)[i]) != END_OF_WAL_STREAM_FLAG
    ensures Original(e.after, SpoolName(CallList(e.walName, e.env)[i]),
                     CallFetches(e.walName, e.env).fetches[i].content,
                     SpoolName(CallList(e.walName, e.env)[i]) in promoted)
  {
    hide FetchList, SpoolName, Segment.Name, SegmentFromName, IsWALFile;
    ListPlaces(e.walName, MaxParallel(e.env.parallel), e.env.controlledPromotion, i);
  }

  lemma FetchedFaithful(files: Files, e: Event, done: seq<bool>, promoted: set<string>)
    requires GoodEvent(e) && (Promotes(e) ==> e.walName in promoted)
    requires Faithful(files, e.before, promoted)
    requires |done| == |CallList(e.walName, e.env)|
    ensures Faithful(FilesAfter(CallFetches(e.walName, e.env), files, done, |done|), e.after, promoted)
  {
    FaithfulGrows(files, e.before, e.after, promoted);
    hide FetchList, SpoolName, Canonical, FilesAfter, GoodEvent, CallList, FetchOf;
    var batch := CallFetches(e.walName, e.env);
    var fetched := FilesAfter(batch, files, done, |done|);
    forall n | n in fetched && n != END_OF_WAL_STREAM_FLAG
      ensures Original(e.after, n, fetched[n], n in promoted)
    {
      FileOrigin(batch, files, done, |done|, n);
      if !(n in files && fetched[n] == files[n]) {
        var i :| 0 < i < |done| && Stores(batch, done, i) && n == SpoolName(batch.names[i])
                 && fetched[n] == batch.fetches[i].content;
        StoredIsOriginal(e, i, promoted);
      }
    }
  }

  /** A download leaves what it fetched, with the flag added or not. */
  lemma FetchStageFiles(files: Files, walName: string, env: RestoreEnv)
    ensures
      var fetched := FetchedFiles(CallFetches(walName, env), files);
      FetchStage(files, walName, env).files in {fetched, fetched[END_OF_WAL_STREAM_FLAG := []]}
  {
    hide CallFetches, FetchedFiles, WalRestoreError, IsStreamingAvailable, IsEndOfWALStream, FetchErrors;
  }

  lemma FetchStageFaithful(files: Files, e: Event, promoted: set<string>)
    requires GoodEvent(e) && (Promotes(e) ==> e.walName in promoted)
    requires Faithful(files, e.before, promoted)
    ensures Faithful(FetchStage(files, e.walName, e.env).files, e.after, promoted)
  {
    hide CallList, CallFetches, FilesAfter, GoodEvent, FetchStage, Original;
    var n := |CallList(e.walName, e.env)|;
    FetchedFaithful(files, e, AllDone(n), promoted);
    FetchStageFiles(files, e.walName, e.env);
    FetchedIsAll(files, e.walName, e.env);
  }

  lemma FetchedIsAll(files: Files, walName: string, env: RestoreEnv)
    ensures
      var n := |CallList(walName, env)|;
      FetchedFiles(CallFetches(walName, env), files) == FilesAfter(CallFetches(walName, env), files, AllDone(n), n)
  {
    hide FilesAfter, CallList;
  }

  lemma FaithfulOver(files: Files, e: Event, promoted: set<string>)
    requires GoodEvent(e) && Faithful(files, e.before, promoted)
    ensures Faithful(files, e.after, promoted)
  {
    hide Faithful, Canonical, CallList, SoundFetch;
    FaithfulGrows(files, e.before, e.after, promoted);
  }

  lemma CallFaithful(files: Files, e: Event, promoted: set<string>)
    requires GoodEvent(e) && (Promotes(e) ==> e.walName in promoted)
    requires Faithful(files, e.before, promoted)
    ensures Faithful(RestoreCall(files, e.walName, e.env).files, e.after, promoted)
  {
    hide FetchStage, GoodEvent, IsStreamingAvailable, Original;
    FaithfulOver(files, e, promoted);
    FetchStageFaithful(files, e, promoted);
  }

  lemma EventFaithful(files: Files, e: Event, promoted: set<string>)
    requires GoodEvent(e) && (Promotes(e) ==> e.walName in promoted)
    requires Faithful(files, e.before, promoted)
    ensures Faithful(FilesAfterEvent(files, e), e.after, promoted)
  {
    hide RestoreCall, GoodEvent, FilesAfter, CallFetches, CallList, Faithful, Downloads;
    FaithfulOver(files, e, promoted);
    CallFaithful(files, e, promoted);
    if e.ending.StoppedWhileFetching? && |e.ending.done| == |CallList(e.walName, e.env)| {
      FetchedFaithful(files, e, e.ending.done, promoted);
    }
  }

  lemma {:induction false} RunFaithful(events: seq<Event>, i: nat, promoted: set<string>)
    requires GoodRun(events) && i <= |events|
    requires forall k :: 0 <= k < i && Promotes(events[k]) ==> events[k].walName in promoted
    ensures i < |events| ==> Faithful(FilesAt(events, i), events[i].before, promoted)
    decreases i
  {
    hide FilesAfterEvent, GoodEvent, Grows;
    if i == 0 {
      assert FilesAt(events, 0) == map[];
    } else {
      RunFaithful(events, i - 1, promoted);
      hide Faithful;
      EventFaithful(FilesAt(events, i - 1), events[i - 1], promoted);
      if i < |events| {
        FaithfulGrows(FilesAt(events, i), events[i - 1].after, events[i].before, promoted);
      }
    }
  }

  /** The answer of a download is about the requested file. */
  lemma FetchReply(files: Files, e: Event)
    requires GoodEvent(e)
    ensures
      match FetchStage(files, e.walName, e.env).reply
      case FromSpool(_) => false
      case FromArchive(c) => e.walName in e.after && e.after[e.walName] == c
      case NotFound => e.walName !in e.before
      case _ => true
  {
    hide FetchList, FetchedFiles, IsStreamingAvailable, Grows, IsEndOfWALStream;
    ListHead(e);
    hide Canonical;
    var batch := CallFetches(e.walName, e.env);
    assert SoundFetch(e.before, e.after, batch.names[0], batch.fetches[0]);
    assert FetchErrors(batch)[0] == batch.fetches[0].Error();
  }

  /** The answer of one call, given a faithful spool. */
  lemma ReplyIsOriginal(files: Files, e: Event, promoted: set<string>)
    requires GoodEvent(e) && Faithful(files, e.before, promoted)
    ensures
      match RestoreCall(files, e.walName, e.env).reply
      case FromSpool(c) => Original(e.after, e.walName, c, e.walName in promoted)
      case FromArchive(c) => e.walName in e.after && e.after[e.walName] == c
      case NotFound => e.walName !in e.before
      case _ => true
  {
    hide FetchStage, GoodEvent, IsStreamingAvailable, Original;
    GoodEventName(e);
    FaithfulOver(files, e, promoted);
    FetchReply(files, e);
  }

  lemma GoodEventName(e: Event)
    requires GoodEvent(e)
    ensures e.walName != END_OF_WAL_STREAM_FLAG
  {
    hide CallList, SoundFetch, Grows;
  }

  lemma ListHead(e: Event)
    requires Canonical(e.walName)
    ensures CallList(e.walName, e.env)[0] == e.walName
  {
    if IsWALFile(e.walName) {
      ListStartsWithRequest(e.walName, MaxParallel(e.env.parallel), e.env.controlledPromotion);
    }
  }

  /**
   * Restore through the spool refines a direct fetch: in every run, whatever
   * fails or stops, each call that delivers delivers the archive's content for
   * the requested name. Only when a controlled promotion has been asked for that very file before may it be
   * the content of the partial file, and then only out of the spool. The answer
   * "not found" is given only for a file the archive did not hold.
   */
  lemma RestoreRefinesDirectFetch(events: seq<Event>, i: nat)
    requires GoodRun(events) && i < |events|
    ensures
      match ReplyAt(events, i)
      case Some(FromSpool(c)) =>
        Original(events[i].after, events[i].walName, c, events[i].walName in PromotedBefore(events, i))
      case Some(FromArchive(c)) => events[i].walName in events[i].after && events[i].after[events[i].walName] == c
      case Some(NotFound) => events[i].walName !in events[i].before
      case _ => true
  {
    RunFaithful(events, i, PromotedBefore(events, i));
    hide RestoreCall, Faithful;
    ReplyIsOriginal(FilesAt(events, i), events[i], PromotedBefore(events, i));
  }

  // ----- Where a file in the spool comes from -----

  /** The call lists a file at k, finds it, and keeps it in the place of the name. */
  predicate StoresAs(e: Event, k: nat, name: string, c: Content) {
    && 0 < k < |CallList(e.walName, e.env)|
    && SpoolName(CallList(e.walName, e.env)[k]) == name
    && CallFetches(e.walName, e.env).fetches[k].Error().None?
    && CallFetches(e.walName, e.env).fetches[k].content == c
  }

  ghost predicate StoresSome(e: Event, name: string, c: Content) {
    exists k :: StoresAs(e, k, name, c)
  }

  lemma FetchedOrigin(files: Files, e: Event, done: seq<bool>, name: string)
    requires |done| == |CallList(e.walName, e.env)|
    requires name in FilesAfter(CallFetches(e.walName, e.env), files, done, |done|)
    ensures
      var c := FilesAfter(CallFetches(e.walName, e.env), files, done, |done|)[name];
      (name in files && files[name] == c) || StoresSome(e, name, c)
  {
    hide CallList, SpoolName, FilesAfter, WalRestoreError;
    var batch := CallFetches(e.walName, e.env);
    var c := FilesAfter(batch, files, done, |done|)[name];
    FileOrigin(batch, files, done, |done|, name);
    if !(name in files && c == files[name]) {
      var k :| 0 < k < |done| && Stores(batch, done, k)
               && name == SpoolName(batch.names[k]) && c == batch.fetches[k].content;
      assert StoresAs(e, k, name, c);
    }
  }

  /** What an event adds to the spool, apart from the flag, it has downloaded. */
  lemma EventOrigin(files: Files, e: Event, name: string)
    requires name in FilesAfterEvent(files, e) && name != END_OF_WAL_STREAM_FLAG
    ensures
      || (name in files && files[name] == FilesAfterEvent(files, e)[name])
      || (Downloads(files, e) && StoresSome(e, name, FilesAfterEvent(files, e)[name]))
  {
    hide CallList, CallFetches, FilesAfter, FetchStage, IsStreamingAvailable, FetchedFiles, StoresSome;
    var n := |CallList(e.walName, e.env)|;
    FetchStageFiles(files, e.walName, e.env);
    FetchedIsAll(files, e.walName, e.env);
    CallFetchesNames(e.walName, e.env);
    if name in FilesAfter(CallFetches(e.walName, e.env), files, AllDone(n), n) {
      FetchedOrigin(files, e, AllDone(n), name);
    }
    if e.ending.StoppedWhileFetching? && |e.ending.done| == n
       && name in FilesAfter(CallFetches(e.walName, e.env), files, e.ending.done, n)
    {
      FetchedOrigin(files, e, e.ending.done, name);
    }
  }

  lemma {:induction false} FileWasStored(events: seq<Event>, i: nat, name: string) returns (j: nat)
    requires i <= |events| && name in FilesAt(events, i) && name != END_OF_WAL_STREAM_FLAG
    ensures j < i && Downloads(FilesAt(events, j), events[j]) && StoresSome(events[j], name, FilesAt(events, i)[name])
    decreases i
  {
    hide *;
    NothingAtFirst(events);
    FilesAtStep(events, i);
    EventOrigin(FilesAt(events, i - 1), events[i - 1], name);
    if name in FilesAt(events, i - 1) && FilesAt(events, i - 1)[name] == FilesAt(events, i)[name] {
      j := FileWasStored(events, i - 1, name);
    } else {
      j := i - 1;
    }
  }

  lemma NothingAtFirst(events: seq<Event>)
    ensures FilesAt(events, 0) == map[]
  {
  }

  lemma StoredName(e: Event, k: nat, name: string, c: Content)
    requires Canonical(e.walName) && StoresAs(e, k, name, c)
    ensures
      || CallList(e.walName, e.env)[k] == name
      || (Promotes(e) && name == e.walName && CallList(e.walName, e.env)[k] == name + ".partial")
  {
    hide FetchList, SpoolName, SegmentFromName, Segment.Name, CallFetches;
    ListPlaces(e.walName, MaxParallel(e.env.parallel), e.env.controlledPromotion, k);
  }

  /**
   * Whatever is delivered out of the spool was downloaded by an earlier call of the run: as the file of that very name,
   * or as the partial form of the file which that call, a controlled promotion with one file at a time, was asked for.
   */
  lemma SpooledFileHasItsOrigin(events: seq<Event>, i: nat) returns (j: nat, k: nat)
    requires GoodRun(events) && i < |events| && ReplyAt(events, i).Some? && ReplyAt(events, i).value.FromSpool?
    ensures
      var name := events[i].walName;
      && j < i && Downloads(FilesAt(events, j), events[j])
      && StoresAs(events[j], k, name, ReplyAt(events, i).value.content)
      && (CallList(events[j].walName, events[j].env)[k] == name ||
          (Promotes(events[j]) && events[j].walName == name
           && CallList(events[j].walName, events[j].env)[k] == name + ".partial"))
  {
    hide FilesAt, GoodEvent, Downloads, StoresAs, CallList, FetchStage, IsStreamingAvailable;
    assert GoodEvent(events[i]);
    GoodEventName(events[i]);
    FetchStageAndFlag(FilesAt(events, i), events[i].walName, events[i].env);
    j := FileWasStored(events, i, events[i].walName);
    k :| StoresAs(events[j], k, events[i].walName, ReplyAt(events, i).value.content);
    assert GoodEvent(events[j]);
    GoodEventCanonical(events[j]);
    StoredName(events[j], k, events[i].walName, ReplyAt(events, i).value.content);
  }

  lemma GoodEventCanonical(e: Event)
    requires GoodEvent(e)
    ensures Canonical(e.walName)
  {
    hide Canonical, CallList, SoundFetch, Grows;
  }

  // ----- The spool comes first -----

  /**
   * A file in the spool is served from there at every event of a run, whatever the archive, the flag and the stream are
   * doing; only a failure of the file system can take the place of that answer.
   */
  lemma SpooledFileIsServedFirst(events: seq<Event>, i: nat)
    requires GoodRun(events) && i < |events| && events[i].walName in FilesAt(events, i)
    ensures
      var e, c := events[i], FilesAt(events, i)[events[i].walName];
      && Original(e.after, e.walName, c, e.walName in PromotedBefore(events, i))
      && (e.ending.Answered? ==>
        ReplyAt(events, i) == Some(if e.env.setupWorks && e.env.moveWorks then FromSpool(c) else Failed))
  {
    RunFaithful(events, i, PromotedBefore(events, i));
    hide FilesAt, GoodEvent, Original;
    assert GoodEvent(events[i]);
    GoodEventName(events[i]);
    FaithfulOver(FilesAt(events, i), events[i], PromotedBefore(events, i));
  }

  /** A prefetched successor that was found waits with its content, also when other downloads failed. */
  lemma PrefetchServesSuccessors(files: Files, e: Event, i: nat)
    requires Downloads(files, e) && SegmentFromName(e.walName).Some?
    requires 0 < i < MaxParallel(e.env.parallel)
    requires FetchOf(e.env, NthName(SegmentFromName(e.walName).value, i)).exit == Exited(0)
    ensures
      var successor := NthName(SegmentFromName(e.walName).value, i);
      var after := RestoreCall(files, e.walName, e.env).files;
      successor in after && after[successor] == FetchOf(e.env, successor).content
  {
    hide SegmentFromName, NthName, SpoolName, IsStreamingAvailable, FilesAfter, FetchStage, CallList, FetchOf,
      MaxParallel;
    var s := SegmentFromName(e.walName).value;
    var batch := CallFetches(e.walName, e.env);
    SuccessorIsListed(e.walName, e.env, i);
    PlaceOfNth(s, i);
    CallPlacesAreSeparate(e.walName, e.env);
    StoredFile(batch, files, i, |batch.names|);
    FetchStageFiles(files, e.walName, e.env);
  }

  lemma SuccessorIsListed(walName: string, env: RestoreEnv, i: nat)
    requires SegmentFromName(walName).Some? && i < MaxParallel(env.parallel)
    ensures i < |CallList(walName, env)| && CallList(walName, env)[i] == NthName(SegmentFromName(walName).value, i)
  {
    hide SegmentFromName, IsWALFile, NthName;
    AcceptedIsWALFile(walName);
  }

  lemma EventKeeps(files: Files, e: Event, name: string)
    requires name in files && name != e.walName && name != END_OF_WAL_STREAM_FLAG
    ensures name in FilesAfterEvent(files, e)
  {
    hide CallList, CallFetches, FilesAfter, FetchStage, IsStreamingAvailable, FetchedFiles;
    var batch := CallFetches(e.walName, e.env);
    FetchStageFiles(files, e.walName, e.env);
    FetchedIsAll(files, e.walName, e.env);
    FilesStay(batch, files, AllDone(|batch.names|), |batch.names|);
    if e.ending.StoppedWhileFetching? && |e.ending.done| == |batch.names| {
      FilesStay(batch, files, e.ending.done, |batch.names|);
    }
    CallFetchesNames(e.walName, e.env);
  }

  lemma CallFetchesNames(walName: string, env: RestoreEnv)
    ensures CallFetches(walName, env).names == CallList(walName, env)
  {
    hide CallList;
  }

  lemma FilesAtStep(events: seq<Event>, i: nat)
    requires 0 < i <= |events|
    ensures FilesAt(events, i) == FilesAfterEvent(FilesAt(events, i - 1), events[i - 1])
  {
    hide FilesAfterEvent;
  }

  lemma FilesAfterCall(files: Files, e: Event)
    requires !e.ending.StoppedWhileFetching?
    ensures FilesAfterEvent(files, e) == RestoreCall(files, e.walName, e.env).files
  {
    hide RestoreCall;
  }

  /** Nothing but a request for it takes a file out of the spool. */
  lemma {:induction false} FileWaits(events: seq<Event>, k: nat, i: nat, name: string)
    requires k <= i <= |events| && name in FilesAt(events, k) && name != END_OF_WAL_STREAM_FLAG
    requires forall m :: k <= m < i ==> events[m].walName != name
    ensures name in FilesAt(events, i)
    decreases i - k
  {
    hide *;
    if k < i {
      FilesAtStep(events, i);
      FileWaits(events, k, i - 1, name);
      EventKeeps(FilesAt(events, i - 1), events[i - 1], name);
    }
  }

  lemma UnansweredHasNoReply(events: seq<Event>, i: nat)
    requires i < |events|
    ensures ReplyAt(events, i).Some? <==> events[i].ending.Answered?
  {
    hide RestoreCall;
  }

  /** Every successor that an earlier call has found is served from the spool when PostgreSQL first asks for it. */
  lemma PrefetchedSuccessorIsServed(events: seq<Event>, j: nat, i: nat, n: nat)
    requires GoodRun(events) && j < i < |events|
    requires Downloads(FilesAt(events, j), events[j]) && !events[j].ending.StoppedWhileFetching?
    requires SegmentFromName(events[j].walName).Some? && 0 < n < MaxParallel(events[j].env.parallel)
    requires events[i].walName == NthName(SegmentFromName(events[j].walName).value, n)
    requires FetchOf(events[j].env, events[i].walName).exit == Exited(0)
    requires forall k :: j < k < i ==> events[k].walName != events[i].walName
    ensures
      match ReplyAt(events, i)
      case Some(FromSpool(c)) =>
        Original(events[i].after, events[i].walName, c, events[i].walName in PromotedBefore(events, i))
      case Some(Failed) => !(events[i].env.setupWorks && events[i].env.moveWorks)
      case None => true
      case _ => false
  {
    hide *;
    PlaceOfNth(SegmentFromName(events[j].walName).value, n);
    PrefetchServesSuccessors(FilesAt(events, j), events[j], n);
    FilesAtStep(events, j + 1);
    FilesAfterCall(FilesAt(events, j), events[j]);
    FileWaits(events, j + 1, i, events[i].walName);
    SpooledFileIsServedFirst(events, i);
    UnansweredHasNoReply(events, i);
  }

  // ----- What a call answers -----

  /** Some file that the call lists is missing, by the exit status of its archive-get. */
  ghost predicate ListsMissing(walName: string, env: RestoreEnv) {
    exists k :: 0 <= k < |CallList(walName, env)| && CallList(walName, env)[k] in env.fetches
      && env.fetches[CallList(walName, env)[k]].exit == Exited(1)
  }

  /** The exit status of the archive-get for the name; it does not run where the environment has none. */
  function ExitOf(env: RestoreEnv, name: string): ExitStatus {
    if name in env.fetches then env.fetches[name].exit else NotRun
  }

  lemma FetchSees(walName: string, env: RestoreEnv)
    requires Canonical(walName)
    ensures
      var batch := CallFetches(walName, env);
      var errs := FetchErrors(batch);
      && (errs[0].None? <==> ExitOf(env, walName) == Exited(0))
      && (errs[0] == Some(WALNotFound) <==> ExitOf(env, walName) == Exited(1))
      && (walName in env.fetches ==> batch.fetches[0].content == env.fetches[walName].content)
      && (IsEndOfWALStream(errs) <==> ListsMissing(walName, env))
  {
    hide CallList, Canonical;
    CanonicalHead(walName, env);
    var batch := CallFetches(walName, env);
    var errs := FetchErrors(batch);
    forall k | 0 <= k < |batch.names|
      ensures errs[k] == Some(WALNotFound) <==>
        batch.names[k] in env.fetches && env.fetches[batch.names[k]].exit == Exited(1)
    {
      assert errs[k] == FetchOf(env, batch.names[k]).Error();
    }
  }

  lemma CanonicalHead(walName: string, env: RestoreEnv)
    requires Canonical(walName)
    ensures CallList(walName, env)[0] == walName
  {
    hide FetchList, Canonical;
    if IsWALFile(walName) {
      CanonicalFirst(walName, MaxParallel(env.parallel), env.controlledPromotion);
    } else {
      NotGathered(walName, MaxParallel(env.parallel), env.controlledPromotion);
    }
  }

  lemma CanonicalFirst(walName: string, parallel: nat, controlledPromotion: bool)
    requires Canonical(walName) && IsWALFile(walName) && parallel >= 1
    ensures FetchList(walName, parallel, controlledPromotion)[0] == walName
  {
    hide SegmentFromName, Segment.Name, IsWALFile, FetchList;
    ListStartsWithRequest(walName, parallel, controlledPromotion);
  }

  /** Files that are no regular segments are fetched alone. */
  lemma NotGathered(walName: string, parallel: nat, controlledPromotion: bool)
    requires !IsWALFile(walName)
    ensures FetchList(walName, parallel, controlledPromotion) == [walName]
  {
  }

  /** Without a spooled file, a call downloads exactly when no flag and no failure keeps a streaming pod from it. */
  lemma AnswerBeforeDownload(files: Files, walName: string, env: RestoreEnv)
    requires env.setupWorks ==>
      walName in files || (Streaming(env) && (!env.readFlagWorks || END_OF_WAL_STREAM_FLAG in files))
    ensures
      var r := RestoreCall(files, walName, env);
      && (r.reply.FromSpool? <==> env.setupWorks && walName in files && env.moveWorks)
      && (r.reply == EndOfWAL <==> env.setupWorks && walName !in files && env.readFlagWorks && env.resetFlagWorks)
      && (r.reply == Failed <==> !r.reply.FromSpool? && r.reply != EndOfWAL)
      && r.files == (match r.reply
                     case FromSpool(_) => files - {walName}
                     case EndOfWAL => files - {END_OF_WAL_STREAM_FLAG}
                     case _ => files)
  {
    hide FetchStage, IsStreamingAvailable;
  }

  /**
   * A call that downloads answers by the exit status of the requested file: its content for 0, "not found" for 1, and a
   * failure otherwise. On a streaming pod a missing prefetched file must also be put on record for the content to be
   * delivered.
   */
  lemma AnswerOfDownload(files: Files, e: Event)
    requires Canonical(e.walName) && Downloads(files, e)
    ensures
      var r := RestoreCall(files, e.walName, e.env);
      var own := ExitOf(e.env, e.walName);
      var ends := Streaming(e.env) && ListsMissing(e.walName, e.env);
      && (r.reply == NotFound <==> own == Exited(1))
      && (r.reply.FromArchive? <==> own == Exited(0) && (ends ==> e.env.readFlagAgainWorks && e.env.touchFlagWorks))
      && (r.reply.FromArchive? ==> r.reply.content == e.env.fetches[e.walName].content)
      && (r.reply == Failed <==> r.reply != NotFound && !r.reply.FromArchive?)
  {
    FetchKeepsFlagAll(files, e.walName, e.env);
    FetchSees(e.walName, e.env);
    hide Canonical, CallFetches, FetchedFiles, FetchErrors, IsStreamingAvailable, IsEndOfWALStream, ListsMissing,
      ExitOf;
  }

  lemma FetchKeepsFlagAll(files: Files, walName: string, env: RestoreEnv)
    ensures END_OF_WAL_STREAM_FLAG in FetchedFiles(CallFetches(walName, env), files) <==>
      END_OF_WAL_STREAM_FLAG in files
  {
    hide *;
    var n := |CallList(walName, env)|;
    AllDoneSize(n);
    FetchKeepsFlag(files, walName, env, AllDone(n));
    FetchedIsAll(files, walName, env);
  }

  lemma AllDoneSize(n: nat)
    ensures |AllDone(n)| == n
  {
  }

  /**
   * After a call that downloads, the flag is there exactly when it was there before, or when the pod can stream, the
   * requested file was found, some other listed file was missing, and the flag could be set.
   */
  lemma FlagAfterDownload(files: Files, e: Event)
    requires Canonical(e.walName) && Downloads(files, e)
    ensures END_OF_WAL_STREAM_FLAG in RestoreCall(files, e.walName, e.env).files <==>
      || END_OF_WAL_STREAM_FLAG in files
      || (Streaming(e.env) && ExitOf(e.env, e.walName) == Exited(0) && ListsMissing(e.walName, e.env)
          && e.env.readFlagAgainWorks && e.env.touchFlagWorks)
  {
    FetchKeepsFlagAll(files, e.walName, e.env);
    FetchSees(e.walName, e.env);
    hide Canonical, CallFetches, FetchedFiles, FetchErrors, IsStreamingAvailable, IsEndOfWALStream, ListsMissing,
      ExitOf;
  }

  /** While the flag is there, only a streaming pod's request for a file that is not in the spool takes it away. */
  lemma FlagStays(files: Files, e: Event)
    requires END_OF_WAL_STREAM_FLAG in files && e.walName != END_OF_WAL_STREAM_FLAG
    requires !e.env.setupWorks || e.walName in files || !Streaming(e.env)
    ensures END_OF_WAL_STREAM_FLAG in FilesAfterEvent(files, e)
  {
    if e.ending.StoppedWhileFetching? && |e.ending.done| == |CallList(e.walName, e.env)| {
      FetchKeepsFlag(files, e.walName, e.env, e.ending.done);
    }
    CallAndFlag(files, e.walName, e.env);
    hide CallList, CallFetches, FilesAfter, FetchStage, IsStreamingAvailable;
  }

  lemma GoodEventAt(events: seq<Event>, i: nat)
    requires GoodRun(events) && i < |events|
    ensures GoodEvent(events[i])
  {
    hide GoodEvent;
  }

  lemma {:induction false} FlagWaits(events: seq<Event>, k: nat, i: nat)
    requires GoodRun(events) && k <= i <= |events| && END_OF_WAL_STREAM_FLAG in FilesAt(events, k)
    requires forall m :: k <= m < i ==>
      !events[m].env.setupWorks || events[m].walName in FilesAt(events, m) || !Streaming(events[m].env)
    ensures END_OF_WAL_STREAM_FLAG in FilesAt(events, i)
    decreases i - k
  {
    hide *;
    if k < i {
      GoodEventAt(events, i - 1);
      FlagWaits(events, k, i - 1);
      FilesAtStep(events, i);
      GoodEventName(events[i - 1]);
      FlagStays(FilesAt(events, i - 1), events[i - 1]);
    }
  }

  /**
   * The signal arrives: when call j of a streaming pod finds its own file but misses another one that it lists, the
   * next streaming request at i that is not in the spool is answered "end of WAL".
   */
  lemma MissingPrefetchEndsStream(events: seq<Event>, j: nat, i: nat)
    requires GoodRun(events) && j < i < |events|
    requires Downloads(FilesAt(events, j), events[j]) && !events[j].ending.StoppedWhileFetching?
    requires Streaming(events[j].env) && events[j].env.readFlagAgainWorks && events[j].env.touchFlagWorks
    requires ExitOf(events[j].env, events[j].walName) == Exited(0) && ListsMissing(events[j].walName, events[j].env)
    requires forall m :: j < m < i ==>
      !events[m].env.setupWorks || events[m].walName in FilesAt(events, m) || !Streaming(events[m].env)
    requires Streaming(events[i].env) && events[i].walName !in FilesAt(events, i) && events[i].ending.Answered?
    requires events[i].env.setupWorks && events[i].env.readFlagWorks && events[i].env.resetFlagWorks
    ensures ReplyAt(events, i) == Some(EndOfWAL)
  {
    hide *;
    GoodEventAt(events, j);
    GoodEventCanonical(events[j]);
    FlagAfterDownload(FilesAt(events, j), events[j]);
    FilesAtStep(events, j + 1);
    FilesAfterCall(FilesAt(events, j), events[j]);
    FlagWaits(events, j + 1, i);
    AnswerBeforeDownload(FilesAt(events, i), events[i].walName, events[i].env);
    AnsweredReply(events, i);
  }

  lemma AnsweredReply(events: seq<Event>, i: nat)
    requires i < |events| && events[i].ending.Answered?
    ensures ReplyAt(events, i) == Some(RestoreCall(FilesAt(events, i), events[i].walName, events[i].env).reply)
  {
    hide RestoreCall;
  }

  // ----- What a left-over file would do -----

  /** Over any spool, what is served from there is an original exactly when the file that was there is one. */
  lemma LeftOverFileIsServed(files: Files, walName: string, env: RestoreEnv, a: Archive, promoted: bool)
    ensures
      var reply := RestoreCall(files, walName, env).reply;
      && (reply.FromSpool? <==> walName in files && env.setupWorks && env.moveWorks)
      && (reply.FromSpool? ==>
        (Original(a, walName, reply.content, promoted) <==> Original(a, walName, files[walName], promoted)))
  {
    hide FetchStage, IsStreamingAvailable, Original;
    FetchStageAndFlag(files, walName, env);
  }

  /** A marker of the archiver is delivered as an empty WAL, which is an original only of an empty one. */
  lemma ArchiveMarkerIsServedEmpty(files: Files, walFile: string, env: RestoreEnv, a: Archive)
    requires env.setupWorks && env.moveWorks
    ensures
      var reply := RestoreCall(Touched(files, walFile), Base(walFile), env).reply;
      && reply == FromSpool([])
      && (Original(a, Base(walFile), [], false) <==> Base(walFile) in a && a[Base(walFile)] == [])
  {
    hide Base;
  }

  lemma AcceptedIsWALFile(walName: string)
    requires SegmentFromName(walName).Some?
    ensures IsWALFile(walName)
  {
    hide SegmentFromName, Base;
    AcceptedNames(walName);
  }

  // ----- The end-of-stream flag -----

  lemma FetchKeepsFlag(files: Files, walName: string, env: RestoreEnv, done: seq<bool>)
    requires |done| == |CallList(walName, env)|
    ensures END_OF_WAL_STREAM_FLAG in FilesAfter(CallFetches(walName, env), files, done, |done|) <==>
            END_OF_WAL_STREAM_FLAG in files
  {
    hide FetchList, SpoolName, CallList, FetchOf, FilesAfter;
    var batch := CallFetches(walName, env);
    FilesStay(batch, files, done, |done|);
    var fetched := FilesAfter(batch, files, done, |done|);
    if END_OF_WAL_STREAM_FLAG in fetched && END_OF_WAL_STREAM_FLAG !in files {
      FileOrigin(batch, files, done, |done|, END_OF_WAL_STREAM_FLAG);
      var i :| 0 < i < |done| && END_OF_WAL_STREAM_FLAG == SpoolName(batch.names[i]);
      PlaceIsNotFlag(walName, env, i);
    }
  }

  lemma PlaceIsNotFlag(walName: string, env: RestoreEnv, i: nat)
    requires 0 < i < |CallList(walName, env)|
    ensures SpoolName(CallList(walName, env)[i]) != END_OF_WAL_STREAM_FLAG
  {
    hide FetchList, SpoolName;
    ListPlaces(walName, MaxParallel(env.parallel), env.controlledPromotion, i);
  }

  /** What a call does to the flag: set it, consume it with the answer "end of WAL", or leave it. */
  lemma CallAndFlag(files: Files, walName: string, env: RestoreEnv)
    requires walName != END_OF_WAL_STREAM_FLAG
    ensures
      var r := RestoreCall(files, walName, env);
      && (r.reply == EndOfWAL ==>
            && Streaming(env) && walName !in files
            && END_OF_WAL_STREAM_FLAG in files && END_OF_WAL_STREAM_FLAG !in r.files)
      && (r.setsFlag ==>
            && Streaming(env) && walName !in files
            && END_OF_WAL_STREAM_FLAG !in files && END_OF_WAL_STREAM_FLAG in r.files)
      && (r.reply != EndOfWAL && !r.setsFlag ==>
            (END_OF_WAL_STREAM_FLAG in r.files <==> END_OF_WAL_STREAM_FLAG in files))
  {
    FetchStageAndFlag(files, walName, env);
    hide FetchStage, IsStreamingAvailable;
  }

  lemma FetchStageAndFlag(files: Files, walName: string, env: RestoreEnv)
    ensures
      var r := FetchStage(files, walName, env);
      && r.reply != EndOfWAL && !r.reply.FromSpool?
      && (r.setsFlag ==> Streaming(env) && END_OF_WAL_STREAM_FLAG !in files && END_OF_WAL_STREAM_FLAG in r.files)
      && (!r.setsFlag ==> (END_OF_WAL_STREAM_FLAG in r.files <==> END_OF_WAL_STREAM_FLAG in files))
  {
    var n := |CallList(walName, env)|;
    FetchKeepsFlag(files, walName, env, AllDone(n));
    hide FetchList, CallList, FetchOf, FilesAfter, WalRestoreError, IsStreamingAvailable;
    assert FetchedFiles(CallFetches(walName, env), files)
        == FilesAfter(CallFetches(walName, env), files, AllDone(n), n);
  }

  /** Without streaming the flag is neither set nor consumed, and "end of WAL" is never the answer. */
  lemma FlagRestsWithoutStreaming(files: Files, walName: string, env: RestoreEnv)
    requires walName != END_OF_WAL_STREAM_FLAG && !Streaming(env)
    ensures END_OF_WAL_STREAM_FLAG in RestoreCall(files, walName, env).files <==> END_OF_WAL_STREAM_FLAG in files
    ensures RestoreCall(files, walName, env).reply != EndOfWAL && !RestoreCall(files, walName, env).setsFlag
  {
    hide RestoreCall, IsStreamingAvailable;
    CallAndFlag(files, walName, env);
  }

  /** A call sets the flag only when some file it tried to prefetch was missing from the archive. */
  predicate SawMissing(e: Event) {
    exists i :: 0 < i < |CallList(e.walName, e.env)| && CallList(e.walName, e.env)[i] !in e.before
  }

  lemma SetterSawMissing(files: Files, e: Event)
    requires GoodEvent(e) && RestoreCall(files, e.walName, e.env).setsFlag
    ensures SawMissing(e)
  {
    hide CallList, FetchedFiles, IsStreamingAvailable, Grows, Canonical;
    var batch := CallFetches(e.walName, e.env);
    var errs := FetchErrors(batch);
    assert errs[0].None?;
    var i :| 0 <= i < |errs| && errs[i] == Some(WALNotFound);
    assert batch.fetches[i].Error() == Some(WALNotFound);
    assert SoundFetch(e.before, e.after, batch.names[i], batch.fetches[i]);
  }

  predicate SetsFlagAt(events: seq<Event>, i: nat)
    requires i < |events|
  {
    && !events[i].ending.StoppedWhileFetching?
    && RestoreCall(FilesAt(events, i), events[i].walName, events[i].env).setsFlag
  }

  /** The flag is there before event i and gone after it. */
  predicate ConsumesFlagAt(events: seq<Event>, i: nat)
    requires i < |events|
  {
    END_OF_WAL_STREAM_FLAG in FilesAt(events, i) && END_OF_WAL_STREAM_FLAG !in FilesAt(events, i + 1)
  }

  lemma EventAndFlag(events: seq<Event>, i: nat)
    requires i < |events| && events[i].walName != END_OF_WAL_STREAM_FLAG
    ensures END_OF_WAL_STREAM_FLAG in FilesAt(events, i + 1) ==>
            END_OF_WAL_STREAM_FLAG in FilesAt(events, i) || SetsFlagAt(events, i)
    ensures ReplyAt(events, i) == Some(EndOfWAL) ==> ConsumesFlagAt(events, i)
    ensures SetsFlagAt(events, i) ==> END_OF_WAL_STREAM_FLAG !in FilesAt(events, i)
  {
    var e, files := events[i], FilesAt(events, i);
    CallAndFlag(files, e.walName, e.env);
    if e.ending.StoppedWhileFetching? && |e.ending.done| == |CallList(e.walName, e.env)| {
      FetchKeepsFlag(files, e.walName, e.env, e.ending.done);
    }
    hide RestoreCall, CallList, CallFetches, FilesAfter, IsStreamingAvailable;
    assert FilesAt(events, i + 1) == FilesAfterEvent(files, e);
  }

  /** A flag that is there was set by an event after which nothing has consumed it. */
  lemma {:induction false} FlagOrigin(events: seq<Event>, j: nat) returns (i: nat)
    requires j <= |events| && forall k :: 0 <= k < |events| ==> events[k].walName != END_OF_WAL_STREAM_FLAG
    requires END_OF_WAL_STREAM_FLAG in FilesAt(events, j)
    ensures i < j && SetsFlagAt(events, i)
    ensures forall k :: i < k < j ==> !ConsumesFlagAt(events, k)
    decreases j
  {
    hide FilesAfterEvent, SetsFlagAt;
    EventAndFlag(events, j - 1);
    if END_OF_WAL_STREAM_FLAG in FilesAt(events, j - 1) {
      i := FlagOrigin(events, j - 1);
    } else {
      i := j - 1;
    }
  }

  /**
   * Every "end of WAL" answer has its own cause: an earlier call that set the
   * flag because a file to be prefetched was missing, with no consumption of the
   * flag, and so no other "end of WAL" answer, in between.
   */
  lemma EndOfWALHasItsOwnCause(events: seq<Event>, j: nat) returns (i: nat)
    requires GoodRun(events) && j < |events| && ReplyAt(events, j) == Some(EndOfWAL)
    ensures i < j && SetsFlagAt(events, i) && SawMissing(events[i])
    ensures forall k :: i < k < j ==> !ConsumesFlagAt(events, k) && ReplyAt(events, k) != Some(EndOfWAL)
  {
    forall k | 0 <= k < |events|
      ensures events[k].walName != END_OF_WAL_STREAM_FLAG && GoodEvent(events[k])
    {
      assert GoodEvent(events[k]);
    }
    EventAndFlag(events, j);
    i := FlagOrigin(events, j);
    SetterSawMissing(FilesAt(events, i), events[i]);
    hide RestoreCall, SawMissing, GoodEvent, FilesAt;
    forall k | i < k < j
      ensures ReplyAt(events, k) != Some(EndOfWAL)
    {
      EventAndFlag(events, k);
    }
  }

  /** Different "end of WAL" answers have different causes. */
  lemma CausesAreDistinct(events: seq<Event>, j: nat, j': nat, i: nat, i': nat)
    requires GoodRun(events) && j < j' < |events| && i < j && i' < j'
    requires ReplyAt(events, j) == Some(EndOfWAL) && ReplyAt(events, j') == Some(EndOfWAL)
    requires SetsFlagAt(events, i) && SetsFlagAt(events, i')
    requires forall k :: i' < k < j' ==> ReplyAt(events, k) != Some(EndOfWAL)
    ensures i < i'
  {
    assert GoodEvent(events[j]);
    EventAndFlag(events, j);
    hide RestoreCall, GoodEvent, FilesAt;
    assert i' >= j;
  }

  // ----- Controlled promotion -----

  /** With one file at a time, a promotion's list is the file and its partial form. */
  lemma PromotionList(walName: string, env: RestoreEnv)
    requires Canonical(walName) && SegmentFromName(walName).Some?
    requires env.controlledPromotion && MaxParallel(env.parallel) == 1
    ensures CallList(walName, env) == [walName, walName + ".partial"]
    ensures SpoolName(walName + ".partial") == walName
  {
    hide SegmentFromName, IsWALFile, SpoolName, NthName, MaxParallel;
    AcceptedIsWALFile(walName);
    var s := SegmentFromName(walName).value;
    FirstName(s);
    PlaceOfNth(s, 0);
    assert NextNames(s, 1) == [walName];
  }

  /** What downloading a file and its partial form does to the spool. */
  lemma TwoFetches(files: Files, batch: FetchBatch)
    requires batch.Valid() && |batch.names| == 2
    ensures FetchedFiles(batch, files) ==
            if batch.fetches[1].Error().None? then files[SpoolName(batch.names[1]) := batch.fetches[1].content]
            else files
    ensures FetchErrors(batch) == [batch.fetches[0].Error(), batch.fetches[1].Error()]
  {
    hide SpoolName, WalRestoreError;
    var done := AllDone(2);
    assert FilesAfter(batch, files, done, 0) == files;
    assert !Stores(batch, done, 0);
    assert FilesAfter(batch, files, done, 1) == files;
  }

  /** The batch of a promotion's list. */
  lemma PromotionBatch(files: Files, walName: string, env: RestoreEnv)
    requires Canonical(walName) && SegmentFromName(walName).Some?
    requires env.controlledPromotion && MaxParallel(env.parallel) == 1
    ensures
      var full, partial := FetchOf(env, walName), FetchOf(env, walName + ".partial");
      var batch := CallFetches(walName, env);
      && batch.fetches[0] == full
      && FetchErrors(batch) == [full.Error(), partial.Error()]
      && FetchedFiles(batch, files) == if partial.Error().None? then files[walName := partial.content] else files
  {
    hide Canonical, SegmentFromName, SpoolName, MaxParallel, FetchOf, CallList, FetchedFiles, FetchErrors,
      WalRestoreError;
    PromotionList(walName, env);
    TwoFetches(files, CallFetches(walName, env));
  }

  /** When the full file is missing, a promotion's call answers "not found" and keeps the partial file. */
  lemma PromotionMiss(files: Files, walName: string, env: RestoreEnv)
    requires Canonical(walName) && SegmentFromName(walName).Some?
    requires env.controlledPromotion && MaxParallel(env.parallel) == 1
    requires FetchOf(env, walName).exit == Exited(WAL_NOT_FOUND_EXIT_CODE)
    requires FetchOf(env, walName + ".partial").exit == Exited(0)
    ensures FetchStage(files, walName, env) ==
            RestoreCallResult(files[walName := FetchOf(env, walName + ".partial").content], NotFound, false)
  {
    hide Canonical, SegmentFromName, MaxParallel, FetchOf, CallFetches, FetchedFiles, FetchErrors,
      IsStreamingAvailable, IsEndOfWALStream;
    PromotionBatch(files, walName, env);
  }

  /**
   * The handoff: when the full file is missing and the partial one exists, one
   * call answers "not found" and the next call for the same name delivers the
   * partial content, whether or not the pod can stream.
   */
  lemma PromotionHandoff(files: Files, walName: string, env: RestoreEnv, env': RestoreEnv)
    requires Canonical(walName) && SegmentFromName(walName).Some?
    requires env.controlledPromotion && MaxParallel(env.parallel) == 1 && env.setupWorks && env.readFlagWorks
    requires walName !in files && END_OF_WAL_STREAM_FLAG !in files
    requires FetchOf(env, walName).exit == Exited(WAL_NOT_FOUND_EXIT_CODE)
    requires FetchOf(env, walName + ".partial").exit == Exited(0)
    requires env'.setupWorks && env'.moveWorks
    ensures
      var first := RestoreCall(files, walName, env);
      var second := RestoreCall(first.files, walName, env');
      && first.reply == NotFound
      && second.reply == FromSpool(FetchOf(env, walName + ".partial").content)
      && second.files == files
  {
    hide Canonical, SegmentFromName, MaxParallel, FetchOf, FetchStage, IsStreamingAvailable;
    PromotionMiss(files, walName, env);
  }

  /**
   * When the full file is delivered, the partial one is kept if it was fetched, and a pod that can stream sets the flag
   * if it was missing.
   */
  lemma PromotionDelivers(files: Files, walName: string, env: RestoreEnv)
    requires Canonical(walName) && SegmentFromName(walName).Some?
    requires env.controlledPromotion && MaxParallel(env.parallel) == 1
    requires env.readFlagAgainWorks && env.touchFlagWorks && END_OF_WAL_STREAM_FLAG !in files
    requires FetchOf(env, walName).exit == Exited(0)
    ensures
      var partial := FetchOf(env, walName + ".partial");
      var fetched := if partial.Error().None? then files[walName := partial.content] else files;
      var ends := Streaming(env) && partial.Error() == Some(WALNotFound);
      FetchStage(files, walName, env) ==
        RestoreCallResult(if ends then fetched[END_OF_WAL_STREAM_FLAG := []] else fetched,
                          FromArchive(FetchOf(env, walName).content), ends)
  {
    hide Canonical, SegmentFromName, MaxParallel, FetchOf, CallFetches, FetchedFiles, FetchErrors, IsStreamingAvailable;
    CanonicalIsNotFlag(walName);
    PromotionBatch(files, walName, env);
    var errs := FetchErrors(CallFetches(walName, env));
    assert errs[1] == FetchOf(env, walName + ".partial").Error();
  }

  /**
   * During a promotion the missing partial file alone ends the stream: the full
   * file is delivered, yet the next request that is not in the spool is answered
   * "end of WAL" even where the archive holds it.
   */
  lemma MissingPartialRaisesFlag(files: Files, walName: string, env: RestoreEnv, next: string, env': RestoreEnv)
    requires Canonical(walName) && SegmentFromName(walName).Some? && next != walName
    requires env.controlledPromotion && MaxParallel(env.parallel) == 1 && Streaming(env) && Streaming(env')
    requires env.setupWorks && env.readFlagWorks && env.readFlagAgainWorks && env.touchFlagWorks
    requires env'.setupWorks && env'.readFlagWorks && env'.resetFlagWorks
    requires walName !in files && END_OF_WAL_STREAM_FLAG !in files && next !in files && next != END_OF_WAL_STREAM_FLAG
    requires FetchOf(env, walName).exit == Exited(0)
    requires FetchOf(env, walName + ".partial").exit == Exited(WAL_NOT_FOUND_EXIT_CODE)
    ensures
      var first := RestoreCall(files, walName, env);
      && first.reply == FromArchive(FetchOf(env, walName).content)
      && RestoreCall(first.files, next, env').reply == EndOfWAL
      && RestoreCall(first.files, next, env').files == files
  {
    hide Canonical, SegmentFromName, MaxParallel, FetchOf, FetchStage, IsStreamingAvailable;
    PromotionDelivers(files, walName, env);
  }

  /**
   * A delivered full file is not safe from its partial form: when PostgreSQL asks again and nothing fails, it gets the
   * full file again exactly when no partial file was fetched beside the first delivery and no missing partial file has
   * ended the stream. In the first case it gets the partial content, and in the second "end of WAL".
   */
  lemma AskingAgainDuringPromotion(files: Files, walName: string, env: RestoreEnv)
    requires Canonical(walName) && SegmentFromName(walName).Some?
    requires env.controlledPromotion && MaxParallel(env.parallel) == 1
    requires env.setupWorks && env.moveWorks && env.readFlagWorks && env.resetFlagWorks
    requires env.readFlagAgainWorks && env.touchFlagWorks
    requires walName !in files && END_OF_WAL_STREAM_FLAG !in files
    requires FetchOf(env, walName).exit == Exited(0)
    ensures
      var first := RestoreCall(files, walName, env);
      var again := RestoreCall(first.files, walName, env);
      var partial := FetchOf(env, walName + ".partial");
      var ends := Streaming(env) && partial.Error() == Some(WALNotFound);
      && first.reply == FromArchive(FetchOf(env, walName).content)
      && (again.reply == first.reply <==> partial.Error().Some? && !ends)
      && (partial.Error().None? ==> again.reply == FromSpool(partial.content))
      && (ends ==> again.reply == EndOfWAL)
  {
    hide Canonical, SegmentFromName, MaxParallel, FetchOf, FetchStage, IsStreamingAvailable, WalRestoreError;
    CanonicalIsNotFlag(walName);
    PromotionDelivers(files, walName, env);
  }

  lemma CanonicalIsNotFlag(walName: string)
    requires Canonical(walName)
    ensures walName != END_OF_WAL_STREAM_FLAG
  {
    hide SegmentFromName;
  }
}

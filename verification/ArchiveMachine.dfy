/**
 * WAL archiving as a step machine: one Archive call at a time, as PostgreSQL
 * makes them, with its batch of goroutines, a Backup that may create the stanza
 * at any moment, and a process that may stop at any moment. Every sequence of
 * actions is a run; an action that is not possible changes nothing.
 */
module ArchiveMachine {
  import opened Wrappers
  import opened Paths
  import opened Spool
  import opened WalArchive
  import opened Gather

  /** When the plugin creates the stanza. */
  datatype Policy = OnFirstArchive | OnBackup | Disabled

  predicate CreatesOnArchive(p: Policy) {
    p == OnFirstArchive
  }

  predicate CreatesOnBackup(p: Policy) {
    p != Disabled
  }

  /**
   * Where an Archive call is. `missing` records that the call found no stanza,
   * and `attempted` that it ran stanza-create.
   */
  datatype Phase =
    | Idle
    | Requested(req: string)
    | Found(req: string)
    | Unmarked(req: string)
    | Unspooled(req: string)
    | Creating(req: string)
    | Prepared(req: string, missing: bool, attempted: bool)
    | Uploading(req: string, missing: bool, attempted: bool,
                batch: Batch, pcs: seq<Pc>, errs: seq<Option<ArchiveError>>)

  /**
   * `archived` holds the WALs for which a call has answered success, `backups` counts Backup's successful stanza-
   * creates.
   */
  datatype State = State(store: Store, phase: Phase, archived: set<string>, backups: nat)

  datatype Action =
    | Call(req: string)
    | LookInSpool(works: bool)
    | RemoveMarker(works: bool)
    | CheckDestination(works: bool)
    | CreateStanza(works: bool)
    | OptionsFail
    | StartUpload(dir: string, entries: seq<DirEntry>, parallel: int, outcomes: seq<Outcome>)
    | Goroutine(i: nat)
    | Return
    | Stop
    | BackupCreatesStanza(works: bool)

  function Upload(s: State): BatchState
    requires s.phase.Uploading?
  {
    BatchState(s.store, s.phase.pcs, s.phase.errs)
  }

  predicate NoErrors(errs: seq<Option<ArchiveError>>) {
    forall i :: 0 <= i < |errs| ==> errs[i].None?
  }

  function Next(p: Policy, s: State, a: Action): State {
    match a
    case Call(req) =>
      if s.phase.Idle? then s.(phase := Requested(req)) else s
    case LookInSpool(works) =>
      if !s.phase.Requested? then s
      else if !works then s.(phase := Idle)
      else if Base(s.phase.req) in s.store.spool then s.(phase := Found(s.phase.req))
      else s.(phase := Unspooled(s.phase.req))
    case RemoveMarker(works) =>
      if !s.phase.Found? then s
      else if !works then s.(phase := Idle)
      else State(s.store.(spool := Removed(s.store.spool, s.phase.req)), Unmarked(s.phase.req), s.archived, s.backups)
    case CheckDestination(works) =>
      if !s.phase.Unspooled? then s
      else if !works then s.(phase := Idle)
      else if s.store.stanza then s.(phase := Prepared(s.phase.req, false, false))
      else if CreatesOnArchive(p) then s.(phase := Creating(s.phase.req))
      else s.(phase := Prepared(s.phase.req, true, false))
    case CreateStanza(works) =>
      if !s.phase.Creating? then s
      else State(s.store.(stanza := s.store.stanza || works), Prepared(s.phase.req, true, true), s.archived, s.backups)
    case OptionsFail =>
      if s.phase.Prepared? then s.(phase := Idle) else s
    case StartUpload(dir, entries, parallel, outcomes) =>
      if !s.phase.Prepared? then s
      else
        var walNames := JoinAll(dir, BatchNames(entries, s.phase.req, parallel));
        if |walNames| != |outcomes| then s
        else
          var batch := Batch(walNames, outcomes);
          var b := Start(batch, s.store);
          s.(phase := Uploading(s.phase.req, s.phase.missing, s.phase.attempted, batch, b.pcs, b.errs))
    case Goroutine(i) =>
      if !s.phase.Uploading? || !Shaped(s.phase.batch, Upload(s)) || i >= |s.phase.pcs| then s
      else
        var b := Step(s.phase.batch, Upload(s), i);
        s.(store := b.store, phase := s.phase.(pcs := b.pcs, errs := b.errs))
    case Return =>
      if s.phase.Unmarked? then s.(phase := Idle, archived := s.archived + {Base(s.phase.req)})
      else if s.phase.Uploading? && Upload(s).AllFinished() then
        s.(phase := Idle,
           archived := if NoErrors(s.phase.errs) then s.archived + {Base(s.phase.req)} else s.archived)
      else s
    case Stop => s.(phase := Idle)
    case BackupCreatesStanza(works) =>
      if CreatesOnBackup(p) && works then
        s.(store := s.store.(stanza := true), backups := s.backups + 1)
      else s
  }

  function Exec(p: Policy, s: State, actions: seq<Action>): State
    decreases |actions|
  {
    if actions == [] then s else Next(p, Exec(p, s, actions[..|actions| - 1]), actions[|actions| - 1])
  }

  /** An empty repository, with or without its stanza, and an empty spool. */
  function Init(stanza: bool, checkEmpty: bool): State {
    State(Store(multiset{}, map[], stanza, checkEmpty), Idle, {}, 0)
  }

  // ----- Safety -----

  predicate GoroutineSafe(s: State, i: nat)
    requires s.phase.Uploading? && Shaped(s.phase.batch, Upload(s)) && i < |s.phase.pcs|
  {
    && (s.phase.pcs[i] == Touching ==> s.phase.batch.Name(i) in s.store.pushed)
    && (s.phase.pcs[i] == Finished && s.phase.errs[i].None? ==> s.phase.batch.Name(i) in s.store.pushed)
  }

  predicate UploadSafe(s: State)
    requires s.phase.Uploading?
  {
    && Shaped(s.phase.batch, Upload(s))
    && |s.phase.pcs| > 0
    && s.phase.batch.Name(0) == Base(s.phase.req)
    && forall i :: 0 <= i < |s.phase.pcs| ==> GoroutineSafe(s, i)
  }

  predicate Safe(s: State) {
    && MarkersArePushed(s.store)
    && (forall w :: w in s.archived ==> w in s.store.pushed)
    && (s.phase.Found? || s.phase.Unmarked? ==> Base(s.phase.req) in s.store.pushed)
    && (s.phase.Uploading? ==> UploadSafe(s))
  }

  lemma BatchHead(dir: string, entries: seq<DirEntry>, req: string, parallel: int)
    requires NamesAFile(req)
    ensures
      var walNames := JoinAll(dir, BatchNames(entries, req, parallel));
      |walNames| > 0 && Base(walNames[0]) == Base(req)
  {
    hide Base, Join, Prefix, Others, ReadyNames;
    BaseOfFile(req);
    BaseOfJoin(dir, Base(req));
    assert BatchNames(entries, req, parallel)[0] == Base(req);
  }

  lemma GoroutineKeepsSafe(p: Policy, s: State, i: nat)
    requires Safe(s) && s.phase.Uploading? && i < |s.phase.pcs|
    ensures Safe(Next(p, s, Goroutine(i)))
  {
    hide Base;
    var s' := Next(p, s, Goroutine(i));
    assert GoroutineSafe(s, i);
    assert forall w :: w in s.store.pushed ==> w in s'.store.pushed;
    forall k | 0 <= k < |s'.phase.pcs|
      ensures GoroutineSafe(s', k)
    {
      assert GoroutineSafe(s, k);
    }
  }

  lemma FreshUploadSafe(s: State)
    requires s.phase.Uploading? && s.phase.batch.Valid() && |s.phase.batch.walNames| > 0
    requires Upload(s) == Start(s.phase.batch, s.store)
    requires Base(s.phase.batch.walNames[0]) == Base(s.phase.req)
    ensures UploadSafe(s)
  {
    hide Base;
    assert Shaped(s.phase.batch, Upload(s));
    forall i | 0 <= i < |s.phase.pcs|
      ensures GoroutineSafe(s, i)
    {
      assert s.phase.pcs[i] == Starting;
    }
  }

  lemma UploadStartsSafe(p: Policy, s: State, a: Action)
    requires Safe(s) && s.phase.Prepared? && a.StartUpload? && NamesAFile(s.phase.req)
    ensures Safe(Next(p, s, a))
  {
    hide Base, JoinAll, BatchNames, NamesAFile, UploadSafe, MarkersArePushed;
    BatchHead(a.dir, a.entries, s.phase.req, a.parallel);
    var s' := Next(p, s, a);
    if s'.phase.Uploading? {
      FreshUploadSafe(s');
    }
  }

  /** The requests of the actions and of a state name files. */
  predicate NamedRequests(actions: seq<Action>) {
    forall a :: a in actions && a.Call? ==> NamesAFile(a.req)
  }

  predicate NamedPhase(s: State) {
    !s.phase.Idle? ==> NamesAFile(s.phase.req)
  }

  lemma ReturnKeepsSafe(p: Policy, s: State)
    requires Safe(s)
    ensures Safe(Next(p, s, Return))
  {
    hide Base;
    if s.phase.Uploading? {
      assert GoroutineSafe(s, 0);
    }
  }

  lemma SequentialKeepsSafe(p: Policy, s: State, a: Action)
    requires Safe(s)
    requires a.Call? || a.LookInSpool? || a.RemoveMarker? || a.CheckDestination? || a.CreateStanza? || a.OptionsFail?
          || a.Stop?
    ensures Safe(Next(p, s, a))
  {
    hide Base, UploadSafe;
  }

  lemma NextKeepsSafe(p: Policy, s: State, a: Action)
    requires Safe(s) && NamedPhase(s) && (a.Call? ==> NamesAFile(a.req))
    ensures Safe(Next(p, s, a))
  {
    hide Safe;
    match a
    case Goroutine(i) =>
      if s.phase.Uploading? && i < |s.phase.pcs| {
        GoroutineKeepsSafe(p, s, i);
      }
    case StartUpload(_, _, _, _) =>
      if s.phase.Prepared? {
        UploadStartsSafe(p, s, a);
      }
    case Return => ReturnKeepsSafe(p, s);
    case BackupCreatesStanza(_) => BackupKeepsSafe(p, s, a);
    case _ => SequentialKeepsSafe(p, s, a);
  }

  lemma NextKeepsNamed(p: Policy, s: State, a: Action)
    requires NamedPhase(s) && (a.Call? ==> NamesAFile(a.req))
    ensures NamedPhase(Next(p, s, a))
  {
    hide Base, Step, JoinAll, BatchNames, Start, NamesAFile;
  }

  lemma BackupKeepsSafe(p: Policy, s: State, a: Action)
    requires Safe(s) && a.BackupCreatesStanza?
    ensures Safe(Next(p, s, a))
  {
    hide Base, Step, JoinAll, BatchNames, Start;
    var s' := Next(p, s, a);
    if s.phase.Uploading? {
      forall k | 0 <= k < |s'.phase.pcs|
        ensures GoroutineSafe(s', k)
      {
        assert GoroutineSafe(s, k);
      }
    }
  }

  lemma {:induction false} RunsAreSafe(p: Policy, stanza: bool, checkEmpty: bool, actions: seq<Action>)
    requires NamedRequests(actions)
    ensures Safe(Exec(p, Init(stanza, checkEmpty), actions)) && NamedPhase(Exec(p, Init(stanza, checkEmpty), actions))
    decreases |actions|
  {
    if actions != [] {
      var n := |actions| - 1;
      RunsAreSafe(p, stanza, checkEmpty, actions[..n]);
      hide Next, Safe, NamedPhase;
      NextKeepsSafe(p, Exec(p, Init(stanza, checkEmpty), actions[..n]), actions[n]);
      NextKeepsNamed(p, Exec(p, Init(stanza, checkEmpty), actions[..n]), actions[n]);
    }
  }

  /**
   * In every run, whatever fails, whatever order the goroutines take and wherever
   * the process stops: a WAL for which a call answered success is in the
   * repository, and so is every WAL that has a marker in the spool.
   */
  lemma ArchiveSafety(p: Policy, stanza: bool, checkEmpty: bool, actions: seq<Action>)
    requires NamedRequests(actions)
    ensures
      var s := Exec(p, Init(stanza, checkEmpty), actions);
      (forall w :: w in s.archived ==> w in s.store.pushed) && (forall w :: w in s.store.spool ==> w in s.store.pushed)
  {
    RunsAreSafe(p, stanza, checkEmpty, actions);
  }

  // ----- The stanza -----

  /** Where a stanza can have come from, and what a call in flight has done about a missing one. */
  predicate StanzaAccounted(p: Policy, initially: bool, s: State) {
    && (s.store.pushed != multiset{} ==> s.store.stanza)
    && (initially ==> s.store.stanza)
    && (s.store.stanza ==> initially || p == OnFirstArchive || (p == OnBackup && s.backups > 0))
    && (s.backups > 0 ==> s.store.stanza)
    && (s.phase.Creating? ==> p == OnFirstArchive)
    && (s.phase.Prepared? || s.phase.Uploading? ==> (s.phase.attempted <==> s.phase.missing && p == OnFirstArchive))
    && (s.phase.Uploading? ==> Shaped(s.phase.batch, Upload(s)))
    && (s.phase.Prepared? || s.phase.Uploading? ==> s.store.stanza || s.phase.missing)
  }

  lemma NextKeepsStanzaAccounted(p: Policy, initially: bool, s: State, a: Action)
    requires StanzaAccounted(p, initially, s)
    ensures StanzaAccounted(p, initially, Next(p, s, a))
  {
    hide Base, JoinAll, BatchNames, Touched, Removed;
  }

  lemma {:induction false} RunsAccountForStanza(p: Policy, initially: bool, checkEmpty: bool, actions: seq<Action>)
    ensures StanzaAccounted(p, initially, Exec(p, Init(initially, checkEmpty), actions))
    decreases |actions|
  {
    if actions != [] {
      var n := |actions| - 1;
      RunsAccountForStanza(p, initially, checkEmpty, actions[..n]);
      hide Next, StanzaAccounted;
      NextKeepsStanzaAccounted(p, initially, Exec(p, Init(initially, checkEmpty), actions[..n]), actions[n]);
    }
  }

  /**
   * Under Disabled the stanza is never created. Under OnBackup nothing reaches a
   * repository that had no stanza before a Backup has created it. Under
   * OnFirstArchive, and only then, a call that found no stanza has tried to
   * create it by the time it uploads.
   */
  lemma StanzaPolicies(p: Policy, initially: bool, checkEmpty: bool, actions: seq<Action>)
    ensures
      var s := Exec(p, Init(initially, checkEmpty), actions);
      && (p == Disabled ==> s.store.stanza == initially)
      && (p == Disabled && !initially ==> s.store.pushed == multiset{})
      && (p == OnBackup && !initially ==> (s.store.stanza <==> s.backups > 0))
      && (p == OnBackup && !initially && s.store.pushed != multiset{} ==> s.backups > 0)
      && (s.phase.Uploading? && s.phase.missing ==> (s.phase.attempted <==> p == OnFirstArchive))
      && (s.phase.Uploading? && !s.phase.missing ==> s.store.stanza && !s.phase.attempted)
  {
    RunsAccountForStanza(p, initially, checkEmpty, actions);
  }

  lemma OnlyBackupCreates(s: State, a: Action)
    requires StanzaAccounted(OnBackup, false, s)
    requires !s.store.stanza && Next(OnBackup, s, a).store.stanza
    ensures a == BackupCreatesStanza(true)
  {
    hide Base, JoinAll, BatchNames, Touched, Removed;
  }

  /** Under OnBackup, a Backup that created the stanza precedes the first push to a repository that had none. */
  lemma {:induction false} BackupPrecedesFirstPush(checkEmpty: bool, actions: seq<Action>) returns (k: nat)
    requires Exec(OnBackup, Init(false, checkEmpty), actions).store.stanza
          || Exec(OnBackup, Init(false, checkEmpty), actions).store.pushed != multiset{}
    ensures k < |actions| && actions[k] == BackupCreatesStanza(true)
    ensures Exec(OnBackup, Init(false, checkEmpty), actions[..k]).store.pushed == multiset{}
    decreases |actions|
  {
    hide *;
    PushedNeedsStanza(checkEmpty, actions);
    var n := |actions| - 1;
    PushedNeedsStanza(checkEmpty, actions[..n]);
    RunsAccountForStanza(OnBackup, false, checkEmpty, actions[..n]);
    ExecLast(OnBackup, Init(false, checkEmpty), actions);
    var before := Exec(OnBackup, Init(false, checkEmpty), actions[..n]);
    if before.store.stanza {
      k := BackupPrecedesFirstPush(checkEmpty, actions[..n]);
      assert actions[..n][..k] == actions[..k];
    } else {
      k := n;
      OnlyBackupCreates(before, actions[n]);
    }
  }

  lemma PushedNeedsStanza(checkEmpty: bool, actions: seq<Action>)
    ensures
      var s := Exec(OnBackup, Init(false, checkEmpty), actions);
      && (s.store.pushed != multiset{} ==> s.store.stanza)
      && (s.store.stanza ==> actions != [])
  {
    hide Next;
    RunsAccountForStanza(OnBackup, false, checkEmpty, actions);
  }

  lemma ExecLast(p: Policy, s: State, actions: seq<Action>)
    requires actions != []
    ensures Exec(p, s, actions) == Next(p, Exec(p, s, actions[..|actions| - 1]), actions[|actions| - 1])
  {
    hide Next;
  }

  /** A Backup that can create the stanza does so under every policy but Disabled, and touches nothing else. */
  lemma BackupCreates(p: Policy, s: State, works: bool)
    ensures
      var after := Next(p, s, BackupCreatesStanza(works));
      && (after.store.stanza <==> s.store.stanza || (works && (p == OnFirstArchive || p == OnBackup)))
      && after.store == s.store.(stanza := after.store.stanza)
      && after.phase == s.phase && after.archived == s.archived
  {
  }

  // ----- The flag that asks for an empty archive -----

  /** The flag file goes only after a push has succeeded. */
  predicate FlagAccounted(s: State) {
    && (!s.store.checkEmpty ==> s.store.pushed != multiset{})
    && (s.phase.Uploading? ==> Shaped(s.phase.batch, Upload(s)))
  }

  lemma NextKeepsFlagAccounted(p: Policy, s: State, a: Action)
    requires FlagAccounted(s)
    ensures FlagAccounted(Next(p, s, a))
  {
    hide Base, JoinAll, BatchNames, Touched, Removed;
  }

  lemma {:induction false} FlagRemovedOnlyAfterPush(p: Policy, stanza: bool, actions: seq<Action>)
    ensures FlagAccounted(Exec(p, Init(stanza, true), actions))
    decreases |actions|
  {
    if actions != [] {
      var n := |actions| - 1;
      FlagRemovedOnlyAfterPush(p, stanza, actions[..n]);
      hide Next, FlagAccounted;
      NextKeepsFlagAccounted(p, Exec(p, Init(stanza, true), actions[..n]), actions[n]);
    }
  }

  predicate GoroutineCleared(s: State, i: nat)
    requires s.phase.Uploading? && Shaped(s.phase.batch, Upload(s)) && i < |s.phase.pcs|
  {
    s.phase.pcs[i] == Touching || (s.phase.pcs[i] == Finished && s.phase.errs[i].None?) ==> !s.store.checkEmpty
  }

  /** Markers, answers and pushes in flight that succeeded are not there together with the flag file. */
  predicate Cleared(s: State) {
    && (s.store.spool != map[] ==> !s.store.checkEmpty)
    && (s.archived != {} ==> !s.store.checkEmpty)
    && (s.phase.Found? || s.phase.Unmarked? ==> !s.store.checkEmpty)
    && (s.phase.Uploading? ==>
      && Shaped(s.phase.batch, Upload(s))
      && |s.phase.pcs| > 0
      && forall i :: 0 <= i < |s.phase.pcs| ==> GoroutineCleared(s, i))
  }

  lemma StepKeepsCleared(p: Policy, s: State, i: nat)
    requires Cleared(s) && s.phase.Uploading? && i < |s.phase.pcs|
    ensures Cleared(Next(p, s, Goroutine(i)))
  {
    hide Base, Touched;
    var s' := Next(p, s, Goroutine(i));
    assert GoroutineCleared(s, i);
    assert !s.store.checkEmpty ==> !s'.store.checkEmpty;
    forall k | 0 <= k < |s'.phase.pcs|
      ensures GoroutineCleared(s', k)
    {
      assert GoroutineCleared(s, k);
    }
  }

  lemma ReturnKeepsCleared(p: Policy, s: State)
    requires Cleared(s)
    ensures Cleared(Next(p, s, Return))
  {
    hide Base;
    if s.phase.Uploading? {
      assert GoroutineCleared(s, 0);
    }
  }

  lemma UploadStartsCleared(p: Policy, s: State, a: Action)
    requires Cleared(s) && s.phase.Prepared? && a.StartUpload?
    ensures Cleared(Next(p, s, a))
  {
    hide Base, Join, Prefix, Others, ReadyNames;
    var s' := Next(p, s, a);
    if s'.phase.Uploading? {
      assert |BatchNames(a.entries, s.phase.req, a.parallel)| > 0;
    }
  }

  lemma OthersKeepCleared(p: Policy, s: State, a: Action)
    requires Cleared(s)
    requires !a.Goroutine? && !a.Return? && !(a.StartUpload? && s.phase.Prepared?)
    ensures Cleared(Next(p, s, a))
  {
    hide Base, JoinAll, BatchNames, Step;
    var s' := Next(p, s, a);
    if s'.phase.Uploading? {
      forall k | 0 <= k < |s'.phase.pcs|
        ensures GoroutineCleared(s', k)
      {
        assert GoroutineCleared(s, k);
      }
    }
  }

  lemma {:induction false} RunsAreCleared(p: Policy, stanza: bool, checkEmpty: bool, actions: seq<Action>)
    ensures Cleared(Exec(p, Init(stanza, checkEmpty), actions))
    decreases |actions|
  {
    if actions != [] {
      var n := |actions| - 1;
      var s, a := Exec(p, Init(stanza, checkEmpty), actions[..n]), actions[n];
      RunsAreCleared(p, stanza, checkEmpty, actions[..n]);
      hide Next, Cleared;
      NextKeepsCleared(p, s, a);
    }
  }

  lemma NextKeepsCleared(p: Policy, s: State, a: Action)
    requires Cleared(s)
    ensures Cleared(Next(p, s, a))
  {
    if a.Goroutine? && s.phase.Uploading? && a.i < |s.phase.pcs| {
      StepKeepsCleared(p, s, a.i);
    } else if a.Return? {
      ReturnKeepsCleared(p, s);
    } else if a.StartUpload? && s.phase.Prepared? {
      UploadStartsCleared(p, s, a);
    } else if !a.Goroutine? {
      OthersKeepCleared(p, s, a);
    }
  }

  /** In every run, once a call has answered success or a marker is there, the flag file is gone. */
  lemma FlagGoneAfterPush(p: Policy, stanza: bool, checkEmpty: bool, actions: seq<Action>)
    ensures
      var s := Exec(p, Init(stanza, checkEmpty), actions);
      s.archived != {} || s.store.spool != map[] ==> !s.store.checkEmpty
  {
    RunsAreCleared(p, stanza, checkEmpty, actions);
  }
}

/** The Archive call of the WAL service (internal/cnpgi/common/wal.go). */
module ArchiveService {
  import opened Wrappers
  import opened Common
  import opened Paths
  import opened Spool
  import opened Gather
  import opened WalArchive
  import opened ArchiveMachine

  /** The outside world during one call; `outcomes` lists the uploads that do not simply succeed, by base name. */
  datatype CallEnv = CallEnv(
    setupWorks: bool,
    lookWorks: bool,
    removeWorks: bool,
    infoWorks: bool,
    createWorks: bool,
    optionsWork: bool,
    pgWalDirectory: string,
    status: Option<seq<DirEntry>>,
    parallel: int,
    outcomes: map<string, Outcome>)

  datatype CallError =
    | SetupError
    | SpoolFailure(cause: SpoolError)
    | DestinationError
    | OptionsError
    | UploadError(upload: ArchiveError)

  datatype CallResult = CallResult(store: Store, err: Option<CallError>)

  function OutcomeOf(env: CallEnv, name: string): Outcome {
    if name in env.outcomes then env.outcomes[name] else Outcome(PushSucceeds, true)
  }

  function CallBatch(env: CallEnv, req: string): (b: Batch)
    ensures b.Valid()
  {
    var names := BatchNames(Listing(env.status), req, MaxParallel(env.parallel));
    var walNames := JoinAll(env.pgWalDirectory, names);
    Batch(walNames, seq(|names|, i requires 0 <= i < |names| => OutcomeOf(env, names[i])))
  }

  function LastError(errs: seq<Option<ArchiveError>>): (e: Option<ArchiveError>)
    ensures e.None? <==> NoErrors(errs)
  {
    if errs == [] then None
    else if errs[|errs| - 1].Some? then
      assert !NoErrors(errs);
      errs[|errs| - 1]
    else
      assert NoErrors(errs[..|errs| - 1]) ==> NoErrors(errs) by {
        assert errs == errs[..|errs| - 1] + [errs[|errs| - 1]];
      }
      LastError(errs[..|errs| - 1])
  }

  /** The stanza after the call has looked at its destination. */
  function StanzaPrepared(p: Policy, s: Store, env: CallEnv): Store {
    if !s.stanza && CreatesOnArchive(p) then s.(stanza := env.createWorks) else s
  }

  function UploadStage(s: Store, req: string, env: CallEnv): CallResult {
    var batch := CallBatch(env, req);
    var last := LastError(BatchErrors(batch, s.stanza));
    CallResult(BatchStore(batch, s), if last.Some? then Some(UploadError(last.value)) else None)
  }

  /** What one Archive call does to the store, and what it answers. */
  function ArchiveCall(p: Policy, s: Store, req: string, env: CallEnv): CallResult {
    if !env.setupWorks then CallResult(s, Some(SetupError))
    else if !env.lookWorks then CallResult(s, Some(SpoolFailure(FileSystemError)))
    else if Base(req) in s.spool then
      if env.removeWorks then CallResult(s.(spool := Removed(s.spool, req)), None)
      else CallResult(s, Some(SpoolFailure(FileSystemError)))
    else if !env.infoWorks then CallResult(s, Some(DestinationError))
    else
      var prepared := StanzaPrepared(p, s, env);
      if !env.optionsWork then CallResult(prepared, Some(OptionsError)) else UploadStage(prepared, req, env)
  }

  class WALService {
    const archiver: PgbackrestArchiver
    const policy: Policy

    constructor (archiver: PgbackrestArchiver, policy: Policy)
      ensures this.archiver == archiver && this.policy == policy
    {
      this.archiver := archiver;
      this.policy := policy;
    }

    /** Checks whether the WAL has a marker and, if it has, removes it. */
    method DeleteFromSpool(walName: string, lookWorks: bool, removeWorks: bool)
      returns (deleted: bool, err: Option<SpoolError>)
      modifies archiver.spool
      ensures !lookWorks ==> !deleted && err == Some(FileSystemError)
      ensures lookWorks ==> deleted == (Base(walName) in old(archiver.spool.files))
      ensures lookWorks && deleted ==> err == if removeWorks then None else Some(FileSystemError)
      ensures lookWorks && !deleted ==> err == None
      ensures archiver.spool.files ==
              if deleted && err.None? then Removed(old(archiver.spool.files), walName) else old(archiver.spool.files)
    {
      var contained := archiver.spool.Contains(walName, lookWorks);
      if contained.Err? {
        return false, Some(contained.error);
      }
      if !contained.value {
        return false, None;
      }
      err := archiver.spool.Remove(walName, removeWorks);
      deleted := true;
    }

    method Archive(req: string, env: CallEnv) returns (err: Option<CallError>)
      modifies archiver, archiver.repository, archiver.spool
      ensures CallResult(archiver.State(), err) == ArchiveCall(policy, old(archiver.State()), req, env)
    {
      hide Base, JoinAll, BatchNames, BatchStore, BatchErrors, Prefix, Removed, LastError;
      if !env.setupWorks {
        return Some(SetupError);
      }
      var wasInSpool, spoolErr := DeleteFromSpool(req, env.lookWorks, env.removeWorks);
      if spoolErr.Some? {
        return Some(SpoolFailure(spoolErr.value));
      }
      if wasInSpool {
        return None;
      }
      if !env.infoWorks {
        return Some(DestinationError);
      }
      if !archiver.repository.stanza && CreatesOnArchive(policy) {
        archiver.repository.stanza := env.createWorks;
      }
      if !env.optionsWork {
        return Some(OptionsError);
      }
      err := Upload(req, env);
    }

    method Upload(req: string, env: CallEnv) returns (err: Option<CallError>)
      modifies archiver, archiver.repository, archiver.spool
      ensures CallResult(archiver.State(), err) == UploadStage(old(archiver.State()), req, env)
    {
      hide Base, JoinAll, BatchNames, BatchStore, BatchErrors, Listing, LastError;
      ghost var batch := CallBatch(env, req);
      var maxParallel := 1;
      if env.parallel > 1 {
        maxParallel := env.parallel;
      }
      var walList := GatherWALFilesToArchive(env.status, env.pgWalDirectory, req, maxParallel);
      var names := BatchNames(Listing(env.status), req, maxParallel);
      var result := archiver.ArchiveList(walList, CallBatch(env, req).outcomes);
      ghost var errs := Errors(result[..]);
      var last: Option<ArchiveError> := None;
      var i := 0;
      LastErrorOfNone(errs);
      while i < result.Length
        modifies {}
        invariant 0 <= i <= result.Length
        invariant last == LastError(errs[..i])
      {
        LastErrorStep(errs, i);
        if result[i].err.Some? {
          last := result[i].err;
        }
        i := i + 1;
      }
      assert errs[..i] == errs;
      err := if last.Some? then Some(UploadError(last.value)) else None;
    }
  }

  lemma LastErrorOfNone(errs: seq<Option<ArchiveError>>)
    ensures LastError(errs[..0]) == None
  {
  }

  lemma LastErrorStep(errs: seq<Option<ArchiveError>>, i: nat)
    requires i < |errs|
    ensures LastError(errs[..i + 1]) == if errs[i].Some? then errs[i] else LastError(errs[..i])
  {
    assert errs[..i + 1][..i] == errs[..i];
  }

  // ----- One call, from any store -----

  /** In the files of the batch, the requested one comes first. */
  lemma CallBatchHead(env: CallEnv, req: string)
    requires NamesAFile(req)
    ensures |CallBatch(env, req).walNames| > 0 && CallBatch(env, req).Name(0) == Base(req)
  {
    hide Base, JoinAll, BatchNames;
    BatchHead(env.pgWalDirectory, Listing(env.status), req, MaxParallel(env.parallel));
  }

  /**
   * A call that answers success leaves its WAL in the repository, except when
   * the spool held a marker for a WAL that was never pushed. Nothing but such a
   * marker makes a success empty.
   */
  lemma SuccessMeansPushedUnlessForeignMarker(p: Policy, s: Store, req: string, env: CallEnv)
    requires NamesAFile(req) && ArchiveCall(p, s, req, env).err.None?
    ensures Base(req) in ArchiveCall(p, s, req, env).store.pushed <==>
            !(Base(req) in s.spool && Base(req) !in s.pushed)
  {
    if Base(req) !in s.spool {
      var prepared := StanzaPrepared(p, s, env);
      var batch := CallBatch(env, req);
      CallBatchHead(env, req);
      hide Base, CallBatch, BatchStore;
      assert BatchErrors(batch, prepared.stanza)[0] == FinalError(batch, prepared.stanza, 0);
      hide BatchErrors;
      assert NoErrors(BatchErrors(batch, prepared.stanza));
      NoErrorMeansPushed(batch, prepared, 0);
    }
  }

  predicate FailureFree(env: CallEnv) {
    && env.setupWorks && env.lookWorks && env.removeWorks && env.infoWorks && env.createWorks && env.optionsWork
    && env.outcomes == map[]
  }

  /**
   * No earlier failure wedges the archiver: from any store, a call in which
   * nothing fails succeeds exactly when there is a marker, a stanza, or leave to
   * create the stanza.
   */
  lemma FailureFreeCallSucceeds(p: Policy, s: Store, req: string, env: CallEnv)
    requires FailureFree(env) && NamesAFile(req)
    ensures ArchiveCall(p, s, req, env).err.None? <==>
            Base(req) in s.spool || s.stanza || p == OnFirstArchive
  {
    hide Base, UploadStage, NamesAFile;
    if Base(req) !in s.spool {
      FailureFreeUploadSucceeds(StanzaPrepared(p, s, env), req, env);
    }
  }

  lemma FailureFreeUploadSucceeds(s: Store, req: string, env: CallEnv)
    requires FailureFree(env) && NamesAFile(req)
    ensures UploadStage(s, req, env).err.None? <==> s.stanza
  {
    hide Base, CallBatch, BatchStore, LastError;
    CallBatchHead(env, req);
    CleanOutcomes(env, req);
    var errs := BatchErrors(CallBatch(env, req), s.stanza);
    if !s.stanza {
      assert errs[0] == Some(PushError);
    }
  }

  lemma FailureFreeUpload(p: Policy, s: Store, req: string, env: CallEnv)
    requires FailureFree(env) && Base(req) !in s.spool
    ensures ArchiveCall(p, s, req, env).store == BatchStore(CallBatch(env, req), StanzaPrepared(p, s, env))
    ensures StanzaPrepared(p, s, env).stanza <==> s.stanza || p == OnFirstArchive
  {
    hide Base, CallBatch, BatchStore, BatchErrors, LastError;
  }

  lemma CleanOutcomes(env: CallEnv, req: string)
    requires env.outcomes == map[]
    ensures forall i :: 0 <= i < |CallBatch(env, req).outcomes| ==>
      CallBatch(env, req).outcomes[i] == Outcome(PushSucceeds, true)
  {
    hide Base, JoinAll, BatchNames;
  }

  /**
   * Exactly when a call answers success, in terms of the outside world: with a marker, when it can be seen and removed;
   * without one, when there is a stanza or leave and means to create it, and every push and every further marker works.
   */
  lemma SuccessExactly(p: Policy, s: Store, req: string, env: CallEnv)
    requires NamesAFile(req)
    ensures
      var names := BatchNames(Listing(env.status), req, MaxParallel(env.parallel));
      ArchiveCall(p, s, req, env).err.None? <==>
      && env.setupWorks && env.lookWorks
      && if Base(req) in s.spool then env.removeWorks
         else
           && env.infoWorks && env.optionsWork
           && (s.stanza || (p == OnFirstArchive && env.createWorks))
           && forall i :: 0 <= i < |names| && names[i] in env.outcomes ==>
                env.outcomes[names[i]].push.PushSucceeds? && (i == 0 || env.outcomes[names[i]].touchWorks)
  {
    if env.setupWorks && env.lookWorks && Base(req) !in s.spool && env.infoWorks && env.optionsWork {
      UploadSucceedsExactly(StanzaPrepared(p, s, env), req, env);
      hide Base, UploadStage, BatchNames;
    } else {
      hide Base, UploadStage, BatchNames;
    }
  }

  lemma UploadSucceedsExactly(s: Store, req: string, env: CallEnv)
    requires NamesAFile(req)
    ensures
      var names := BatchNames(Listing(env.status), req, MaxParallel(env.parallel));
      UploadStage(s, req, env).err.None? <==>
      && s.stanza
      && forall i :: 0 <= i < |names| && names[i] in env.outcomes ==>
           env.outcomes[names[i]].push.PushSucceeds? && (i == 0 || env.outcomes[names[i]].touchWorks)
  {
    hide Base, JoinAll, BatchNames, BatchStore, LastError, BatchErrors, NamesAFile;
    var names := BatchNames(Listing(env.status), req, MaxParallel(env.parallel));
    var batch := CallBatch(env, req);
    CallBatchHead(env, req);
    CallBatchSize(env, req);
    var errs := BatchErrors(batch, s.stanza);
    BatchErrorsSize(batch, s.stanza);
    forall i | 0 <= i < |names|
      ensures errs[i].None? <==>
        && s.stanza
        && (names[i] in env.outcomes ==>
          env.outcomes[names[i]].push.PushSucceeds? && (i == 0 || env.outcomes[names[i]].touchWorks))
    {
      BatchResults(batch, s.stanza, i);
    }
    assert |names| > 0 ==> (NoErrors(errs) ==> errs[0].None?);
  }

  /** Which error a call answers with, when it gets no further than that. */
  lemma EarlyErrors(p: Policy, s: Store, req: string, env: CallEnv)
    ensures
      var err := ArchiveCall(p, s, req, env).err;
      && (err == Some(SetupError) <==> !env.setupWorks)
      && (err == Some(SpoolFailure(FileSystemError)) <==>
        env.setupWorks && (!env.lookWorks || (Base(req) in s.spool && !env.removeWorks)))
      && (err == Some(DestinationError) <==>
        env.setupWorks && env.lookWorks && Base(req) !in s.spool && !env.infoWorks)
      && (err == Some(OptionsError) <==>
        env.setupWorks && env.lookWorks && Base(req) !in s.spool && env.infoWorks && !env.optionsWork)
  {
    hide Base, CallBatch, BatchErrors, BatchStore;
  }

  /** The last error of an upload is the call's. */
  lemma {:induction false} LastErrorIsLast(errs: seq<Option<ArchiveError>>, i: nat)
    requires i < |errs| && errs[i].Some? && forall k :: i < k < |errs| ==> errs[k].None?
    ensures LastError(errs) == errs[i]
  {
    if i < |errs| - 1 {
      LastErrorIsLast(errs[..|errs| - 1], i);
    }
  }

  lemma CallBatchSize(env: CallEnv, req: string)
    ensures
      var names := BatchNames(Listing(env.status), req, MaxParallel(env.parallel));
      |CallBatch(env, req).walNames| == |names|
  {
    hide Base, BatchNames;
  }

  lemma BatchErrorsSize(batch: Batch, stanza: bool)
    requires batch.Valid()
    ensures |BatchErrors(batch, stanza)| == |batch.walNames|
  {
    hide FinalError;
  }

  /** A call that finds a marker takes it away, if it can, and does nothing else. */
  lemma MarkedCall(p: Policy, s: Store, req: string, env: CallEnv)
    requires Base(req) in s.spool
    ensures
      var after := ArchiveCall(p, s, req, env).store;
      && after.pushed == s.pushed && after.stanza == s.stanza && after.checkEmpty == s.checkEmpty
      && after.spool == if env.setupWorks && env.lookWorks && env.removeWorks then s.spool - {Base(req)} else s.spool
  {
    hide Base, UploadStage;
  }

  // ----- A call is a run of the machine -----

  lemma {:induction false} ExecConcat(p: Policy, s: State, a: seq<Action>, b: seq<Action>)
    ensures Exec(p, s, a + b) == Exec(p, Exec(p, s, a), b)
    decreases |b|
  {
    hide Next;
    if b == [] {
      assert a + b == a;
    } else {
      var n := |b| - 1;
      assert (a + b)[..|a + b| - 1] == a + b[..n];
      ExecConcat(p, s, a, b[..n]);
    }
  }

  lemma ExecOne(p: Policy, s: State, a: Action)
    ensures Exec(p, s, [a]) == Next(p, s, a)
  {
    hide Next;
    assert [a][..0] == [];
  }

  /** Some actions that request only names of files lead from one state to another. */
  ghost predicate Leads(p: Policy, s: State, s': State) {
    exists actions :: NamedRequests(actions) && Exec(p, s, actions) == s'
  }

  lemma LeadsBy(p: Policy, s: State, a: Action, s': State)
    requires Leads(p, Next(p, s, a), s')
    requires a.Call? ==> NamesAFile(a.req)
    ensures Leads(p, s, s')
  {
    hide Next, NamesAFile;
    var rest :| NamedRequests(rest) && Exec(p, Next(p, s, a), rest) == s';
    ExecOne(p, s, a);
    ExecConcat(p, s, [a], rest);
    assert NamedRequests([a] + rest);
  }

  lemma LeadsNowhere(p: Policy, s: State)
    ensures Leads(p, s, s)
  {
    hide Next;
    assert NamedRequests([]) && Exec(p, s, []) == s;
  }

  lemma LeadsOn(p: Policy, s: State, s': State, s'': State)
    requires Leads(p, s, s') && Leads(p, s', s'')
    ensures Leads(p, s, s'')
  {
    hide Next, NamesAFile;
    var first :| NamedRequests(first) && Exec(p, s, first) == s';
    var second :| NamedRequests(second) && Exec(p, s', second) == s'';
    ExecConcat(p, s, first, second);
    assert NamedRequests(first + second);
  }

  /** An upload in flight can run to its end: some goroutine can always move, and each move leaves less to do. */
  lemma {:induction false} UploadFinishes(p: Policy, s: State, s0: Store)
    requires s.phase.Uploading? && Consistent(s.phase.batch, s0, Upload(s))
    ensures
      var batch := s.phase.batch;
      var errs := BatchErrors(batch, s0.stanza);
      Leads(p, s, State(BatchStore(batch, s0), Idle,
                        if NoErrors(errs) then s.archived + {Base(s.phase.req)} else s.archived, s.backups))
    decreases Remaining(s.phase.pcs)
  {
    hide Base, Step, BatchStore, BatchErrors, Remaining;
    var batch, b := s.phase.batch, Upload(s);
    assert Shaped(batch, b);
    hide Consistent;
    if b.AllFinished() {
      FinishedState(batch, s0, b);
      LeadsNowhere(p, Next(p, s, Return));
      LeadsBy(p, s, Return, Next(p, s, Return));
    } else {
      var i :| 0 <= i < |b.pcs| && b.pcs[i] != Finished;
      StepConsistent(batch, s0, b, i);
      StepRemaining(batch, b, i);
      var s' := Next(p, s, Goroutine(i));
      assert Upload(s') == Step(batch, b, i);
      UploadFinishes(p, s', s0);
      LeadsBy(p, s, Goroutine(i), State(BatchStore(batch, s0), Idle,
        if NoErrors(BatchErrors(batch, s0.stanza)) then s.archived + {Base(s.phase.req)} else s.archived, s.backups));
    }
  }

  /** Where the machine is after a whole call. */
  ghost function AfterCall(p: Policy, s: State, req: string, env: CallEnv): State {
    var r := ArchiveCall(p, s.store, req, env);
    State(r.store, Idle, if r.err.None? then s.archived + {Base(req)} else s.archived, s.backups)
  }

  lemma UploadStageIsRun(p: Policy, s: State, env: CallEnv)
    requires s.phase.Prepared?
    ensures
      var r := UploadStage(s.store, s.phase.req, env);
      Leads(p, s, State(r.store, Idle,
                        if r.err.None? then s.archived + {Base(s.phase.req)} else s.archived, s.backups))
  {
    hide Base, Step, BatchStore, BatchErrors, JoinAll, BatchNames, Listing, Consistent;
    var batch := CallBatch(env, s.phase.req);
    var a := StartUpload(env.pgWalDirectory, Listing(env.status), MaxParallel(env.parallel), batch.outcomes);
    var s' := Next(p, s, a);
    assert |batch.walNames| == |batch.outcomes|;
    var names := BatchNames(Listing(env.status), s.phase.req, MaxParallel(env.parallel));
    assert batch.walNames == JoinAll(env.pgWalDirectory, names);
    assert s'.phase.Uploading? && s'.phase.batch == batch && Upload(s') == Start(batch, s.store);
    StartConsistent(batch, s.store);
    UploadFinishes(p, s', s.store);
    var r := UploadStage(s.store, s.phase.req, env);
    LeadsBy(p, s, a, State(r.store, Idle,
      if r.err.None? then s.archived + {Base(s.phase.req)} else s.archived, s.backups));
  }

  /** Every behaviour of the Archive call is a run of the machine. */
  lemma CallIsRun(p: Policy, s: State, req: string, env: CallEnv)
    requires s.phase.Idle? && NamesAFile(req)
    ensures Leads(p, s, AfterCall(p, s, req, env))
  {
    hide Base, Step, UploadStage, JoinAll, BatchNames, Start, Removed, NamesAFile;
    var last := AfterCall(p, s, req, env);
    LeadsNowhere(p, last);
    if !env.setupWorks {
      return;
    }
    var s1 := Next(p, s, Call(req));
    var s2 := Next(p, s1, LookInSpool(env.lookWorks));
    if env.lookWorks {
      if Base(req) in s.store.spool {
        var s3 := Next(p, s2, RemoveMarker(env.removeWorks));
        if env.removeWorks {
          LeadsBy(p, s3, Return, last);
        }
        LeadsBy(p, s2, RemoveMarker(env.removeWorks), last);
      } else {
        DestinationIsRun(p, s2, env);
      }
    }
    LeadsBy(p, s1, LookInSpool(env.lookWorks), last);
    LeadsBy(p, s, Call(req), last);
  }

  lemma DestinationIsRun(p: Policy, s: State, env: CallEnv)
    requires s.phase.Unspooled? && env.setupWorks && env.lookWorks && Base(s.phase.req) !in s.store.spool
    ensures Leads(p, s, AfterCall(p, s, s.phase.req, env))
  {
    hide Base, Step, UploadStage, JoinAll, BatchNames, Start, Removed;
    var last := AfterCall(p, s, s.phase.req, env);
    LeadsNowhere(p, last);
    var s1 := Next(p, s, CheckDestination(env.infoWorks));
    if env.infoWorks {
      var s2 := s1;
      if s1.phase.Creating? {
        s2 := Next(p, s1, CreateStanza(env.createWorks));
      }
      assert s2.store == StanzaPrepared(p, s.store, env);
      if env.optionsWork {
        UploadStageIsRun(p, s2, env);
      } else {
        LeadsBy(p, s2, OptionsFail, last);
      }
      if s1.phase.Creating? {
        LeadsBy(p, s1, CreateStanza(env.createWorks), last);
      }
    }
    LeadsBy(p, s, CheckDestination(env.infoWorks), last);
  }

  // ----- Sequences of calls -----

  /** A call of Archive with its environment, or a Backup that tries to create the stanza. */
  datatype Invocation = Archive(req: string, env: CallEnv) | Backup(works: bool)

  ghost function AfterInvocation(p: Policy, s: State, i: Invocation): State {
    match i
    case Archive(req, env) => AfterCall(p, s, req, env)
    case Backup(works) => Next(p, s, BackupCreatesStanza(works))
  }

  ghost function RunCalls(p: Policy, s: State, calls: seq<Invocation>): State
    decreases |calls|
  {
    if calls == [] then s
    else AfterInvocation(p, RunCalls(p, s, calls[..|calls| - 1]), calls[|calls| - 1])
  }

  predicate NamedCalls(calls: seq<Invocation>) {
    forall i :: 0 <= i < |calls| && calls[i].Archive? ==> NamesAFile(calls[i].req)
  }

  lemma InvocationIsRun(p: Policy, s: State, i: Invocation)
    requires s.phase.Idle? && (i.Archive? ==> NamesAFile(i.req))
    ensures Leads(p, s, AfterInvocation(p, s, i))
    ensures AfterInvocation(p, s, i).phase.Idle? && s.archived <= AfterInvocation(p, s, i).archived
  {
    hide Leads, NamesAFile, ArchiveCall;
    match i
    case Archive(req, env) => CallIsRun(p, s, req, env);
    case Backup(works) =>
      var s' := Next(p, s, BackupCreatesStanza(works));
      LeadsNowhere(p, s');
      LeadsBy(p, s, BackupCreatesStanza(works), s');
  }

  /** Every sequence of calls is a run of the machine. */
  lemma {:induction false} CallsAreRun(p: Policy, s: State, calls: seq<Invocation>)
    requires s.phase.Idle? && NamedCalls(calls)
    ensures Leads(p, s, RunCalls(p, s, calls)) && RunCalls(p, s, calls).phase.Idle?
    decreases |calls|
  {
    hide Leads, NamesAFile, AfterInvocation;
    if calls == [] {
      LeadsNowhere(p, s);
    } else {
      var n := |calls| - 1;
      var before := RunCalls(p, s, calls[..n]);
      CallsAreRun(p, s, calls[..n]);
      InvocationIsRun(p, before, calls[n]);
      LeadsOn(p, s, before, RunCalls(p, s, calls));
    }
  }

  lemma LeadsToSafe(p: Policy, stanza: bool, checkEmpty: bool, s: State)
    requires Leads(p, Init(stanza, checkEmpty), s)
    ensures Safe(s)
  {
    hide Next, Safe, NamesAFile, Init;
    var actions :| NamedRequests(actions) && Exec(p, Init(stanza, checkEmpty), actions) == s;
    RunsAreSafe(p, stanza, checkEmpty, actions);
  }

  lemma {:induction false} AnswersStay(p: Policy, s: State, calls: seq<Invocation>, n: nat)
    requires s.phase.Idle? && NamedCalls(calls) && n <= |calls|
    ensures RunCalls(p, s, calls[..n]).archived <= RunCalls(p, s, calls).archived
    decreases |calls|
  {
    hide Leads, NamesAFile, AfterInvocation;
    if n == |calls| {
      assert calls[..n] == calls;
    } else {
      var last := |calls| - 1;
      assert calls[..last][..n] == calls[..n];
      AnswersStay(p, s, calls[..last], n);
      CallsAreRun(p, s, calls[..last]);
      InvocationIsRun(p, RunCalls(p, s, calls[..last]), calls[last]);
    }
  }

  /** Call n of the sequence is an Archive call and answers success. */
  ghost predicate Succeeds(p: Policy, s: State, calls: seq<Invocation>, n: nat)
    requires n < |calls|
  {
    && calls[n].Archive?
    && ArchiveCall(p, RunCalls(p, s, calls[..n]).store, calls[n].req, calls[n].env).err.None?
  }

  lemma SuccessIsArchived(p: Policy, s: State, calls: seq<Invocation>, n: nat)
    requires n < |calls| && Succeeds(p, s, calls, n)
    ensures Base(calls[n].req) in RunCalls(p, s, calls[..n + 1]).archived
  {
    hide ArchiveCall, Base;
    assert calls[..n + 1][..n] == calls[..n];
  }

  lemma LeadsToCleared(p: Policy, stanza: bool, checkEmpty: bool, s: State)
    requires Leads(p, Init(stanza, checkEmpty), s)
    ensures Cleared(s)
  {
    hide Next, Cleared, NamesAFile, Init;
    var actions :| NamedRequests(actions) && Exec(p, Init(stanza, checkEmpty), actions) == s;
    RunsAreCleared(p, stanza, checkEmpty, actions);
  }

  /** After every sequence of calls and Backups in which some call has answered success, the flag file is gone. */
  lemma ServiceRemovesFlag(p: Policy, stanza: bool, checkEmpty: bool, calls: seq<Invocation>, n: nat)
    requires NamedCalls(calls) && n < |calls| && Succeeds(p, Init(stanza, checkEmpty), calls, n)
    ensures !RunCalls(p, Init(stanza, checkEmpty), calls).store.checkEmpty
  {
    var init := Init(stanza, checkEmpty);
    hide Leads, NamesAFile, RunCalls, Base, ArchiveCall;
    CallsAreRun(p, init, calls);
    LeadsToCleared(p, stanza, checkEmpty, RunCalls(p, init, calls));
    SuccessIsArchived(p, init, calls, n);
    AnswersStay(p, init, calls, n + 1);
  }

  /**
   * The service is safe: after every sequence of Archive calls and Backups from an empty repository and an empty spool,
   * whatever the environments, each WAL whose call answered success is in the repository, and so is each marker's.
   */
  lemma ServiceIsSafe(p: Policy, stanza: bool, checkEmpty: bool, calls: seq<Invocation>)
    requires NamedCalls(calls)
    ensures
      var s := RunCalls(p, Init(stanza, checkEmpty), calls);
      && (forall n :: 0 <= n < |calls| && Succeeds(p, Init(stanza, checkEmpty), calls, n) ==>
        Base(calls[n].req) in s.store.pushed)
      && (forall w :: w in s.store.spool ==> w in s.store.pushed)
  {
    var init := Init(stanza, checkEmpty);
    hide Leads, NamesAFile, RunCalls, Base, ArchiveCall;
    CallsAreRun(p, init, calls);
    LeadsToSafe(p, stanza, checkEmpty, RunCalls(p, init, calls));
    forall n | 0 <= n < |calls| && Succeeds(p, init, calls, n)
      ensures Base(calls[n].req) in RunCalls(p, init, calls).store.pushed
    {
      SuccessIsArchived(p, init, calls, n);
      AnswersStay(p, init, calls, n + 1);
    }
  }
}

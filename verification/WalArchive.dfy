/**
 * The concurrent upload of a batch (internal/pgbackrest/walarchive/cmd.go).
 *
 * One goroutine per file pushes it and then, except for the first file, leaves a
 * marker in the spool. `Step` is one atomic action of one goroutine; a schedule
 * is any sequence of goroutine numbers.
 */
module WalArchive {
  import opened Wrappers
  import opened Paths
  import opened Spool

  /** How one pgbackrest archive-push, and the flag file removal after it, go. */
  datatype PushOutcome = PushFails | FlagRemovalFails | PushSucceeds

  datatype Outcome = Outcome(push: PushOutcome, touchWorks: bool)

  datatype ArchiveError = PushError | FlagError | TouchError

  datatype WALArchiverResult = WALArchiverResult(walName: string, err: Option<ArchiveError>)

  /**
   * What archiving changes: how often each WAL has been pushed to the repository,
   * the spool, whether the stanza exists, and whether the file that asks for an
   * empty archive is still there.
   */
  datatype Store = Store(pushed: multiset<string>, spool: Files, stanza: bool, checkEmpty: bool)

  datatype Batch = Batch(walNames: seq<string>, outcomes: seq<Outcome>) {
    predicate Valid() {
      |walNames| == |outcomes|
    }

    function Name(i: nat): string
      requires i < |walNames|
    {
      Base(walNames[i])
    }
  }

  datatype Pc = Starting | Touching | Finished

  datatype BatchState = BatchState(store: Store, pcs: seq<Pc>, errs: seq<Option<ArchiveError>>) {
    predicate AllFinished() {
      forall i :: 0 <= i < |pcs| ==> pcs[i] == Finished
    }
  }

  // ----- One goroutine at a time -----

  /** archive-push cannot succeed without a stanza. */
  function PushResult(stanza: bool, o: Outcome): Option<ArchiveError> {
    if !stanza || o.push == PushFails then Some(PushError)
    else if o.push == FlagRemovalFails then Some(FlagError)
    else None
  }

  function AfterPush(s: Store, name: string, o: Outcome): Store {
    match PushResult(s.stanza, o)
    case Some(PushError) => s
    case Some(_) => s.(pushed := s.pushed + multiset{name})
    case None => s.(pushed := s.pushed + multiset{name}, checkEmpty := false)
  }

  predicate Shaped(batch: Batch, b: BatchState) {
    batch.Valid() && |b.pcs| == |batch.walNames| && |b.errs| == |batch.walNames|
  }

  function Step(batch: Batch, b: BatchState, i: nat): (b': BatchState)
    requires Shaped(batch, b) && i < |b.pcs|
    ensures Shaped(batch, b')
  {
    var o := batch.outcomes[i];
    match b.pcs[i]
    case Starting =>
      var err := PushResult(b.store.stanza, o);
      BatchState(AfterPush(b.store, batch.Name(i), o),
                 b.pcs[i := if err.None? && i != 0 then Touching else Finished],
                 b.errs[i := err])
    case Touching =>
      BatchState(if o.touchWorks then b.store.(spool := Touched(b.store.spool, batch.walNames[i])) else b.store,
                 b.pcs[i := Finished],
                 b.errs[i := if o.touchWorks then None else Some(TouchError)])
    case Finished => b
  }

  function Start(batch: Batch, s: Store): (b: BatchState)
    requires batch.Valid()
    ensures Shaped(batch, b)
  {
    var n := |batch.walNames|;
    BatchState(s, seq(n, _ => Starting), seq(n, _ => None))
  }

  /** Numbers outside the batch stand for an idle processor. */
  function Run(batch: Batch, b: BatchState, schedule: seq<nat>): (b': BatchState)
    requires Shaped(batch, b)
    ensures Shaped(batch, b')
    decreases |schedule|
  {
    if schedule == [] then b
    else
      var last := schedule[|schedule| - 1];
      var before := Run(batch, b, schedule[..|schedule| - 1]);
      if last < |before.pcs| then Step(batch, before, last) else before
  }

  /** The actions that are left. */
  function Remaining(pcs: seq<Pc>): nat {
    if pcs == [] then 0
    else Remaining(pcs[..|pcs| - 1]) +
         (match pcs[|pcs| - 1] case Starting => 2 case Touching => 1 case Finished => 0)
  }

  lemma {:induction false} RemainingUpdate(pcs: seq<Pc>, i: nat, pc: Pc)
    requires i < |pcs| && pcs[i] != Finished
    requires pc == Finished || (pc == Touching && pcs[i] == Starting)
    ensures Remaining(pcs[i := pc]) < Remaining(pcs)
  {
    var n := |pcs| - 1;
    if i < n {
      assert pcs[i := pc][..n] == pcs[..n][i := pc];
      RemainingUpdate(pcs[..n], i, pc);
    } else {
      assert pcs[i := pc][..n] == pcs[..n];
    }
  }

  lemma StepRemaining(batch: Batch, b: BatchState, i: nat)
    requires Shaped(batch, b) && i < |b.pcs| && b.pcs[i] != Finished
    ensures Remaining(Step(batch, b, i).pcs) < Remaining(b.pcs)
  {
    hide Base;
    RemainingUpdate(b.pcs, i, Step(batch, b, i).pcs[i]);
  }

  lemma StepTouchesOne(batch: Batch, b: BatchState, i: nat)
    requires Shaped(batch, b) && i < |b.pcs|
    ensures forall k :: 0 <= k < |b.pcs| && k != i ==> Step(batch, b, i).pcs[k] == b.pcs[k]
  {
    hide Base;
  }

  // ----- The state as a function of how far each goroutine is -----

  function PushOf(batch: Batch, stanza: bool, pc: Pc, i: nat): multiset<string>
    requires batch.Valid() && i < |batch.walNames|
  {
    if pc != Starting && PushResult(stanza, batch.outcomes[i]) != Some(PushError) then multiset{batch.Name(i)}
    else multiset{}
  }

  /** The pushes of the first n goroutines. */
  function PushedBy(batch: Batch, stanza: bool, pcs: seq<Pc>, n: nat): multiset<string>
    requires batch.Valid() && |pcs| == |batch.walNames| && n <= |pcs|
  {
    if n == 0 then multiset{}
    else PushedBy(batch, stanza, pcs, n - 1) + PushOf(batch, stanza, pcs[n - 1], n - 1)
  }

  predicate Marks(batch: Batch, stanza: bool, i: nat)
    requires batch.Valid() && i < |batch.walNames|
  {
    i != 0 && PushResult(stanza, batch.outcomes[i]).None? && batch.outcomes[i].touchWorks
  }

  /** The markers of the first n goroutines. */
  function MarkedBy(batch: Batch, stanza: bool, pcs: seq<Pc>, n: nat): set<string>
    requires batch.Valid() && |pcs| == |batch.walNames| && n <= |pcs|
  {
    if n == 0 then {}
    else if pcs[n - 1] == Finished && Marks(batch, stanza, n - 1) then
      MarkedBy(batch, stanza, pcs, n - 1) + {batch.Name(n - 1)}
    else MarkedBy(batch, stanza, pcs, n - 1)
  }

  predicate Clears(batch: Batch, stanza: bool, pcs: seq<Pc>)
    requires batch.Valid() && |pcs| == |batch.walNames|
  {
    exists i :: 0 <= i < |pcs| && pcs[i] != Starting && PushResult(stanza, batch.outcomes[i]).None?
  }

  function WithMarkers(files: Files, names: set<string>): Files {
    map n | n in files.Keys + names :: if n in names then [] else files[n]
  }

  function After(batch: Batch, s: Store, pcs: seq<Pc>): Store
    requires batch.Valid() && |pcs| == |batch.walNames|
  {
    Store(s.pushed + PushedBy(batch, s.stanza, pcs, |pcs|),
          WithMarkers(s.spool, MarkedBy(batch, s.stanza, pcs, |pcs|)),
          s.stanza,
          s.checkEmpty && !Clears(batch, s.stanza, pcs))
  }

  function FinalError(batch: Batch, stanza: bool, i: nat): Option<ArchiveError>
    requires batch.Valid() && i < |batch.walNames|
  {
    var o := batch.outcomes[i];
    if PushResult(stanza, o).Some? then PushResult(stanza, o)
    else if i != 0 && !o.touchWorks then Some(TouchError)
    else None
  }

  function AllDone(n: nat): seq<Pc> {
    seq(n, _ => Finished)
  }

  /** What a batch does in the end. */
  function BatchStore(batch: Batch, s: Store): Store
    requires batch.Valid()
  {
    After(batch, s, AllDone(|batch.walNames|))
  }

  function BatchErrors(batch: Batch, stanza: bool): seq<Option<ArchiveError>>
    requires batch.Valid()
  {
    seq(|batch.walNames|, i requires 0 <= i < |batch.walNames| => FinalError(batch, stanza, i))
  }

  predicate GoroutineConsistent(batch: Batch, stanza: bool, b: BatchState, i: nat)
    requires Shaped(batch, b) && i < |b.pcs|
  {
    match b.pcs[i]
    case Starting => b.errs[i].None?
    case Touching => b.errs[i].None? && i != 0 && PushResult(stanza, batch.outcomes[i]).None?
    case Finished => b.errs[i] == FinalError(batch, stanza, i)
  }

  predicate Consistent(batch: Batch, s: Store, b: BatchState) {
    && Shaped(batch, b)
    && b.store == After(batch, s, b.pcs)
    && forall i :: 0 <= i < |b.pcs| ==> GoroutineConsistent(batch, s.stanza, b, i)
  }

  lemma {:induction false} PushedByUpdate(batch: Batch, stanza: bool, pcs: seq<Pc>, i: nat, pc: Pc, n: nat)
    requires batch.Valid() && |pcs| == |batch.walNames| && n <= |pcs| && i < |pcs|
    requires pc != Starting
    ensures PushedBy(batch, stanza, pcs[i := pc], n) ==
            PushedBy(batch, stanza, pcs, n) +
            (if i < n && pcs[i] == Starting then PushOf(batch, stanza, pc, i) else multiset{})
  {
    hide PushOf;
    if n > 0 {
      var pcs' := pcs[i := pc];
      PushedByUpdate(batch, stanza, pcs, i, pc, n - 1);
      if i == n - 1 {
        LastPush(batch, stanza, pcs[i], pc, i);
      } else {
        assert pcs'[n - 1] == pcs[n - 1];
      }
    }
  }

  lemma LastPush(batch: Batch, stanza: bool, pc: Pc, pc': Pc, i: nat)
    requires batch.Valid() && i < |batch.walNames| && pc' != Starting
    ensures pc == Starting ==> PushOf(batch, stanza, pc, i) == multiset{}
    ensures pc != Starting ==> PushOf(batch, stanza, pc, i) == PushOf(batch, stanza, pc', i)
  {
  }

  lemma {:induction false} MarkedByUpdate(batch: Batch, stanza: bool, pcs: seq<Pc>, i: nat, pc: Pc, n: nat)
    requires batch.Valid() && |pcs| == |batch.walNames| && n <= |pcs| && i < |pcs|
    requires pcs[i] != Finished
    ensures MarkedBy(batch, stanza, pcs[i := pc], n) ==
            MarkedBy(batch, stanza, pcs, n) +
            (if i < n && pc == Finished && Marks(batch, stanza, i) then {batch.Name(i)} else {})
  {
    hide Base, PushResult;
    if n > 0 {
      MarkedByUpdate(batch, stanza, pcs, i, pc, n - 1);
    }
  }

  lemma TouchAddsMarker(files: Files, names: set<string>, walFile: string)
    ensures Touched(WithMarkers(files, names), walFile) == WithMarkers(files, names + {Base(walFile)})
  {
    hide Base;
  }

  lemma StartConsistent(batch: Batch, s: Store)
    requires batch.Valid()
    ensures Consistent(batch, s, Start(batch, s))
  {
    var pcs := Start(batch, s).pcs;
    NothingYet(batch, s.stanza, pcs, |pcs|);
    assert WithMarkers(s.spool, {}) == s.spool;
  }

  lemma {:induction false} NothingYet(batch: Batch, stanza: bool, pcs: seq<Pc>, n: nat)
    requires batch.Valid() && |pcs| == |batch.walNames| && n <= |pcs|
    requires forall i :: 0 <= i < |pcs| ==> pcs[i] == Starting
    ensures PushedBy(batch, stanza, pcs, n) == multiset{}
    ensures MarkedBy(batch, stanza, pcs, n) == {}
  {
    if n > 0 {
      NothingYet(batch, stanza, pcs, n - 1);
    }
  }

  lemma StepStore(batch: Batch, s: Store, b: BatchState, i: nat)
    requires Consistent(batch, s, b) && i < |b.pcs|
    ensures Step(batch, b, i).store == After(batch, s, Step(batch, b, i).pcs)
  {
    hide Base, WithMarkers, PushedBy, MarkedBy;
    var b' := Step(batch, b, i);
    var n := |b.pcs|;
    assert GoroutineConsistent(batch, s.stanza, b, i);
    if b.pcs[i] == Starting {
      PushedByUpdate(batch, s.stanza, b.pcs, i, b'.pcs[i], n);
      MarkedByUpdate(batch, s.stanza, b.pcs, i, b'.pcs[i], n);
      assert !Marks(batch, s.stanza, i) || b'.pcs[i] == Touching;
      ClearsUpdate(batch, s.stanza, b.pcs, i, b'.pcs[i]);
      assert b'.store.pushed == s.pushed + PushedBy(batch, s.stanza, b'.pcs, n);
      assert MarkedBy(batch, s.stanza, b'.pcs, n) == MarkedBy(batch, s.stanza, b.pcs, n);
    } else if b.pcs[i] == Touching {
      PushedByUpdate(batch, s.stanza, b.pcs, i, Finished, n);
      MarkedByUpdate(batch, s.stanza, b.pcs, i, Finished, n);
      assert b'.store.pushed == s.pushed + PushedBy(batch, s.stanza, b'.pcs, n);
      assert !batch.outcomes[i].touchWorks ==>
        MarkedBy(batch, s.stanza, b'.pcs, n) == MarkedBy(batch, s.stanza, b.pcs, n);
      TouchAddsMarker(s.spool, MarkedBy(batch, s.stanza, b.pcs, n), batch.walNames[i]);
      ClearsUpdate(batch, s.stanza, b.pcs, i, Finished);
    }
  }

  lemma ClearsUpdate(batch: Batch, stanza: bool, pcs: seq<Pc>, i: nat, pc: Pc)
    requires batch.Valid() && |pcs| == |batch.walNames| && i < |pcs| && pc != Starting
    ensures Clears(batch, stanza, pcs[i := pc]) <==>
            Clears(batch, stanza, pcs) || PushResult(stanza, batch.outcomes[i]).None?
  {
    var pcs' := pcs[i := pc];
    if Clears(batch, stanza, pcs) {
      var k :| 0 <= k < |pcs| && pcs[k] != Starting && PushResult(stanza, batch.outcomes[k]).None?;
      assert pcs'[k] != Starting;
    }
    assert pcs'[i] != Starting;
  }

  lemma StepGoroutine(batch: Batch, b: BatchState, i: nat, k: nat)
    requires Shaped(batch, b) && i < |b.pcs| && k < |b.pcs|
    requires GoroutineConsistent(batch, b.store.stanza, b, k)
    ensures GoroutineConsistent(batch, b.store.stanza, Step(batch, b, i), k)
  {
    hide Base, AfterPush, Touched;
  }

  lemma StepConsistent(batch: Batch, s: Store, b: BatchState, i: nat)
    requires Consistent(batch, s, b) && i < |b.pcs|
    ensures Consistent(batch, s, Step(batch, b, i))
  {
    assert b.store.stanza == s.stanza;
    StepStore(batch, s, b, i);
    hide Step, After, GoroutineConsistent;
    var b' := Step(batch, b, i);
    forall k | 0 <= k < |b'.pcs|
      ensures GoroutineConsistent(batch, s.stanza, b', k)
    {
      StepGoroutine(batch, b, i, k);
    }
  }

  lemma {:induction false} RunConsistent(batch: Batch, s: Store, schedule: seq<nat>)
    requires batch.Valid()
    ensures Consistent(batch, s, Run(batch, Start(batch, s), schedule))
    decreases |schedule|
  {
    hide Consistent, Step, Start;
    if schedule == [] {
      StartConsistent(batch, s);
    } else {
      var n := |schedule| - 1;
      RunConsistent(batch, s, schedule[..n]);
      var before := Run(batch, Start(batch, s), schedule[..n]);
      if schedule[n] < |before.pcs| {
        StepConsistent(batch, s, before, schedule[n]);
      }
    }
  }

  lemma FinishedState(batch: Batch, s: Store, b: BatchState)
    requires Consistent(batch, s, b) && b.AllFinished()
    ensures b.store == BatchStore(batch, s)
    ensures b.errs == BatchErrors(batch, s.stanza)
  {
    hide After;
    assert b.pcs == AllDone(|batch.walNames|);
    forall i | 0 <= i < |b.pcs|
      ensures b.errs[i] == FinalError(batch, s.stanza, i)
    {
      assert GoroutineConsistent(batch, s.stanza, b, i);
    }
  }

  /** Every schedule that lets all goroutines finish ends in the same store with the same errors. */
  lemma ScheduleIndependence(batch: Batch, s: Store, schedule: seq<nat>)
    requires batch.Valid() && Run(batch, Start(batch, s), schedule).AllFinished()
    ensures Run(batch, Start(batch, s), schedule).store == BatchStore(batch, s)
    ensures Run(batch, Start(batch, s), schedule).errs == BatchErrors(batch, s.stanza)
  {
    RunConsistent(batch, s, schedule);
    FinishedState(batch, s, Run(batch, Start(batch, s), schedule));
  }

  // ----- Markers stand for pushed files -----

  /** Every marker in the spool names a WAL that the repository holds. */
  predicate MarkersArePushed(s: Store) {
    forall n :: n in s.spool ==> n in s.pushed
  }

  lemma {:induction false} MarkedIsPushed(batch: Batch, stanza: bool, pcs: seq<Pc>, n: nat)
    requires batch.Valid() && |pcs| == |batch.walNames| && n <= |pcs|
    ensures forall m :: m in MarkedBy(batch, stanza, pcs, n) ==> m in PushedBy(batch, stanza, pcs, n)
  {
    if n > 0 {
      MarkedIsPushed(batch, stanza, pcs, n - 1);
    }
  }

  /** At every moment of every schedule, not only at the end, markers stand for pushed files. */
  lemma BatchKeepsMarkersPushed(batch: Batch, s: Store, schedule: seq<nat>)
    requires batch.Valid() && MarkersArePushed(s)
    ensures MarkersArePushed(Run(batch, Start(batch, s), schedule).store)
  {
    RunConsistent(batch, s, schedule);
    var pcs := Run(batch, Start(batch, s), schedule).pcs;
    MarkedIsPushed(batch, s.stanza, pcs, |pcs|);
  }

  lemma {:induction false} PushedByContains(batch: Batch, stanza: bool, n: nat, i: nat)
    requires batch.Valid() && i < n <= |batch.walNames|
    requires PushResult(stanza, batch.outcomes[i]) != Some(PushError)
    ensures batch.Name(i) in PushedBy(batch, stanza, AllDone(|batch.walNames|), n)
  {
    hide Base, PushResult;
    if i < n - 1 {
      PushedByContains(batch, stanza, n - 1, i);
    }
  }

  /** A file whose result carries no error is in the repository. */
  lemma NoErrorMeansPushed(batch: Batch, s: Store, i: nat)
    requires batch.Valid() && i < |batch.walNames| && FinalError(batch, s.stanza, i).None?
    ensures batch.Name(i) in BatchStore(batch, s).pushed
  {
    PushedByContains(batch, s.stanza, |batch.walNames|, i);
  }

  // ----- What the results of a batch tell -----

  /** Each result tells how the push and, but for the first file, the marker went. */
  lemma BatchResults(batch: Batch, stanza: bool, i: nat)
    requires batch.Valid() && i < |batch.walNames|
    ensures
      var o, err := batch.outcomes[i], BatchErrors(batch, stanza)[i];
      && (err.None? <==> stanza && o.push.PushSucceeds? && (i == 0 || o.touchWorks))
      && (err == Some(TouchError) <==> stanza && o.push.PushSucceeds? && i != 0 && !o.touchWorks)
      && (err == Some(FlagError) <==> stanza && o.push.FlagRemovalFails?)
      && (err == Some(PushError) <==> !stanza || o.push.PushFails?)
  {
  }

  predicate HasName(batch: Batch, i: nat, name: string) {
    i < |batch.walNames| && batch.Name(i) == name
  }

  /** The files of the batch with the name whose result is not that the push failed. */
  function PushedPlaces(batch: Batch, stanza: bool, name: string, n: nat): set<nat>
    requires batch.Valid() && n <= |batch.walNames|
  {
    set i: nat | 0 <= i < n && HasName(batch, i, name) && BatchErrors(batch, stanza)[i] != Some(PushError)
  }

  lemma PushOfLast(batch: Batch, stanza: bool, name: string, i: nat)
    requires batch.Valid() && i < |batch.walNames|
    ensures PushOf(batch, stanza, Finished, i)[name] ==
      if HasName(batch, i, name) && BatchErrors(batch, stanza)[i] != Some(PushError) then 1 else 0
  {
    hide Base;
    BatchResults(batch, stanza, i);
  }

  lemma PlacesStep(batch: Batch, stanza: bool, name: string, n: nat)
    requires batch.Valid() && n < |batch.walNames|
    ensures |PushedPlaces(batch, stanza, name, n + 1)| == |PushedPlaces(batch, stanza, name, n)| +
      if HasName(batch, n, name) && BatchErrors(batch, stanza)[n] != Some(PushError) then 1 else 0
  {
    hide HasName, BatchErrors;
    var before, after := PushedPlaces(batch, stanza, name, n), PushedPlaces(batch, stanza, name, n + 1);
    assert n !in before;
    if n in after {
      assert after == before + {n};
    } else {
      assert after == before;
    }
  }

  lemma PushedByNone(batch: Batch, stanza: bool, name: string)
    requires batch.Valid()
    ensures PushedBy(batch, stanza, AllDone(|batch.walNames|), 0)[name] == 0
    ensures PushedPlaces(batch, stanza, name, 0) == {}
  {
  }

  lemma PushedByStep(batch: Batch, stanza: bool, name: string, n: nat)
    requires batch.Valid() && n < |batch.walNames|
    ensures PushedBy(batch, stanza, AllDone(|batch.walNames|), n + 1)[name] ==
      PushedBy(batch, stanza, AllDone(|batch.walNames|), n)[name] + PushOf(batch, stanza, Finished, n)[name]
  {
    hide PushOf;
  }

  lemma {:induction false} PushedByCount(batch: Batch, stanza: bool, name: string, n: nat)
    requires batch.Valid() && n <= |batch.walNames|
    ensures PushedBy(batch, stanza, AllDone(|batch.walNames|), n)[name] == |PushedPlaces(batch, stanza, name, n)|
  {
    hide *;
    PushedByNone(batch, stanza, name);
    if n > 0 {
      PushedByStep(batch, stanza, name, n - 1);
      PushedByCount(batch, stanza, name, n - 1);
      PushOfLast(batch, stanza, name, n - 1);
      PlacesStep(batch, stanza, name, n - 1);
    }
  }

  /** A name is pushed once for each file of the batch that has it and whose push has not failed. */
  lemma BatchPushes(batch: Batch, s: Store, name: string)
    requires batch.Valid()
    ensures BatchStore(batch, s).pushed[name] ==
      s.pushed[name] + |PushedPlaces(batch, s.stanza, name, |batch.walNames|)|
  {
    hide Base, PushedBy, PushedPlaces;
    PushedByCount(batch, s.stanza, name, |batch.walNames|);
  }

  lemma {:induction false} MarkedExactly(batch: Batch, stanza: bool, name: string, n: nat)
    requires batch.Valid() && n <= |batch.walNames|
    ensures name in MarkedBy(batch, stanza, AllDone(|batch.walNames|), n) <==>
      exists i :: 0 < i < n && HasName(batch, i, name) && BatchErrors(batch, stanza)[i].None?
  {
    hide Base;
    if n > 0 {
      MarkedExactly(batch, stanza, name, n - 1);
      BatchResults(batch, stanza, n - 1);
      if name == batch.Name(n - 1) {
        assert HasName(batch, n - 1, name);
      }
    }
  }

  /** Exactly the files after the first whose results carry no error get empty markers, and nothing else changes. */
  lemma BatchMarkers(batch: Batch, s: Store, name: string)
    requires batch.Valid()
    ensures
      var marked := exists i ::
        0 < i < |batch.walNames| && HasName(batch, i, name) && BatchErrors(batch, s.stanza)[i].None?;
      var spool := BatchStore(batch, s).spool;
      && (name in spool <==> name in s.spool || marked)
      && (name in spool ==> spool[name] == if marked then [] else s.spool[name])
  {
    hide Base, BatchErrors, MarkedBy;
    MarkedExactly(batch, s.stanza, name, |batch.walNames|);
  }

  /** The flag file is gone exactly when it was gone before, or some file was pushed and the flag removed after it. */
  lemma BatchFlag(batch: Batch, s: Store)
    requires batch.Valid()
    ensures BatchStore(batch, s).checkEmpty <==>
      && s.checkEmpty
      && forall i :: 0 <= i < |batch.walNames| ==>
        BatchErrors(batch, s.stanza)[i].Some? && BatchErrors(batch, s.stanza)[i] != Some(TouchError)
    ensures BatchStore(batch, s).stanza == s.stanza
  {
    forall i | 0 <= i < |batch.walNames|
      ensures PushResult(s.stanza, batch.outcomes[i]).None? <==>
        BatchErrors(batch, s.stanza)[i].None? || BatchErrors(batch, s.stanza)[i] == Some(TouchError)
    {
      BatchResults(batch, s.stanza, i);
    }
    hide PushResult, PushedBy, MarkedBy, BatchErrors;
    assert AllDone(|batch.walNames|) == seq(|batch.walNames|, _ => Finished);
  }

  function Errors(results: seq<WALArchiverResult>): seq<Option<ArchiveError>> {
    seq(|results|, i requires 0 <= i < |results| => results[i].err)
  }

  // ----- The archiver -----

  /** The repository as archive-push and stanza-create see it. */
  class Repository {
    var pushed: multiset<string>
    var stanza: bool

    constructor (stanza: bool)
      ensures pushed == multiset{} && this.stanza == stanza
    {
      pushed := multiset{};
      this.stanza := stanza;
    }
  }

  class PgbackrestArchiver {
    const spool: WALSpool
    const repository: Repository
    var checkEmptyFile: bool

    constructor (spool: WALSpool, repository: Repository, checkEmptyFile: bool)
      ensures this.spool == spool && this.repository == repository && this.checkEmptyFile == checkEmptyFile
    {
      this.spool := spool;
      this.repository := repository;
      this.checkEmptyFile := checkEmptyFile;
    }

    function State(): Store
      reads this, spool, repository
    {
      Store(repository.pushed, spool.files, repository.stanza, checkEmptyFile)
    }

    /** Pushes one file; the first push to succeed also removes the file that asks for an empty archive. */
    method Archive(walName: string, o: Outcome) returns (err: Option<ArchiveError>)
      modifies this`checkEmptyFile, repository`pushed
      ensures State() == AfterPush(old(State()), Base(walName), o)
      ensures err == PushResult(repository.stanza, o)
      ensures err.None? <==> repository.stanza && o.push.PushSucceeds?
      ensures err == Some(PushError) <==> !repository.stanza || o.push.PushFails?
      ensures repository.pushed ==
              if err == Some(PushError) then old(repository.pushed)
              else old(repository.pushed) + multiset{Base(walName)}
      ensures checkEmptyFile == (old(checkEmptyFile) && err.Some?)
    {
      if !repository.stanza || o.push == PushFails {
        return Some(PushError);
      }
      repository.pushed := repository.pushed + multiset{Base(walName)};
      if o.push == FlagRemovalFails {
        return Some(FlagError);
      }
      checkEmptyFile := false;
      err := None;
    }

    ghost function Snapshot(pcs: array<Pc>, result: array<WALArchiverResult>): BatchState
      reads this, spool, repository, pcs, result
    {
      BatchState(State(), pcs[..], Errors(result[..]))
    }

    /** One atomic action of goroutine i. */
    method Advance(walNames: seq<string>, outcomes: seq<Outcome>, i: nat, pcs: array<Pc>,
                   result: array<WALArchiverResult>)
      requires |walNames| == |outcomes| == pcs.Length == result.Length && i < pcs.Length && pcs[i] != Finished
      requires pcs[i] == Touching ==> result[i].walName == walNames[i]
      modifies this`checkEmptyFile, repository`pushed, spool, pcs, result
      ensures Snapshot(pcs, result) == Step(Batch(walNames, outcomes), old(Snapshot(pcs, result)), i)
      ensures result[i].walName == walNames[i]
      ensures forall k :: 0 <= k < pcs.Length && k != i ==> result[k] == old(result[k])
    {
      hide Base, AfterPush, PushResult, Touched;
      if pcs[i] == Starting {
        var err := Archive(walNames[i], outcomes[i]);
        result[i] := WALArchiverResult(walNames[i], err);
        pcs[i] := if err.None? && i != 0 then Touching else Finished;
      } else {
        var failure := spool.Touch(walNames[i], outcomes[i].touchWorks);
        result[i] := result[i].(err := if failure.None? then None else Some(TouchError));
        pcs[i] := Finished;
      }
    }

    /** The loop runs an arbitrary goroutine that has not finished; the outcome does not depend on the choice. */
    method ArchiveList(walNames: seq<string>, outcomes: seq<Outcome>) returns (result: array<WALArchiverResult>)
      requires |walNames| == |outcomes|
      modifies this`checkEmptyFile, repository`pushed, spool
      ensures fresh(result) && result.Length == |walNames|
      ensures State() == BatchStore(Batch(walNames, outcomes), old(State()))
      ensures Errors(result[..]) == BatchErrors(Batch(walNames, outcomes), old(State()).stanza)
      ensures forall i :: 0 <= i < result.Length ==> result[i].walName == walNames[i]
      ensures checkEmptyFile <==>
        && old(checkEmptyFile)
        && forall i :: 0 <= i < result.Length ==> result[i].err.Some? && result[i].err != Some(TouchError)
    {
      hide Base, Consistent, After, BatchStore, BatchErrors, Remaining, Step;
      var n := |walNames|;
      ghost var batch := Batch(walNames, outcomes);
      ghost var s := State();
      result := new WALArchiverResult[n](_ => WALArchiverResult("", None));
      var pcs := new Pc[n](_ => Starting);
      StartConsistent(batch, s);
      assert Snapshot(pcs, result) == Start(batch, s);
      while exists i :: 0 <= i < n && pcs[i] != Finished
        invariant fresh(result) && fresh(pcs) && result.Length == pcs.Length == n
        invariant Consistent(batch, s, Snapshot(pcs, result))
        invariant forall i :: 0 <= i < n && pcs[i] != Starting ==> result[i].walName == walNames[i]
        decreases Remaining(pcs[..])
      {
        var i :| 0 <= i < n && pcs[i] != Finished;
        ghost var b := Snapshot(pcs, result);
        StepConsistent(batch, s, b, i);
        StepRemaining(batch, b, i);
        StepTouchesOne(batch, b, i);
        Advance(walNames, outcomes, i, pcs, result);
        assert pcs[..] == Step(batch, b, i).pcs;
      }
      FinishedState(batch, s, Snapshot(pcs, result));
      BatchFlag(batch, s);
      assert forall i :: 0 <= i < n ==> Errors(result[..])[i] == result[i].err;
    }
  }
}

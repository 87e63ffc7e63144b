/**
 * In a run without failures, in which PostgreSQL requests the ready files in the
 * order of the directory walk and new ready files sort last, every WAL is pushed
 * exactly once, however many files each batch may hold.
 */
module ExactlyOnce {
  import opened Wrappers
  import opened Common
  import opened Paths
  import opened WalSegment
  import opened Spool
  import opened Gather
  import opened WalArchive
  import opened ArchiveMachine
  import opened ArchiveService

  /** PostgreSQL's side: the files still ready, in walk order, and the files archived so far. */
  datatype Server = Server(store: Store, pending: seq<string>, archived: seq<string>)

  /** One request for the first pending file, and the files that become ready before the next one. */
  datatype Round = Round(entries: seq<DirEntry>, pgWalDirectory: string, parallel: int, arrivals: seq<string>)

  function RoundEnv(r: Round): CallEnv {
    CallEnv(true, true, true, true, true, true, r.pgWalDirectory, Some(r.entries), r.parallel, map[])
  }

  function Request(s: Server): string
    requires s.pending != []
  {
    Join("pg_wal", s.pending[0])
  }

  /** On success PostgreSQL marks the file as done; otherwise it stays pending. */
  function After(p: Policy, s: Server, r: Round): Server
    requires s.pending != []
  {
    var result := ArchiveCall(p, s.store, Request(s), RoundEnv(r));
    if result.err.None? then
      Server(result.store, s.pending[1..] + r.arrivals, s.archived + [s.pending[0]])
    else
      Server(result.store, s.pending + r.arrivals, s.archived)
  }

  predicate AllWellFormed(names: seq<string>) {
    forall n :: n in names ==> WellFormed(n)
  }

  /** The directory lists the pending files in order, and the arriving files are new. */
  predicate Fits(s: Server, r: Round) {
    && s.pending != []
    && ReadyNames(r.entries) == s.pending
    && AllWellFormed(r.arrivals)
    && Distinct(s.archived + (s.pending + r.arrivals))
  }

  /** The spool holds exactly the first k pending files, and those and the archived ones have been pushed once. */
  predicate Ahead(s: Server, k: nat) {
    && k <= |s.pending|
    && s.store.spool.Keys == SetOf(s.pending[..k])
    && s.store.pushed == multiset(s.archived) + multiset(s.pending[..k])
    && AllWellFormed(s.pending)
    && Distinct(s.archived + s.pending)
  }

  lemma DistinctPart<T>(a: seq<T>, b: seq<T>)
    requires Distinct(a + b)
    ensures Distinct(b)
    ensures forall x :: x in a ==> x !in b
  {
    forall i, j | 0 <= i < j < |b|
      ensures b[i] != b[j]
    {
      assert (a + b)[|a| + i] == b[i] && (a + b)[|a| + j] == b[j];
    }
    forall x | x in a
      ensures x !in b
    {
      var i :| 0 <= i < |a| && a[i] == x;
      forall j | 0 <= j < |b|
        ensures b[j] != x
      {
        assert (a + b)[i] == a[i] && (a + b)[|a| + j] == b[j];
      }
    }
  }

  lemma {:induction false} WithoutAbsent(name: string, names: seq<string>)
    requires name !in names
    ensures Without(name, names) == names
  {
    if names != [] {
      WithoutAbsent(name, names[1..]);
    }
  }

  /** The base names of a batch are a prefix of the pending files. */
  lemma BatchIsPrefix(s: Server, r: Round, m: int)
    requires s.pending != [] && m >= 1 && ReadyNames(r.entries) == s.pending
    requires AllWellFormed(s.pending) && Distinct(s.pending)
    ensures Base(Request(s)) == s.pending[0] && NamesAFile(Request(s))
    ensures BatchNames(r.entries, Request(s), m) == Prefix(s.pending, m)
  {
    hide Base, Join, HasSuffix, ReadyNames, Others, WellFormed, NamesAFile;
    var head := s.pending[0];
    WellFormedIsPlain(head);
    BaseOfJoin("pg_wal", head);
    OthersOfGrammar(Request(s), s.pending);
    assert head !in s.pending[1..];
    WithoutAbsent(head, s.pending[1..]);
    assert Without(head, s.pending) == s.pending[1..];
    assert s.pending == [head] + s.pending[1..];
  }

  function SetOf(names: seq<string>): set<string> {
    set n | n in names
  }

  lemma SetOfNone()
    ensures SetOf([]) == {}
  {
  }

  lemma SetOfAppend(names: seq<string>, name: string)
    ensures SetOf(names + [name]) == SetOf(names) + {name}
  {
  }

  /** All uploads of the batch work, and the files have these base names. */
  predicate Clean(batch: Batch, names: seq<string>) {
    && batch.Valid()
    && |batch.walNames| == |names|
    && (forall i :: 0 <= i < |names| ==> batch.Name(i) == names[i])
    && (forall i :: 0 <= i < |names| ==> batch.outcomes[i] == Outcome(PushSucceeds, true))
  }

  lemma CleanPush(batch: Batch, names: seq<string>, i: nat)
    requires Clean(batch, names) && i < |names|
    ensures PushOf(batch, true, Finished, i) == multiset{names[i]}
  {
    hide Base;
    assert batch.Name(i) == names[i];
  }

  lemma CleanShape(batch: Batch, names: seq<string>)
    requires Clean(batch, names)
    ensures batch.Valid() && |batch.walNames| == |names|
  {
  }

  lemma {:induction false} CleanPushes(batch: Batch, names: seq<string>, n: nat)
    requires Clean(batch, names) && n <= |names|
    ensures PushedBy(batch, true, AllDone(|names|), n) == multiset(names[..n])
  {
    hide Base, PushOf, Clean, WellFormed;
    CleanShape(batch, names);
    if n == 0 {
      assert names[..n] == [];
    } else {
      CleanPushes(batch, names, n - 1);
      assert names[..n] == names[..n - 1] + [names[n - 1]];
      CleanPush(batch, names, n - 1);
    }
  }

  lemma {:induction false} CleanMarks(batch: Batch, names: seq<string>, n: nat)
    requires Clean(batch, names) && 0 < n <= |names|
    ensures MarkedBy(batch, true, AllDone(|names|), n) == SetOf(names[1..n])
  {
    hide Base, SetOf;
    SetOfNone();
    if n == 1 {
      assert MarkedBy(batch, true, AllDone(|names|), 0) == {};
      assert names[1..1] == [];
    } else {
      CleanMarks(batch, names, n - 1);
      assert names[1..n] == names[1..n - 1] + [names[n - 1]];
      SetOfAppend(names[1..n - 1], names[n - 1]);
      assert Marks(batch, true, n - 1);
    }
  }

  /** What a batch in which everything works pushes and marks. */
  lemma CleanBatch(batch: Batch, names: seq<string>, s: Store)
    requires Clean(batch, names) && names != [] && s.stanza
    ensures BatchStore(batch, s).pushed == s.pushed + multiset(names)
    ensures BatchStore(batch, s).spool.Keys == s.spool.Keys + SetOf(names[1..])
    ensures BatchStore(batch, s).stanza
  {
    CleanPushes(batch, names, |names|);
    CleanMarks(batch, names, |names|);
    assert |batch.walNames| == |names|;
    hide Base, SetOf, Clean, PushedBy, MarkedBy;
    assert names[..|names|] == names && names[1..|names|] == names[1..];
  }

  lemma RoundBatch(s: Server, r: Round)
    requires s.pending != [] && ReadyNames(r.entries) == s.pending
    requires AllWellFormed(s.pending) && Distinct(s.pending)
    ensures Clean(CallBatch(RoundEnv(r), Request(s)), Prefix(s.pending, MaxParallel(r.parallel)))
  {
    hide *;
    var m := MaxParallel(r.parallel);
    BatchIsPrefix(s, r, m);
    RoundBatchShape(s, r);
    var batch := CallBatch(RoundEnv(r), Request(s));
    var names := Prefix(s.pending, m);
    forall i | 0 <= i < |names|
      ensures batch.Name(i) == names[i]
    {
      PrefixMember(s.pending, m, i);
      WellFormedMember(s.pending, names[i]);
      NameOfJoin(batch, r.pgWalDirectory, names[i], i);
    }
    IsClean(batch, names);
  }

  lemma RoundBatchShape(s: Server, r: Round)
    requires s.pending != []
    ensures
      var batch := CallBatch(RoundEnv(r), Request(s));
      var names := BatchNames(r.entries, Request(s), MaxParallel(r.parallel));
      && batch.Valid() && |batch.walNames| == |names|
      && (forall i :: 0 <= i < |names| ==> batch.walNames[i] == Join(r.pgWalDirectory, names[i]))
      && (forall i :: 0 <= i < |names| ==> batch.outcomes[i] == Outcome(PushSucceeds, true))
  {
    hide BatchNames, Join, Request;
    assert Listing(RoundEnv(r).status) == r.entries;
  }

  lemma PrefixMember(names: seq<string>, m: int, i: nat)
    requires i < |Prefix(names, m)|
    ensures Prefix(names, m)[i] in names
  {
  }

  lemma WellFormedMember(names: seq<string>, name: string)
    requires AllWellFormed(names) && name in names
    ensures Plain(name)
  {
    hide WellFormed;
    WellFormedIsPlain(name);
  }

  lemma NameOfJoin(batch: Batch, dir: string, name: string, i: nat)
    requires batch.Valid() && i < |batch.walNames| && batch.walNames[i] == Join(dir, name) && Plain(name)
    ensures batch.Name(i) == name
  {
    hide Base, Join;
    BaseOfJoin(dir, name);
  }

  lemma IsClean(batch: Batch, names: seq<string>)
    requires batch.Valid() && |batch.walNames| == |names|
    requires forall i :: 0 <= i < |names| ==> batch.Name(i) == names[i]
    requires forall i :: 0 <= i < |names| ==> batch.outcomes[i] == Outcome(PushSucceeds, true)
    ensures Clean(batch, names)
  {
  }

  lemma StanzaOnly(p: Policy, s: Store, env: CallEnv)
    ensures StanzaPrepared(p, s, env).pushed == s.pushed && StanzaPrepared(p, s, env).spool == s.spool
  {
  }

  lemma UploadRoundFacts(s: Server, r: Round)
    requires Ahead(s, 0) && Fits(s, r)
    ensures s.pending != [] && ReadyNames(r.entries) == s.pending
    ensures AllWellFormed(s.pending) && Distinct(s.pending)
    ensures s.store.spool.Keys == {} && s.store.pushed == multiset(s.archived)
    ensures FailureFree(RoundEnv(r))
    ensures Prefix(s.pending, MaxParallel(r.parallel)) != []
  {
    hide ReadyNames, WellFormed;
    DistinctPart(s.archived, s.pending);
    assert s.pending[..0] == [];
  }

  /** With an empty spool, a round uploads a prefix of the pending files and leaves markers for all but the first. */
  lemma UploadRound(p: Policy, s: Server, r: Round)
    requires Ahead(s, 0) && Fits(s, r) && (s.store.stanza || p == OnFirstArchive)
    ensures s.pending != []
    ensures
      var result := ArchiveCall(p, s.store, Request(s), RoundEnv(r));
      var names := Prefix(s.pending, MaxParallel(r.parallel));
      && names != []
      && result.err.None?
      && result.store.stanza
      && result.store.spool.Keys == SetOf(names[1..])
      && result.store.pushed == multiset(s.archived) + multiset(names)
  {
    hide *;
    UploadRoundFacts(s, r);
    BatchIsPrefix(s, r, 1);
    RoundBatch(s, r);
    var env := RoundEnv(r);
    var names := Prefix(s.pending, MaxParallel(r.parallel));
    FailureFreeCallSucceeds(p, s.store, Request(s), env);
    FailureFreeUpload(p, s.store, Request(s), env);
    StanzaOnly(p, s.store, env);
    CleanBatch(CallBatch(env, Request(s)), names, StanzaPrepared(p, s.store, env));
  }

  /** With a marker for the first pending file, a round only takes the marker away. */
  lemma MarkerRound(p: Policy, s: Server, r: Round, k: nat)
    requires Ahead(s, k) && k > 0 && Fits(s, r)
    ensures
      var result := ArchiveCall(p, s.store, Request(s), RoundEnv(r));
      && result.err.None?
      && result.store == s.store.(spool := s.store.spool - {s.pending[0]})
  {
    DistinctPart(s.archived, s.pending);
    BatchIsPrefix(s, r, 1);
    hide Base, Join, ReadyNames, BatchNames, WellFormed, UploadStage;
    assert s.pending[..k][0] == s.pending[0];
    assert s.pending[0] in s.store.spool;
  }

  /** After a success, the pending and archived files are still well formed and distinct. */
  lemma ListsAdvance(s: Server, r: Round)
    requires Fits(s, r) && AllWellFormed(s.pending)
    ensures AllWellFormed(s.pending[1..] + r.arrivals)
    ensures Distinct((s.archived + [s.pending[0]]) + (s.pending[1..] + r.arrivals))
  {
    hide ReadyNames, WellFormed;
    assert s.archived + (s.pending + r.arrivals) == (s.archived + [s.pending[0]]) + (s.pending[1..] + r.arrivals);
  }

  lemma PrefixSplit(s: seq<string>, k: nat)
    requires 0 < k <= |s|
    ensures multiset(s[..k]) == multiset{s[0]} + multiset(s[1..k])
    ensures SetOf(s[..k]) == SetOf(s[1..k]) + {s[0]}
    ensures Distinct(s) ==> s[0] !in SetOf(s[1..k])
  {
    assert s[..k] == [s[0]] + s[1..k];
  }

  lemma UploadKeepsAhead(p: Policy, s: Server, r: Round) returns (k': nat)
    requires Ahead(s, 0) && Fits(s, r) && (s.store.stanza || p == OnFirstArchive)
    ensures Ahead(After(p, s, r), k')
    ensures After(p, s, r).store.stanza
    ensures After(p, s, r).archived == s.archived + [s.pending[0]]
  {
    hide *;
    UploadRoundFacts(s, r);
    ListsAdvance(s, r);
    UploadRound(p, s, r);
    AfterSuccess(p, s, r);
    var s' := After(p, s, r);
    var names := Prefix(s.pending, MaxParallel(r.parallel));
    k' := |names| - 1;
    PrefixIsSlice(s.pending, MaxParallel(r.parallel));
    PrefixSplit(s.pending, k' + 1);
    TailSlice(s.pending, r.arrivals, k' + 1);
    IsAhead(s', k', names, s.pending[0], s.archived);
  }

  lemma AfterSuccess(p: Policy, s: Server, r: Round)
    requires s.pending != [] && ArchiveCall(p, s.store, Request(s), RoundEnv(r)).err.None?
    ensures After(p, s, r) ==
      Server(ArchiveCall(p, s.store, Request(s), RoundEnv(r)).store,
             s.pending[1..] + r.arrivals, s.archived + [s.pending[0]])
  {
    hide ArchiveCall, Request, RoundEnv;
  }

  /** The head of a pushed prefix has been archived, and the rest of it is marked. */
  lemma IsAhead(s: Server, k: nat, names: seq<string>, head: string, archived: seq<string>)
    requires k <= |s.pending| && AllWellFormed(s.pending) && Distinct(s.archived + s.pending)
    requires s.store.spool.Keys == SetOf(s.pending[..k])
    requires multiset(names) == multiset{head} + multiset(s.pending[..k])
    requires s.store.pushed == multiset(archived) + multiset(names) && s.archived == archived + [head]
    ensures Ahead(s, k)
  {
    hide AllWellFormed, Distinct, SetOf;
  }

  lemma PrefixIsSlice(s: seq<string>, m: int)
    requires s != [] && m >= 1
    ensures
      var names := Prefix(s, m);
      0 < |names| <= |s| && names == s[..|names|] && names[1..] == s[1..|names|]
  {
  }

  lemma TailSlice(s: seq<string>, arrivals: seq<string>, k: nat)
    requires 0 < k <= |s|
    ensures (s[1..] + arrivals)[..k - 1] == s[1..k]
  {
  }

  lemma MarkerKeepsAhead(p: Policy, s: Server, r: Round, k: nat)
    requires Ahead(s, k) && k > 0 && Fits(s, r)
    ensures Ahead(After(p, s, r), k - 1)
    ensures After(p, s, r).store.stanza == s.store.stanza
    ensures After(p, s, r).archived == s.archived + [s.pending[0]]
  {
    hide ReadyNames, WellFormed, AllWellFormed, ArchiveCall, Request, Distinct, SetOf;
    ListsAdvance(s, r);
    DistinctPart(s.archived, s.pending);
    MarkerRound(p, s, r, k);
    var s' := After(p, s, r);
    PrefixSplit(s.pending, k);
    assert s'.pending[..k - 1] == s.pending[1..k];
    assert s'.store.spool.Keys == SetOf(s.pending[1..k]);
    assert multiset(s'.archived) == multiset(s.archived) + multiset{s.pending[0]};
  }

  /** A round keeps the spool a prefix of the pending files. */
  lemma RoundKeepsAhead(p: Policy, s: Server, r: Round, k: nat) returns (k': nat)
    requires Ahead(s, k) && Fits(s, r) && (s.store.stanza || p == OnFirstArchive)
    ensures Ahead(After(p, s, r), k')
    ensures After(p, s, r).store.stanza || p == OnFirstArchive
    ensures After(p, s, r).archived == s.archived + [s.pending[0]]
  {
    hide Ahead, After;
    if k == 0 {
      k' := UploadKeepsAhead(p, s, r);
    } else {
      MarkerKeepsAhead(p, s, r, k);
      k' := k - 1;
    }
  }

  function RunRounds(p: Policy, s: Server, rounds: seq<Round>): Server
    decreases |rounds|
  {
    if rounds == [] then s
    else if s.pending == [] then RunRounds(p, s, rounds[1..])
    else RunRounds(p, After(p, s, rounds[0]), rounds[1..])
  }

  predicate AllFit(p: Policy, s: Server, rounds: seq<Round>)
    decreases |rounds|
  {
    rounds == [] || (Fits(s, rounds[0]) && AllFit(p, After(p, s, rounds[0]), rounds[1..]))
  }

  lemma {:induction false} RunKeepsAhead(p: Policy, s: Server, rounds: seq<Round>, k: nat) returns (k': nat)
    requires Ahead(s, k) && AllFit(p, s, rounds)
    requires s.store.stanza || p == OnFirstArchive
    ensures Ahead(RunRounds(p, s, rounds), k')
    ensures |RunRounds(p, s, rounds).archived| == |s.archived| + |rounds|
    decreases |rounds|
  {
    assert rounds != [] ==> Fits(s, rounds[0]) && s.pending != [];
    hide Ahead, Fits, After;
    if rounds == [] {
      k' := k;
    } else {
      k' := RoundKeepsAhead(p, s, rounds[0], k);
      k' := RunKeepsAhead(p, After(p, s, rounds[0]), rounds[1..], k');
    }
  }

  lemma {:induction false} DistinctCount<T>(s: seq<T>, x: T)
    requires Distinct(s) && x in s
    ensures multiset(s)[x] == 1
  {
    var i :| 0 <= i < |s| && s[i] == x;
    assert s == s[..i] + [x] + s[i + 1..];
  }

  lemma AheadMeansOnce(s: Server, k: nat)
    requires Ahead(s, k)
    ensures forall w :: w in s.archived ==> s.store.pushed[w] == 1 && w !in s.store.spool
    ensures forall w :: w in s.store.spool ==> s.store.pushed[w] == 1 && w in s.pending
    ensures forall w :: w in s.store.pushed ==> w in s.archived || w in s.store.spool
  {
    hide WellFormed;
    var spooled := s.pending[..k];
    var held := s.archived + spooled;
    assert s.archived + s.pending == held + s.pending[k..];
    DistinctHead(held, s.pending[k..]);
    DistinctPart(s.archived, spooled);
    hide Distinct;
    assert s.store.pushed == multiset(held);
    forall w | w in held
      ensures s.store.pushed[w] == 1
    {
      DistinctCount(held, w);
    }
  }

  /**
   * From an empty repository and an empty spool, every round succeeds, every file
   * archived so far has been pushed exactly once, and beyond those only the
   * markers in the spool stand for pushes.
   */
  lemma PushedExactlyOnce(p: Policy, stanza: bool, checkEmpty: bool, ready: seq<string>, rounds: seq<Round>)
    requires stanza || p == OnFirstArchive
    requires AllWellFormed(ready) && Distinct(ready)
    requires AllFit(p, Server(Store(multiset{}, map[], stanza, checkEmpty), ready, []), rounds)
    ensures
      var s := RunRounds(p, Server(Store(multiset{}, map[], stanza, checkEmpty), ready, []), rounds);
      && |s.archived| == |rounds|
      && (forall w :: w in s.archived ==> s.store.pushed[w] == 1 && w !in s.store.spool)
      && (forall w :: w in s.store.spool ==> s.store.pushed[w] == 1 && w in s.pending)
      && (forall w :: w in s.store.pushed ==> w in s.archived || w in s.store.spool)
  {
    hide RunRounds, AllFit, AllWellFormed, Distinct;
    var s0 := Server(Store(multiset{}, map[], stanza, checkEmpty), ready, []);
    assert s0.archived + s0.pending == ready;
    assert s0.pending[..0] == [];
    assert Ahead(s0, 0);
    var k := RunKeepsAhead(p, s0, rounds, 0);
    hide Ahead;
    AheadMeansOnce(RunRounds(p, s0, rounds), k);
  }

  lemma DistinctHead<T>(a: seq<T>, b: seq<T>)
    requires Distinct(a + b)
    ensures Distinct(a)
  {
    forall i, j | 0 <= i < j < |a|
      ensures a[i] != a[j]
    {
      assert (a + b)[i] == a[i] && (a + b)[j] == a[j];
    }
  }
}

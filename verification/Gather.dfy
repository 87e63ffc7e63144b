/** The batch of WAL files to archive (internal/pgbackrest/archiver/command.go). */
module Gather {
  import opened Wrappers
  import opened Paths
  import opened Hex
  import opened WalSegment

  /** An entry of the archive_status directory. */
  datatype DirEntry = File(name: string) | Directory(name: string)

  predicate IsReady(e: DirEntry) {
    e.File? && HasSuffix(e.name, ".ready")
  }

  function WalOf(e: DirEntry): string {
    TrimSuffix(e.name, ".ready")
  }

  /** The names that are ready, in the order of the directory walk. */
  function ReadyNames(entries: seq<DirEntry>): seq<string> {
    if entries == [] then []
    else (if IsReady(entries[0]) then [WalOf(entries[0])] else []) + ReadyNames(entries[1..])
  }

  /** The names that are kept beside the requested file. */
  function Others(requested: string, names: seq<string>): (r: seq<string>)
    ensures |r| <= |names|
  {
    if names == [] then []
    else (if HasSuffix(requested, names[0]) then [] else [names[0]]) + Others(requested, names[1..])
  }

  function Prefix<T>(s: seq<T>, n: int): seq<T> {
    if n <= 0 then [] else if n < |s| then s[..n] else s
  }

  /** The base names of the batch; the requested file comes first. */
  function BatchNames(entries: seq<DirEntry>, requested: string, parallel: int): seq<string> {
    [Base(requested)] + Prefix(Others(requested, ReadyNames(entries)), parallel - 1)
  }

  function JoinAll(dir: string, names: seq<string>): seq<string> {
    seq(|names|, i requires 0 <= i < |names| => Join(dir, names[i]))
  }

  /** No listing at all when the directory cannot be read. */
  function Listing(status: Option<seq<DirEntry>>): seq<DirEntry> {
    if status.Some? then status.value else []
  }

  lemma {:induction false} ReadyNamesConcat(a: seq<DirEntry>, b: seq<DirEntry>)
    ensures ReadyNames(a + b) == ReadyNames(a) + ReadyNames(b)
  {
    hide IsReady, WalOf;
    if a == [] {
      assert a + b == b;
    } else {
      assert (a + b)[1..] == a[1..] + b;
      ReadyNamesConcat(a[1..], b);
    }
  }

  lemma {:induction false} OthersConcat(requested: string, a: seq<string>, b: seq<string>)
    ensures Others(requested, a + b) == Others(requested, a) + Others(requested, b)
  {
    if a == [] {
      assert a + b == b;
    } else {
      assert (a + b)[1..] == a[1..] + b;
      OthersConcat(requested, a[1..], b);
    }
  }

  lemma JoinAllAppend(dir: string, names: seq<string>, name: string)
    ensures JoinAll(dir, names + [name]) == JoinAll(dir, names) + [Join(dir, name)]
  {
    hide Join;
  }

  method GatherWALFilesToArchive(status: Option<seq<DirEntry>>, pgWalDirectory: string, requestedWALFile: string,
                                 parallel: int)
    returns (walList: seq<string>)
    ensures walList == JoinAll(pgWalDirectory, BatchNames(Listing(status), requestedWALFile, parallel))
    ensures 1 <= |walList| <= (if parallel > 1 then parallel else 1)
    ensures walList[0] == pgWalDirectory + "/" + Base(requestedWALFile)
    ensures forall i :: 0 < i < |walList| ==> IsReadyPath(status, pgWalDirectory, walList[i])
  {
    BatchPaths(status, pgWalDirectory, requestedWALFile, parallel);
    hide Base, Join, HasSuffix, TrimSuffix, Others, ReadyNames;
    var entries := if status.Some? then status.value else [];
    walList := [Join(pgWalDirectory, Base(requestedWALFile))];
    ghost var names: seq<string> := [];
    assert walList == JoinAll(pgWalDirectory, [Base(requestedWALFile)] + names);
    hide JoinAll;
    var i := 0;
    NothingGathered(requestedWALFile, entries);
    while i < |entries| && |walList| < parallel
      invariant 0 <= i <= |entries|
      invariant names == Others(requestedWALFile, ReadyNames(entries[..i]))
      invariant walList == JoinAll(pgWalDirectory, [Base(requestedWALFile)] + names)
      invariant |walList| == 1 + |names|
      invariant |walList| <= parallel || names == []
    {
      var e := entries[i];
      ReadyStep(requestedWALFile, entries, i);
      if e.File? && HasSuffix(e.name, ".ready") {
        var walFileName := TrimSuffix(e.name, ".ready");
        if !HasSuffix(requestedWALFile, walFileName) {
          JoinAllAppend(pgWalDirectory, [Base(requestedWALFile)] + names, walFileName);
          assert [Base(requestedWALFile)] + names + [walFileName] == [Base(requestedWALFile)] + (names + [walFileName]);
          walList := walList + [Join(pgWalDirectory, walFileName)];
          names := names + [walFileName];
        }
      }
      i := i + 1;
    }
    GatheredIsPrefix(requestedWALFile, entries, i);
    assert names == Prefix(Others(requestedWALFile, ReadyNames(entries)), parallel - 1);
  }

  // ----- Ready files -----

  lemma ReadyOf(e: DirEntry, name: string)
    ensures IsReady(e) && WalOf(e) == name <==> e == File(name + ".ready")
  {
    if e.File? && HasSuffix(e.name, ".ready") {
      assert e.name == e.name[..|e.name| - 6] + ".ready";
    }
    assert (name + ".ready")[|name|..] == ".ready" && (name + ".ready")[..|name|] == name;
  }

  /** A WAL is ready exactly when the directory has a file with its name and the suffix. */
  lemma {:induction false} ReadyExactly(entries: seq<DirEntry>, name: string)
    ensures name in ReadyNames(entries) <==> File(name + ".ready") in entries
  {
    if entries != [] {
      hide IsReady, WalOf;
      ReadyExactly(entries[1..], name);
      ReadyOf(entries[0], name);
      assert entries == [entries[0]] + entries[1..];
    }
  }

  /**
   * A listing with the files of some WALs at some places, and directories and other files at all the others, makes
   * exactly these WALs ready, in their order.
   */
  lemma {:induction false} ReadyInOrder(entries: seq<DirEntry>, names: seq<string>, places: seq<nat>)
    requires |places| == |names|
    requires forall i, j :: 0 <= i < j < |places| ==> places[i] < places[j]
    requires forall i :: 0 <= i < |places| ==> places[i] < |entries| && entries[places[i]] == File(names[i] + ".ready")
    requires forall k :: 0 <= k < |entries| && k !in places ==>
      entries[k].Directory? || !HasSuffix(entries[k].name, ".ready")
    ensures ReadyNames(entries) == names
  {
    hide HasSuffix, WalOf, IsReady, ReadyNames;
    if entries == [] {
      NothingReady();
      NoPlaces(places, |entries|);
    } else {
      var n, last := |entries| - 1, |places| - 1;
      LastEntry(entries[..n], entries[n]);
      assert entries == entries[..n] + [entries[n]];
      if places != [] && places[last] == n {
        ReadyOf(entries[n], names[last]);
        ReadyInOrder(entries[..n], names[..last], places[..last]);
        assert names == names[..last] + [names[last]];
      } else {
        LastBelow(places, n);
        NotReady(entries[n]);
        ReadyInOrder(entries[..n], names, places);
      }
    }
  }

  lemma NoPlaces(places: seq<nat>, n: nat)
    requires forall i :: 0 <= i < |places| ==> places[i] < n
    ensures n == 0 ==> places == []
  {
    if places != [] {
      assert places[0] < n;
    }
  }

  lemma NothingReady()
    ensures ReadyNames([]) == []
  {
  }

  lemma LastEntry(entries: seq<DirEntry>, e: DirEntry)
    ensures ReadyNames(entries + [e]) == if IsReady(e) then ReadyNames(entries) + [WalOf(e)] else ReadyNames(entries)
  {
    hide *;
    ReadyNamesConcat(entries, [e]);
    OneEntry(e);
    if !IsReady(e) {
      assert ReadyNames(entries) + [] == ReadyNames(entries);
    }
  }

  lemma OneEntry(e: DirEntry)
    ensures ReadyNames([e]) == if IsReady(e) then [WalOf(e)] else []
  {
    hide IsReady, WalOf;
    assert [e][1..] == [];
  }

  lemma NotReady(e: DirEntry)
    requires e.Directory? || !HasSuffix(e.name, ".ready")
    ensures !IsReady(e)
  {
  }

  lemma LastBelow(places: seq<nat>, n: nat)
    requires forall i, j :: 0 <= i < j < |places| ==> places[i] < places[j]
    requires forall i :: 0 <= i < |places| ==> places[i] <= n
    requires places != [] ==> places[|places| - 1] != n
    ensures n !in places && forall i :: 0 <= i < |places| ==> places[i] < n
  {
  }

  lemma {:induction false} OthersAreAmong(requested: string, names: seq<string>)
    ensures forall n :: n in Others(requested, names) ==> n in names
  {
    if names != [] {
      OthersAreAmong(requested, names[1..]);
    }
  }

  ghost predicate IsReadyPath(status: Option<seq<DirEntry>>, dir: string, path: string) {
    exists n :: path == dir + "/" + n && status.Some? && File(n + ".ready") in status.value
  }

  /** The requested file comes first, under the WAL directory, and every other file of the batch is there and ready. */
  lemma BatchPaths(status: Option<seq<DirEntry>>, dir: string, requested: string, parallel: int)
    ensures
      var walList := JoinAll(dir, BatchNames(Listing(status), requested, parallel));
      && 1 <= |walList| <= (if parallel > 1 then parallel else 1)
      && walList[0] == dir + "/" + Base(requested)
      && forall i :: 0 < i < |walList| ==> IsReadyPath(status, dir, walList[i])
  {
    hide Base, Others, ReadyNames;
    var entries := Listing(status);
    var names := BatchNames(entries, requested, parallel);
    var walList := JoinAll(dir, names);
    OthersAreAmong(requested, ReadyNames(entries));
    forall i | 0 < i < |walList|
      ensures IsReadyPath(status, dir, walList[i])
    {
      var tail := Prefix(Others(requested, ReadyNames(entries)), parallel - 1);
      assert names[i] == tail[i - 1] && tail[i - 1] in Others(requested, ReadyNames(entries));
      ReadyExactly(entries, names[i]);
      assert status.Some?;
      assert walList[i] == dir + "/" + names[i] && File(names[i] + ".ready") in status.value;
    }
  }

  lemma NothingGathered(requested: string, entries: seq<DirEntry>)
    ensures Others(requested, ReadyNames(entries[..0])) == []
  {
  }

  lemma GatheredIsPrefix(requested: string, entries: seq<DirEntry>, i: nat)
    requires i <= |entries|
    ensures
      var all, some := Others(requested, ReadyNames(entries)), Others(requested, ReadyNames(entries[..i]));
      |some| <= |all| && all[..|some|] == some && (i == |entries| ==> all == some)
  {
    assert entries == entries[..i] + entries[i..];
    ReadyNamesConcat(entries[..i], entries[i..]);
    OthersConcat(requested, ReadyNames(entries[..i]), ReadyNames(entries[i..]));
    if i == |entries| {
      assert entries[..i] == entries;
    }
  }

  lemma ReadyStep(requested: string, entries: seq<DirEntry>, i: nat)
    requires i < |entries|
    ensures Others(requested, ReadyNames(entries[..i + 1])) ==
            Others(requested, ReadyNames(entries[..i])) +
            (if IsReady(entries[i]) && !HasSuffix(requested, WalOf(entries[i])) then [WalOf(entries[i])] else [])
  {
    hide HasSuffix, TrimSuffix;
    var e := [entries[i]];
    assert entries[..i + 1] == entries[..i] + e;
    ReadyNamesConcat(entries[..i], e);
    assert ReadyNames(e) == if IsReady(entries[i]) then [WalOf(entries[i])] else [];
    OthersConcat(requested, ReadyNames(entries[..i]), ReadyNames(e));
  }

  // ----- The suffix test compares base names -----

  /** The endings of the four kinds of names differ, so only equal names are suffixes of one another. */
  lemma WellFormedSuffix(a: string, b: string)
    requires WellFormed(a) && WellFormed(b) && HasSuffix(a, b)
    ensures a == b
  {
    KindOfName(a);
    KindOfName(b);
    assert a[|a| - 1] == b[|b| - 1];
    assert a[|a| - |b|..] == b;
  }

  /** Length and last character both tell the kind of name. */
  lemma KindOfName(a: string)
    requires WellFormed(a)
    ensures |a| in {16, 24, 32, 40}
    ensures |a| == 24 <==> IsHexDigit(a[|a| - 1])
    ensures |a| == 16 <==> a[|a| - 1] == 'y'
    ensures |a| == 32 <==> a[|a| - 1] == 'l'
    ensures |a| == 40 <==> a[|a| - 1] == 'p'
  {
    if |a| >= 24 && AllHex(a[8..24]) && SegmentTail(a[24..]) {
      var t := a[24..];
      if t == "" {
        assert a[23] == a[8..24][15];
      } else if t == ".partial" {
        assert a[|a| - 1] == t[7];
      } else {
        assert a[|a| - 1] == t[9..][6];
      }
    } else {
      var t := a[8..];
      assert t == ".history" && a[|a| - 1] == t[7];
    }
  }

  lemma WellFormedIsPlain(a: string)
    requires WellFormed(a)
    ensures Plain(a)
  {
    var head := a[..8];
    forall i | 0 <= i < |a|
      ensures a[i] != '/'
    {
      if i < 8 {
        assert a[i] == head[i];
      } else if |a| >= 24 && AllHex(a[8..24]) && SegmentTail(a[24..]) {
        if i < 24 {
          assert a[i] == a[8..24][i - 8];
        } else {
          var t := a[24..];
          assert a[i] == t[i - 24];
          if |t| == 16 && t != ".partial" {
            assert 1 <= i - 24 < 9 ==> t[i - 24] == t[1..9][i - 24 - 1];
            assert 9 <= i - 24 ==> t[i - 24] == t[9..][i - 24 - 9];
          }
        }
      } else {
        assert a[i] == a[8..][i - 8];
      }
    }
  }

  /** On well-formed names, the requested path ends in a ready name exactly when it names that file. */
  lemma SuffixTestIsEquality(requested: string, name: string)
    requires NamesAFile(requested) && WellFormed(Base(requested)) && WellFormed(name)
    ensures HasSuffix(requested, name) <==> Base(requested) == name
  {
    WellFormedIsPlain(name);
    SuffixStaysInBase(requested, name);
    if HasSuffix(requested, name) {
      WellFormedSuffix(Base(requested), name);
    } else if Base(requested) == name {
      BaseOfFile(requested);
    }
  }

  /** Outside the name grammar the test can skip a different file. */
  lemma SuffixTestNeedsGrammar()
    ensures HasSuffix("pg_wal/xA", "A") && Base("pg_wal/xA") != "A"
  {
    BaseOfJoin("pg_wal", "xA");
    assert Join("pg_wal", "xA") == "pg_wal/xA";
  }

  // ----- What a batch holds -----

  predicate Distinct<T(==)>(s: seq<T>) {
    forall i, j :: 0 <= i < j < |s| ==> s[i] != s[j]
  }

  function Without(name: string, names: seq<string>): seq<string> {
    if names == [] then []
    else (if names[0] == name then [] else [names[0]]) + Without(name, names[1..])
  }

  lemma {:induction false} OthersOfGrammar(requested: string, names: seq<string>)
    requires NamesAFile(requested) && WellFormed(Base(requested))
    requires forall n :: n in names ==> WellFormed(n)
    ensures Others(requested, names) == Without(Base(requested), names)
  {
    if names != [] {
      SuffixTestIsEquality(requested, names[0]);
      OthersOfGrammar(requested, names[1..]);
    }
  }

  lemma {:induction false} OthersAreNames(requested: string, names: seq<string>)
    requires NamesAFile(requested)
    ensures forall n :: n in Others(requested, names) ==> n in names && n != Base(requested)
  {
    hide Base, HasSuffix;
    if names != [] {
      OthersAreNames(requested, names[1..]);
      BaseOfFile(requested);
    }
  }

  lemma {:induction false} OthersDistinct(requested: string, names: seq<string>)
    requires NamesAFile(requested) && Distinct(names)
    ensures Distinct(Others(requested, names))
  {
    hide HasSuffix, Base;
    if names != [] {
      var rest := Others(requested, names[1..]);
      OthersDistinct(requested, names[1..]);
      OthersAreNames(requested, names[1..]);
      assert names[0] !in names[1..];
      assert names[0] !in rest;
    }
  }

  /**
   * The batch starts with the requested file, has at most max(1, parallel)
   * members, takes the others from the ready files, and repeats none.
   */
  lemma BatchProperties(entries: seq<DirEntry>, requested: string, parallel: int)
    requires NamesAFile(requested) && Distinct(ReadyNames(entries))
    ensures
      var batch := BatchNames(entries, requested, parallel);
      && 1 <= |batch| <= (if parallel > 1 then parallel else 1)
      && batch[0] == Base(requested)
      && Distinct(batch)
      && (forall n :: n in batch[1..] ==> n in ReadyNames(entries))
  {
    hide Base, HasSuffix, Others, ReadyNames;
    var others := Others(requested, ReadyNames(entries));
    OthersAreNames(requested, ReadyNames(entries));
    OthersDistinct(requested, ReadyNames(entries));
    var batch := BatchNames(entries, requested, parallel);
    var tail := Prefix(others, parallel - 1);
    assert batch[1..] == tail;
    assert forall n :: n in tail ==> n in others;
    assert Distinct(tail);
    assert batch[0] !in tail;
    forall i, j | 0 <= i < j < |batch|
      ensures batch[i] != batch[j]
    {
      assert batch[j] == tail[j - 1];
      if i > 0 {
        assert batch[i] == tail[i - 1];
      }
    }
  }

  lemma {:induction false} WithoutKeeps(name: string, names: seq<string>)
    ensures forall n :: n in names && n != name ==> n in Without(name, names)
  {
    if names != [] {
      WithoutKeeps(name, names[1..]);
      forall n | n in names && n != name
        ensures n in Without(name, names)
      {
        if n != names[0] {
          assert n in names[1..];
        }
      }
    }
  }

  /** No ready file is wrongly skipped: a batch below its limit holds them all. */
  lemma ShortBatchIsComplete(entries: seq<DirEntry>, requested: string, parallel: int)
    requires NamesAFile(requested) && WellFormed(Base(requested))
    requires forall n :: n in ReadyNames(entries) ==> WellFormed(n)
    ensures
      var batch := BatchNames(entries, requested, parallel);
      |batch| < parallel ==> forall n :: n in ReadyNames(entries) ==> n in batch
  {
    hide Base, HasSuffix, Others, ReadyNames, WellFormed;
    var names := ReadyNames(entries);
    OthersOfGrammar(requested, names);
    WithoutKeeps(Base(requested), names);
    var batch := BatchNames(entries, requested, parallel);
    if |batch| < parallel {
      assert batch[1..] == Others(requested, names);
      forall n | n in names
        ensures n in batch
      {
        if n == Base(requested) {
          assert batch[0] == n;
        } else {
          assert n in batch[1..];
        }
      }
    }
  }

  /**
   * Over the listing itself: with room left, a well-formed WAL other than the requested one is gathered if it is ready.
   */
  lemma BatchMembers(entries: seq<DirEntry>, requested: string, parallel: int, name: string)
    requires NamesAFile(requested) && WellFormed(Base(requested)) && WellFormed(name)
    requires forall n :: File(n + ".ready") in entries ==> WellFormed(n)
    ensures
      var batch := BatchNames(entries, requested, parallel);
      && (name in batch ==> name == Base(requested) || File(name + ".ready") in entries)
      && (|batch| < parallel ==> (name in batch <==> name == Base(requested) || File(name + ".ready") in entries))
  {
    hide Base, WellFormed, Others, ReadyNames, HasSuffix;
    var all := ReadyNames(entries);
    forall n
      ensures n in all <==> File(n + ".ready") in entries
    {
      ReadyExactly(entries, n);
    }
    OthersAreAmong(requested, all);
    assert forall n :: n in Prefix(Others(requested, all), parallel - 1) ==> n in Others(requested, all);
    if |BatchNames(entries, requested, parallel)| < parallel {
      ShortBatchIsComplete(entries, requested, parallel);
    }
  }
}

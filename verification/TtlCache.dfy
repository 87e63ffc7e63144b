/**
 * The Kubernetes client that caches secrets and archives for a short time
 * (internal/cnpgi/instance/internal/client/client.go).
 */
module TtlCache {
  import opened Wrappers
  import opened Common

  const DEFAULT_TTL_SECONDS := 10

  const DEFAULT_TTL := DEFAULT_TTL_SECONDS * NANOS_PER_SECOND

  datatype Kind = Secret | Archive | Other

  datatype Key = Key(kind: Kind, namespace: string, name: string)

  /** An object carries its own key; the data stands for the rest. */
  datatype Object = Object(key: Key, data: int)

  /** The time of the fetch is kept in whole seconds. */
  datatype CachedEntry = CachedEntry(entry: Object, fetchUnixTime: int, ttl: int) {
    predicate IsExpired(now: int) {
      now - fetchUnixTime * NANOS_PER_SECOND > ttl
    }
  }

  datatype ApiError = ApiError

  predicate IsObjectCached(kind: Kind) {
    kind == Secret || kind == Archive
  }

  /** The first entry with the key, or -1. */
  function Lookup(cache: seq<CachedEntry>, key: Key): (i: int)
    ensures -1 <= i < |cache|
    ensures i >= 0 ==> cache[i].entry.key == key
    ensures forall k :: 0 <= k < (if i >= 0 then i else |cache|) ==> cache[k].entry.key != key
    decreases |cache|
  {
    if cache == [] then -1
    else
      var n := |cache| - 1;
      var i := Lookup(cache[..n], key);
      if i >= 0 then i else if cache[n].entry.key == key then n else -1
  }

  predicate Hit(cache: seq<CachedEntry>, key: Key, now: int) {
    var i := Lookup(cache, key);
    i >= 0 && !cache[i].IsExpired(now)
  }

  function Entry(o: Object, now: int): CachedEntry {
    CachedEntry(o, now / NANOS_PER_SECOND, DEFAULT_TTL)
  }

  /** An expired entry is replaced where it is; otherwise the object is appended. */
  function Stored(cache: seq<CachedEntry>, o: Object, now: int): seq<CachedEntry> {
    var i := Lookup(cache, o.key);
    if i >= 0 then cache[i := Entry(o, now)] else cache + [Entry(o, now)]
  }

  function RemovedFirst(cache: seq<CachedEntry>, key: Key): seq<CachedEntry> {
    var i := Lookup(cache, key);
    if i >= 0 then cache[..i] + cache[i + 1..] else cache
  }

  /** What a lookup answers, given what the base client would answer. */
  function AnswerOfGet(
    cache: seq<CachedEntry>, key: Key, now: int, base: Result<Object, ApiError>): Result<Object, ApiError>
  {
    if Hit(cache, key, now) then Ok(cache[Lookup(cache, key)].entry) else base
  }

  function CacheAfterGet(
    cache: seq<CachedEntry>, key: Key, now: int, base: Result<Object, ApiError>, stored: int): seq<CachedEntry>
  {
    if Hit(cache, key, now) || base.Err? then cache else Stored(cache, base.value, stored)
  }

  function CacheAfterWrite(cache: seq<CachedEntry>, key: Key): seq<CachedEntry> {
    if IsObjectCached(key.kind) then RemovedFirst(cache, key) else cache
  }

  predicate Unique(cache: seq<CachedEntry>) {
    forall i, j :: 0 <= i < j < |cache| ==> cache[i].entry.key != cache[j].entry.key
  }

  /** The base client, the time and the answers of one call are parameters. */
  class ExtendedClient {
    var cachedObjects: seq<CachedEntry>

    constructor ()
      ensures cachedObjects == []
    {
      cachedObjects := [];
    }

    /** `now` is the time of the lookup, `base` what the base client answers, and `stored` the time after that. */
    method GetCachedObject(key: Key, now: int, base: Result<Object, ApiError>, stored: int)
      returns (r: Result<Object, ApiError>)
      requires base.Ok? ==> base.value.key == key
      modifies this
      ensures r == AnswerOfGet(old(cachedObjects), key, now, base)
      ensures cachedObjects == CacheAfterGet(old(cachedObjects), key, now, base, stored)
    {
      var expiredObjectIndex := -1;
      var idx := 0;
      while idx < |cachedObjects|
        invariant 0 <= idx <= |cachedObjects|
        invariant cachedObjects == old(cachedObjects)
        invariant expiredObjectIndex == -1
        invariant forall k :: 0 <= k < idx ==> cachedObjects[k].entry.key != key
      {
        var cacheEntry := cachedObjects[idx];
        if cacheEntry.entry.key == key {
          if cacheEntry.IsExpired(now) {
            expiredObjectIndex := idx;
            break;
          }
          return Ok(cacheEntry.entry);
        }
        idx := idx + 1;
      }
      if base.Err? {
        return base;
      }
      var cs := CachedEntry(base.value, stored / NANOS_PER_SECOND, DEFAULT_TTL_SECONDS * NANOS_PER_SECOND);
      if expiredObjectIndex != -1 {
        cachedObjects := cachedObjects[expiredObjectIndex := cs];
      } else {
        cachedObjects := cachedObjects + [cs];
      }
      r := base;
    }

    /** Objects of other kinds always come from the base client. */
    method Get(key: Key, now: int, base: Result<Object, ApiError>, stored: int) returns (r: Result<Object, ApiError>)
      requires base.Ok? ==> base.value.key == key
      modifies this
      ensures key.kind.Other? ==> r == base && cachedObjects == old(cachedObjects)
      ensures key.kind.Secret? || key.kind.Archive? ==>
        && r == AnswerOfGet(old(cachedObjects), key, now, base)
        && cachedObjects == CacheAfterGet(old(cachedObjects), key, now, base, stored)
      ensures old(Unique(cachedObjects)) ==> Unique(cachedObjects)
    {
      if !IsObjectCached(key.kind) {
        return base;
      }
      r := GetCachedObject(key, now, base, stored);
      if base.Ok? && old(Unique(cachedObjects)) {
        StoredUnique(old(cachedObjects), base.value, stored);
      }
    }

    /** Removes the object from the cache, if it is there. */
    method RemoveObject(key: Key)
      modifies this
      ensures cachedObjects == RemovedFirst(old(cachedObjects), key)
    {
      var i := 0;
      while i < |cachedObjects|
        invariant 0 <= i <= |cachedObjects|
        invariant cachedObjects == old(cachedObjects)
        invariant forall k :: 0 <= k < i ==> cachedObjects[k].entry.key != key
      {
        if cachedObjects[i].entry.key == key {
          cachedObjects := cachedObjects[..i] + cachedObjects[i + 1..];
          return;
        }
        i := i + 1;
      }
    }

    /** Update, Delete and Patch: `base` is what the base client answers to the write that follows. */
    method Write(key: Key, base: Result<(), ApiError>) returns (r: Result<(), ApiError>)
      modifies this
      ensures r == base
      ensures cachedObjects == CacheAfterWrite(old(cachedObjects), key)
      ensures key.kind.Other? ==> cachedObjects == old(cachedObjects)
      ensures (key.kind.Secret? || key.kind.Archive?) && old(Unique(cachedObjects)) ==>
        forall e <- cachedObjects :: e.entry.key != key
      ensures old(Unique(cachedObjects)) ==> Unique(cachedObjects)
    {
      if IsObjectCached(key.kind) {
        if Unique(cachedObjects) {
          RemovalKeepsUnique(cachedObjects, key);
        }
        RemoveObject(key);
        assert old(Unique(cachedObjects)) ==>
          forall k :: 0 <= k < |cachedObjects| ==> cachedObjects[k].entry.key != key;
      }
      r := base;
    }
  }

  // ----- What a lookup and a write do, entry by entry -----

  /** The first entry with the key answers for ten seconds after the second of its insertion. */
  lemma LiveEntryAnswers(
    cache: seq<CachedEntry>, i: nat, key: Key, now: int, base: Result<Object, ApiError>, stored: int)
    requires i < |cache| && cache[i].entry.key == key && forall k :: 0 <= k < i ==> cache[k].entry.key != key
    requires now - cache[i].fetchUnixTime * 1_000_000_000 <= cache[i].ttl
    ensures AnswerOfGet(cache, key, now, base) == Ok(cache[i].entry)
    ensures CacheAfterGet(cache, key, now, base, stored) == cache
  {
    FirstIsLookup(cache, i, key);
  }

  /** An expired entry is replaced in its place by what the base client answers, if it answers with an object. */
  lemma ExpiredEntryIsReplaced(
    cache: seq<CachedEntry>, i: nat, key: Key, now: int, base: Result<Object, ApiError>, stored: int)
    requires i < |cache| && cache[i].entry.key == key && forall k :: 0 <= k < i ==> cache[k].entry.key != key
    requires now - cache[i].fetchUnixTime * 1_000_000_000 > cache[i].ttl
    requires base.Ok? ==> base.value.key == key
    ensures AnswerOfGet(cache, key, now, base) == base
    ensures CacheAfterGet(cache, key, now, base, stored) ==
      if base.Ok? then cache[i := CachedEntry(base.value, stored / 1_000_000_000, 10_000_000_000)] else cache
  {
    FirstIsLookup(cache, i, key);
  }

  /** Without an entry, the object is appended. */
  lemma NewEntryIsAppended(cache: seq<CachedEntry>, key: Key, now: int, base: Result<Object, ApiError>, stored: int)
    requires forall k :: 0 <= k < |cache| ==> cache[k].entry.key != key
    requires base.Ok? ==> base.value.key == key
    ensures AnswerOfGet(cache, key, now, base) == base
    ensures CacheAfterGet(cache, key, now, base, stored) ==
      if base.Ok? then cache + [CachedEntry(base.value, stored / 1_000_000_000, 10_000_000_000)] else cache
  {
  }

  lemma FirstIsLookup(cache: seq<CachedEntry>, i: nat, key: Key)
    requires i < |cache| && cache[i].entry.key == key && forall k :: 0 <= k < i ==> cache[k].entry.key != key
    ensures Lookup(cache, key) == i
  {
  }

  // ----- One entry per key, and removal touches no other -----

  lemma StoredUnique(cache: seq<CachedEntry>, o: Object, now: int)
    requires Unique(cache)
    ensures Unique(Stored(cache, o, now))
  {
  }

  lemma StoredLookup(cache: seq<CachedEntry>, o: Object, now: int, key: Key)
    requires Unique(cache)
    ensures
      var after := Stored(cache, o, now);
      && Lookup(after, o.key) >= 0 && after[Lookup(after, o.key)] == Entry(o, now)
      && (key != o.key ==> (Lookup(after, key) >= 0 <==> Lookup(cache, key) >= 0))
      && (key != o.key && Lookup(cache, key) >= 0 ==> after[Lookup(after, key)] == cache[Lookup(cache, key)])
  {
    var after := Stored(cache, o, now);
    StoredUnique(cache, o, now);
    var i := Lookup(cache, o.key);
    var at := if i >= 0 then i else |cache|;
    assert after[at] == Entry(o, now);
    LookupUnique(after, at);
    if key != o.key && Lookup(cache, key) >= 0 {
      assert after[Lookup(cache, key)] == cache[Lookup(cache, key)];
      LookupUnique(after, Lookup(cache, key));
    }
    if key != o.key && Lookup(after, key) >= 0 {
      assert after[Lookup(after, key)] == cache[Lookup(after, key)];
    }
  }

  lemma LookupUnique(cache: seq<CachedEntry>, i: nat)
    requires Unique(cache) && i < |cache|
    ensures Lookup(cache, cache[i].entry.key) == i
  {
  }

  /** The entries with other keys, in order. */
  function Others(cache: seq<CachedEntry>, key: Key): seq<CachedEntry> {
    if cache == [] then []
    else if cache[0].entry.key == key then Others(cache[1..], key)
    else [cache[0]] + Others(cache[1..], key)
  }

  lemma {:induction false} OthersConcat(a: seq<CachedEntry>, b: seq<CachedEntry>, key: Key)
    ensures Others(a + b, key) == Others(a, key) + Others(b, key)
  {
    if a == [] {
      assert a + b == b;
    } else {
      assert (a + b)[1..] == a[1..] + b;
      OthersConcat(a[1..], b, key);
    }
  }

  lemma {:induction false} OthersWithoutKey(a: seq<CachedEntry>, key: Key)
    requires forall k :: 0 <= k < |a| ==> a[k].entry.key != key
    ensures Others(a, key) == a
  {
    if a != [] {
      OthersWithoutKey(a[1..], key);
    }
  }

  lemma RemovalKeepsUnique(cache: seq<CachedEntry>, key: Key)
    requires Unique(cache)
    ensures Lookup(RemovedFirst(cache, key), key) < 0
    ensures Unique(RemovedFirst(cache, key))
  {
    var i := Lookup(cache, key);
    if i >= 0 {
      var after := RemovedFirst(cache, key);
      assert forall k :: 0 <= k < |after| ==> after[k] == cache[if k < i then k else k + 1];
    }
  }

  lemma {:induction false} OthersOfSplit(a: seq<CachedEntry>, e: CachedEntry, b: seq<CachedEntry>, key: Key)
    requires e.entry.key == key
    requires forall k :: 0 <= k < |a| ==> a[k].entry.key != key
    requires forall k :: 0 <= k < |b| ==> b[k].entry.key != key
    ensures Others(a + [e] + b, key) == a + b
  {
    OthersConcat(a + [e], b, key);
    OthersConcat(a, [e], key);
    OthersWithoutKey(a, key);
    OthersWithoutKey(b, key);
    assert Others([e], key) == [];
  }

  lemma KeysAfterDiffer(cache: seq<CachedEntry>, i: nat, b: seq<CachedEntry>)
    requires Unique(cache) && i < |cache| && b == cache[i + 1..]
    ensures forall k :: 0 <= k < |b| ==> b[k].entry.key != cache[i].entry.key
  {
    forall k | 0 <= k < |b|
      ensures b[k].entry.key != cache[i].entry.key
    {
      assert b[k] == cache[i + 1 + k];
    }
  }

  /** Where an entry is found, removal leaves what is before and after it. */
  lemma RemovedParts(cache: seq<CachedEntry>, key: Key)
    ensures
      var i := Lookup(cache, key);
      RemovedFirst(cache, key) == if i >= 0 then cache[..i] + cache[i + 1..] else cache
  {
    hide Lookup;
  }

  /** Removal deletes exactly that key, and keeps all other entries and their order. */
  lemma RemovalIsExact(cache: seq<CachedEntry>, key: Key)
    requires Unique(cache)
    ensures RemovedFirst(cache, key) == Others(cache, key)
  {
    hide *;
    var i := Lookup(cache, key);
    RemovedParts(cache, key);
    if i < 0 {
      OthersWithoutKey(cache, key);
    } else {
      var a, b := cache[..i], cache[i + 1..];
      KeysAfterDiffer(cache, i, b);
      OthersOfSplit(a, cache[i], b, key);
      assert cache == a + [cache[i]] + b;
    }
  }

  lemma RemovedLookup(cache: seq<CachedEntry>, removed: Key, key: Key)
    requires Unique(cache) && key != removed
    ensures
      var after := RemovedFirst(cache, removed);
      && (Lookup(after, key) >= 0 <==> Lookup(cache, key) >= 0)
      && (Lookup(cache, key) >= 0 ==> after[Lookup(after, key)] == cache[Lookup(cache, key)])
  {
    var after := RemovedFirst(cache, removed);
    RemovalKeepsUnique(cache, removed);
    var i := Lookup(cache, removed);
    if i >= 0 {
      var j := Lookup(cache, key);
      if j >= 0 {
        var j' := if j < i then j else j - 1;
        assert after[j'] == cache[j];
        LookupUnique(after, j');
      }
      var l := Lookup(after, key);
      if l >= 0 {
        var l' := if l < i then l else l + 1;
        assert after[l] == cache[l'];
        LookupUnique(cache, l');
      }
    }
  }
}

/**
 * Runs of the caching client against a cluster that changes.
 * Lookups hold the mutex from the scan to the insertion, over the call to the base client; removals need
 * the mutex too; writes to the cluster and the clock do not.
 */
module TtlRuns {
  import opened Wrappers
  import opened Common
  import opened TtlCache

  /** The lookup that holds the mutex: the index the scan left it, and what the base client has answered. */
  datatype Flight = Flight(key: Key, expired: int, read: Option<Object>)

  datatype State = State(cache: seq<CachedEntry>, base: map<Key, Object>, lock: Option<Flight>, now: int)

  datatype Action =
    | GetStart(key: Key)
    | GetRead
    | GetFailed
    | GetStore
    | Remove(key: Key)
    | Write(key: Key, written: Option<Object>)
    | Tick(nanos: nat)

  ghost predicate Init(s: State) {
    && s.cache == []
    && s.lock.None?
    && Answers(s.base)
  }

  /** The base client answers with the object that was asked for. */
  ghost predicate Answers(base: map<Key, Object>) {
    forall k <- base :: base[k].key == k
  }

  function Insert(cache: seq<CachedEntry>, at: int, o: Object, now: int): seq<CachedEntry> {
    if 0 <= at < |cache| then cache[at := Entry(o, now)] else cache + [Entry(o, now)]
  }

  /** An action that has to wait for the mutex, or for the answer of the base client, changes nothing. */
  function Step(s: State, a: Action): State {
    match a
    case GetStart(key) =>
      if s.lock.Some? || !IsObjectCached(key.kind) || Hit(s.cache, key, s.now) then s
      else s.(lock := Some(Flight(key, Lookup(s.cache, key), None)))
    case GetRead =>
      if s.lock.None? || s.lock.value.read.Some? then s
      else if s.lock.value.key in s.base then s.(lock := Some(s.lock.value.(read := Some(s.base[s.lock.value.key]))))
      else s.(lock := None)
    case GetFailed =>
      if s.lock.None? || s.lock.value.read.Some? then s else s.(lock := None)
    case GetStore =>
      if s.lock.None? || s.lock.value.read.None? then s
      else s.(cache := Insert(s.cache, s.lock.value.expired, s.lock.value.read.value, s.now), lock := None)
    case Remove(key) =>
      if s.lock.Some? then s else s.(cache := RemovedFirst(s.cache, key))
    case Write(key, written) =>
      if written.None? then s.(base := s.base - {key})
      else if written.value.key == key then s.(base := s.base[key := written.value])
      else s
    case Tick(nanos) => s.(now := s.now + nanos)
  }

  function StateAt(s: State, run: seq<Action>, n: nat): State
    requires n <= |run|
  {
    if n == 0 then s else Step(StateAt(s, run, n - 1), run[n - 1])
  }

  // ----- What every step keeps -----

  /** One entry per key, and the index a lookup remembers is still the place of its key. */
  ghost predicate Inv(s: State) {
    && Unique(s.cache)
    && Answers(s.base)
    && (s.lock.Some? ==>
      && s.lock.value.expired == Lookup(s.cache, s.lock.value.key)
      && (s.lock.value.read.Some? ==> s.lock.value.read.value.key == s.lock.value.key))
  }

  lemma StepKeepsInv(s: State, a: Action)
    requires Inv(s)
    ensures Inv(Step(s, a))
  {
    hide Entry, IsObjectCached, Hit;
    if a.GetStore? && s.lock.Some? && s.lock.value.read.Some? {
      StoredUnique(s.cache, s.lock.value.read.value, s.now);
    } else if a.Remove? {
      RemovalKeepsUnique(s.cache, a.key);
    }
  }

  lemma {:induction false} OneEntryPerKey(s: State, run: seq<Action>, n: nat)
    requires Init(s) && n <= |run|
    ensures Inv(StateAt(s, run, n))
  {
    if n > 0 {
      OneEntryPerKey(s, run, n - 1);
      StepKeepsInv(StateAt(s, run, n - 1), run[n - 1]);
    }
  }

  /** Only secrets and archives are ever in the cache, and only lookups of them hold the mutex. */
  ghost predicate OnlyCachedKinds(s: State) {
    && (forall k :: 0 <= k < |s.cache| ==> s.cache[k].entry.key.kind.Secret? || s.cache[k].entry.key.kind.Archive?)
    && (s.lock.Some? ==> s.lock.value.key.kind.Secret? || s.lock.value.key.kind.Archive?)
  }

  lemma StepKeepsKinds(s: State, a: Action)
    requires Inv(s) && OnlyCachedKinds(s)
    ensures OnlyCachedKinds(Step(s, a))
  {
    hide Lookup, Entry, Hit, Unique, Answers;
    if a.GetStore? && s.lock.Some? && s.lock.value.read.Some? {
      EntryKey(s.lock.value.read.value, s.now);
    }
  }

  lemma EntryKey(o: Object, now: int)
    ensures Entry(o, now).entry == o
  {
  }

  /** In every interleaving, no object of another kind is cached. */
  lemma {:induction false} OtherKindsAreNeverCached(s: State, run: seq<Action>, n: nat)
    requires Init(s) && n <= |run|
    ensures OnlyCachedKinds(StateAt(s, run, n))
  {
    if n == 0 {
      assert StateAt(s, run, 0) == s;
    } else {
      hide Step, OnlyCachedKinds, Inv;
      OtherKindsAreNeverCached(s, run, n - 1);
      OneEntryPerKey(s, run, n - 1);
      StepKeepsKinds(StateAt(s, run, n - 1), run[n - 1]);
    }
  }

  lemma StepClock(s: State, a: Action)
    ensures s.now <= Step(s, a).now
  {
  }

  lemma {:induction false} ClockNeverGoesBack(s: State, run: seq<Action>, m: nat, n: nat)
    requires m <= n <= |run|
    ensures StateAt(s, run, m).now <= StateAt(s, run, n).now
    decreases n - m
  {
    if m < n {
      hide Step;
      StepClock(StateAt(s, run, n - 1), run[n - 1]);
      ClockNeverGoesBack(s, run, m, n - 1);
    }
  }

  /** What the base client answers. */
  function BaseAnswer(s: State, key: Key): Result<Object, ApiError> {
    if key in s.base then Ok(s.base[key]) else Err(ApiError)
  }

  /** What an action answers to the caller of a lookup, if it ends the lookup. */
  function AnswerAt(s: State, a: Action): Option<Result<Object, ApiError>> {
    match a
    case GetStart(key) =>
      if s.lock.None? && IsObjectCached(key.kind) && Hit(s.cache, key, s.now) then
        Some(Ok(s.cache[Lookup(s.cache, key)].entry))
      else None
    case GetRead =>
      if s.lock.Some? && s.lock.value.read.None? && s.lock.value.key !in s.base then Some(Err(ApiError)) else None
    case GetFailed =>
      if s.lock.Some? && s.lock.value.read.None? then Some(Err(ApiError)) else None
    case GetStore =>
      if s.lock.Some? && s.lock.value.read.Some? then Some(Ok(s.lock.value.read.value)) else None
    case _ => None
  }

  predicate OnlyAnswer(answers: seq<Option<Result<Object, ApiError>>>, a: Result<Object, ApiError>) {
    exists i ::
      && 0 <= i < |answers| && answers[i] == Some(a)
      && forall j :: 0 <= j < |answers| && j != i ==> answers[j].None?
  }

  /** A lookup without interruptions leaves the cache and gives the answer of `ExtendedClient.GetCachedObject`. */
  lemma GetAlone(s: State, key: Key, wait: nat)
    requires Inv(s) && s.lock.None? && (key.kind.Secret? || key.kind.Archive?)
    ensures
      var started := Step(s, GetStart(key));
      var read := Step(started, GetRead);
      var waited := Step(read, Tick(wait));
      var after := Step(waited, GetStore);
      var answers := [AnswerAt(s, GetStart(key)), AnswerAt(started, GetRead), AnswerAt(waited, GetStore)];
      && after.lock.None? && after.base == s.base
      && after.cache == CacheAfterGet(s.cache, key, s.now, BaseAnswer(s, key), s.now + wait)
      && OnlyAnswer(answers, AnswerOfGet(s.cache, key, s.now, BaseAnswer(s, key)))
  {
    hide Lookup, Stored, Unique;
    var started := Step(s, GetStart(key));
    var read := Step(started, GetRead);
    var waited := Step(read, Tick(wait));
    var answers := [AnswerAt(s, GetStart(key)), AnswerAt(started, GetRead), AnswerAt(waited, GetStore)];
    if Hit(s.cache, key, s.now) {
      assert answers[0].Some?;
    } else if key !in s.base {
      assert answers[1].Some?;
    } else {
      InsertIsStored(s.cache, Lookup(s.cache, key), s.base[key], s.now + wait);
      assert answers[2].Some?;
    }
  }

  /** A removal and a write without interruptions are a call of `ExtendedClient.Write` and its effect on the cluster. */
  lemma WriteAlone(s: State, key: Key, written: Option<Object>)
    requires Inv(s) && s.lock.None? && (key.kind.Secret? || key.kind.Archive?)
    requires written.Some? ==> written.value.key == key
    ensures
      var after := Step(Step(s, Remove(key)), Write(key, written));
      && after.cache == CacheAfterWrite(s.cache, key)
      && after.base == (if written.Some? then s.base[key := written.value] else s.base - {key})
      && after.lock.None? && after.now == s.now
  {
  }

  // ----- The cache holds the last insertion -----

  /** The entry that the running lookup would insert now. */
  function Pending(s: State): Option<CachedEntry> {
    if s.lock.Some? && s.lock.value.read.Some? then Some(Entry(s.lock.value.read.value, s.now)) else None
  }

  /** At step m, a lookup of the key inserts what the base client answered. */
  predicate StoresAt(s: State, run: seq<Action>, m: nat, key: Key)
    requires m < |run|
  {
    var before := StateAt(s, run, m);
    run[m].GetStore? && Pending(before).Some? && before.lock.value.key == key
  }

  /** At step t, the key is removed from the cache. */
  predicate RemovesAt(s: State, run: seq<Action>, t: nat, key: Key)
    requires t < |run|
  {
    run[t] == Remove(key) && StateAt(s, run, t).lock.None?
  }

  /** Step m inserts the key, and nothing between m and n inserts or removes it. */
  ghost predicate LastStore(s: State, run: seq<Action>, m: nat, n: nat, key: Key)
    requires n <= |run|
  {
    && m < n
    && StoresAt(s, run, m, key)
    && forall t :: m < t < n ==> !StoresAt(s, run, t, key) && !RemovesAt(s, run, t, key)
  }

  function InCache(s: State, key: Key): Option<CachedEntry> {
    var i := Lookup(s.cache, key);
    if i >= 0 then Some(s.cache[i]) else None
  }

  lemma StepOnKey(s: State, a: Action, key: Key)
    requires Inv(s)
    ensures InCache(Step(s, a), key) ==
      if a.GetStore? && Pending(s).Some? && s.lock.value.key == key then Pending(s)
      else if a == Remove(key) && s.lock.None? then None
      else InCache(s, key)
  {
    hide Lookup, Stored, RemovedFirst, Unique, Entry;
    if a.GetStore? && Pending(s).Some? {
      InsertIsStored(s.cache, s.lock.value.expired, s.lock.value.read.value, s.now);
      StoredLookup(s.cache, s.lock.value.read.value, s.now, key);
    } else if a.Remove? && s.lock.None? {
      RemovalKeepsUnique(s.cache, a.key);
      if a.key != key {
        RemovedLookup(s.cache, a.key, key);
      }
    }
  }

  lemma InsertIsStored(cache: seq<CachedEntry>, at: int, o: Object, now: int)
    requires at == Lookup(cache, o.key)
    ensures Insert(cache, at, o, now) == Stored(cache, o, now)
  {
  }

  lemma StepOnKeyAt(s: State, run: seq<Action>, n: nat, key: Key)
    requires Init(s) && n < |run|
    ensures InCache(StateAt(s, run, n + 1), key) ==
      if StoresAt(s, run, n, key) then Pending(StateAt(s, run, n))
      else if RemovesAt(s, run, n, key) then None
      else InCache(StateAt(s, run, n), key)
  {
    hide Step, InCache, Inv, Init, Pending;
    OneEntryPerKey(s, run, n);
    StepOnKey(StateAt(s, run, n), run[n], key);
  }

  lemma LastStoreBefore(s: State, run: seq<Action>, m: nat, n: nat, key: Key)
    requires m < n < |run| && LastStore(s, run, m, n + 1, key)
    ensures LastStore(s, run, m, n, key) && !StoresAt(s, run, n, key) && !RemovesAt(s, run, n, key)
  {
    hide StateAt, StoresAt, RemovesAt;
  }

  lemma LastStoreAfter(s: State, run: seq<Action>, m: nat, n: nat, key: Key)
    requires n < |run| && LastStore(s, run, m, n, key)
    requires !StoresAt(s, run, n, key) && !RemovesAt(s, run, n, key)
    ensures LastStore(s, run, m, n + 1, key)
  {
    hide StateAt, StoresAt, RemovesAt;
  }

  lemma LastStoreNow(s: State, run: seq<Action>, n: nat, key: Key)
    requires n < |run| && StoresAt(s, run, n, key)
    ensures LastStore(s, run, n, n + 1, key)
  {
    hide StateAt, StoresAt, RemovesAt;
  }

  lemma StoredAnswer(s: State, run: seq<Action>, m: nat, key: Key)
    requires m < |run| && StoresAt(s, run, m, key)
    ensures Pending(StateAt(s, run, m)).Some?
  {
    hide StateAt, Pending;
  }

  lemma NothingAtFirst(s: State, run: seq<Action>, key: Key)
    requires Init(s)
    ensures InCache(StateAt(s, run, 0), key).None?
  {
  }

  /** The last insertion that was not removed is what the cache holds. */
  lemma {:induction false} LastStoreIsInCache(s: State, run: seq<Action>, m: nat, n: nat, key: Key)
    requires Init(s) && n <= |run| && LastStore(s, run, m, n, key)
    ensures InCache(StateAt(s, run, n), key) == Pending(StateAt(s, run, m)) != None
    decreases n
  {
    hide StateAt, Step, RemovesAt, InCache, Pending, Init, StoresAt;
    StepOnKeyAt(s, run, n - 1, key);
    StoredAnswer(s, run, m, key);
    if m < n - 1 {
      LastStoreBefore(s, run, m, n - 1, key);
      LastStoreIsInCache(s, run, m, n - 1, key);
    }
  }

  /** What the cache holds was inserted, and was not removed since. */
  lemma {:induction false} InCacheWasStored(s: State, run: seq<Action>, n: nat, key: Key) returns (m: nat)
    requires Init(s) && n <= |run| && InCache(StateAt(s, run, n), key).Some?
    ensures LastStore(s, run, m, n, key)
  {
    hide *;
    NothingAtFirst(s, run, key);
    StepOnKeyAt(s, run, n - 1, key);
    if StoresAt(s, run, n - 1, key) {
      m := n - 1;
      LastStoreNow(s, run, m, key);
    } else {
      m := InCacheWasStored(s, run, n - 1, key);
      LastStoreAfter(s, run, m, n - 1, key);
    }
  }

  // ----- What is inserted was read during the same lookup -----

  /** Step r is the read of the lookup that inserts at m; no removal and no other lookup fits in between. */
  ghost predicate ReadFor(s: State, run: seq<Action>, r: nat, m: nat, key: Key)
    requires m < |run| && StoresAt(s, run, m, key)
  {
    && r < m
    && run[r].GetRead?
    && key in StateAt(s, run, r).base
    && StateAt(s, run, r).base[key] == StateAt(s, run, m).lock.value.read.value
    && forall t :: r <= t < m ==> !RemovesAt(s, run, t, key) && !StoresAt(s, run, t, key)
  }

  ghost predicate HeldSince(s: State, run: seq<Action>, r: nat, n: nat, flight: Flight)
    requires n <= |run|
  {
    && r < n
    && run[r].GetRead?
    && flight.key in StateAt(s, run, r).base
    && flight.read == Some(StateAt(s, run, r).base[flight.key])
    && StateAt(s, run, r).lock == Some(flight.(read := None))
    && forall t :: r < t <= n ==> StateAt(s, run, t).lock == Some(flight)
  }

  lemma {:induction false} AnswerWasRead(s: State, run: seq<Action>, n: nat) returns (r: nat)
    requires Init(s) && n <= |run|
    requires StateAt(s, run, n).lock.Some? && StateAt(s, run, n).lock.value.read.Some?
    ensures HeldSince(s, run, r, n, StateAt(s, run, n).lock.value)
  {
    var before := StateAt(s, run, n - 1);
    if before.lock.Some? && before.lock.value.read.Some? {
      r := AnswerWasRead(s, run, n - 1);
    } else {
      r := n - 1;
    }
  }

  lemma StoreHasItsRead(s: State, run: seq<Action>, m: nat, key: Key) returns (r: nat)
    requires Init(s) && m < |run| && StoresAt(s, run, m, key)
    ensures ReadFor(s, run, r, m, key)
  {
    r := AnswerWasRead(s, run, m);
    forall t | r <= t < m
      ensures !RemovesAt(s, run, t, key) && !StoresAt(s, run, t, key)
    {
      assert r < t + 1 <= m;
      assert StateAt(s, run, t + 1).lock.Some?;
    }
  }

  // ----- Bounded staleness -----

  /**
   * Whatever is served from the cache was read from the cluster at some step r, inserted at a later step m no more than
   * the TTL ago, and not removed since the read.
   */
  lemma BoundedStaleness(s: State, run: seq<Action>, n: nat, key: Key) returns (r: nat, m: nat)
    requires Init(s) && n <= |run|
    requires Hit(StateAt(s, run, n).cache, key, StateAt(s, run, n).now)
    ensures LastStore(s, run, m, n, key) && ReadFor(s, run, r, m, key)
    ensures InCache(StateAt(s, run, n), key).value.entry == StateAt(s, run, r).base[key]
    ensures 0 <= StateAt(s, run, n).now - StateAt(s, run, m).now <= 10_000_000_000
    ensures forall t :: r <= t < n ==> !RemovesAt(s, run, t, key)
  {
    m := InCacheWasStored(s, run, n, key);
    LastStoreIsInCache(s, run, m, n, key);
    r := StoreHasItsRead(s, run, m, key);
    ClockNeverGoesBack(s, run, m, n);
  }

  /**
   * Keeping the time in whole seconds can cut the life of an entry short by less than one second, and never adds to it.
   */
  lemma TruncationOnlyShortens(o: Object, stored: int, now: int)
    requires stored <= now
    ensures now - stored <= 9_000_000_000 ==> !Entry(o, stored).IsExpired(now)
    ensures now - stored > 10_000_000_000 ==> Entry(o, stored).IsExpired(now)
    ensures Entry(o, stored).IsExpired(now) <==> now - stored > 10_000_000_000 - stored % 1_000_000_000
  {
  }

  /** An insertion at m answers lookups until it is removed or replaced, and for 10 seconds less the truncated part. */
  ghost predicate Serves(s: State, run: seq<Action>, m: nat, n: nat, key: Key)
    requires n <= |run|
  {
    && LastStore(s, run, m, n, key)
    && StateAt(s, run, n).now - StateAt(s, run, m).now <= DEFAULT_TTL - StateAt(s, run, m).now % NANOS_PER_SECOND
  }

  /** A lookup is answered from the cache if and only if some insertion still serves it. */
  lemma HitExactly(s: State, run: seq<Action>, n: nat, key: Key)
    requires Init(s) && n <= |run|
    ensures Hit(StateAt(s, run, n).cache, key, StateAt(s, run, n).now) <==> exists m: nat :: Serves(s, run, m, n, key)
  {
    if exists m: nat :: LastStore(s, run, m, n, key) {
      var m: nat :| LastStore(s, run, m, n, key);
      LastStoreServes(s, run, m, n, key);
      OneLastStore(s, run, m, n, key);
    } else if InCache(StateAt(s, run, n), key).Some? {
      var m := InCacheWasStored(s, run, n, key);
    }
  }

  lemma LastStoreServes(s: State, run: seq<Action>, m: nat, n: nat, key: Key)
    requires Init(s) && n <= |run| && LastStore(s, run, m, n, key)
    ensures Hit(StateAt(s, run, n).cache, key, StateAt(s, run, n).now) <==> Serves(s, run, m, n, key)
  {
    LastStoreIsInCache(s, run, m, n, key);
    ClockNeverGoesBack(s, run, m, n);
    TruncationOnlyShortens(StateAt(s, run, m).lock.value.read.value, StateAt(s, run, m).now, StateAt(s, run, n).now);
  }

  lemma OneLastStore(s: State, run: seq<Action>, m: nat, n: nat, key: Key)
    requires n <= |run| && LastStore(s, run, m, n, key)
    ensures forall k: nat :: LastStore(s, run, k, n, key) ==> k == m
  {
    hide StateAt, StoresAt, RemovesAt;
  }

  // ----- Coherence with the writes made through this client -----

  /**
   * Update, Delete and Patch remove first. If no lookup of the key starts after the removal at t, the next one, at n,
   * reads the base client.
   */
  lemma FirstGetAfterRemovalReadsBase(s: State, run: seq<Action>, t: nat, n: nat, key: Key)
    requires Init(s) && t < n <= |run|
    requires RemovesAt(s, run, t, key)
    requires forall k :: t < k < n ==> run[k] != GetStart(key)
    ensures !Hit(StateAt(s, run, n).cache, key, StateAt(s, run, n).now)
  {
    hide StateAt, Step, Init, Lookup;
    if InCache(StateAt(s, run, n), key).Some? {
      var m := InCacheWasStored(s, run, n, key);
      assert m > t;
      LookupStartedAfter(s, run, t, m, key);
    }
  }

  /** With the mutex free at t, a lookup of the key that holds it at n has started in between. */
  lemma {:induction false} LookupStartedAfter(s: State, run: seq<Action>, t: nat, n: nat, key: Key)
    requires t <= n <= |run|
    requires StateAt(s, run, t).lock.None?
    requires StateAt(s, run, n).lock.Some? && StateAt(s, run, n).lock.value.key == key
    ensures exists k :: t <= k < n && run[k] == GetStart(key)
    decreases n
  {
    if t < n {
      var before := StateAt(s, run, n - 1);
      if before.lock.Some? && before.lock.value.key == key {
        LookupStartedAfter(s, run, t, n - 1, key);
      } else {
        assert run[n - 1] == GetStart(key);
      }
    }
  }

  /**
   * After a removal at t and the last write at w, what is served at n is what the cluster holds exactly when it was
   * read after the write, or when the write did not change what had been read. It was read after the removal in any
   * case, so a stale answer takes a lookup that overlaps the write.
   */
  lemma StaleAnswerNeedsOverlap(s: State, run: seq<Action>, t: nat, w: nat, n: nat, key: Key) returns (r: nat, m: nat)
    requires Init(s) && t < w < n <= |run|
    requires RemovesAt(s, run, t, key)
    requires run[w].Write? && run[w].key == key && (run[w].written.Some? ==> run[w].written.value.key == key)
    requires forall k :: w < k < n && run[k].Write? ==> run[k].key != key
    requires Hit(StateAt(s, run, n).cache, key, StateAt(s, run, n).now)
    ensures t < r < m < n && LastStore(s, run, m, n, key) && ReadFor(s, run, r, m, key)
    ensures
      var served := InCache(StateAt(s, run, n), key).value.entry;
      var base := StateAt(s, run, n).base;
      && served == StateAt(s, run, r).base[key]
      && (key in base && base[key] == served <==> r > w || run[w].written == Some(served))
  {
    r, m := BoundedStaleness(s, run, n, key);
    WriteTakesEffect(s, run, w, key);
    UnwrittenStays(s, run, w + 1, n, key);
    if r > w {
      UnwrittenStays(s, run, r, n, key);
    }
  }

  lemma WriteTakesEffect(s: State, run: seq<Action>, w: nat, key: Key)
    requires w < |run| && run[w].Write? && run[w].key == key
    requires run[w].written.Some? ==> run[w].written.value.key == key
    ensures
      var base := StateAt(s, run, w + 1).base;
      && (key in base <==> run[w].written.Some?)
      && (key in base ==> base[key] == run[w].written.value)
  {
  }

  lemma StepUnwritten(s: State, a: Action, key: Key)
    requires a.Write? ==> a.key != key
    ensures key in s.base <==> key in Step(s, a).base
    ensures key in s.base ==> s.base[key] == Step(s, a).base[key]
  {
  }

  lemma {:induction false} UnwrittenStays(s: State, run: seq<Action>, m: nat, n: nat, key: Key)
    requires m <= n <= |run|
    requires forall k :: m <= k < n && run[k].Write? ==> run[k].key != key
    ensures key in StateAt(s, run, m).base <==> key in StateAt(s, run, n).base
    ensures key in StateAt(s, run, m).base ==> StateAt(s, run, m).base[key] == StateAt(s, run, n).base[key]
    decreases n - m
  {
    if m < n {
      hide Step;
      UnwrittenStays(s, run, m, n - 1, key);
      StepUnwritten(StateAt(s, run, n - 1), run[n - 1], key);
    }
  }

  /** The overlap does happen: a lookup between the removal and the write brings the old object back. */
  lemma OverlapServesOldObject(key: Key, old': int, new': int)
    requires key.kind.Secret? || key.kind.Archive?
    ensures
      var s := State([], map[key := Object(key, old')], None, 0);
      var after := StateAt(s, Overlap(key, new'), 5);
      && Init(s)
      && after.base == map[key := Object(key, new')]
      && Hit(after.cache, key, after.now)
      && InCache(after, key) == Some(Entry(Object(key, old'), 0))
  {
    OverlapEnd(key, old', new');
    hide StateAt;
    LookupUnique([Entry(Object(key, old'), 0)], 0);
  }

  function Overlap(key: Key, new': int): seq<Action> {
    [Remove(key), GetStart(key), GetRead, GetStore, Write(key, Some(Object(key, new')))]
  }

  lemma OverlapStart(key: Key, old': int, new': int) returns (s3: State)
    requires IsObjectCached(key.kind)
    ensures
      var s := State([], map[key := Object(key, old')], None, 0);
      && s3 == StateAt(s, Overlap(key, new'), 3)
      && s3 == s.(lock := Some(Flight(key, -1, Some(Object(key, old')))))
  {
    var s := State([], map[key := Object(key, old')], None, 0);
    var run := Overlap(key, new');
    assert Lookup([], key) == -1;
    hide Lookup;
    assert StateAt(s, run, 0) == s;
    assert StateAt(s, run, 1) == s;
    assert StateAt(s, run, 2) == s.(lock := Some(Flight(key, -1, None)));
    s3 := StateAt(s, run, 3);
  }

  lemma OverlapEnd(key: Key, old': int, new': int)
    requires IsObjectCached(key.kind)
    ensures
      var s := State([], map[key := Object(key, old')], None, 0);
      StateAt(s, Overlap(key, new'), 5) ==
        State([Entry(Object(key, old'), 0)], map[key := Object(key, new')], None, 0)
  {
    hide Lookup, Entry;
    var s := State([], map[key := Object(key, old')], None, 0);
    var run := Overlap(key, new');
    var s3 := OverlapStart(key, old', new');
    assert StateAt(s, run, 5) == Step(Step(s3, GetStore), run[4]);
  }
}

/** The choice of a backup to recover from (internal/pgbackrest/catalog/catalog.go). */
module Catalog {
  import opened Wrappers
  import opened Common
  import opened Hex
  import WalSegment

  const LATEST_TIMELINE_ID := -1

  /** `annotation` is the name under the CNPG key, or empty; `lsnStop` is None when it does not parse. */
  datatype Backup = Backup(
    id: string, annotation: string, start: int, stop: int, walStart: string, lsnStop: Option<int>)
  {
    predicate IsDone() {
      start != 0 && stop != 0
    }

    /** strconv.ParseInt of the first eight characters in base 16, which accepts a sign. */
    function StartTimeline(): Option<int>
      requires |walStart| >= 8
    {
      var t := walStart[..8];
      if AllHex(t) then Some(Parse(t))
      else if t[0] == '-' && AllHex(t[1..]) then (var n: int := Parse(t[1..]); Some(-n))
      else if t[0] == '+' && AllHex(t[1..]) then Some(Parse(t[1..]))
      else None
    }

    predicate StartsBy(timeline: int)
      requires |walStart| >= 8
    {
      StartTimeline().Some? && (StartTimeline().value <= timeline || timeline == LATEST_TIMELINE_ID)
    }
  }

  /** The field of a recovery target: not given, given but malformed, or parsed. */
  datatype Field = Absent | Malformed | Given(value: int)

  /** The time is in nanoseconds. */
  datatype RecoveryTarget = RecoveryTarget(backupID: string, time: Field, lsn: Field, timeline: Field)

  datatype FindError = MalformedTime | MalformedLSN | NoBackupID | NoBackupWithID

  datatype Bound = Unbounded | StopsBy(nanos: int) | EndsBelow(lsn: int)

  predicate Catalogued(backups: seq<Backup>) {
    forall k :: 0 <= k < |backups| ==> |backups[k].walStart| >= 8
  }

  predicate Within(b: Backup, bound: Bound) {
    match bound
    case Unbounded => true
    case StopsBy(nanos) => b.stop * NANOS_PER_SECOND <= nanos
    case EndsBelow(lsn) => b.lsnStop.Some? && b.lsnStop.value < lsn
  }

  predicate Eligible(b: Backup, timeline: int, bound: Bound)
    requires |b.walStart| >= 8
  {
    b.IsDone() && b.StartsBy(timeline) && Within(b, bound)
  }

  /** The position of the last eligible backup. */
  function LastEligible(backups: seq<Backup>, timeline: int, bound: Bound): (r: Option<nat>)
    requires Catalogued(backups)
    ensures r.Some? ==>
      && r.value < |backups|
      && Eligible(backups[r.value], timeline, bound)
      && forall k :: r.value < k < |backups| ==> !Eligible(backups[k], timeline, bound)
    ensures r.None? ==> forall k :: 0 <= k < |backups| ==> !Eligible(backups[k], timeline, bound)
  {
    if backups == [] then None
    else
      var n := |backups| - 1;
      if Eligible(backups[n], timeline, bound) then Some(n) else LastEligible(backups[..n], timeline, bound)
  }

  /** Only the last eligible position meets the description. */
  lemma LastEligibleUnique(backups: seq<Backup>, timeline: int, bound: Bound, i: nat)
    requires Catalogued(backups) && i < |backups|
    ensures LastEligible(backups, timeline, bound) == Some(i) <==>
      && Eligible(backups[i], timeline, bound)
      && forall k :: i < k < |backups| ==> !Eligible(backups[k], timeline, bound)
  {
    hide LastEligible;
    var r := LastEligible(backups, timeline, bound);
    if r.Some? && Eligible(backups[i], timeline, bound) {
      assert r.value >= i;
    }
  }

  // ----- The scans -----

  method FindClosestBackupFromTargetLSN(backups: seq<Backup>, target: Field, timeline: int)
    returns (r: Result<Option<nat>, FindError>)
    requires Catalogued(backups)
    ensures r == if target.Given? then Ok(LastEligible(backups, timeline, EndsBelow(target.value)))
                 else Err(MalformedLSN)
  {
    if !target.Given? {
      return Err(MalformedLSN);
    }
    var i := |backups| - 1;
    while i >= 0
      invariant -1 <= i < |backups|
      invariant forall k :: i < k < |backups| ==> !Eligible(backups[k], timeline, EndsBelow(target.value))
    {
      var b := backups[i];
      var startTimeline := b.StartTimeline();
      if startTimeline.Some? && b.IsDone() {
        if (startTimeline.value <= timeline || timeline == LATEST_TIMELINE_ID)
           && b.lsnStop.Some? && b.lsnStop.value < target.value
        {
          LastEligibleUnique(backups, timeline, EndsBelow(target.value), i);
          return Ok(Some(i));
        }
      }
      i := i - 1;
    }
    return Ok(None);
  }

  method FindClosestBackupFromTargetTime(backups: seq<Backup>, target: Field, timeline: int)
    returns (r: Result<Option<nat>, FindError>)
    requires Catalogued(backups)
    ensures r == if target.Given? then Ok(LastEligible(backups, timeline, StopsBy(target.value)))
                 else Err(MalformedTime)
  {
    if !target.Given? {
      return Err(MalformedTime);
    }
    var i := |backups| - 1;
    while i >= 0
      invariant -1 <= i < |backups|
      invariant forall k :: i < k < |backups| ==> !Eligible(backups[k], timeline, StopsBy(target.value))
    {
      var b := backups[i];
      var startTimeline := b.StartTimeline();
      if startTimeline.Some? && b.IsDone() {
        if (startTimeline.value <= timeline || timeline == LATEST_TIMELINE_ID)
           && !(b.stop * NANOS_PER_SECOND > target.value)
        {
          LastEligibleUnique(backups, timeline, StopsBy(target.value), i);
          return Ok(Some(i));
        }
      }
      i := i - 1;
    }
    return Ok(None);
  }

  method FindLatestBackupFromTimeline(backups: seq<Backup>, timeline: int) returns (r: Option<nat>)
    requires Catalogued(backups)
    ensures r == LastEligible(backups, timeline, Unbounded)
  {
    var i := |backups| - 1;
    while i >= 0
      invariant -1 <= i < |backups|
      invariant forall k :: i < k < |backups| ==> !Eligible(backups[k], timeline, Unbounded)
    {
      var b := backups[i];
      var startTimeline := b.StartTimeline();
      if startTimeline.Some? && b.IsDone() {
        if startTimeline.value <= timeline || timeline == LATEST_TIMELINE_ID {
          LastEligibleUnique(backups, timeline, Unbounded, i);
          return Some(i);
        }
      }
      i := i - 1;
    }
    return None;
  }

  /** The first finished backup with the identifier. */
  predicate FirstWithID(backups: seq<Backup>, id: string, i: nat) {
    && i < |backups|
    && backups[i].IsDone() && backups[i].id == id
    && forall k :: 0 <= k < i ==> !(backups[k].IsDone() && backups[k].id == id)
  }

  method FindBackupFromID(backups: seq<Backup>, id: string) returns (r: Result<Option<nat>, FindError>)
    ensures id == "" ==> r == Err(NoBackupID)
    ensures r.Ok? ==> r.value.Some? && FirstWithID(backups, id, r.value.value)
    ensures r.Ok? ==>
      var b := backups[r.value.value];
      b.id == id && b.start != 0 && b.stop != 0
    ensures id != "" ==>
      forall k :: 0 <= k < (if r.Ok? then r.value.value else |backups|) ==>
        backups[k].id != id || backups[k].start == 0 || backups[k].stop == 0
    ensures r.Err? && id != "" ==>
      r.error == NoBackupWithID && forall k :: 0 <= k < |backups| ==> !FirstWithID(backups, id, k)
  {
    if id == "" {
      return Err(NoBackupID);
    }
    for i := 0 to |backups|
      invariant forall k :: 0 <= k < i ==> !(backups[k].IsDone() && backups[k].id == id)
    {
      if backups[i].IsDone() && backups[i].id == id {
        return Ok(Some(i));
      }
    }
    return Err(NoBackupWithID);
  }

  /** The latest finished backup, whatever its timeline. */
  method LatestBackupInfo(backups: seq<Backup>) returns (r: Option<nat>)
    ensures r.Some? ==> r.value < |backups| && backups[r.value].IsDone()
    ensures forall k :: (if r.Some? then r.value + 1 else 0) <= k < |backups| ==> !backups[k].IsDone()
  {
    var i := |backups| - 1;
    while i >= 0
      invariant -1 <= i < |backups|
      invariant forall k :: i < k < |backups| ==> !backups[k].IsDone()
    {
      if backups[i].IsDone() {
        return Some(i);
      }
      i := i - 1;
    }
    return None;
  }

  predicate FirstDone(backups: seq<Backup>, k: nat)
    requires k < |backups|
  {
    backups[k].IsDone() && forall l :: 0 <= l < k ==> !backups[l].IsDone()
  }

  /** When the first finished backup stopped. */
  method FirstRecoverabilityPoint(backups: seq<Backup>) returns (r: Option<int>)
    ensures r.Some? <==> exists k :: 0 <= k < |backups| && backups[k].IsDone()
    ensures r.Some? ==> exists k :: 0 <= k < |backups| && FirstDone(backups, k) && backups[k].stop == r.value
    ensures forall k :: 0 <= k < |backups| && FirstDone(backups, k) ==>
      (r == Some(backups[k].start) <==> backups[k].start == backups[k].stop)
  {
    for i := 0 to |backups|
      invariant forall k :: 0 <= k < i ==> !backups[k].IsDone()
    {
      if backups[i].IsDone() {
        return Some(backups[i].stop);
      }
    }
    return None;
  }

  predicate LastAnnotated(backups: seq<Backup>, name: string, k: nat)
    requires k < |backups|
  {
    backups[k].annotation == name && forall l :: k < l < |backups| ==> backups[l].annotation != name
  }

  /** The backup with the annotation that is last in the catalog; the empty string stands for none. */
  method GetBackupIDFromAnnotatedName(backups: seq<Backup>, name: string) returns (id: string)
    ensures forall k :: 0 <= k < |backups| && LastAnnotated(backups, name, k) ==> id == backups[k].id
    ensures (forall k :: 0 <= k < |backups| ==> backups[k].annotation != name) ==> id == ""
  {
    var i := |backups| - 1;
    while i >= 0
      invariant -1 <= i < |backups|
      invariant forall k :: i < k < |backups| ==> backups[k].annotation != name
    {
      if backups[i].annotation == name {
        return backups[i].id;
      }
      i := i - 1;
    }
    return "";
  }

  /**
   * An identifier goes before a time, and a time before an LSN. A timeline that does not parse counts as the latest
   * one.
   */
  method FindBackupInfo(backups: seq<Backup>, target: RecoveryTarget) returns (r: Result<Option<nat>, FindError>)
    requires Catalogued(backups)
    ensures target.backupID != "" ==>
      && (r.Ok? ==> r.value.Some? && FirstWithID(backups, target.backupID, r.value.value))
      && (r.Err? ==>
        && r.error == NoBackupWithID
        && forall k :: 0 <= k < |backups| ==> !FirstWithID(backups, target.backupID, k))
    ensures target.backupID == "" && target.time.Malformed? ==> r == Err(MalformedTime)
    ensures target.backupID == "" && target.time.Absent? && target.lsn.Malformed? ==> r == Err(MalformedLSN)
    ensures
      var timeline := if target.timeline.Given? then target.timeline.value else -1;
      && (target.backupID == "" && target.time.Given? ==>
        r == Ok(LastEligible(backups, timeline, StopsBy(target.time.value))))
      && (target.backupID == "" && target.time.Absent? && target.lsn.Given? ==>
        r == Ok(LastEligible(backups, timeline, EndsBelow(target.lsn.value))))
      && (target.backupID == "" && target.time.Absent? && target.lsn.Absent? ==>
        r == Ok(LastEligible(backups, timeline, Unbounded)))
  {
    if target.backupID != "" {
      r := FindBackupFromID(backups, target.backupID);
      return;
    }
    var timeline := if target.timeline.Given? then target.timeline.value else -1;
    if !target.time.Absent? {
      r := FindClosestBackupFromTargetTime(backups, target.time, timeline);
      return;
    }
    if !target.lsn.Absent? {
      r := FindClosestBackupFromTargetLSN(backups, target.lsn, timeline);
      return;
    }
    var latest := FindLatestBackupFromTimeline(backups, timeline);
    return Ok(latest);
  }

  // ----- What a selected backup is good for -----

  /** The backup for an LSN ended below it on a timeline the target can follow, and no later such backup did. */
  lemma SelectedEndedBelow(backups: seq<Backup>, timeline: int, lsn: int)
    requires Catalogued(backups)
    ensures
      var r := LastEligible(backups, timeline, EndsBelow(lsn));
      && (r.Some? ==>
        var b := backups[r.value];
        && b.start != 0 && b.stop != 0
        && b.StartTimeline().Some? && (timeline == -1 || b.StartTimeline().value <= timeline)
        && b.lsnStop.Some? && b.lsnStop.value < lsn)
      && forall k :: (if r.Some? then r.value + 1 else 0) <= k < |backups| ==>
        var b := backups[k];
        || b.start == 0 || b.stop == 0
        || b.StartTimeline().None? || (timeline != -1 && b.StartTimeline().value > timeline)
        || b.lsnStop.None? || b.lsnStop.value >= lsn
  {
    hide LastEligible;
  }

  /** The backup for a time in nanoseconds had stopped by then, and no later such backup had. */
  lemma SelectedStoppedBy(backups: seq<Backup>, timeline: int, nanos: int)
    requires Catalogued(backups)
    ensures
      var r := LastEligible(backups, timeline, StopsBy(nanos));
      && (r.Some? ==>
        var b := backups[r.value];
        && b.start != 0 && b.stop != 0
        && b.StartTimeline().Some? && (timeline == -1 || b.StartTimeline().value <= timeline)
        && b.stop * 1_000_000_000 <= nanos)
      && forall k :: (if r.Some? then r.value + 1 else 0) <= k < |backups| ==>
        var b := backups[k];
        || b.start == 0 || b.stop == 0
        || b.StartTimeline().None? || (timeline != -1 && b.StartTimeline().value > timeline)
        || b.stop * 1_000_000_000 > nanos
  {
    hide LastEligible;
  }

  /** Without a bound it is the last finished backup on a timeline the target can follow. */
  lemma SelectedOnTimeline(backups: seq<Backup>, timeline: int)
    requires Catalogued(backups)
    ensures
      var r := LastEligible(backups, timeline, Unbounded);
      && (r.Some? ==>
        var b := backups[r.value];
        && b.start != 0 && b.stop != 0
        && b.StartTimeline().Some? && (timeline == -1 || b.StartTimeline().value <= timeline))
      && forall k :: (if r.Some? then r.value + 1 else 0) <= k < |backups| ==>
        var b := backups[k];
        || b.start == 0 || b.stop == 0
        || b.StartTimeline().None? || (timeline != -1 && b.StartTimeline().value > timeline)
  {
    hide LastEligible;
  }

  // ----- Later targets select later backups -----

  /** The latest timeline is the greatest one. */
  predicate TimelineAtMost(t: int, u: int) {
    u == LATEST_TIMELINE_ID || (t != LATEST_TIMELINE_ID && t <= u)
  }

  predicate BoundAtMost(a: Bound, b: Bound) {
    match (a, b)
    case (_, Unbounded) => true
    case (StopsBy(m), StopsBy(n)) => m <= n
    case (EndsBelow(m), EndsBelow(n)) => m <= n
    case _ => false
  }

  lemma LaterTargetKeepsEligible(b: Backup, t: int, u: int, lower: Bound, upper: Bound)
    requires |b.walStart| >= 8
    requires TimelineAtMost(t, u) && BoundAtMost(lower, upper) && Eligible(b, t, lower)
    ensures Eligible(b, u, upper)
  {
  }

  /** As the target time, LSN or timeline grows, a selected backup is only ever exchanged for a later one. */
  lemma SelectionIsMonotone(backups: seq<Backup>, t: int, u: int, lower: Bound, upper: Bound)
    requires Catalogued(backups)
    requires TimelineAtMost(t, u) && BoundAtMost(lower, upper)
    ensures
      var early, late := LastEligible(backups, t, lower), LastEligible(backups, u, upper);
      early.Some? ==> late.Some? && early.value <= late.value
  {
    hide LastEligible, Eligible;
    var early, late := LastEligible(backups, t, lower), LastEligible(backups, u, upper);
    if early.Some? {
      LaterTargetKeepsEligible(backups[early.value], t, u, lower, upper);
    }
  }

  // ----- On a catalog in order, the selection is the closest -----

  predicate SortedByStop(backups: seq<Backup>) {
    forall i, j :: 0 <= i < j < |backups| && backups[i].IsDone() && backups[j].IsDone() ==>
      backups[i].stop <= backups[j].stop
  }

  /** For any measure in which the finished backups are in order, no eligible backup is beyond the selected one. */
  lemma SelectionIsClosest(backups: seq<Backup>, timeline: int, bound: Bound, measure: Backup -> int, k: nat)
    requires Catalogued(backups) && k < |backups| && Eligible(backups[k], timeline, bound)
    requires forall i, j :: 0 <= i < j < |backups| && backups[i].IsDone() && backups[j].IsDone() ==>
      measure(backups[i]) <= measure(backups[j])
    ensures LastEligible(backups, timeline, bound).Some?
    ensures measure(backups[k]) <= measure(backups[LastEligible(backups, timeline, bound).value])
  {
    var i := LastEligible(backups, timeline, bound).value;
    assert k <= i;
  }

  /**
   * The first recoverability point and the last successful backup enclose every selection, and its target follows it.
   */
  lemma SelectionIsRecoverable(backups: seq<Backup>, timeline: int, bound: Bound, first: nat, latest: nat)
    requires Catalogued(backups) && SortedByStop(backups)
    requires LastEligible(backups, timeline, bound).Some?
    requires first < |backups| && FirstDone(backups, first)
    requires latest < |backups| && backups[latest].IsDone()
    requires forall k :: latest < k < |backups| ==> !backups[k].IsDone()
    ensures
      var i := LastEligible(backups, timeline, bound).value;
      && first <= i <= latest
      && backups[first].stop <= backups[i].stop <= backups[latest].stop
      && (bound.StopsBy? ==> backups[i].stop * NANOS_PER_SECOND <= bound.nanos)
  {
    hide LastEligible;
  }

  /** A target time after the first recoverability point always has a backup on the latest timeline to start from. */
  lemma RecoverableTargetsHaveABackup(backups: seq<Backup>, first: nat, nanos: int)
    requires Catalogued(backups)
    requires first < |backups| && FirstDone(backups, first)
    requires backups[first].StartTimeline().Some?
    requires backups[first].stop * NANOS_PER_SECOND <= nanos
    ensures LastEligible(backups, LATEST_TIMELINE_ID, StopsBy(nanos)).Some?
  {
    assert Eligible(backups[first], LATEST_TIMELINE_ID, StopsBy(nanos));
  }

  /** What a target is compared with: the time a backup stopped, or the LSN at which it ended. */
  datatype Measure = ByTime | ByLSN

  function KeyOf(m: Measure, b: Backup): Option<int> {
    match m
    case ByTime => Some(b.stop)
    case ByLSN => b.lsnStop
  }

  function BoundOf(m: Measure, target: int): Bound {
    match m
    case ByTime => StopsBy(target)
    case ByLSN => EndsBelow(target)
  }

  /** What a scan for the timeline can select, given a target that is late enough. */
  predicate Candidate(m: Measure, b: Backup, timeline: int)
    requires |b.walStart| >= 8
  {
    b.IsDone() && b.StartsBy(timeline) && KeyOf(m, b).Some?
  }

  /** For the target, no eligible backup is beyond the selected one. */
  ghost predicate ClosestAt(m: Measure, backups: seq<Backup>, timeline: int, target: int)
    requires Catalogued(backups)
  {
    var r := LastEligible(backups, timeline, BoundOf(m, target));
    forall k :: 0 <= k < |backups| && Eligible(backups[k], timeline, BoundOf(m, target)) ==>
      r.Some? && KeyOf(m, backups[k]).Some? && KeyOf(m, backups[r.value]).Some?
      && KeyOf(m, backups[k]).value <= KeyOf(m, backups[r.value]).value
  }

  /** Two candidates for the timeline are listed in the opposite order of their stop times or LSNs. */
  predicate Inverted(m: Measure, backups: seq<Backup>, timeline: int, i: nat, j: nat)
    requires Catalogued(backups)
  {
    && i < j < |backups|
    && Candidate(m, backups[i], timeline) && Candidate(m, backups[j], timeline)
    && KeyOf(m, backups[j]).value < KeyOf(m, backups[i]).value
  }

  /** A candidate after j has the stop time or LSN of the one at i. */
  ghost predicate MadeUpFor(m: Measure, backups: seq<Backup>, timeline: int, i: nat, j: nat)
    requires Catalogued(backups)
  {
    && i < |backups|
    && exists k ::
      j < k < |backups| && Candidate(m, backups[k], timeline) && KeyOf(m, backups[k]) == KeyOf(m, backups[i])
  }

  /**
   * On any timeline, the scan finds the closest backup for every target time, or LSN, exactly when each inversion in
   * the catalog is made up for by a later candidate with the same stop time, or LSN, as the earlier one.
   */
  lemma ClosestExactly(m: Measure, backups: seq<Backup>, timeline: int)
    requires Catalogued(backups)
    ensures (forall target :: ClosestAt(m, backups, timeline, target)) <==>
      forall i, j :: Inverted(m, backups, timeline, i, j) ==> MadeUpFor(m, backups, timeline, i, j)
  {
    hide LastEligible, Inverted, MadeUpFor, ClosestAt;
    if forall target :: ClosestAt(m, backups, timeline, target) {
      forall i: nat, j: nat | Inverted(m, backups, timeline, i, j)
        ensures MadeUpFor(m, backups, timeline, i, j)
      {
        InversionIsMadeUpFor(m, backups, timeline, i, j);
      }
    }
    if forall i, j :: Inverted(m, backups, timeline, i, j) ==> MadeUpFor(m, backups, timeline, i, j) {
      forall target
        ensures ClosestAt(m, backups, timeline, target)
      {
        MadeUpForIsClosest(m, backups, timeline, target);
      }
    }
  }

  /** The first target that a candidate with the key meets. */
  function TargetOf(m: Measure, key: int): int {
    if m.ByTime? then key * NANOS_PER_SECOND else key + 1
  }

  lemma EligibleByKey(m: Measure, b: Backup, timeline: int, key: int)
    requires |b.walStart| >= 8
    ensures Eligible(b, timeline, BoundOf(m, TargetOf(m, key))) <==>
      Candidate(m, b, timeline) && KeyOf(m, b).value <= key
  {
  }

  lemma InversionIsMadeUpFor(m: Measure, backups: seq<Backup>, timeline: int, i: nat, j: nat)
    requires Catalogued(backups) && Inverted(m, backups, timeline, i, j)
    requires ClosestAt(m, backups, timeline, TargetOf(m, KeyOf(m, backups[i]).value))
    ensures MadeUpFor(m, backups, timeline, i, j)
  {
    hide LastEligible, Eligible, KeyOf, BoundOf;
    var key := KeyOf(m, backups[i]).value;
    var bound := BoundOf(m, TargetOf(m, key));
    EligibleByKey(m, backups[i], timeline, key);
    EligibleByKey(m, backups[j], timeline, key);
    var k := LastEligible(backups, timeline, bound).value;
    EligibleByKey(m, backups[k], timeline, key);
    assert k >= j && Candidate(m, backups[k], timeline) && KeyOf(m, backups[k]) == KeyOf(m, backups[i]);
  }

  lemma EligibleIsCandidate(m: Measure, b: Backup, timeline: int, target: int)
    requires |b.walStart| >= 8
    ensures Eligible(b, timeline, BoundOf(m, target)) ==> Candidate(m, b, timeline)
  {
  }

  lemma SameKeySameTarget(m: Measure, b: Backup, c: Backup, timeline: int, target: int)
    requires |b.walStart| >= 8 && |c.walStart| >= 8
    ensures Eligible(b, timeline, BoundOf(m, target)) && Candidate(m, c, timeline) && KeyOf(m, b) == KeyOf(m, c) ==>
      Eligible(c, timeline, BoundOf(m, target))
  {
  }

  lemma MadeUpForIsClosest(m: Measure, backups: seq<Backup>, timeline: int, target: int)
    requires Catalogued(backups)
    requires forall i, j :: Inverted(m, backups, timeline, i, j) ==> MadeUpFor(m, backups, timeline, i, j)
    ensures ClosestAt(m, backups, timeline, target)
  {
    hide LastEligible, Eligible, KeyOf, BoundOf;
    var bound := BoundOf(m, target);
    var r := LastEligible(backups, timeline, bound);
    forall k | 0 <= k < |backups|
      ensures Eligible(backups[k], timeline, bound) ==> Candidate(m, backups[k], timeline)
    {
      EligibleIsCandidate(m, backups[k], timeline, target);
    }
    forall i | 0 <= i < |backups| && Eligible(backups[i], timeline, bound)
      ensures r.Some? && KeyOf(m, backups[i]).value <= KeyOf(m, backups[r.value]).value
    {
      assert r.Some?;
      assert Inverted(m, backups, timeline, i, r.value) ==> MadeUpFor(m, backups, timeline, i, r.value);
      forall k | r.value < k < |backups|
        ensures Candidate(m, backups[k], timeline) && KeyOf(m, backups[k]) == KeyOf(m, backups[i]) ==>
          Eligible(backups[k], timeline, bound)
      {
        SameKeySameTarget(m, backups[i], backups[k], timeline, target);
      }
    }
  }

  /** A finished backup on the first timeline. */
  function BackupUntil(stop: int): Backup {
    Backup("", "", 1, stop, "000000010000000000000001", None)
  }

  /** With the backup that stopped last at the head of the catalog, the scan stops before it gets there. */
  lemma ScanMissesTheClosest()
    ensures
      var backups := [BackupUntil(9), BackupUntil(5)];
      && LastEligible(backups, 1, StopsBy(9 * NANOS_PER_SECOND)) == Some(1)
      && Eligible(backups[0], 1, StopsBy(9 * NANOS_PER_SECOND))
      && !ClosestAt(ByTime, backups, 1, 9 * NANOS_PER_SECOND)
  {
    hide LastEligible;
    var backups := [BackupUntil(9), BackupUntil(5)];
    var bound := StopsBy(9 * NANOS_PER_SECOND);
    FirstTimeline(9);
    FirstTimeline(5);
    assert Eligible(backups[0], 1, bound) && Eligible(backups[1], 1, bound);
    LastEligibleUnique(backups, 1, bound, 1);
  }

  lemma FirstTimeline(stop: int)
    ensures BackupUntil(stop).StartTimeline() == Some(1)
  {
    var t := BackupUntil(stop).walStart[..8];
    assert t == "00000001" && t[..7] == "0000000" && t[7] == '1';
    ZeroesAreZero(t[..7]);
  }

  lemma {:induction false} ZeroesAreZero(s: string)
    requires AllHex(s) && forall i :: 0 <= i < |s| ==> s[i] == '0'
    ensures Parse(s) == 0
  {
    if s != "" {
      ZeroesAreZero(s[..|s| - 1]);
    }
  }

  /** Where no two candidates have the same stop time or LSN, that is exactly a catalog in their order. */
  lemma ClosestExactlyWhenSorted(m: Measure, backups: seq<Backup>, timeline: int)
    requires Catalogued(backups)
    requires forall i, j ::
      0 <= i < j < |backups| && Candidate(m, backups[i], timeline) && Candidate(m, backups[j], timeline) ==>
      KeyOf(m, backups[i]) != KeyOf(m, backups[j])
    ensures (forall target :: ClosestAt(m, backups, timeline, target)) <==>
      forall i, j ::
        0 <= i < j < |backups| && Candidate(m, backups[i], timeline) && Candidate(m, backups[j], timeline) ==>
        KeyOf(m, backups[i]).value <= KeyOf(m, backups[j]).value
  {
    hide ClosestAt;
    ClosestExactly(m, backups, timeline);
    forall i: nat, j: nat | Inverted(m, backups, timeline, i, j)
      ensures !MadeUpFor(m, backups, timeline, i, j)
    {
    }
    if forall i, j :: Inverted(m, backups, timeline, i, j) ==> MadeUpFor(m, backups, timeline, i, j) {
      forall i: nat, j: nat |
        i < j < |backups| && Candidate(m, backups[i], timeline) && Candidate(m, backups[j], timeline)
        ensures KeyOf(m, backups[i]).value <= KeyOf(m, backups[j]).value
      {
        assert !Inverted(m, backups, timeline, i, j);
      }
    }
  }

  // ----- Identifiers and timelines -----

  /** Where identifiers are distinct, the identifier of a selected backup selects the same backup again. */
  lemma SelectedIDFindsSelection(backups: seq<Backup>, timeline: int, bound: Bound, k: nat)
    requires Catalogued(backups) && LastEligible(backups, timeline, bound).Some?
    requires forall i, j :: 0 <= i < j < |backups| ==> backups[i].id != backups[j].id
    ensures
      var i := LastEligible(backups, timeline, bound).value;
      FirstWithID(backups, backups[i].id, k) <==> k == i
  {
    hide LastEligible;
  }

  /** On the name of a WAL segment, the starting timeline is the segment's. */
  lemma StartTimelineIsTheSegments(b: Backup)
    requires WalSegment.SegmentFromBase(b.walStart).Some?
    ensures |b.walStart| >= 8
    ensures b.StartTimeline() == Some(WalSegment.SegmentFromBase(b.walStart).value.tli)
  {
  }
}

/**
 * The "me vs. me" hiking-history analytics: one footprint's records grouped by path,
 * the groups ordered by their latest record and paged, each group summarised by the
 * difference between its two latest attempts and its five latest records; the records
 * of one path in a date range; and the comparison of one or two chosen records.
 *
 * Response DTOs (`TodayHikingResultResponseDto`, `PathResponseDto`,
 * `MountainResponseDto`) are represented by the entities they are built from.
 */
module HikingHistoryService {
  import opened Wrappers
  import opened Sorting
  import opened Records
  import opened HikingHistoryRepository

  /** `AccessDeniedException`, `NotFoundException` and `IllegalArgumentException`. */
  datatype Error = AccessDenied | NotFound | InvalidArgument

  /**
   * `DiffResponseDto` without its growth status, which is a function of `timeDiff`
   * alone.
   */
  datatype Diff = Diff(timeDiff: int, maxHeartRateDiff: int, avgHeartRateDiff: int)

  /** One entry of the path-keyed map built by `groupingBy`. */
  datatype Group = Group(pathId: int, records: seq<History>)

  /** `HikingHistoryWithPathResponseDto`. */
  datatype PathSummary = PathSummary(pathId: int, result: Option<Diff>, records: seq<History>)

  /** `HikingHistoryResponseDto`: the mountain and one page of path summaries out of `total` groups. */
  datatype Overview = Overview(mountainId: int, total: nat, content: seq<PathSummary>)

  /** `HikingRecordsForGraphResponseDto`. */
  datatype PeriodRecords = PeriodRecords(isExceed: bool, records: seq<History>)

  /** `HikingRecordsByPeriodResponseDto`. */
  datatype Comparison = Comparison(records: seq<History>, result: Option<Diff>)

  /** How many records a summary or a period query shows. */
  const RecentLimit: nat := 5

  // ---------------------------------------------------------------------------
  // Differences between two attempts
  // ---------------------------------------------------------------------------

  /** Java's `(int)` cast of a `double`: truncation toward zero. */
  function TruncateTowardZero(x: real): (r: int)
    ensures 0.0 <= x ==> r as real <= x < r as real + 1.0
    ensures x < 0.0 ==> r as real - 1.0 < x <= r as real
  {
    if x >= 0.0 then x.Floor else -((-x).Floor)
  }

  /** The difference of `later` over `earlier` in time and heart rate. */
  function DiffOf(later: History, earlier: History): (d: Diff)
    ensures earlier.hikingTime + d.timeDiff == later.hikingTime
    ensures earlier.maxHeartRate + d.maxHeartRateDiff == later.maxHeartRate
    ensures var x := later.averageHeartRate - earlier.averageHeartRate;
      && (0.0 <= x ==> 0 <= d.avgHeartRateDiff && d.avgHeartRateDiff as real <= x < d.avgHeartRateDiff as real + 1.0)
      && (x < 0.0 ==> d.avgHeartRateDiff <= 0 && d.avgHeartRateDiff as real - 1.0 < x <= d.avgHeartRateDiff as real)
  {
    Diff(
      later.hikingTime - earlier.hikingTime,
      later.maxHeartRate - earlier.maxHeartRate,
      TruncateTowardZero(later.averageHeartRate - earlier.averageHeartRate))
  }

  /** Swapping the two records negates every difference. */
  lemma DiffOfSwapped(a: History, b: History)
    ensures DiffOf(b, a) == Diff(-DiffOf(a, b).timeDiff, -DiffOf(a, b).maxHeartRateDiff, -DiffOf(a, b).avgHeartRateDiff)
  {
    var x := a.averageHeartRate - b.averageHeartRate;
    assert b.averageHeartRate - a.averageHeartRate == -x;
    if x > 0.0 {
      assert TruncateTowardZero(-x) == -((--x).Floor);
      assert --x == x;
    }
  }

  // ---------------------------------------------------------------------------
  // Grouping by path
  // ---------------------------------------------------------------------------

  /** The distinct path ids of `s` in the order they first occur (the `LinkedHashMap`'s keys). */
  function PathOrder(s: seq<History>): (keys: seq<int>)
    ensures forall i, j :: 0 <= i < j < |keys| ==> keys[i] != keys[j]
    ensures forall h :: h in s ==> h.pathId in keys
  {
    if s == [] then []
    else
      var keys, last := PathOrder(s[..|s| - 1]), s[|s| - 1];
      assert s == s[..|s| - 1] + [last];
      if last.pathId in keys then keys else keys + [last.pathId]
  }

  /** Every key is the path of some record. */
  lemma {:induction false} PathOrderKeysOccur(s: seq<History>)
    ensures forall p :: p in PathOrder(s) ==> exists h :: h in s && h.pathId == p
  {
    if s != [] {
      var init, last := s[..|s| - 1], s[|s| - 1];
      assert s == init + [last];
      PathOrderKeysOccur(init);
      forall p | p in PathOrder(s) ensures exists h :: h in s && h.pathId == p {
        if p in PathOrder(init) {
          var h :| h in init && h.pathId == p;
          assert h in s;
        } else {
          assert last in s && last.pathId == p;
        }
      }
    }
  }

  /**
   * The keys come in order of first occurrence: a record of a later key is preceded by
   * a record of every earlier key.
   */
  lemma {:induction false} PathOrderIsFirstOccurrence(s: seq<History>)
    ensures forall i, j, k :: 0 <= i < j < |PathOrder(s)| && 0 <= k < |s| && s[k].pathId == PathOrder(s)[j] ==>
      exists l :: 0 <= l < k && s[l].pathId == PathOrder(s)[i]
  {
    if s != [] {
      var init := s[..|s| - 1];
      PathOrderIsFirstOccurrence(init);
      PathOrderKeysOccur(init);
      var before, keys := PathOrder(init), PathOrder(s);
      assert forall t :: 0 <= t < |init| ==> s[t] == init[t];
      forall i, j, k | 0 <= i < j < |keys| && 0 <= k < |s| && s[k].pathId == keys[j]
        ensures exists l :: 0 <= l < k && s[l].pathId == keys[i]
      {
        assert keys[i] == before[i] && before[i] in before;
        if k < |init| {
          assert init[k] in init;
          assert j < |before|;
          assert keys[j] == before[j];
          var m :| 0 <= m < k && init[m].pathId == before[i];
          assert s[m].pathId == keys[i];
        } else {
          var h :| h in init && h.pathId == before[i];
          var l :| 0 <= l < |init| && init[l] == h;
          assert s[l].pathId == keys[i];
        }
      }
    }
  }

  /** The condition of one group: the record is on path `p`. */
  function OnPath(p: int): (onPath: History -> bool) {
    (h: History) => h.pathId == p
  }

  /**
   * The records of `s` on path `p`, in their order in `s` (one list of the map's values):
   * a filter, so `FilterConcat` and `FilterOne` fix the order.
   */
  function RecordsOnPath(s: seq<History>, p: int): (r: seq<History>)
    ensures forall h :: h in r <==> h in s && h.pathId == p
    ensures forall h :: multiset(r)[h] == if h.pathId == p then multiset(s)[h] else 0
    ensures SortedBy(s, OldestFirst) ==> SortedBy(r, OldestFirst)
  {
    var r := Filter(s, OnPath(p));
    assert SortedBy(s, OldestFirst) ==> SortedBy(r, OldestFirst) by {
      if SortedBy(s, OldestFirst) {
        FilterKeepsSorted(s, OnPath(p), OldestFirst);
      }
    }
    r
  }

  /** A record in front joins its path's list at the front, ahead of the others. */
  lemma RecordsOnPathCons(x: History, t: seq<History>, p: int)
    ensures RecordsOnPath([x] + t, p) == (if x.pathId == p then [x] else []) + RecordsOnPath(t, p)
  {
    var s := [x] + t;
    assert s[0] == x && s[1..] == t;
  }

  /** One group per key, in the order of `keys`. */
  function GroupsFor(keys: seq<int>, s: seq<History>): (gs: seq<Group>)
    ensures |gs| == |keys|
    ensures forall i :: 0 <= i < |gs| ==> gs[i].pathId == keys[i] && gs[i].records == RecordsOnPath(s, keys[i])
  {
    if keys == [] then [] else [Group(keys[0], RecordsOnPath(s, keys[0]))] + GroupsFor(keys[1..], s)
  }

  /**
   * `groupingBy(HikingHistory::getPath, LinkedHashMap::new, toList())`: one group per
   * path, in order of first occurrence, each holding that path's records in input order.
   */
  function GroupByPath(s: seq<History>): (gs: seq<Group>)
    ensures forall i, j :: 0 <= i < j < |gs| ==> gs[i].pathId != gs[j].pathId
    ensures forall i :: 0 <= i < |gs| ==> gs[i].records != []
    ensures SortedBy(s, OldestFirst) ==> forall i :: 0 <= i < |gs| ==> SortedBy(gs[i].records, OldestFirst)
  {
    var keys := PathOrder(s);
    var gs := GroupsFor(keys, s);
    PathOrderKeysOccur(s);
    assert forall i :: 0 <= i < |gs| ==> gs[i].records != [] by {
      forall i | 0 <= i < |gs| ensures gs[i].records != [] {
        assert keys[i] in keys;
        var h :| h in s && h.pathId == keys[i];
        assert h in gs[i].records;
      }
    }
    gs
  }

  /**
   * A record is in a group exactly when it has the group's path, and every record has
   * a group.
   */
  lemma GroupByPathMembership(s: seq<History>)
    ensures var gs := GroupByPath(s);
      forall i, h :: 0 <= i < |gs| ==> (h in gs[i].records <==> h in s && h.pathId == gs[i].pathId)
    ensures var gs := GroupByPath(s);
      forall h :: h in s ==> exists i :: 0 <= i < |gs| && gs[i].pathId == h.pathId
  {
    var gs, keys := GroupByPath(s), PathOrder(s);
    assert gs == GroupsFor(keys, s);
    forall h | h in s ensures exists i :: 0 <= i < |gs| && gs[i].pathId == h.pathId {
      var i :| 0 <= i < |keys| && keys[i] == h.pathId;
      assert gs[i].pathId == h.pathId;
    }
  }

  /**
   * The groups come in the order their paths first occur (the `LinkedHashMap`'s
   * insertion order): a record of a later group's path is preceded by a record of
   * every earlier group's path.
   */
  lemma GroupByPathInFirstOccurrenceOrder(s: seq<History>)
    ensures forall i, j, k :: 0 <= i < j < |GroupByPath(s)| && 0 <= k < |s| && s[k].pathId == GroupByPath(s)[j].pathId ==>
      exists l :: 0 <= l < k && s[l].pathId == GroupByPath(s)[i].pathId
  {
    var gs, keys := GroupByPath(s), PathOrder(s);
    assert gs == GroupsFor(keys, s);
    PathOrderIsFirstOccurrence(s);
    forall i, j, k | 0 <= i < j < |gs| && 0 <= k < |s| && s[k].pathId == gs[j].pathId
      ensures exists l :: 0 <= l < k && s[l].pathId == gs[i].pathId
    {
      assert gs[i].pathId == keys[i] && gs[j].pathId == keys[j];
    }
  }

  /** All records of `gs`, group after group. */
  function Flatten(gs: seq<Group>): (s: seq<History>) {
    if gs == [] then [] else gs[0].records + Flatten(gs[1..])
  }

  lemma {:induction false} FlattenNoRecords(keys: seq<int>)
    ensures Flatten(GroupsFor(keys, [])) == []
  {
    if keys != [] {
      assert GroupsFor(keys, [])[1..] == GroupsFor(keys[1..], []);
      FlattenNoRecords(keys[1..]);
    }
  }

  /** Adding record `x` in front of `t` adds it to the group of its path, if that path is a key. */
  /** The first group's records come first in the flattening. */
  lemma FlattenFirstGroup(keys: seq<int>, s: seq<History>)
    requires keys != []
    ensures multiset(Flatten(GroupsFor(keys, s)))
         == multiset(RecordsOnPath(s, keys[0])) + multiset(Flatten(GroupsFor(keys[1..], s)))
  {
    var gs := GroupsFor(keys, s);
    assert gs[1..] == GroupsFor(keys[1..], s);
    assert Flatten(gs) == gs[0].records + Flatten(gs[1..]);
  }

  lemma {:induction false} FlattenOneMore(keys: seq<int>, x: History, t: seq<History>)
    requires forall i, j :: 0 <= i < j < |keys| ==> keys[i] != keys[j]
    ensures multiset(Flatten(GroupsFor(keys, [x] + t)))
         == multiset(Flatten(GroupsFor(keys, t))) + if x.pathId in keys then multiset{x} else multiset{}
  {
    if keys != [] {
      var front := if x.pathId == keys[0] then multiset{x} else multiset{};
      var later := if x.pathId in keys[1..] then multiset{x} else multiset{};
      var here, rest := multiset(RecordsOnPath(t, keys[0])), multiset(Flatten(GroupsFor(keys[1..], t)));
      assert front + later == if x.pathId in keys then multiset{x} else multiset{} by {
        assert x.pathId == keys[0] ==> x.pathId !in keys[1..];
        assert x.pathId in keys <==> x.pathId == keys[0] || x.pathId in keys[1..];
      }
      calc {
        multiset(Flatten(GroupsFor(keys, [x] + t)));
        { FlattenFirstGroup(keys, [x] + t); }
        multiset(RecordsOnPath([x] + t, keys[0])) + multiset(Flatten(GroupsFor(keys[1..], [x] + t)));
        { RecordsOnPathCons(x, t, keys[0]); FlattenOneMore(keys[1..], x, t); }
        (front + here) + (rest + later);
        (here + rest) + (front + later);
        { FlattenFirstGroup(keys, t); }
        multiset(Flatten(GroupsFor(keys, t))) + (front + later);
      }
    }
  }

  lemma {:induction false} FlattenAll(keys: seq<int>, s: seq<History>)
    requires forall i, j :: 0 <= i < j < |keys| ==> keys[i] != keys[j]
    requires forall h :: h in s ==> h.pathId in keys
    ensures multiset(Flatten(GroupsFor(keys, s))) == multiset(s)
  {
    if s == [] {
      FlattenNoRecords(keys);
    } else {
      assert s == [s[0]] + s[1..];
      FlattenOneMore(keys, s[0], s[1..]);
      FlattenAll(keys, s[1..]);
    }
  }

  /** Grouping by path keeps every record exactly once. */
  lemma GroupByPathKeepsEveryRecordOnce(s: seq<History>)
    ensures multiset(Flatten(GroupByPath(s))) == multiset(s)
  {
    FlattenAll(PathOrder(s), s);
  }

  // ---------------------------------------------------------------------------
  // Ordering the groups and paging over them
  // ---------------------------------------------------------------------------

  /** The `createdAt` of a group's last record, as the comparator of the group sort reads it. */
  function Latest(g: Group): (t: int) {
    if g.records == [] then 0 else g.records[|g.records| - 1].createdAt
  }

  /** Sort key of the group sort: latest record first. */
  function NewestGroupFirst(g: Group): (k: int) {
    -Latest(g)
  }

  /** In a sequence sorted oldest first, the last record is the latest. */
  lemma LastIsLatest(rs: seq<History>)
    requires rs != [] && SortedBy(rs, OldestFirst)
    ensures forall h :: h in rs ==> h.createdAt <= rs[|rs| - 1].createdAt
  {
    forall h | h in rs ensures h.createdAt <= rs[|rs| - 1].createdAt {
      var k :| 0 <= k < |rs| && rs[k] == h;
      assert k < |rs| - 1 ==> OldestFirst(rs[k]) <= OldestFirst(rs[|rs| - 1]);
    }
  }

  /** In a sequence sorted newest first, the first record is the latest. */
  lemma FirstIsLatest(rs: seq<History>)
    requires rs != [] && SortedBy(rs, NewestFirst)
    ensures forall h :: h in rs ==> h.createdAt <= rs[0].createdAt
  {
    forall h | h in rs ensures h.createdAt <= rs[0].createdAt {
      var k :| 0 <= k < |rs| && rs[k] == h;
      assert 0 < k ==> NewestFirst(rs[0]) <= NewestFirst(rs[k]);
    }
  }

  /**
   * When the input is in ascending `createdAt` order, the `createdAt` of a group's last
   * record, which the group sort compares, is the latest of the group.
   */
  lemma LatestIsGroupMaximum(s: seq<History>, i: nat)
    requires SortedBy(s, OldestFirst)
    requires i < |GroupByPath(s)|
    ensures var g := GroupByPath(s)[i];
      && (exists h :: h in g.records && h.createdAt == Latest(g))
      && forall h :: h in g.records ==> h.createdAt <= Latest(g)
  {
    var rs := GroupByPath(s)[i].records;
    assert rs != [] && SortedBy(rs, OldestFirst);
    LastIsLatest(rs);
    assert rs[|rs| - 1] in rs;
  }

  /** The groups of `s` after the sort in place on the latest `createdAt`, descending. */
  function OrderedGroups(s: seq<History>): (gs: seq<Group>)
    ensures multiset(gs) == multiset(GroupByPath(s))
    ensures forall i, j :: 0 <= i < j < |gs| ==> Latest(gs[i]) >= Latest(gs[j])
  {
    var gs := SortByKey(GroupByPath(s), NewestGroupFirst);
    assert forall i, j :: 0 <= i < j < |gs| ==> NewestGroupFirst(gs[i]) <= NewestGroupFirst(gs[j]);
    gs
  }

  /**
   * The offset/limit window over `total` groups: page `pageNumber` of size `pageSize`
   * is `[pageNumber * pageSize, (pageNumber + 1) * pageSize)` clamped to `total`.
   */
  function PageWindow(total: nat, pageNumber: nat, pageSize: nat): (w: (nat, nat))
    ensures w.0 <= w.1 <= total
    ensures w.1 - w.0 <= pageSize
    ensures pageNumber * pageSize >= total ==> w.0 == w.1 == total
    ensures pageNumber * pageSize < total ==>
      w.0 == pageNumber * pageSize && w.1 == Min((pageNumber + 1) * pageSize, total)
  {
    var start := Min(pageNumber * pageSize, total);
    assert (pageNumber + 1) * pageSize == pageNumber * pageSize + pageSize;
    (start, Min(start + pageSize, total))
  }

  // ---------------------------------------------------------------------------
  // Summarising one group
  // ---------------------------------------------------------------------------

  /** The diff of a group: its latest record over its second latest, when it has two. */
  function OverviewDiff(records: seq<History>): (r: Option<Diff>)
    ensures r.Some? <==> |records| >= 2
  {
    if |records| >= 2 then
      var d := SortByKey(records, NewestFirst);
      Some(DiffOf(d[0], d[1]))
    else None
  }

  /**
   * The overview's diff subtracts the second-latest record from the latest: `latest`
   * has the greatest `createdAt` of the group and `second` the greatest of the others.
   */
  lemma OverviewDiffIsLatestOverSecondLatest(records: seq<History>) returns (latest: History, second: History)
    requires |records| >= 2
    ensures latest in records
    ensures second in multiset(records) - multiset{latest}
    ensures forall h :: h in records ==> h.createdAt <= latest.createdAt
    ensures forall h :: h in multiset(records) - multiset{latest} ==> h.createdAt <= second.createdAt
    ensures OverviewDiff(records) == Some(DiffOf(latest, second))
  {
    var d := SortByKey(records, NewestFirst);
    latest, second := d[0], d[1];
    assert d == [d[0]] + d[1..];
    assert multiset(records) - multiset{d[0]} == multiset(d[1..]);
    assert d[1] in d[1..];
    FirstIsLatest(d);
    assert SortedBy(d[1..], NewestFirst);
    FirstIsLatest(d[1..]);
    assert forall h :: h in multiset(records) - multiset{d[0]} ==> h in d[1..];
  }

  /** The latest `RecentLimit` records of a group, re-ordered oldest first. */
  function MostRecent(records: seq<History>): (r: seq<History>)
    ensures |r| == Min(RecentLimit, |records|)
    ensures SortedBy(r, OldestFirst)
    ensures multiset(r) <= multiset(records)
    ensures forall x, y :: x in r && y in multiset(records) - multiset(r) ==> y.createdAt <= x.createdAt
  {
    var d := SortByKey(records, NewestFirst);
    var k := Min(RecentLimit, |d|);
    PrefixOfNewestFirstIsNewest(d, k);
    SortByKey(d[..k], OldestFirst)
  }

  /** A prefix of a newest-first sequence holds records no older than any of the rest. */
  lemma PrefixOfNewestFirstIsNewest(d: seq<History>, k: nat)
    requires k <= |d|
    requires SortedBy(d, NewestFirst)
    ensures multiset(d) - multiset(d[..k]) == multiset(d[k..])
    ensures forall x, y :: x in d[..k] && y in d[k..] ==> y.createdAt <= x.createdAt
  {
    assert d == d[..k] + d[k..];
    forall x, y | x in d[..k] && y in d[k..] ensures y.createdAt <= x.createdAt {
      var i :| 0 <= i < k && d[i] == x;
      var j :| k <= j < |d| && d[j] == y;
      assert NewestFirst(d[i]) <= NewestFirst(d[j]);
    }
  }

  /** The response entry of one group. */
  function Summarize(g: Group): (summary: PathSummary)
    ensures summary.pathId == g.pathId
    ensures summary.result.Some? <==> |g.records| >= 2
    ensures |summary.records| == Min(RecentLimit, |g.records|)
    ensures multiset(summary.records) <= multiset(g.records)
    ensures SortedBy(summary.records, OldestFirst)
  {
    PathSummary(g.pathId, OverviewDiff(g.records), MostRecent(g.records))
  }

  function Summaries(gs: seq<Group>): (r: seq<PathSummary>)
    ensures |r| == |gs|
    ensures forall i :: 0 <= i < |gs| ==> r[i].pathId == gs[i].pathId
    ensures forall i :: 0 <= i < |gs| ==> (r[i].result.Some? <==> |gs[i].records| >= 2)
    ensures forall i :: 0 <= i < |gs| ==> |r[i].records| == Min(RecentLimit, |gs[i].records|)
  {
    seq(|gs|, i requires 0 <= i < |gs| => Summarize(gs[i]))
  }

  // ---------------------------------------------------------------------------
  // The three queries
  // ---------------------------------------------------------------------------

  /**
   * `getHikingHistory`: one page of the footprint's path groups, latest group first,
   * for the footprint's owner only. `fp` is the footprint `getFootprint` loaded.
   */
  method GetHikingHistory(userId: int, fp: Footprint, db: seq<History>, pageNumber: nat, pageSize: nat)
    returns (r: Result<Overview, Error>)
    ensures r.Failure? <==> fp.ownerId != userId
    ensures r.Failure? ==> r.error == AccessDenied
    ensures r.Success? ==>
      var groups := OrderedGroups(FindAllByFootprintIdOrderByCreatedAtAsc(db, fp.id));
      var w := PageWindow(|groups|, pageNumber, pageSize);
      && r.value.mountainId == fp.mountainId
      && r.value.total == |groups|
      && r.value.content == Summaries(groups[w.0..w.1])
    ensures r.Success? ==> |r.value.content| <= pageSize
  {
    if fp.ownerId != userId {
      return Failure(AccessDenied);
    }
    var all := FindAllByFootprintIdOrderByCreatedAtAsc(db, fp.id);
    var ordered := SortGroups(GroupByPath(all));
    var total := |ordered|;
    var w := PageWindow(total, pageNumber, pageSize);
    r := Success(Overview(fp.mountainId, total, Summaries(ordered[w.0..w.1])));
  }

  /** The sort of the grouped entries in place, latest group first, on a list of its own. */
  method SortGroups(grouped: seq<Group>) returns (ordered: seq<Group>)
    ensures ordered == SortByKey(grouped, NewestGroupFirst)
  {
    var groupedList := new Group[|grouped|](i requires 0 <= i < |grouped| => grouped[i]);
    assert groupedList[..] == grouped;
    SortInPlace(groupedList, NewestGroupFirst);
    ordered := groupedList[..];
  }

  /**
   * `getHikingRecordsByPeriod`: the footprint's records on one path from the start of
   * `startDay` to the end of `endDay`, cut down to the latest `RecentLimit`.
   */
  function GetHikingRecordsByPeriod(userId: int, fp: Footprint, db: seq<History>, pathId: int, startDay: int, endDay: int)
    : (r: Result<PeriodRecords, Error>)
    ensures r.Failure? <==> fp.ownerId != userId
    ensures r.Failure? ==> r.error == AccessDenied
    ensures r.Success? ==>
      var found := FindHistories(db, fp.id, pathId, StartOfDay(startDay), EndOfDay(endDay));
      && (r.value.isExceed <==> |found| > RecentLimit)
      && |r.value.records| == Min(RecentLimit, |found|)
      && r.value.records == found[|found| - |r.value.records|..]
  {
    if fp.ownerId != userId then Failure(AccessDenied)
    else
      var histories := FindHistories(db, fp.id, pathId, StartOfDay(startDay), EndOfDay(endDay));
      var isExceed := |histories| > RecentLimit;
      Success(PeriodRecords(isExceed, if isExceed then histories[|histories| - RecentLimit..] else histories))
  }

  /**
   * The period query returns records of the footprint on the path and within the days
   * asked for, oldest first.
   */
  lemma PeriodRecordsAreInRange(userId: int, fp: Footprint, db: seq<History>, pathId: int, startDay: int, endDay: int)
    requires fp.ownerId == userId
    ensures var r := GetHikingRecordsByPeriod(userId, fp, db, pathId, startDay, endDay);
      && r.Success?
      && SortedBy(r.value.records, OldestFirst)
      && forall h :: h in r.value.records ==>
           h in db && h.footprint.id == fp.id && h.pathId == pathId && startDay <= h.createdAt / NanosPerDay <= endDay
  {
    var r := GetHikingRecordsByPeriod(userId, fp, db, pathId, startDay, endDay);
    var found := FindHistories(db, fp.id, pathId, StartOfDay(startDay), EndOfDay(endDay));
    var n := |found| - |r.value.records|;
    assert r.value.records == found[n..];
    forall h | h in r.value.records
      ensures h in db && h.footprint.id == fp.id && h.pathId == pathId && startDay <= h.createdAt / NanosPerDay <= endDay
    {
      assert h in found;
      assert multiset(found)[h] > 0;
      DayBounds(startDay, endDay, h.createdAt);
    }
  }

  /** None of the records the period query leaves out is later than one it returns. */
  lemma PeriodRecordsAreTheLatest(userId: int, fp: Footprint, db: seq<History>, pathId: int, startDay: int, endDay: int)
    requires fp.ownerId == userId
    ensures var r := GetHikingRecordsByPeriod(userId, fp, db, pathId, startDay, endDay);
      var found := FindHistories(db, fp.id, pathId, StartOfDay(startDay), EndOfDay(endDay));
      && r.Success?
      && forall x, y :: x in r.value.records && y in found[..|found| - |r.value.records|] ==> y.createdAt <= x.createdAt
  {
    var r := GetHikingRecordsByPeriod(userId, fp, db, pathId, startDay, endDay);
    var found := FindHistories(db, fp.id, pathId, StartOfDay(startDay), EndOfDay(endDay));
    SuffixOfOldestFirstIsLatest(found, |found| - |r.value.records|);
  }

  /** A suffix of an oldest-first sequence holds records no older than any before it. */
  lemma SuffixOfOldestFirstIsLatest(s: seq<History>, n: nat)
    requires n <= |s| && SortedBy(s, OldestFirst)
    ensures forall x, y :: x in s[n..] && y in s[..n] ==> y.createdAt <= x.createdAt
  {
    forall x, y | x in s[n..] && y in s[..n] ensures y.createdAt <= x.createdAt {
      var i :| n <= i < |s| && s[i] == x;
      var j :| 0 <= j < n && s[j] == y;
      assert OldestFirst(s[j]) <= OldestFirst(s[i]);
    }
  }

  /** `forEach` owner check of `compareByRecordIds`: whether every record belongs to `userId`. */
  method AllOwnedBy(histories: seq<History>, userId: int) returns (owned: bool)
    ensures owned <==> forall h :: h in histories ==> h.footprint.ownerId == userId
  {
    var i := 0;
    while i < |histories|
      invariant 0 <= i <= |histories|
      invariant forall k :: 0 <= k < i ==> histories[k].footprint.ownerId == userId
    {
      if histories[i].footprint.ownerId != userId {
        return false;
      }
      i := i + 1;
    }
    return true;
  }

  /** The diff of a comparison: the second record over the first, when there are two. */
  function ComparisonDiff(records: seq<History>): (r: Option<Diff>)
    ensures r.Some? <==> |records| == 2
  {
    if |records| == 2 then Some(DiffOf(records[1], records[0])) else None
  }

  /**
   * `compareByRecordIds`: one or two records of the caller, oldest first, with the
   * diff of the later over the earlier when there are two.
   */
  method CompareByRecordIds(userId: int, ids: seq<int>, db: seq<History>) returns (r: Result<Comparison, Error>)
    ensures r == Failure(InvalidArgument) <==> !(1 <= |ids| <= 2)
    ensures r == Failure(NotFound) <==> 1 <= |ids| <= 2 && |FindAllById(db, ids)| != |ids|
    ensures r == Failure(AccessDenied) <==>
      && 1 <= |ids| <= 2 && |FindAllById(db, ids)| == |ids|
      && exists h :: h in FindAllById(db, ids) && h.footprint.ownerId != userId
    ensures r.Success? <==>
      && 1 <= |ids| <= 2 && |FindAllById(db, ids)| == |ids|
      && forall h :: h in FindAllById(db, ids) ==> h.footprint.ownerId == userId
    ensures r.Success? ==>
      var found := FindAllById(db, ids);
      && r.value.records == SortByKey(found, OldestFirst)
      && (r.value.result.Some? <==> |ids| == 2)
      && (|ids| == 2 ==>
            r.value.records[0].createdAt <= r.value.records[1].createdAt
            && r.value.result == Some(DiffOf(r.value.records[1], r.value.records[0])))
  {
    if |ids| < 1 || |ids| > 2 {
      return Failure(InvalidArgument);
    }
    var histories := FindAllById(db, ids);
    if |histories| != |ids| {
      return Failure(NotFound);
    }
    var owned := AllOwnedBy(histories, userId);
    if !owned {
      return Failure(AccessDenied);
    }
    var sorted := new History[|histories|](i requires 0 <= i < |histories| => histories[i]);
    assert sorted[..] == histories;
    SortInPlace(sorted, OldestFirst);
    var records := sorted[..];
    r := Success(Comparison(records, ComparisonDiff(records)));
  }

  /**
   * The overview and the comparison use the same sign convention: for two records with
   * different timestamps, both subtract the earlier from the later, whatever the order
   * they arrive in.
   */
  lemma DiffSitesAgree(a: History, b: History)
    requires a.createdAt < b.createdAt
    ensures OverviewDiff([a, b]) == Some(DiffOf(b, a))
    ensures OverviewDiff([b, a]) == Some(DiffOf(b, a))
    ensures ComparisonDiff(SortByKey([a, b], OldestFirst)) == Some(DiffOf(b, a))
    ensures ComparisonDiff(SortByKey([b, a], OldestFirst)) == Some(DiffOf(b, a))
  {
    SortTwo(a, b, NewestFirst);
    SortTwo(b, a, NewestFirst);
    SortTwo(a, b, OldestFirst);
    SortTwo(b, a, OldestFirst);
  }

  /**
   * On two records with equal timestamps the stable sorts keep their arrival order, so
   * the two sites subtract in opposite directions.
   */
  lemma DiffSitesOnEqualTimestamps(a: History, b: History)
    requires a.createdAt == b.createdAt
    ensures OverviewDiff([a, b]) == Some(DiffOf(a, b))
    ensures ComparisonDiff(SortByKey([a, b], OldestFirst)) == Some(DiffOf(b, a))
  {
    SortTwo(a, b, NewestFirst);
    SortTwo(a, b, OldestFirst);
  }
}

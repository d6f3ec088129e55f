/**
 * The hiking-history queries over the stored records `db`: each, except `findAllById`,
 * is a filter followed by a sort; `findAllById` has no `ORDER BY` and is a filter alone.
 *
 * A query's `WHERE` clause becomes a predicate on one record and its `ORDER BY` a sort
 * key; the database may return rows with equal timestamps, or the rows of `findAllById`,
 * in any order, and the model fixes one (the order of `db`).
 */
module HikingHistoryRepository {
  import opened Wrappers
  import opened Sorting
  import opened Records

  /** The `WHERE` clause of `findHistories`; `between` is inclusive at both ends. */
  predicate InPeriod(h: History, footprintId: int, pathId: int, start: int, end: int) {
    h.footprint.id == footprintId && h.pathId == pathId && start <= h.createdAt <= end
  }

  function InPeriodOf(footprintId: int, pathId: int, start: int, end: int): (p: History -> bool) {
    h => InPeriod(h, footprintId, pathId, start, end)
  }

  /** The `WHERE` clause shared by `findLatestRecord` and `findOpponentHistories`. */
  predicate OnUserPath(h: History, userId: int, mountainId: int, pathId: int) {
    h.footprint.ownerId == userId && h.footprint.mountainId == mountainId && h.pathId == pathId
  }

  function OnUserPathOf(userId: int, mountainId: int, pathId: int): (p: History -> bool) {
    h => OnUserPath(h, userId, mountainId, pathId)
  }

  function OwnedBy(userId: int): (p: History -> bool) {
    (h: History) => h.footprint.ownerId == userId
  }

  function InFootprint(footprintId: int): (p: History -> bool) {
    (h: History) => h.footprint.id == footprintId
  }

  function WithIdIn(ids: seq<int>): (p: History -> bool) {
    (h: History) => h.id in ids
  }

  /**
   * `findHistories`: the records of one footprint on one path created between `start`
   * and `end` inclusive, oldest first.
   */
  function FindHistories(db: seq<History>, footprintId: int, pathId: int, start: int, end: int): (r: seq<History>)
    ensures forall h :: h in r ==> h.footprint.id == footprintId && h.pathId == pathId && start <= h.createdAt <= end
    ensures forall h :: multiset(r)[h] == if InPeriod(h, footprintId, pathId, start, end) then multiset(db)[h] else 0
    ensures SortedBy(r, OldestFirst)
  {
    SortByKey(Filter(db, InPeriodOf(footprintId, pathId, start, end)), OldestFirst)
  }

  /**
   * `findOpponentHistories`: the records of one user on one path of one mountain,
   * newest first.
   */
  function FindOpponentHistories(db: seq<History>, userId: int, mountainId: int, pathId: int): (r: seq<History>)
    ensures forall h :: h in r ==> OnUserPath(h, userId, mountainId, pathId)
    ensures forall h :: multiset(r)[h] == if OnUserPath(h, userId, mountainId, pathId) then multiset(db)[h] else 0
    ensures forall i, j :: 0 <= i < j < |r| ==> r[i].createdAt >= r[j].createdAt
  {
    var r := SortByKey(Filter(db, OnUserPathOf(userId, mountainId, pathId)), NewestFirst);
    assert forall i, j :: 0 <= i < j < |r| ==> NewestFirst(r[i]) <= NewestFirst(r[j]);
    r
  }

  /**
   * `findLatestRecord`: the first row of `findOpponentHistories`' query (`limit 1`),
   * absent when there is none.
   */
  function FindLatestRecord(db: seq<History>, userId: int, mountainId: int, pathId: int): (r: Option<History>)
    ensures r.None? <==> forall h :: h in db ==> !OnUserPath(h, userId, mountainId, pathId)
    ensures r.Some? ==> r.value in db && OnUserPath(r.value, userId, mountainId, pathId)
    ensures r.Some? ==> forall h :: h in db && OnUserPath(h, userId, mountainId, pathId) ==> h.createdAt <= r.value.createdAt
  {
    var d := FindOpponentHistories(db, userId, mountainId, pathId);
    if d == [] then
      assert forall h :: h in db ==> !OnUserPath(h, userId, mountainId, pathId) by {
        forall h | h in db ensures !OnUserPath(h, userId, mountainId, pathId) {
          assert multiset(d)[h] == 0;
        }
      }
      None
    else
      assert multiset(d)[d[0]] > 0;
      assert forall h :: h in db && OnUserPath(h, userId, mountainId, pathId) ==> h.createdAt <= d[0].createdAt by {
        forall h | h in db && OnUserPath(h, userId, mountainId, pathId) ensures h.createdAt <= d[0].createdAt {
          assert multiset(d)[h] > 0;
          var k :| 0 <= k < |d| && d[k] == h;
        }
      }
      Some(d[0])
  }

  /** `findAllByUserIdOrderByCreatedAtDesc`: every record of the user's footprints, newest first. */
  function FindAllByUserIdOrderByCreatedAtDesc(db: seq<History>, userId: int): (r: seq<History>)
    ensures forall h :: h in r ==> h.footprint.ownerId == userId
    ensures forall h :: multiset(r)[h] == if h.footprint.ownerId == userId then multiset(db)[h] else 0
    ensures forall i, j :: 0 <= i < j < |r| ==> r[i].createdAt >= r[j].createdAt
  {
    var r := SortByKey(Filter(db, OwnedBy(userId)), NewestFirst);
    assert forall i, j :: 0 <= i < j < |r| ==> NewestFirst(r[i]) <= NewestFirst(r[j]);
    r
  }

  /** `findAllByFootprintIdOrderByCreatedAtAsc`: every record of one footprint, oldest first. */
  function FindAllByFootprintIdOrderByCreatedAtAsc(db: seq<History>, footprintId: int): (r: seq<History>)
    ensures forall h :: h in r ==> h.footprint.id == footprintId
    ensures forall h :: multiset(r)[h] == if h.footprint.id == footprintId then multiset(db)[h] else 0
    ensures SortedBy(r, OldestFirst)
  {
    SortByKey(Filter(db, InFootprint(footprintId)), OldestFirst)
  }

  /** `findAllById`: the stored records whose id is one of `ids`, each stored record once. */
  function FindAllById(db: seq<History>, ids: seq<int>): (r: seq<History>)
    ensures forall h :: h in r ==> h.id in ids
    ensures forall h :: multiset(r)[h] == if h.id in ids then multiset(db)[h] else 0
  {
    Filter(db, WithIdIn(ids))
  }
}

/**
 * `searchFriends`: the users with exactly a given nickname, other than the one asking,
 * each with whether they can be hiked against on a given path of a given mountain.
 */
module UserRepository {
  import opened Wrappers
  import opened Sorting
  import opened Records
  import opened HikingHistoryRepository

  /** The user columns the query selects; `isAgree` is a nullable `Boolean`. */
  datatype UserRow = UserRow(id: int, nickname: string, isAgree: Option<bool>, profileImage: string)

  /** `FriendInfoResponseDto`. */
  datatype FriendInfo = FriendInfo(userId: int, nickname: string, isPossible: bool, profileImg: string)

  /** The `exists()` subquery: the user has a record on the path of the mountain. */
  predicate HasHikingRecord(histories: seq<History>, userId: int, mountainId: int, pathId: int) {
    exists h :: h in histories && h.pathId == pathId && h.footprint.mountainId == mountainId && h.footprint.ownerId == userId
  }

  /** The subquery holds exactly when `findLatestRecord` finds a record of the user on the path of the mountain. */
  lemma HasHikingRecordIffLatestRecordExists(histories: seq<History>, userId: int, mountainId: int, pathId: int)
    ensures HasHikingRecord(histories, userId, mountainId, pathId) <==> FindLatestRecord(histories, userId, mountainId, pathId).Some?
  {
  }

  /** `isAgree != null && isAgree && hasHikingRecord`. */
  function IsPossible(isAgree: Option<bool>, hasHikingRecord: bool): (r: bool)
    ensures r <==> isAgree == Some(true) && hasHikingRecord
    ensures isAgree == None ==> !r
  {
    match isAgree
    case None => false
    case Some(agreed) => agreed && hasHikingRecord
  }

  /** The `WHERE` clause: exact nickname match, and not the excluded user. */
  function NamedOtherThan(nickname: string, excludeUserId: int): (p: UserRow -> bool) {
    (u: UserRow) => u.nickname == nickname && u.id != excludeUserId
  }

  /** The projection of one selected row to the response. */
  function ToFriendInfo(u: UserRow, histories: seq<History>, mountainId: int, pathId: int): (info: FriendInfo) {
    FriendInfo(u.id, u.nickname, IsPossible(u.isAgree, HasHikingRecord(histories, u.id, mountainId, pathId)), u.profileImage)
  }

  /**
   * `searchFriends` over the stored users and hiking records. The result has one entry
   * per selected user, in the order the users are stored.
   */
  function SearchFriends(users: seq<UserRow>, histories: seq<History>, nickname: string, mountainId: int, pathId: int, excludeUserId: int)
    : (r: seq<FriendInfo>)
    ensures |r| == |Filter(users, NamedOtherThan(nickname, excludeUserId))|
    ensures forall i :: 0 <= i < |r| ==> r[i].userId != excludeUserId && r[i].nickname == nickname
    ensures forall i :: 0 <= i < |r| ==>
      var u := Filter(users, NamedOtherThan(nickname, excludeUserId))[i];
      && r[i].userId == u.id && r[i].nickname == u.nickname && r[i].profileImg == u.profileImage
      && (r[i].isPossible <==> u.isAgree == Some(true) && HasHikingRecord(histories, u.id, mountainId, pathId))
    ensures forall u :: u in users && u.nickname == nickname && u.id != excludeUserId ==>
      ToFriendInfo(u, histories, mountainId, pathId) in r
  {
    var selected := Filter(users, NamedOtherThan(nickname, excludeUserId));
    var r := seq(|selected|, i requires 0 <= i < |selected| => ToFriendInfo(selected[i], histories, mountainId, pathId));
    assert forall u :: u in users && u.nickname == nickname && u.id != excludeUserId ==>
      ToFriendInfo(u, histories, mountainId, pathId) in r by {
      forall u | u in users && u.nickname == nickname && u.id != excludeUserId
        ensures ToFriendInfo(u, histories, mountainId, pathId) in r
      {
        var i :| 0 <= i < |selected| && selected[i] == u;
        assert r[i] == ToFriendInfo(u, histories, mountainId, pathId);
      }
    }
    r
  }
}

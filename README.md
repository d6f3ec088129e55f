# Ollana hiking history, friend search and authentication in Dafny

This project models the server core of Ollana, a hiking app. Users record attempts
("hiking histories") of mountain paths. Each history belongs to a footprint, which ties
one user to one mountain. The model covers four parts.

- **The hiking-history queries** (`HikingHistoryRepository`). Each, except
  `findAllById`, is a filter over the stored records followed by a stable sort on the
  creation time; `findAllById` is a filter alone.
- **The "me vs. me" analytics** (`HikingHistoryService`):
  - the overview of one footprint, grouped by path, ordered by each path's latest
    attempt and paged, where each path has the difference between its two latest
    attempts and its five latest records;
  - the records of one path in a date range, cut down to the latest five;
  - the comparison of one or two chosen records.
- **The friend search** (`UserRepository`). It returns the users with a given nickname
  and whether each can be raced against on a path.
- **Authentication** (`AuthService`): local signup and login, logout, and the Kakao
  login flow. Kakao is the social login; its flow answers with a deep link back into
  the app.

Supporting modules:

- `Sorting`: filtering, the stable sort used everywhere (`SortByKey`), and an
  in-place insertion sort on arrays that is proved to compute exactly `SortByKey`.
- `Records`: the stored entities and the day arithmetic on timestamps.
- `Wrappers`: `Option`, `Result` and `Outcome`.

Modelling choices:

- Timestamps are integers counting nanoseconds, so a day runs from `day * NanosPerDay`
  to `(day + 1) * NanosPerDay - 1`. This matches `atStartOfDay` and
  `atTime(LocalTime.MAX)`.
- The database is a sequence of rows.
- The authentication service is a class. Its fields are the user table, the
  refresh-token store, the access-token blacklist and the cookies written to responses.
- The password encoder, the JWT issuer, S3 and the Kakao token store are deterministic
  functions fixed when the service is built.
- The Kakao HTTP exchange (access code to token to profile) is replaced by the profile
  it yields, which is a parameter.
- A footprint that `getFootprint` loads is likewise a parameter.

Both diff sites subtract the earlier record from the later one, whatever order the
records arrive in (`DiffSitesAgree`). They differ only on two records with the same
timestamp. Both sorts are stable, so the overview then gives first minus second and the
comparison gives second minus first (`DiffSitesOnEqualTimestamps`).

## Model

| member | source | states |
|---|---|---|
| Sorting.Filter | back/ollana/src/main/java/com/ssafy/ollana/footprint/persistent/repository/HikingHistoryRepositoryImpl.java:29-33 | Keeps exactly the rows that satisfy the condition, each with its multiplicity. |
| Sorting.SortByKey | back/ollana/src/main/java/com/ssafy/ollana/footprint/service/HikingHistoryService.java:173 | The output is a permutation of the input in non-decreasing key order. |
| Sorting.FilterConcat | back/ollana/src/main/java/com/ssafy/ollana/user/repository/UserRepositoryImpl.java:48-51 | Filtering keeps order: filtering a concatenation filters each part in turn. |
| Sorting.FilterKeepsSorted | back/ollana/src/main/java/com/ssafy/ollana/footprint/service/HikingHistoryService.java:51-52 | Keeping some elements of a sorted sequence leaves it sorted, so the groups of an oldest-first list are oldest first. |
| Sorting.SortByKeyIsStable | back/ollana/src/main/java/com/ssafy/ollana/footprint/service/HikingHistoryService.java:173 | The sort is stable: for every key value, the elements with that key come out in the order they went in. |
| Sorting.SortTwo | back/ollana/src/main/java/com/ssafy/ollana/footprint/service/HikingHistoryService.java:173 | Two elements are swapped exactly when the second has the strictly smaller key, so ties keep their order. |
| Sorting.InsertInPlace | back/ollana/src/main/java/com/ssafy/ollana/footprint/service/HikingHistoryService.java:173 | One insertion pass in place moves the next element into the sorted prefix and leaves the rest of the array alone. |
| HikingHistoryService.SortGroups | back/ollana/src/main/java/com/ssafy/ollana/footprint/service/HikingHistoryService.java:58-62 | Sorting the grouped entries in a list of their own gives `SortByKey` of the groups, latest group first. |
| Sorting.SortInPlace | back/ollana/src/main/java/com/ssafy/ollana/footprint/service/HikingHistoryService.java:58-62 | The in-place sort of a list with a key comparator leaves the array equal to `SortByKey` of its old contents. |
| Records.StartOfDay | back/ollana/src/main/java/com/ssafy/ollana/footprint/service/HikingHistoryService.java:124 | The start of a day is the instant that lies in that day with no time past midnight. |
| Records.EndOfDay | back/ollana/src/main/java/com/ssafy/ollana/footprint/service/HikingHistoryService.java:125 | The end of a day lies in that day and is the last nanosecond before the next day starts. |
| Records.DayBounds | back/ollana/src/main/java/com/ssafy/ollana/footprint/service/HikingHistoryService.java:124-125 | A timestamp lies between the start of the first day and the end of the last day exactly when its day lies in that range. |
| HikingHistoryRepository.FindHistories | back/ollana/src/main/java/com/ssafy/ollana/footprint/persistent/repository/HikingHistoryRepositoryImpl.java:26-36 | Returns exactly the stored records of the footprint and path with `start <= createdAt <= end`, oldest first. |
| HikingHistoryRepository.FindLatestRecord | back/ollana/src/main/java/com/ssafy/ollana/footprint/persistent/repository/HikingHistoryRepositoryImpl.java:39-52 | Empty exactly when the user has no record on the path of the mountain; otherwise a stored record of theirs there with the greatest `createdAt`. |
| HikingHistoryRepository.FindOpponentHistories | back/ollana/src/main/java/com/ssafy/ollana/footprint/persistent/repository/HikingHistoryRepositoryImpl.java:55-66 | Returns exactly the user's stored records on the path of the mountain, newest first. |
| HikingHistoryRepository.FindAllByUserIdOrderByCreatedAtDesc | back/ollana/src/main/java/com/ssafy/ollana/footprint/persistent/repository/HikingHistoryRepositoryImpl.java:69-77 | Returns exactly the stored records of the user's footprints, newest first. |
| HikingHistoryRepository.FindAllByFootprintIdOrderByCreatedAtAsc | back/ollana/src/main/java/com/ssafy/ollana/footprint/service/HikingHistoryService.java:50 | Returns exactly the footprint's stored records, oldest first. |
| HikingHistoryRepository.FindAllById | back/ollana/src/main/java/com/ssafy/ollana/footprint/service/HikingHistoryService.java:159 | Returns each stored record whose id was asked for, once per stored row. |
| HikingHistoryService.TruncateTowardZero | back/ollana/src/main/java/com/ssafy/ollana/footprint/service/HikingHistoryService.java:82 | The `(int)` cast of a double lies within one of the value, on the side of zero. |
| HikingHistoryService.DiffOf | back/ollana/src/main/java/com/ssafy/ollana/footprint/service/HikingHistoryService.java:80-82 | The time and maximum heart-rate differences are exact, and the average difference is truncated toward zero. |
| HikingHistoryService.DiffOfSwapped | back/ollana/src/main/java/com/ssafy/ollana/footprint/service/HikingHistoryService.java:185-187 | Swapping the two records negates every difference, including the truncated one. |
| HikingHistoryService.PathOrder | back/ollana/src/main/java/com/ssafy/ollana/footprint/service/HikingHistoryService.java:51-52 | The keys of the grouping are distinct, and every path that occurs is among them. |
| HikingHistoryService.PathOrderKeysOccur | back/ollana/src/main/java/com/ssafy/ollana/footprint/service/HikingHistoryService.java:51-52 | Every key of the grouping is the path of some record, so the keys are exactly the paths that occur. |
| HikingHistoryService.RecordsOnPath | back/ollana/src/main/java/com/ssafy/ollana/footprint/service/HikingHistoryService.java:51-52 | A group's list holds exactly the records on its path, each as often as the input does, oldest first when the input is. |
| HikingHistoryService.RecordsOnPathCons | back/ollana/src/main/java/com/ssafy/ollana/footprint/service/HikingHistoryService.java:51-52 | A record in front of the input joins its path's list in front of the others, so each list keeps the input's order. |
| HikingHistoryService.GroupByPath | back/ollana/src/main/java/com/ssafy/ollana/footprint/service/HikingHistoryService.java:51-52 | There is one non-empty group per path, and the groups of an oldest-first input are oldest first. |
| HikingHistoryService.GroupByPathMembership | back/ollana/src/main/java/com/ssafy/ollana/footprint/service/HikingHistoryService.java:51-52 | A record is in a group exactly when it has that group's path, and every record's path has a group. |
| HikingHistoryService.PathOrderIsFirstOccurrence | back/ollana/src/main/java/com/ssafy/ollana/footprint/service/HikingHistoryService.java:51-52 | The keys come in order of first occurrence: a record of a later key is preceded by a record of every earlier key. |
| HikingHistoryService.GroupByPathInFirstOccurrenceOrder | back/ollana/src/main/java/com/ssafy/ollana/footprint/service/HikingHistoryService.java:51-52 | The groups come in the order their paths first occur, as a `LinkedHashMap` keeps them. |
| HikingHistoryService.GroupByPathKeepsEveryRecordOnce | back/ollana/src/main/java/com/ssafy/ollana/footprint/service/HikingHistoryService.java:51-52 | The groups together hold every input record exactly as often as the input does. |
| HikingHistoryService.LatestIsGroupMaximum | back/ollana/src/main/java/com/ssafy/ollana/footprint/service/HikingHistoryService.java:58-61 | When the input is oldest first, the last record of a group, which the comparator reads, has the group's greatest timestamp. |
| HikingHistoryService.OrderedGroups | back/ollana/src/main/java/com/ssafy/ollana/footprint/service/HikingHistoryService.java:55-62 | The groups are permuted so that their latest timestamps are non-increasing. |
| HikingHistoryService.PageWindow | back/ollana/src/main/java/com/ssafy/ollana/footprint/service/HikingHistoryService.java:64-66 | The window lies within the list and holds at most one page. It starts at `page * size`, or is empty at the end when that is past the list. |
| HikingHistoryService.OverviewDiff | back/ollana/src/main/java/com/ssafy/ollana/footprint/service/HikingHistoryService.java:73-90 | There is a diff exactly when the group has at least two records. |
| HikingHistoryService.OverviewDiffIsLatestOverSecondLatest | back/ollana/src/main/java/com/ssafy/ollana/footprint/service/HikingHistoryService.java:74-82 | The diff is the latest record minus the latest of the remaining records. |
| HikingHistoryService.MostRecent | back/ollana/src/main/java/com/ssafy/ollana/footprint/service/HikingHistoryService.java:93-98 | Returns `min(5, n)` of the group's records, oldest first, with no record left out that is later than one kept. |
| HikingHistoryService.Summarize | back/ollana/src/main/java/com/ssafy/ollana/footprint/service/HikingHistoryService.java:69-104 | A group's entry keeps its path, has a diff exactly when the group has two records or more, and lists `min(5, n)` of its records oldest first. |
| HikingHistoryService.Summaries | back/ollana/src/main/java/com/ssafy/ollana/footprint/service/HikingHistoryService.java:68-106 | One summary per group of the page, in page order, each with its group's path, a diff exactly for two records or more, and `min(5, n)` records. |
| HikingHistoryService.GetHikingHistory | back/ollana/src/main/java/com/ssafy/ollana/footprint/service/HikingHistoryService.java:41-110 | Access is denied exactly when the caller does not own the footprint. Otherwise the answer is the mountain, the number of path groups and the summaries of the requested page of groups (latest group first), at most one page long. |
| HikingHistoryService.GetHikingRecordsByPeriod | back/ollana/src/main/java/com/ssafy/ollana/footprint/service/HikingHistoryService.java:117-147 | Access is denied exactly for a non-owner. `isExceed` holds exactly when more than five records match. The records are the last `min(5, n)` of the matches. |
| HikingHistoryService.PeriodRecordsAreInRange | back/ollana/src/main/java/com/ssafy/ollana/footprint/service/HikingHistoryService.java:124-136 | Every returned record is stored, is on the footprint and path, and falls on a day in the inclusive range. The records are oldest first. |
| HikingHistoryService.PeriodRecordsAreTheLatest | back/ollana/src/main/java/com/ssafy/ollana/footprint/service/HikingHistoryService.java:133-136 | No matching record left out is later than a returned one. |
| HikingHistoryService.AllOwnedBy | back/ollana/src/main/java/com/ssafy/ollana/footprint/service/HikingHistoryService.java:166-170 | The check passes exactly when every record belongs to the caller. |
| HikingHistoryService.ComparisonDiff | back/ollana/src/main/java/com/ssafy/ollana/footprint/service/HikingHistoryService.java:180-195 | There is a diff exactly when there are two records. |
| HikingHistoryService.CompareByRecordIds | back/ollana/src/main/java/com/ssafy/ollana/footprint/service/HikingHistoryService.java:153-201 | Each error happens exactly when its check is the first to fail: a count outside 1..2, then a missing record, then a record of another user. The call succeeds exactly when all three pass. The records are then the found ones oldest first, with a diff exactly for two records that is the later minus the earlier. |
| HikingHistoryService.DiffSitesAgree | back/ollana/src/main/java/com/ssafy/ollana/footprint/service/HikingHistoryService.java:75-187 | For distinct timestamps, both diff sites give later minus earlier, whatever the arrival order. |
| HikingHistoryService.DiffSitesOnEqualTimestamps | back/ollana/src/main/java/com/ssafy/ollana/footprint/service/HikingHistoryService.java:75-187 | For equal timestamps, the two sites subtract in opposite directions. |
| UserRepository.HasHikingRecord | back/ollana/src/main/java/com/ssafy/ollana/user/repository/UserRepositoryImpl.java:36-45 | The subquery: some stored record of the user lies on the path of the mountain. |
| UserRepository.HasHikingRecordIffLatestRecordExists | back/ollana/src/main/java/com/ssafy/ollana/user/repository/UserRepositoryImpl.java:36-45 | The subquery holds exactly when `findLatestRecord` finds a record of the user on that path. |
| UserRepository.IsPossible | back/ollana/src/main/java/com/ssafy/ollana/user/repository/UserRepositoryImpl.java:63 | Possible exactly when the user agreed (not unknown, not refused) and has a record on the path. |
| UserRepository.SearchFriends | back/ollana/src/main/java/com/ssafy/ollana/user/repository/UserRepositoryImpl.java:28-73 | One entry per user with exactly the nickname other than the excluded one, in stored order, each copying the user's fields and every such user appearing. |
| AuthService.GenderValueOf | back/ollana/src/main/java/com/ssafy/ollana/auth/service/AuthServiceImpl.java:77 | Succeeds exactly on `MALE`, `FEMALE` and `OTHER`, each giving its own constant. |
| AuthService.NicknameTaken | back/ollana/src/main/java/com/ssafy/ollana/auth/service/AuthServiceImpl.java:55 | Some stored user already has the nickname. |
| AuthService.ProfileImageUrl | back/ollana/src/main/java/com/ssafy/ollana/auth/service/AuthServiceImpl.java:63-69 | A non-empty upload is stored and its URL used; no upload or an empty one gives the default image. |
| AuthService.CreateTempUser | back/ollana/src/main/java/com/ssafy/ollana/auth/service/AuthServiceImpl.java:171-194 | Copies email, nickname and Kakao id and is always a social login. Kakao's image is used only when the user agreed and it is not Kakao's default. |
| AuthService.DeepLink | back/ollana/src/main/java/com/ssafy/ollana/auth/service/AuthServiceImpl.java:140-151 | The link starts with the login or the signup prefix, as the status says, and ends with the token. |
| AuthService.DeepLinkRoundTrip | back/ollana/src/main/java/com/ssafy/ollana/auth/service/AuthServiceImpl.java:140-151 | Reading a deep link gives back the status (login or signup) and the token it was built from. |
| AuthService.Auth.Save | back/ollana/src/main/java/com/ssafy/ollana/auth/service/AuthServiceImpl.java:81 | Stores the user under the next id. Emails and nicknames stay unique and ids stay distinct. |
| AuthService.Auth.Signup | back/ollana/src/main/java/com/ssafy/ollana/auth/service/AuthServiceImpl.java:47-83 | Each error happens exactly when its check is the first to fail: taken email, then taken nickname, then unknown gender. An error leaves the users unchanged. The call succeeds exactly when all three pass, and then adds exactly one local user with the encoded password and the chosen image. Uniqueness is kept. |
| AuthService.Auth.GenerateAuthTokensAndResponse | back/ollana/src/main/java/com/ssafy/ollana/auth/service/AuthServiceImpl.java:228-247 | Stores the user's refresh token under its email and sends it as a cookie. Answers with a fresh access token for the user. Nothing else changes. |
| AuthService.Auth.Login | back/ollana/src/main/java/com/ssafy/ollana/auth/service/AuthServiceImpl.java:86-98 | Fails with user-not-found exactly when the email is unknown, and with password-mismatch exactly when the email is known and the password does not match; either leaves everything unchanged. It succeeds exactly when the password matches, and then that user is logged in. |
| AuthService.Auth.Logout | back/ollana/src/main/java/com/ssafy/ollana/auth/service/AuthServiceImpl.java:101-120 | Drops the stored refresh token of the cookie's user if there is a cookie, and blacklists the access token with reason `logout` if there is one. Always sends the expired cookie. |
| AuthService.Auth.KakaoLogin | back/ollana/src/main/java/com/ssafy/ollana/auth/service/AuthServiceImpl.java:156-168 | Logs in exactly when the Kakao email is registered; otherwise nothing changes. |
| AuthService.Auth.ProcessKakaoLogin | back/ollana/src/main/java/com/ssafy/ollana/auth/service/AuthServiceImpl.java:126-154 | A registered email is logged in and gets a login deep link; a new one gets a signup deep link carrying its temporary profile. `isNewUser` agrees with the status the link carries. |
| AuthService.Auth.SaveKakaoUserAndLogin | back/ollana/src/main/java/com/ssafy/ollana/auth/service/AuthServiceImpl.java:198-224 | Each error happens exactly when its check is the first to fail, in the same order as signup, and an error changes nothing. The call succeeds exactly when all checks pass, and then adds exactly one password-less user with the Kakao id and logs that user in. |

## Left out

- Growth status: `HikingHistoryUtils.determineStatus` is not part of this model. A diff keeps the three differences; the status is a function of `timeDiff` alone.
- DTO conversions (`TodayHikingResultResponseDto.from`, `PathResponseDto.from`, `MountainResponseDto.from`, `FootprintResponseDto`) are represented by the entities they are built from.
- `getFootprint` is not modelled. Its not-found error is not modelled, and the loaded footprint is a parameter.
- HikingHistoryService.GetHikingHistory: does not model 32-bit overflow of `pageNumber * pageSize`; integers are unbounded.
- Java `int` overflow in the time and heart-rate differences is not modelled either.
- HikingHistoryService.TruncateTowardZero: heart rates are exact reals. Double rounding, NaN and the saturation of the cast are not modelled.
- Database row order among equal timestamps is unspecified. The model takes the stored order.
- `findAllById` returns rows in an unspecified order. The model returns them in stored order. Only the comparison of two records with equal timestamps depends on that order, through the stable sort: it decides which record is subtracted from which.
- UserRepository.SearchFriends: the rows come back in stored order; SQL leaves the order unspecified.
- AuthService.Auth.Login: the response carries the user record itself. `UserService.getUserInfo` and `getLatestRecord` are not part of this model.
- AuthService.Auth.Signup: an upload performed before a failing gender check is not undone. The model has no S3 state.
- Transaction rollback is not modelled; no error path of the model changes state.
- JWT parsing errors of an invalid refresh-token cookie are not modelled. The token's email is a function of the token.
- The Kakao token exchange and profile request (HTTP) are not modelled. The profile is a parameter, and the Redis storage behind the Kakao login and temp tokens is a deterministic function.
- Logging is not modelled.

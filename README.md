# MyMediaList rating repository, in Dafny

MyMediaList is a REST backend for cataloguing media. Users can rate media entries and like other users' ratings. Its test project replaces the SQL-backed rating repository with an in-memory one, `MockRatingRepository`. That class holds the business rules the rating tests pin down:

- a score must lie in 1..5;
- a user rates a media entry at most once;
- a new rating gets the id `Count + 1`;
- Delete removes by id;
- Update copies score, comment and confirmation onto the stored rating;
- a like is a toggle on the string key `"{ratingId}-{userId}"`.

This project models that class and proves these rules.

Files:

- `wrappers.dfy`: `Option` (the C# `null` result) and `Result` (the thrown exceptions).
- `rating.dfy`: the `Rating` entity as a value, its (user, media) pair, and the valid score range.
- `like_key.dfy`: the like key. It defines decimal formatting of ints and a parser that inverts the key. From the parser it proves that two (rating, user) pairs share a key only when they are equal. This holds for negative ids too.
- `rating_list.dfy`: the repository's list operations as functions of the list: first-match lookup, the guarded append, remove-all and the field update. The lemmas state what each operation keeps or establishes.
- `mock_rating_repository.dfy`: the class `MockRatingRepository`. It has a `ratings: seq<Rating>` field and a `likes: set<string>` field, and its methods change both in place. Its invariant `Valid()` says that no two stored ratings share a (user, media) pair. Every method keeps that invariant.
- `rating_business_tests.dfy`: the NUnit scenarios of the rating tests, replayed against the class contracts.

Ids are not unique. `Add` assigns `Count + 1`, so after a `Delete` an id can be issued again, and `GetById`, `Update` and `Delete` then see two ratings under one id. `IdReusedAfterDelete` shows a concrete case. `AddKeepsIdsPositions` proves that ids equal positions as long as nothing has been deleted.

## Model

| member | source | states |
|---|---|---|
| `MockRatings.MockRatingRepository.constructor` | MyMediaList.Tests/Mocks/MockRatingRepository.cs:10-12 | a new repository has no ratings and no likes, and satisfies the one-rating-per-pair invariant |
| `MockRatings.MockRatingRepository.Add` | MyMediaList.Tests/Mocks/MockRatingRepository.cs:14-23 | a score outside 1..5 fails with the argument error (and only then); otherwise a stored (user, media) pair fails with the already-rated error; on failure the list is unchanged; on success the rating is appended with id old length + 1, and that id is returned; likes untouched; invariant kept |
| `MockRatings.MockRatingRepository.GetById` | MyMediaList.Tests/Mocks/MockRatingRepository.cs:25 | None exactly when no stored rating has the id; otherwise a stored rating with that id with no earlier one having it |
| `MockRatings.MockRatingRepository.Delete` | MyMediaList.Tests/Mocks/MockRatingRepository.cs:27 | the list becomes the old one with every rating of that id removed; afterwards GetById of the id is None; likes untouched; invariant kept |
| `MockRatings.MockRatingRepository.Update` | MyMediaList.Tests/Mocks/MockRatingRepository.cs:29-38 | no change when no rating has the id; otherwise the first matching rating takes the given score, comment and confirmation, and GetById returns it; no score check; invariant kept |
| `MockRatings.MockRatingRepository.ToggleLike` | MyMediaList.Tests/Mocks/MockRatingRepository.cs:45-58 | the key of (ratingId, userId) flips membership; the result is true exactly when the key was absent, i.e. is now present; ratings untouched |
| `MockRatings.Toggled` | MyMediaList.Tests/Mocks/MockRatingRepository.cs:48-57 | the toggled key is present exactly when it was absent; every other key keeps its membership |
| `MockRatings.ToggleTwiceRestores` | MyMediaList.Tests/Mocks/MockRatingRepository.cs:45-58 | toggling the same like twice gives back the original like set |
| `MockRatings.ToggleLeavesOtherPairs` | MyMediaList.Tests/Mocks/MockRatingRepository.cs:45-58 | toggling one (rating, user) like leaves the like state of every other pair unchanged |
| `LikeKeys.LikeKey` | MyMediaList.Tests/Mocks/MockRatingRepository.cs:47 | the key is the formatted rating id, then a dash, then the formatted user id |
| `LikeKeys.NatToDecimal` | MyMediaList.Tests/Mocks/MockRatingRepository.cs:47 | decimal formatting of a non-negative id is a non-empty digit string without leading zero |
| `LikeKeys.FormatInt` | MyMediaList.Tests/Mocks/MockRatingRepository.cs:47 | a formatted int is non-empty, starts with '-' exactly when negative, and is otherwise digits |
| `LikeKeys.DecimalRoundTrip` | MyMediaList.Tests/Mocks/MockRatingRepository.cs:47 | reading the decimal digits back gives the original non-negative number |
| `LikeKeys.ParseFormatInt` | MyMediaList.Tests/Mocks/MockRatingRepository.cs:47 | parsing a formatted int gives the int back, negatives included |
| `LikeKeys.ParseLikeKeyRoundTrip` | MyMediaList.Tests/Mocks/MockRatingRepository.cs:47 | splitting a like key at its first non-sign dash recovers the (ratingId, userId) pair |
| `LikeKeys.LikeKeyInjective` | MyMediaList.Tests/Mocks/MockRatingRepository.cs:47 | two like keys are equal if and only if their rating ids and user ids are equal |
| `RatingList.FindById` | MyMediaList.Tests/Mocks/MockRatingRepository.cs:25 | the index of the first rating with the id, or None exactly when no rating has it |
| `RatingList.AddRating` | MyMediaList.Tests/Mocks/MockRatingRepository.cs:14-23 | the score error exactly for scores outside 1..5; the duplicate error exactly for in-range scores whose pair is stored; on success the old list is a prefix and the last entry is the rating with id old length + 1 |
| `RatingList.RemoveById` | MyMediaList.Tests/Mocks/MockRatingRepository.cs:27 | a rating survives exactly when it was stored and has another id; the list does not grow |
| `RatingList.Patched` | MyMediaList.Tests/Mocks/MockRatingRepository.cs:34-36 | id, user, media and creation time stay; score, comment and confirmation come from the given rating |
| `RatingList.UpdateById` | MyMediaList.Tests/Mocks/MockRatingRepository.cs:29-38 | length, ids and pairs of all entries stay; no change without a matching id; otherwise only the first match is patched |
| `RatingList.AddPreservesUniquePairs` | MyMediaList.Tests/Mocks/MockRatingRepository.cs:18-22 | a successful add keeps every (user, media) pair stored at most once |
| `RatingList.AddSamePairTwiceRejected` | MyMediaList.Tests/RatingBusinessTests.cs:29-40 | after a successful add, a second in-range rating for the same pair is refused as already rated |
| `RatingList.AddChecksScoreFirst` | MyMediaList.Tests/Mocks/MockRatingRepository.cs:16-19 | an out-of-range score on an already-rated pair yields the score error, not the duplicate error |
| `RatingList.AddKeepsIdsPositions` | MyMediaList.Tests/Mocks/MockRatingRepository.cs:21-22 | when ids equal one-based positions, an add keeps that and the new id finds the new entry |
| `RatingList.IdReusedAfterDelete` | MyMediaList.Tests/Mocks/MockRatingRepository.cs:21-27 | add, add, delete id 1, add leaves two ratings with id 2, and lookup of 2 finds the older one |
| `RatingList.DeleteThenAbsent` | MyMediaList.Tests/Mocks/MockRatingRepository.cs:25-27 | after removing an id, no rating with that id is found |
| `RatingList.RemoveByIdAppend` | MyMediaList.Tests/Mocks/MockRatingRepository.cs:27 | removal distributes over concatenation, so survivors keep their relative order |
| `RatingList.RemoveByIdCounts` | MyMediaList.Tests/Mocks/MockRatingRepository.cs:27 | every copy of a rating with the id is removed, and every other rating keeps its multiplicity |
| `RatingList.RemoveAbsentId` | MyMediaList.Tests/Mocks/MockRatingRepository.cs:27 | deleting an id that no rating has leaves the list as it was |
| `RatingList.DeletePreservesUniquePairs` | MyMediaList.Tests/Mocks/MockRatingRepository.cs:27 | removal keeps every (user, media) pair stored at most once |
| `RatingList.UpdateThenFind` | MyMediaList.Tests/Mocks/MockRatingRepository.cs:29-38 | after an update the same entry is found under the id and carries the given score (in range or not), comment and confirmation |
| `RatingList.UpdatePreservesUniquePairs` | MyMediaList.Tests/Mocks/MockRatingRepository.cs:34-36 | an update keeps every (user, media) pair stored at most once |
| `RatingBusinessTests.AddRatingValidRatingIsSaved` | MyMediaList.Tests/RatingBusinessTests.cs:19-27 | one add to a new repository leaves one rating, with id 1 |
| `RatingBusinessTests.AddRatingDuplicateUserRatingFails` | MyMediaList.Tests/RatingBusinessTests.cs:29-40 | a second rating by the same user for the same media is refused as already rated |
| `RatingBusinessTests.AddRatingScoreOutOfRangeFails` | MyMediaList.Tests/RatingBusinessTests.cs:42-56 | scores 0 and 6 are refused with the score error |
| `RatingBusinessTests.UpdateRatingChangesScorePersists` | MyMediaList.Tests/RatingBusinessTests.cs:58-70 | after updating an added rating to score 5, GetById returns it with score 5 |
| `RatingBusinessTests.DeleteRatingRemovesItFromRepo` | MyMediaList.Tests/RatingBusinessTests.cs:72-82 | after deleting an added rating, GetById of its id is None |
| `RatingBusinessTests.ToggleLikeTwice` | MyMediaList.Tests/RatingBusinessTests.cs:84-97 | the first toggle returns true, the second false, and the like set is empty again |

## Left out

- `GetList` returns an empty JSON array whatever the media id. There is no behaviour to state, and JSON is not modelled.
- Ratings are values, not shared objects. `Add` writes the new id into the caller's `Rating` object and stores that same object. `MockRatings.MockRatingRepository.Add` instead returns the id. A caller that changes its object after `Add` therefore does not change the stored rating here. In `RatingBusinessTests.UpdateRatingChangesScorePersists` the caller passes the new score through `Update` explicitly.
- The `Ratings` list and the `Likes` set are public in the source, and any caller may change them directly. The model changes them only through the methods.
- Exception messages are left out. Each exception is the `AddError` case that names its kind (`ArgumentException`, `InvalidOperationException`).
- Integers are unbounded. The 32-bit `Count + 1` cannot overflow, because a .NET list cannot hold `int.MaxValue` entries. Ids and user ids are formatted with '-' as the negative sign, which assumes a culture whose negative sign is '-'.
- `CreatedAt` is an integer that no operation reads or writes. A `null` comment is not modelled.
- The SQL-backed `RatingRepository`, the HTTP handlers, the session manager, users, media and genres are not part of this model. Neither is password hashing, because it calls a library whose code is not shown.

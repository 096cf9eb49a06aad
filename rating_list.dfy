/** What MockRatingRepository does to its list of ratings, as functions of the
    list: the first-match lookup, the guarded append, the remove-all and the
    field update, with the properties each of them keeps. */
module RatingList {
  import opened Wrappers
  import opened Ratings

  /** Why Add refuses a rating: ArgumentException or InvalidOperationException. */
  datatype AddError = ScoreOutOfRange | AlreadyRated

  /** No two stored ratings are by the same user for the same media entry. */
  ghost predicate UniquePairs(rs: seq<Rating>)
  {
    forall i, j :: 0 <= i < j < |rs| ==> Pair(rs[i]) != Pair(rs[j])
  }

  /** Every stored rating has as id its one-based position. */
  ghost predicate IdsArePositions(rs: seq<Rating>)
  {
    forall i :: 0 <= i < |rs| ==> rs[i].id == i + 1
  }

  /** The index of the first rating with the given id (FirstOrDefault). */
  function FindById(rs: seq<Rating>, id: int): (r: Option<nat>)
    ensures r.Some? ==> r.value < |rs| && rs[r.value].id == id
    ensures r.Some? ==> forall j :: 0 <= j < r.value ==> rs[j].id != id
    ensures r.None? <==> forall j :: 0 <= j < |rs| ==> rs[j].id != id
  {
    if rs == [] then None
    else if rs[0].id == id then Some(0)
    else
      match FindById(rs[1..], id)
      case None => None
      case Some(i) => Some(i + 1)
  }

  /** Whether some stored rating is by userId for mediaId (Any). */
  predicate HasRated(rs: seq<Rating>, userId: int, mediaId: int)
  {
    exists i :: 0 <= i < |rs| && rs[i].userId == userId && rs[i].mediaId == mediaId
  }

  /** Add: the score is checked first, then the (user, media) pair; an accepted
      rating is appended with id one more than the old length. */
  function AddRating(rs: seq<Rating>, rating: Rating): (r: Result<seq<Rating>, AddError>)
    ensures r == Failure(ScoreOutOfRange) <==> !ValidScore(rating.score)
    ensures r == Failure(AlreadyRated) <==> ValidScore(rating.score) && HasRated(rs, rating.userId, rating.mediaId)
    ensures r.Success? ==> |r.value| == |rs| + 1 && r.value[..|rs|] == rs
    ensures r.Success? ==> r.value[|rs|] == rating.(id := |rs| + 1)
  {
    if rating.score < 1 || rating.score > 5 then Failure(ScoreOutOfRange)
    else if HasRated(rs, rating.userId, rating.mediaId) then Failure(AlreadyRated)
    else Success(rs + [rating.(id := |rs| + 1)])
  }

  /** Delete: every rating with the given id goes, the others stay in order (RemoveAll). */
  function RemoveById(rs: seq<Rating>, id: int): (r: seq<Rating>)
    ensures forall x :: x in r <==> x in rs && x.id != id
    ensures |r| <= |rs|
  {
    if rs == [] then []
    else
      var tail := RemoveById(rs[1..], id);
      assert rs == [rs[0]] + rs[1..];
      if rs[0].id == id then tail else [rs[0]] + tail
  }

  /** The stored rating with score, comment and confirmation taken from src. */
  function Patched(existing: Rating, src: Rating): (r: Rating)
    ensures r.id == existing.id && Pair(r) == Pair(existing) && r.createdAt == existing.createdAt
    ensures r.score == src.score && r.comment == src.comment && r.isConfirmed == src.isConfirmed
  {
    existing.(score := src.score, comment := src.comment, isConfirmed := src.isConfirmed)
  }

  /** Update: patches the first rating whose id is src.id; nothing when there is none. */
  function UpdateById(rs: seq<Rating>, src: Rating): (r: seq<Rating>)
    ensures |r| == |rs|
    ensures forall j :: 0 <= j < |rs| ==>
      r[j].id == rs[j].id && Pair(r[j]) == Pair(rs[j]) && r[j].createdAt == rs[j].createdAt
    ensures FindById(rs, src.id).None? ==> r == rs
    ensures FindById(rs, src.id).Some? ==>
      var i := FindById(rs, src.id).value;
      r[i] == Patched(rs[i], src) && forall j :: 0 <= j < |rs| && j != i ==> r[j] == rs[j]
  {
    match FindById(rs, src.id)
    case None => rs
    case Some(i) => rs[i := Patched(rs[i], src)]
  }

  // ---- Add ----

  /** An accepted rating never duplicates a stored (user, media) pair. */
  lemma AddPreservesUniquePairs(rs: seq<Rating>, rating: Rating)
    requires UniquePairs(rs)
    requires AddRating(rs, rating).Success?
    ensures UniquePairs(AddRating(rs, rating).value)
  {
  }

  /** Once a pair is stored, a second rating for it is refused, whatever its score,
      as long as the score is in range. */
  lemma AddSamePairTwiceRejected(rs: seq<Rating>, first: Rating, second: Rating)
    requires AddRating(rs, first).Success?
    requires Pair(second) == Pair(first) && ValidScore(second.score)
    ensures AddRating(AddRating(rs, first).value, second) == Failure(AlreadyRated)
  {
  }

  /** A rating that fails the range check is refused for its score even when its
      pair is already stored: the score is checked first. */
  lemma AddChecksScoreFirst(rs: seq<Rating>, rating: Rating)
    requires HasRated(rs, rating.userId, rating.mediaId) && !ValidScore(rating.score)
    ensures AddRating(rs, rating) == Failure(ScoreOutOfRange)
  {
  }

  /** While nothing has been deleted, ids are positions, so the new rating is the
      one GetById finds under the id Add assigned. */
  lemma AddKeepsIdsPositions(rs: seq<Rating>, rating: Rating)
    requires IdsArePositions(rs)
    requires AddRating(rs, rating).Success?
    ensures IdsArePositions(AddRating(rs, rating).value)
    ensures FindById(AddRating(rs, rating).value, |rs| + 1) == Some(|rs|)
  {
  }

  /** Ids are not unique: after two adds and the delete of id 1, the next add is
      given id 2 again, and GetById(2) finds the older rating. */
  lemma IdReusedAfterDelete(a: Rating, b: Rating, c: Rating)
    requires ValidScore(a.score) && ValidScore(b.score) && ValidScore(c.score)
    requires Pair(a) != Pair(b) && Pair(c) != Pair(b)
    ensures
      var s2 := AddRating(AddRating([], a).value, b).value;
      var s3 := AddRating(RemoveById(s2, 1), c).value;
      |s3| == 2 && s3[0].id == 2 && s3[1].id == 2 &&
      Pair(s3[0]) == Pair(b) && Pair(s3[1]) == Pair(c) && FindById(s3, 2) == Some(0)
  {
  }

  // ---- Delete ----

  /** After Delete(id), GetById(id) finds nothing. */
  lemma DeleteThenAbsent(rs: seq<Rating>, id: int)
    ensures FindById(RemoveById(rs, id), id) == None
  {
  }

  /** Removal works element by element: the survivors keep their relative order. */
  lemma {:induction false} RemoveByIdAppend(a: seq<Rating>, b: seq<Rating>, id: int)
    ensures RemoveById(a + b, id) == RemoveById(a, id) + RemoveById(b, id)
  {
    if a == [] {
      assert a + b == b;
    } else {
      assert (a + b)[0] == a[0] && (a + b)[1..] == a[1..] + b;
      RemoveByIdAppend(a[1..], b, id);
    }
  }

  /** Delete drops every copy of a rating with the id and no copy of any other. */
  lemma {:induction false} RemoveByIdCounts(rs: seq<Rating>, id: int, x: Rating)
    ensures multiset(RemoveById(rs, id))[x] == if x.id == id then 0 else multiset(rs)[x]
  {
    if rs != [] {
      assert rs == [rs[0]] + rs[1..];
      RemoveByIdCounts(rs[1..], id, x);
    }
  }

  /** Ratings with other ids are untouched by Delete. */
  lemma {:induction false} RemoveAbsentId(rs: seq<Rating>, id: int)
    requires forall j :: 0 <= j < |rs| ==> rs[j].id != id
    ensures RemoveById(rs, id) == rs
  {
    if rs != [] {
      RemoveAbsentId(rs[1..], id);
    }
  }

  /** What survives a delete is a subsequence, so its pairs stay distinct. */
  lemma {:induction false} DeletePreservesUniquePairs(rs: seq<Rating>, id: int)
    requires UniquePairs(rs)
    ensures UniquePairs(RemoveById(rs, id))
  {
    if rs != [] {
      var tail := rs[1..];
      assert UniquePairs(tail) by {
        forall i, j | 0 <= i < j < |tail|
          ensures Pair(tail[i]) != Pair(tail[j])
        {
          assert tail[i] == rs[i + 1] && tail[j] == rs[j + 1];
        }
      }
      DeletePreservesUniquePairs(tail, id);
      if rs[0].id != id {
        var t := RemoveById(tail, id);
        var r := [rs[0]] + t;
        forall i, j | 0 <= i < j < |r|
          ensures Pair(r[i]) != Pair(r[j])
        {
          if i == 0 {
            assert r[j] == t[j - 1] && t[j - 1] in t;
            var k :| 0 <= k < |tail| && tail[k] == t[j - 1];
            assert rs[k + 1] == tail[k];
          } else {
            assert r[i] == t[i - 1] && r[j] == t[j - 1];
          }
        }
      }
    }
  }

  // ---- Update ----

  /** After Update(src), GetById(src.id) finds the same entry, now carrying src's
      score (in range or not), comment and confirmation. */
  lemma UpdateThenFind(rs: seq<Rating>, src: Rating)
    requires FindById(rs, src.id).Some?
    ensures FindById(UpdateById(rs, src), src.id) == FindById(rs, src.id)
    ensures
      var r := UpdateById(rs, src)[FindById(rs, src.id).value];
      r.score == src.score && r.comment == src.comment && r.isConfirmed == src.isConfirmed
  {
  }

  /** Update never touches user or media, so the pairs stay distinct. */
  lemma UpdatePreservesUniquePairs(rs: seq<Rating>, src: Rating)
    requires UniquePairs(rs)
    ensures UniquePairs(UpdateById(rs, src))
  {
  }
}

/** The in-memory rating repository of the test project
    (MyMediaList.Tests/Mocks/MockRatingRepository.cs): a list of ratings and a
    set of like keys, both changed in place. */
module MockRatings {
  import opened Wrappers
  import opened Ratings
  import opened RatingList
  import opened LikeKeys

  /** The like set after toggling key k: k flips, every other key stays. */
  function Toggled(likes: set<string>, k: string): (r: set<string>)
    ensures k in r <==> k !in likes
    ensures forall x :: x != k ==> (x in r <==> x in likes)
  {
    if k in likes then likes - {k} else likes + {k}
  }

  /** Toggling the same key twice gives back the original set. */
  lemma ToggleTwiceRestores(likes: set<string>, k: string)
    ensures Toggled(Toggled(likes, k), k) == likes
  {
  }

  /** Toggling the like of one (rating, user) pair leaves the like of every other
      pair as it was, because distinct pairs have distinct keys. */
  lemma ToggleLeavesOtherPairs(likes: set<string>, ratingId: int, userId: int, otherRating: int, otherUser: int)
    requires (otherRating, otherUser) != (ratingId, userId)
    ensures LikeKey(otherRating, otherUser) in Toggled(likes, LikeKey(ratingId, userId))
        <==> LikeKey(otherRating, otherUser) in likes
  {
    LikeKeyInjective(otherRating, otherUser, ratingId, userId);
  }

  class MockRatingRepository {
    var ratings: seq<Rating>
    var likes: set<string>

    /** The repository's invariant: one rating per user and media entry. */
    ghost predicate Valid()
      reads this
    {
      UniquePairs(ratings)
    }

    constructor ()
      ensures Valid()
      ensures ratings == [] && likes == {}
    {
      ratings := [];
      likes := {};
    }

    /** Stores rating under id |ratings| + 1 and returns that id, or reports why
        it was refused, in which case nothing changes. */
    method Add(rating: Rating) returns (outcome: Result<int, AddError>)
      modifies this
      ensures old(Valid()) ==> Valid()
      ensures likes == old(likes)
      ensures outcome == Failure(ScoreOutOfRange) <==> !ValidScore(rating.score)
      ensures outcome.Failure? ==> ratings == old(ratings)
      ensures AddRating(old(ratings), rating).Failure? ==> outcome == Failure(AddRating(old(ratings), rating).error)
      ensures AddRating(old(ratings), rating).Success? ==>
        outcome == Success(|old(ratings)| + 1) && ratings == AddRating(old(ratings), rating).value
    {
      match AddRating(ratings, rating)
      case Failure(e) =>
        outcome := Failure(e);
      case Success(stored) =>
        if old(Valid()) {
          AddPreservesUniquePairs(ratings, rating);
        }
        outcome := Success(|ratings| + 1);
        ratings := stored;
    }

    /** The first stored rating with the given id, or None. */
    function GetById(id: int): (r: Option<Rating>)
      reads this
      ensures r.None? <==> forall x :: x in ratings ==> x.id != id
      ensures r.Some? ==> r.value.id == id
      ensures r.Some? ==> exists i :: 0 <= i < |ratings| && ratings[i] == r.value &&
                                      forall j :: 0 <= j < i ==> ratings[j].id != id
    {
      match FindById(ratings, id)
      case None => None
      case Some(i) => Some(ratings[i])
    }

    /** Removes every rating with the given id; the likes are not touched. */
    method Delete(id: int)
      modifies this
      ensures old(Valid()) ==> Valid()
      ensures likes == old(likes)
      ensures ratings == RemoveById(old(ratings), id)
      ensures GetById(id) == None
    {
      if old(Valid()) {
        DeletePreservesUniquePairs(ratings, id);
      }
      DeleteThenAbsent(ratings, id);
      ratings := RemoveById(ratings, id);
    }

    /** Copies score, comment and confirmation of rating onto the first stored
        rating with rating's id; no score check, and nothing when no id matches. */
    method Update(rating: Rating)
      modifies this
      ensures old(Valid()) ==> Valid()
      ensures likes == old(likes)
      ensures ratings == UpdateById(old(ratings), rating)
      ensures old(GetById(rating.id)).None? ==> ratings == old(ratings)
      ensures old(GetById(rating.id)).Some? ==>
        GetById(rating.id) == Some(Patched(old(GetById(rating.id)).value, rating))
    {
      if old(Valid()) {
        UpdatePreservesUniquePairs(ratings, rating);
      }
      if FindById(ratings, rating.id).Some? {
        UpdateThenFind(ratings, rating);
      }
      ratings := UpdateById(ratings, rating);
    }

    /** Flips userId's like of ratingId; true when the rating is now liked. */
    method ToggleLike(userId: int, ratingId: int) returns (liked: bool)
      modifies this
      ensures ratings == old(ratings)
      ensures liked <==> LikeKey(ratingId, userId) !in old(likes)
      ensures liked <==> LikeKey(ratingId, userId) in likes
      ensures likes == Toggled(old(likes), LikeKey(ratingId, userId))
    {
      var key := LikeKey(ratingId, userId);
      liked := key !in likes;
      likes := Toggled(likes, key);
    }
  }
}

/** The NUnit scenarios of MyMediaList.Tests/RatingBusinessTests.cs, each starting
    from a fresh repository, as the fixture's SetUp does, with the outcome the test
    asserts stated as a postcondition that follows from the repository's contracts
    alone. */
module RatingBusinessTests {
  import opened Wrappers
  import opened Ratings
  import opened RatingList
  import opened MockRatings

  function NewRating(userId: int, mediaId: int, score: int): (r: Rating)
    ensures r.userId == userId && r.mediaId == mediaId && r.score == score
  {
    Rating(0, userId, mediaId, score, "", false, 0)
  }

  method AddRatingValidRatingIsSaved() returns (count: nat, firstId: int)
    ensures count == 1 && firstId == 1
  {
    var repo := new MockRatingRepository();
    var _ := repo.Add(NewRating(1, 1, 5));
    count, firstId := |repo.ratings|, repo.ratings[0].id;
  }

  method AddRatingDuplicateUserRatingFails() returns (outcome: Result<int, AddError>)
    ensures outcome == Failure(AlreadyRated)
  {
    var repo := new MockRatingRepository();
    var _ := repo.Add(NewRating(1, 1, 5));
    assert repo.ratings[0].userId == 1 && repo.ratings[0].mediaId == 1;
    outcome := repo.Add(NewRating(1, 1, 3));
  }

  method AddRatingScoreOutOfRangeFails(score: int) returns (outcome: Result<int, AddError>)
    requires score == 0 || score == 6
    ensures outcome == Failure(ScoreOutOfRange)
  {
    var repo := new MockRatingRepository();
    outcome := repo.Add(NewRating(1, 1, score));
  }

  method UpdateRatingChangesScorePersists() returns (updated: Option<Rating>)
    ensures updated.Some? && updated.value.score == 5
  {
    var repo := new MockRatingRepository();
    var rating := NewRating(1, 1, 3);
    var outcome := repo.Add(rating);
    rating := rating.(id := outcome.value, score := 5);
    assert repo.ratings[0].id == rating.id;
    repo.Update(rating);
    updated := repo.GetById(rating.id);
  }

  method DeleteRatingRemovesItFromRepo() returns (found: Option<Rating>)
    ensures found == None
  {
    var repo := new MockRatingRepository();
    var outcome := repo.Add(NewRating(1, 1, 3));
    repo.Delete(outcome.value);
    found := repo.GetById(outcome.value);
  }

  method ToggleLikeTwice() returns (first: bool, second: bool, likesAfter: set<string>)
    ensures first && !second && likesAfter == {}
  {
    var repo := new MockRatingRepository();
    first := repo.ToggleLike(100, 50);
    second := repo.ToggleLike(100, 50);
    likesAfter := repo.likes;
  }
}

/** The rating entity (System/Rating/Rating.cs), as a value. */
module Ratings {

  /** One user's rating of one media entry. `createdAt` stands for the
      DateTime field as a tick count; the repository never reads or writes it. */
  datatype Rating = Rating(
    id: int,
    userId: int,
    mediaId: int,
    score: int,
    comment: string,
    isConfirmed: bool,
    createdAt: int)

  /** The (user, media) pair of which at most one rating may be stored. */
  function Pair(r: Rating): (int, int)
  {
    (r.userId, r.mediaId)
  }

  /** The score range that Add accepts. */
  predicate ValidScore(score: int)
  {
    1 <= score <= 5
  }
}

/** The ratings administration page: a fixed list of user ratings and the star
    filter applied to it. Ratings are held in tenths of a star (9.5 is 95). */
module RatingAdmin {
  import opened Seqs

  datatype UserRating = UserRating(id: nat, user: string, movie: string, rating: int)

  /** The page's built-in ratings, in display order. */
  const MockRatings: seq<UserRating> := [
    UserRating(1, "Alex Mercer", "Inception", 95),
    UserRating(2, "Sarah Connor", "Terminator 2", 100),
    UserRating(3, "John Wick", "The Matrix", 88),
    UserRating(4, "Ellen Ripley", "Alien", 90),
    UserRating(5, "Marty McFly", "Back to the Future", 98),
    UserRating(6, "Tony Stark", "Iron Man", 85),
    UserRating(7, "Bruce Wayne", "The Dark Knight", 99),
    UserRating(8, "Clark Kent", "Man of Steel", 72),
    UserRating(9, "Diana Prince", "Wonder Woman", 80),
    UserRating(10, "Peter Parker", "Spider-Man: No Way Home", 92),
    UserRating(11, "Wanda M.", "Doctor Strange 2", 65),
    UserRating(12, "Steve Rogers", "Captain America: Winter Soldier", 91)
  ]

  /** The star selector: "all", or the whole number of stars parsed from the option
      (9 Excellent, 7 Good, 5 Average, 0 Low Ratings). */
  datatype StarFilter = AllStars | MinStars(min: int)

  /** A rating lies in the two-star band starting at `min` stars. */
  predicate InBand(r: UserRating, min: int) {
    min * 10 <= r.rating < (min + 2) * 10
  }

  function FilteredRatings(choice: StarFilter): (r: seq<UserRating>)
    ensures choice.AllStars? ==> r == MockRatings
    ensures choice.MinStars? ==> IsSubsequence(r, MockRatings)
    ensures choice.MinStars? ==>
      forall x :: x in r <==> x in MockRatings && InBand(x, choice.min)
  {
    match choice
    case AllStars => MockRatings
    case MinStars(min) => Filter(MockRatings, (x: UserRating) => InBand(x, min))
  }

  /** "Low Ratings" (0) keeps the ratings below two stars, and the built-in list has none. */
  lemma LowRatingsEmpty()
    ensures FilteredRatings(MinStars(0)) == []
  {
    forall x | x in MockRatings ensures !InBand(x, 0) {
      var i :| 0 <= i < |MockRatings| && MockRatings[i] == x;
    }
    FilterNone(MockRatings, (x: UserRating) => InBand(x, 0));
  }
}

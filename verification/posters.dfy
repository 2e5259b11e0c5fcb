/** The poster/movie record and the age-rating lookup that derives its minimum age. */
module Posters {

  /** One displayable poster or movie card. `id` stands for the UUID each record is given
      at construction; equality is over every field, like the synthesized `Hashable`. */
  datatype MoviePoster = MoviePoster(
    id: nat,
    name: string,
    title: string,
    description: string,
    category: string,
    ageRating: string,
    minimumAge: int,
    year: int)

  /** The rating table as data: every recognised rating code and its minimum age. */
  const RatingTable: map<string, int> := map[
    "G" := 0, "PG" := 7, "PG-13" := 13, "R" := 17, "NC-17" := 18,
    "TV-Y" := 0, "TV-Y7" := 7, "TV-G" := 0, "TV-PG" := 7, "TV-14" := 14, "TV-MA" := 17]

  /** Motion-picture ratings from the least to the most restrictive. */
  const FilmRatings: seq<string> := ["G", "PG", "PG-13", "R", "NC-17"]

  /** Television ratings in the order the lookup lists them. */
  const TvRatings: seq<string> := ["TV-Y", "TV-Y7", "TV-G", "TV-PG", "TV-14", "TV-MA"]

  /** Minimum viewer age for a rating code; unknown codes get 0. */
  function MinimumAge(rating: string): (age: int)
    ensures age in RatingTable.Values
    ensures 0 <= age <= 18
  {
    assert RatingTable.Values == {0, 7, 13, 14, 17, 18} by {
      assert RatingTable["G"] == 0 && RatingTable["PG"] == 7 && RatingTable["PG-13"] == 13;
      assert RatingTable["TV-14"] == 14 && RatingTable["R"] == 17 && RatingTable["NC-17"] == 18;
    }
    match rating
    case "G" => 0
    case "PG" => 7
    case "PG-13" => 13
    case "R" => 17
    case "NC-17" => 18
    case "TV-Y" => 0
    case "TV-Y7" => 7
    case "TV-G" => 0
    case "TV-PG" => 7
    case "TV-14" => 14
    case "TV-MA" => 17
    case _ => 0
  }

  /** The lookup agrees with the table on every string: table entry when present, else 0. */
  lemma MinimumAgeIsTableLookup(rating: string)
    ensures MinimumAge(rating) == (if rating in RatingTable then RatingTable[rating] else 0)
  {
  }

  /** Any code outside the table yields the default age 0. */
  lemma UnknownRatingIsZero(rating: string)
    requires rating !in RatingTable
    ensures MinimumAge(rating) == 0
  {
  }

  /** The motion-picture ratings, each with its age. */
  lemma FilmRatingAges()
    ensures MinimumAge("G") == 0 && MinimumAge("PG") == 7 && MinimumAge("PG-13") == 13
    ensures MinimumAge("R") == 17 && MinimumAge("NC-17") == 18
  {
  }

  /** The television ratings, each with its age. */
  lemma TvRatingAges()
    ensures MinimumAge("TV-Y") == 0 && MinimumAge("TV-Y7") == 7 && MinimumAge("TV-G") == 0
    ensures MinimumAge("TV-PG") == 7 && MinimumAge("TV-14") == 14 && MinimumAge("TV-MA") == 17
  {
  }

  /** A more restrictive motion-picture rating never asks for a lower age. */
  lemma FilmRatingsMonotone(i: nat, j: nat)
    requires i <= j < |FilmRatings|
    ensures MinimumAge(FilmRatings[i]) <= MinimumAge(FilmRatings[j])
  {
  }

  /** A poster whose derived field agrees with its rating code. */
  predicate WellFormed(p: MoviePoster) {
    p.minimumAge == MinimumAge(p.ageRating)
  }

  /** The record initializer: copies the given fields and derives the minimum age. */
  function Make(id: nat, name: string, title: string, description: string,
                category: string, ageRating: string, year: int): (p: MoviePoster)
    ensures WellFormed(p)
    ensures 0 <= p.minimumAge <= 18
    ensures p.id == id && p.name == name && p.title == title && p.description == description
    ensures p.category == category && p.ageRating == ageRating && p.year == year
  {
    MoviePoster(id, name, title, description, category, ageRating, MinimumAge(ageRating), year)
  }
}

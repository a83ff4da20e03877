/** The fixed reference tables of genres and MPA ratings, and the in-memory
    genre DAO that serves them. The in-memory film DAO keeps a second copy of
    the same genre table; it is defined once here. */
module Catalog {
  import opened Wrappers
  import opened Model

  datatype Genre = Genre(id: int, name: string)

  datatype Rating = Rating(id: int, name: string)

  /** The immutable genre table, keyed by genre id. */
  const GenreTable: map<int, Genre> := map[
    1 := Genre(1, "Комедия"),
    2 := Genre(2, "Драма"),
    3 := Genre(3, "Мультфильм"),
    4 := Genre(4, "Триллер"),
    5 := Genre(5, "Документальный"),
    6 := Genre(6, "Боевик")]

  /** The immutable rating table, keyed by rating id. */
  const RatingTable: map<int, Rating> := map[
    1 := Rating(1, "G"),
    2 := Rating(2, "PG"),
    3 := Rating(3, "PG-13"),
    4 := Rating(4, "R"),
    5 := Rating(5, "NC-17")]

  /** getGenre: present exactly for the ids 1 to 6, and the genre found carries the id asked for. */
  function GetGenre(genreId: int): (r: Option<Genre>)
    ensures r.Some? <==> 1 <= genreId <= 6
    ensures r.Some? ==> r.value.id == genreId && r.value in GenreTable.Values
  {
    if genreId in GenreTable then Some(GenreTable[genreId]) else None
  }

  /** getAllGenres: the six genres, each once. The source returns them in the
      table's iteration order, which the model does not fix. */
  function GetAllGenres(): (r: set<Genre>)
    ensures |r| == 6
    ensures forall g :: g in r <==> GetGenre(g.id) == Some(g)
  {
    var r := GenreTable.Values;
    assert r == {GenreTable[1], GenreTable[2], GenreTable[3], GenreTable[4], GenreTable[5], GenreTable[6]};
    r
  }

  /** getRating: present exactly for the ids 1 to 5, and the rating found carries the id asked for. */
  function GetRating(ratingId: int): (r: Option<Rating>)
    ensures r.Some? <==> 1 <= ratingId <= 5
    ensures r.Some? ==> r.value.id == ratingId && r.value in RatingTable.Values
  {
    if ratingId in RatingTable then Some(RatingTable[ratingId]) else None
  }

  /** getAllRatings: the five ratings, each once, in an order the model does not fix. */
  function GetAllRatings(): (r: set<Rating>)
    ensures |r| == 5
    ensures forall g :: g in r <==> GetRating(g.id) == Some(g)
  {
    var r := RatingTable.Values;
    assert r == {RatingTable[1], RatingTable[2], RatingTable[3], RatingTable[4], RatingTable[5]};
    r
  }

  /** No two genres share a name, and no two ratings do. */
  lemma NamesDistinct(a: int, b: int)
    ensures GetGenre(a).Some? && GetGenre(b).Some? && a != b ==> GetGenre(a).value.name != GetGenre(b).value.name
    ensures GetRating(a).Some? && GetRating(b).Some? && a != b ==> GetRating(a).value.name != GetRating(b).value.name
  {
  }

  /** addFilmGenre of the in-memory genre DAO hands the film back untouched. */
  function AddFilmGenre(film: Film): (r: Film)
    ensures r == film
  {
    film
  }

  /** deleteFilmGenre of the in-memory genre DAO: the genre table after the
      call, which is the table before it. */
  function DeleteFilmGenre(film: Film): (table: map<int, Genre>)
    ensures forall id :: (if id in table then Some(table[id]) else None) == GetGenre(id)
  {
    GenreTable
  }
}

/** FilmService: rejects films released before 1895-12-12, checks that the
    user exists before a like is given or taken back, and turns the store's
    "not there" answers into ObjectNotFoundException.
    Each operation takes the stores' contents and, where the film store
    changes, returns its new contents beside the result. */
module FilmService {
  import opened Wrappers
  import opened Model
  import opened Errors
  import opened Dates
  import UserStore
  import UserService
  import FilmStore
  import Ranking

  /** The earliest release date accepted, as the code has it. */
  const MaxDate := Date(1895, 12, 12)

  const DateMessage := "date can not be more than 1895-12-12"
  const FilmNotFound := "Film is not found"
  const LikeNotAdded := "Wrong film or userId is provided"
  const LikeNotDeleted := "Wrong film or userId is presented"

  /** checkFilmMaxDate: a release date strictly before MaxDate is a
      ValidationException; MaxDate itself and anything later passes. */
  function CheckFilmMaxDate(film: Film): (r: Option<Error>)
    ensures r.Some? <==> IsBefore(film.releaseDate, MaxDate)
    ensures r.Some? ==> r.value == Validation(DateMessage)
  {
    if IsBefore(film.releaseDate, MaxDate) then Some(Validation(DateMessage)) else None
  }

  /** For a real calendar date, the check rejects exactly the dates whose day
      count is below MaxDate's. */
  lemma DateCheckIsDayOrder(film: Film)
    requires WellFormed(film.releaseDate)
    ensures CheckFilmMaxDate(film).Some? <==> DayIndex(film.releaseDate) < DayIndex(MaxDate)
  {
    IsBeforeIsDayOrder(film.releaseDate, MaxDate);
  }

  /** getFilm: the stored film, or "Film is not found". */
  function GetFilm(t: FilmStore.FilmTable, filmId: int): (r: Result<Film>)
    ensures r.Ok? <==> filmId in t.films
    ensures r.Ok? ==> r.value == t.films[filmId]
    ensures r.Err? ==> r.error == NotFound(FilmNotFound)
  {
    match FilmStore.GetFilm(t, filmId)
    case Some(f) => Ok(f)
    case None => Err(NotFound(FilmNotFound))
  }

  /** addFilm: a film released too early is refused and nothing is stored;
      any other film is stored under a fresh id. */
  function AddFilm(t: FilmStore.FilmTable, film: Film): (res: (FilmStore.FilmTable, Result<Film>))
    requires FilmStore.ValidTable(t)
    ensures FilmStore.ValidTable(res.0)
    ensures res.1.Err? <==> IsBefore(film.releaseDate, MaxDate)
    ensures res.1.Err? ==> res.0 == t && res.1.error == Validation(DateMessage)
    ensures res.1.Ok? ==> res.1.value == film.(id := t.lastId + 1) && res.1.value.id !in t.films
    ensures res.1.Ok? ==> res.0.films == t.films[res.1.value.id := res.1.value]
    ensures res.1.Ok? ==> res.0.lastId == t.lastId + 1 && res.0.order == t.order + [res.1.value.id]
  {
    match CheckFilmMaxDate(film)
    case Some(e) => (t, Err(e))
    case None =>
      var (t', stored) := FilmStore.AddFilm(t, film);
      (t', Ok(stored))
  }

  /** updateFilm: the date is checked first; then an unknown id is "Film is
      not found"; otherwise the film replaces the stored one. Either refusal
      changes nothing. */
  function UpdateFilm(t: FilmStore.FilmTable, film: Film): (res: (FilmStore.FilmTable, Result<Film>))
    requires FilmStore.ValidTable(t)
    ensures FilmStore.ValidTable(res.0)
    ensures IsBefore(film.releaseDate, MaxDate) ==> res == (t, Err(Validation(DateMessage)))
    ensures !IsBefore(film.releaseDate, MaxDate) && film.id !in t.films ==> res == (t, Err(NotFound(FilmNotFound)))
    ensures res.1.Ok? <==> !IsBefore(film.releaseDate, MaxDate) && film.id in t.films
    ensures res.1.Ok? ==> res.1.value == film && res.0 == t.(films := t.films[film.id := film])
  {
    match CheckFilmMaxDate(film)
    case Some(e) => (t, Err(e))
    case None =>
      match FilmStore.UpdateFilm(t, film)
      case (t', Some(f)) => (t', Ok(f))
      case (t', None) => (t', Err(NotFound(FilmNotFound)))
  }

  /** addLike: an unknown user is "User not found" before the film is looked
      at; then an unknown film is "Wrong film or userId is provided"; either
      refusal changes nothing. Otherwise the user is among the film's liked
      users and no other film changes. */
  function AddLike(films: FilmStore.FilmTable, users: UserStore.UserTable, filmId: int, userId: int)
    : (res: (FilmStore.FilmTable, Result<Film>))
    requires FilmStore.ValidTable(films)
    ensures FilmStore.ValidTable(res.0)
    ensures userId !in users.users ==> res == (films, Err(NotFound(UserService.UserNotFound)))
    ensures userId in users.users && filmId !in films.films ==> res == (films, Err(NotFound(LikeNotAdded)))
    ensures res.1.Ok? <==> userId in users.users && filmId in films.films
    ensures res.1.Ok? ==> res.0 == films.(films := films.films[filmId := res.1.value])
    ensures res.1.Ok? ==> res.1.value == FilmStore.Like(films.films[filmId], userId) && userId in res.1.value.likedUsers
  {
    if UserStore.GetUser(users, userId).None? then
      (films, Err(NotFound(UserService.UserNotFound)))
    else
      match FilmStore.AddLike(films, filmId, userId)
      case (t', Some(f)) => (t', Ok(f))
      case (t', None) => (t', Err(NotFound(LikeNotAdded)))
  }

  /** deleteLike: the same checks in the same order, with its own message for
      an unknown film; a success has no value, and afterwards the user is not
      among the film's liked users. */
  function DeleteLike(films: FilmStore.FilmTable, users: UserStore.UserTable, filmId: int, userId: int)
    : (res: (FilmStore.FilmTable, Result<()>))
    requires FilmStore.ValidTable(films)
    ensures FilmStore.ValidTable(res.0)
    ensures userId !in users.users ==> res == (films, Err(NotFound(UserService.UserNotFound)))
    ensures userId in users.users && filmId !in films.films ==> res == (films, Err(NotFound(LikeNotDeleted)))
    ensures res.1.Ok? <==> userId in users.users && filmId in films.films
    ensures res.1.Ok? ==> res.0 == films.(films := films.films[filmId := FilmStore.Unlike(films.films[filmId], userId)])
    ensures res.1.Ok? ==> userId !in res.0.films[filmId].likedUsers
  {
    if UserStore.GetUser(users, userId).None? then
      (films, Err(NotFound(UserService.UserNotFound)))
    else
      match FilmStore.DeleteLike(films, filmId, userId)
      case (t', Some(_)) => (t', Ok(()))
      case (t', None) => (t', Err(NotFound(LikeNotDeleted)))
  }

  /** getPopularFilms: a negative count makes the stream's limit throw;
      otherwise the first `count` films of the stable descending sort of the
      stored films (Ranking.StableSortIsSortDesc), so equal counts keep store
      order. */
  function GetPopularFilms(t: FilmStore.FilmTable, count: int): (r: Result<seq<Film>>)
    requires FilmStore.ValidTable(t)
    ensures r.Err? <==> count < 0
    ensures r.Err? ==> r.error == IllegalArgument
    ensures r.Ok? ==> |r.value| == (if count < |t.films| then count else |t.films|)
    ensures r.Ok? ==> forall i, j :: 0 <= i < j < |r.value| ==> Likes(r.value[i]) >= Likes(r.value[j])
    ensures r.Ok? ==> forall f :: f in r.value ==> f.id in t.films && t.films[f.id] == f
    ensures r.Ok? ==> r.value == Ranking.SortDesc(FilmStore.FindAllFilms(t), FilmStore.LikeKey)[..|r.value|]
  {
    if count < 0 then
      Err(IllegalArgument)
    else
      FilmStore.PopularFilmsAreStored(t, count);
      Ok(FilmStore.GetPopularFilms(t, count))
  }

  /** A like given and taken back by the same user, on a film that user had
      not liked, leaves the film store as it was. */
  lemma LikeThenUnlikeRestores(films: FilmStore.FilmTable, users: UserStore.UserTable, filmId: int, userId: int)
    requires FilmStore.ValidTable(films) && filmId in films.films
    requires userId !in films.films[filmId].likedUsers
    ensures DeleteLike(AddLike(films, users, filmId, userId).0, users, filmId, userId).0 == films
  {
    if userId in users.users {
      FilmStore.DeleteLikeUndoesAddLike(films, filmId, userId);
    }
  }

  /** A film added by the service can be fetched back by its new id. */
  lemma AddedFilmCanBeFetched(t: FilmStore.FilmTable, film: Film)
    requires FilmStore.ValidTable(t) && !IsBefore(film.releaseDate, MaxDate)
    ensures AddFilm(t, film).1.Ok?
    ensures GetFilm(AddFilm(t, film).0, AddFilm(t, film).1.value.id) == Ok(film.(id := t.lastId + 1))
  {
  }
}

/** The in-memory film DAO: a map from id to film, an id counter that only
    goes up, the like index kept in each film's set of liked users, and the
    popularity ranking computed from it. As for users, the contents are a
    value, FilmTable, each operation is a function on it, and the class in
    module FilmDao is proved against those functions. */
module FilmStore {
  import opened Wrappers
  import opened Model
  import Ranking
  import Ids

  /** The films by id, the ids in the order they were added, and the last id handed out. */
  datatype FilmTable = FilmTable(films: map<int, Film>, order: seq<int>, lastId: int)

  /** The store as it starts: no films, counter at 0. */
  const EmptyTable := FilmTable(map[], [], 0)

  /** Every film is stored under its own id, ids were all taken from the
      counter, and `order` lists each stored id once, in increasing order. */
  ghost predicate ValidTable(t: FilmTable)
  {
    && t.lastId >= 0
    && (forall k :: k in t.films ==> 1 <= k <= t.lastId && t.films[k].id == k)
    && Ids.Listed(t.films, t.order)
  }

  /** findAllFilms: every stored film once, in the order of their ids. */
  function FindAllFilms(t: FilmTable): (r: seq<Film>)
    requires ValidTable(t)
    ensures |r| == |t.films| == |t.order|
    ensures forall i :: 0 <= i < |r| ==> r[i] == t.films[t.order[i]]
    ensures forall f :: f in r <==> f.id in t.films && t.films[f.id] == f
    ensures forall i, j :: 0 <= i < j < |r| ==> r[i].id < r[j].id
  {
    var r := Ids.ListInOrder(t.films, t.order);
    forall f: Film | f in r ensures f.id in t.films && t.films[f.id] == f {
      var i :| 0 <= i < |r| && r[i] == f;
      assert t.order[i] in t.films;
    }
    forall f: Film | f.id in t.films && t.films[f.id] == f ensures f in r {
      var i :| 0 <= i < |t.order| && t.order[i] == f.id;
      assert r[i] == f;
    }
    r
  }

  /** getFilm: the stored film, or None for an unknown id. */
  function GetFilm(t: FilmTable, filmId: int): (r: Option<Film>)
    ensures r.Some? <==> filmId in t.films
    ensures r.Some? ==> r.value == t.films[filmId]
  {
    if filmId in t.films then Some(t.films[filmId]) else None
  }

  /** addFilm: the film gets the next id from the counter, one more than the
      last, and is stored under it; that id was never used before. */
  function AddFilm(t: FilmTable, film: Film): (res: (FilmTable, Film))
    requires ValidTable(t)
    ensures ValidTable(res.0)
    ensures res.1 == film.(id := t.lastId + 1) && res.0.lastId == t.lastId + 1
    ensures res.1.id !in t.films
    ensures res.0.films == t.films[res.1.id := res.1]
    ensures res.0.order == t.order + [res.1.id]
  {
    var stored := film.(id := t.lastId + 1);
    (FilmTable(t.films[stored.id := stored], t.order + [stored.id], stored.id), stored)
  }

  /** A film added to the store is listed last, after the films stored before it. */
  lemma AddFilmListsLast(t: FilmTable, film: Film)
    requires ValidTable(t)
    ensures FindAllFilms(AddFilm(t, film).0) == FindAllFilms(t) + [AddFilm(t, film).1]
  {
    var stored := AddFilm(t, film).1;
    Ids.ListInOrderAppend(t.films, t.order, stored.id, stored);
  }

  /** updateFilm: for a known id the stored film is replaced by the argument
      as a whole (its liked users included); for an unknown id nothing
      changes and the result is None. */
  function UpdateFilm(t: FilmTable, film: Film): (res: (FilmTable, Option<Film>))
    requires ValidTable(t)
    ensures ValidTable(res.0)
    ensures film.id !in t.films ==> res == (t, None)
    ensures film.id in t.films ==>
      res.1 == Some(film) && res.0 == t.(films := t.films[film.id := film])
  {
    if film.id in t.films then
      (t.(films := t.films[film.id := film]), Some(film))
    else
      (t, None)
  }

  /** The film with `userId` added to its liked users; a user who already
      liked it is not counted again. */
  function Like(f: Film, userId: int): (g: Film)
    ensures g == f.(likedUsers := g.likedUsers) && userId in g.likedUsers
    ensures g.likedUsers - {userId} == f.likedUsers - {userId}
    ensures Likes(g) == if userId in f.likedUsers then Likes(f) else Likes(f) + 1
  {
    var g := f.(likedUsers := f.likedUsers + {userId});
    assert userId in f.likedUsers ==> g.likedUsers == f.likedUsers;
    g
  }

  /** The film with `userId` taken out of its liked users; a user who never
      liked it changes nothing. */
  function Unlike(f: Film, userId: int): (g: Film)
    ensures g == f.(likedUsers := g.likedUsers) && userId !in g.likedUsers
    ensures g.likedUsers + {userId} == f.likedUsers + {userId}
    ensures Likes(g) == if userId in f.likedUsers then Likes(f) - 1 else Likes(f)
  {
    f.(likedUsers := f.likedUsers - {userId})
  }

  /** addLike: when the film is stored, the user joins its liked users and
      the result is the film as now stored; whether the user exists is not
      checked here. For an unknown film, None and nothing changes. */
  function AddLike(t: FilmTable, filmId: int, userId: int): (res: (FilmTable, Option<Film>))
    requires ValidTable(t)
    ensures ValidTable(res.0)
    ensures filmId in t.films ==>
      res.0 == t.(films := t.films[filmId := Like(t.films[filmId], userId)])
      && res.1 == Some(res.0.films[filmId])
    ensures filmId !in t.films ==> res == (t, None)
  {
    if filmId in t.films then
      var t' := t.(films := t.films[filmId := Like(t.films[filmId], userId)]);
      (t', Some(t'.films[filmId]))
    else
      (t, None)
  }

  /** deleteLike: when the film is stored, the user leaves its liked users;
      for an unknown film, None and nothing changes. */
  function DeleteLike(t: FilmTable, filmId: int, userId: int): (res: (FilmTable, Option<Film>))
    requires ValidTable(t)
    ensures ValidTable(res.0)
    ensures filmId in t.films ==>
      res.0 == t.(films := t.films[filmId := Unlike(t.films[filmId], userId)])
      && res.1 == Some(res.0.films[filmId])
    ensures filmId !in t.films ==> res == (t, None)
  {
    if filmId in t.films then
      var t' := t.(films := t.films[filmId := Unlike(t.films[filmId], userId)]);
      (t', Some(t'.films[filmId]))
    else
      (t, None)
  }

  /** Liking a film twice is liking it once. */
  lemma AddLikeIdempotent(t: FilmTable, filmId: int, userId: int)
    requires ValidTable(t)
    ensures AddLike(AddLike(t, filmId, userId).0, filmId, userId) == AddLike(t, filmId, userId)
  {
    if filmId in t.films {
      var f := t.films[filmId];
      assert Like(Like(f, userId), userId) == Like(f, userId);
      assert AddLike(t, filmId, userId).0.films[filmId := Like(Like(f, userId), userId)]
        == AddLike(t, filmId, userId).0.films;
    }
  }

  /** Deleting a like that was never given gives back the same store, and
      deleting a fresh like gives back the store before it. */
  lemma DeleteLikeUndoesAddLike(t: FilmTable, filmId: int, userId: int)
    requires ValidTable(t) && filmId in t.films && userId !in t.films[filmId].likedUsers
    ensures DeleteLike(t, filmId, userId).0 == t
    ensures DeleteLike(AddLike(t, filmId, userId).0, filmId, userId).0 == t
  {
    var f := t.films[filmId];
    assert Unlike(f, userId) == f;
    assert Unlike(Like(f, userId), userId) == f;
    assert t.films[filmId := f] == t.films;
  }

  /** A like changes one film's like count, by at most one, and no other film. */
  lemma LikesChangeOnlyAtFilm(t: FilmTable, filmId: int, userId: int)
    requires ValidTable(t)
    ensures var t' := AddLike(t, filmId, userId).0;
      t'.films.Keys == t.films.Keys
      && (forall k :: k in t.films && k != filmId ==> t'.films[k] == t.films[k])
      && (filmId in t.films ==> Likes(t.films[filmId]) <= Likes(t'.films[filmId]) <= Likes(t.films[filmId]) + 1)
    ensures var t' := DeleteLike(t, filmId, userId).0;
      t'.films.Keys == t.films.Keys
      && (forall k :: k in t.films && k != filmId ==> t'.films[k] == t.films[k])
      && (filmId in t.films ==> Likes(t.films[filmId]) - 1 <= Likes(t'.films[filmId]) <= Likes(t.films[filmId]))
  {
  }

  /** The like count of a film, as the ranking's key. */
  function LikeKey(f: Film): int
  {
    Likes(f)
  }

  /** getPopularFilms: the stored films by descending like count, equal
      counts in store order, cut to the first `count`. */
  function GetPopularFilms(t: FilmTable, count: nat): (r: seq<Film>)
    requires ValidTable(t)
    ensures |r| == if count < |t.films| then count else |t.films|
    ensures forall i, j :: 0 <= i < j < |r| ==> Likes(r[i]) >= Likes(r[j])
    ensures multiset(r) <= multiset(FindAllFilms(t))
    ensures r == Ranking.SortDesc(FindAllFilms(t), LikeKey)[..|r|]
  {
    Ranking.Top(FindAllFilms(t), LikeKey, count)
  }

  /** Every popular film is a stored film. */
  lemma PopularFilmsAreStored(t: FilmTable, count: nat)
    requires ValidTable(t)
    ensures forall f :: f in GetPopularFilms(t, count) ==> f.id in t.films && t.films[f.id] == f
  {
    var r := GetPopularFilms(t, count);
    forall f | f in r ensures f in FindAllFilms(t) {
      assert f in multiset(r);
    }
  }

  /** The popular films are the first films of any stable sort of the store
      by descending like count: the ranking is that of the JDK's stable sort. */
  lemma PopularFilmsFollowStableSort(t: FilmTable, count: nat, sorted: seq<Film>)
    requires ValidTable(t)
    requires Ranking.IsStableSortDesc(sorted, FindAllFilms(t), LikeKey)
    ensures sorted == Ranking.SortDesc(FindAllFilms(t), LikeKey)
    ensures GetPopularFilms(t, count) == sorted[..|GetPopularFilms(t, count)|]
  {
    Ranking.StableSortIsSortDesc(sorted, FindAllFilms(t), LikeKey);
  }

  /** A film left out of the popular list has no more likes than any film in it. */
  lemma PopularFilmsKeepMostLiked(t: FilmTable, count: nat, f: Film)
    requires ValidTable(t) && f.id in t.films && t.films[f.id] == f
    requires f !in GetPopularFilms(t, count)
    ensures forall g :: g in GetPopularFilms(t, count) ==> Likes(g) >= Likes(f)
  {
    Ranking.TopKeepsLargest(FindAllFilms(t), LikeKey, count, f);
  }

  /** When all films have the same number of likes (none, say), the popular
      films are the first `count` films in store order. */
  lemma PopularFilmsEqualLikes(t: FilmTable, count: nat, c: nat)
    requires ValidTable(t)
    requires forall k :: k in t.films ==> Likes(t.films[k]) == c
    ensures GetPopularFilms(t, count) == FindAllFilms(t)[..|GetPopularFilms(t, count)|]
  {
    var all := FindAllFilms(t);
    forall i | 0 <= i < |all| ensures LikeKey(all[i]) == c {
      assert all[i] in all;
    }
    Ranking.SortDescEqualKeys(all, LikeKey, c);
  }
}

/** InMemoryFilmDaoImpl itself: the fields its methods update in place. Its
    genre and rating lookups are those of module Catalog. */
module FilmDao {
  import opened Wrappers
  import opened Model
  import FilmStore

  class InMemoryFilmDao {
    var films: map<int, Film>
    var order: seq<int>
    var uniqueId: int

    /** The store's contents as a value. */
    function Table(): FilmStore.FilmTable
      reads this
    {
      FilmStore.FilmTable(films, order, uniqueId)
    }

    ghost predicate Valid()
      reads this
    {
      FilmStore.ValidTable(Table())
    }

    constructor ()
      ensures Valid() && Table() == FilmStore.EmptyTable
    {
      films, order, uniqueId := map[], [], 0;
    }

    method AddFilm(film: Film) returns (r: Film)
      requires Valid()
      modifies this
      ensures Valid()
      ensures (Table(), r) == FilmStore.AddFilm(old(Table()), film)
    {
      uniqueId := uniqueId + 1;
      r := film.(id := uniqueId);
      films := films[r.id := r];
      order := order + [r.id];
    }

    method UpdateFilm(film: Film) returns (r: Option<Film>)
      requires Valid()
      modifies this
      ensures Valid()
      ensures (Table(), r) == FilmStore.UpdateFilm(old(Table()), film)
    {
      var current := FilmStore.GetFilm(Table(), film.id);
      if current.Some? {
        films := films[film.id := film];
        r := Some(film);
      } else {
        r := current;
      }
    }

    method AddLike(filmId: int, userId: int) returns (r: Option<Film>)
      requires Valid()
      modifies this
      ensures Valid()
      ensures (Table(), r) == FilmStore.AddLike(old(Table()), filmId, userId)
    {
      r := FilmStore.GetFilm(Table(), filmId);
      if r.Some? {
        var f := r.value;
        films := films[filmId := f.(likedUsers := f.likedUsers + {userId})];
        r := Some(films[filmId]);
      }
    }

    method DeleteLike(filmId: int, userId: int) returns (r: Option<Film>)
      requires Valid()
      modifies this
      ensures Valid()
      ensures (Table(), r) == FilmStore.DeleteLike(old(Table()), filmId, userId)
    {
      r := FilmStore.GetFilm(Table(), filmId);
      if r.Some? {
        var f := r.value;
        films := films[filmId := f.(likedUsers := f.likedUsers - {userId})];
        r := Some(films[filmId]);
      }
    }
  }
}

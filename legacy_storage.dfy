/** The older storage revision, InMemoryUserStorage and InMemoryFilmStorage.

    Its user store behaves as the in-memory user DAO for adding, updating and
    looking up users (it returns null where the DAO returns an empty Optional;
    both are None here), and its friend operations are stubs. Its film store
    keeps a like counter beside the set of liked users and moves the counter
    on every call, whether or not the set changes, so the two can drift apart.
    It looks users up by scanning the list of all users. */
module LegacyStorage {
  import opened Wrappers
  import opened Model
  import Dates
  import UserStore
  import Ranking
  import Ids

  /** The film record of this revision: a like counter of its own beside the
      set of liked users. */
  datatype LegacyFilm = LegacyFilm(
    id: int,
    name: string,
    description: string,
    releaseDate: Dates.Date,
    duration: int,
    likes: int,
    likedUsers: set<int>)

  /** How far the counter has moved away from the number of liked users. */
  function Drift(f: LegacyFilm): int
  {
    f.likes - |f.likedUsers|
  }

  /** addLike on a film: the counter goes up by one and the user joins the set. */
  function CountLike(f: LegacyFilm, userId: int): (r: LegacyFilm)
    ensures r == f.(likes := r.likes, likedUsers := r.likedUsers)
    ensures r.likes == f.likes + 1
    ensures userId in r.likedUsers && r.likedUsers - {userId} == f.likedUsers - {userId}
  {
    f.(likes := f.likes + 1).(likedUsers := f.likedUsers + {userId})
  }

  /** deleteLike on a film: the counter goes down by one and the user leaves the set. */
  function CountUnlike(f: LegacyFilm, userId: int): (r: LegacyFilm)
    ensures r == f.(likes := r.likes, likedUsers := r.likedUsers)
    ensures r.likes == f.likes - 1
    ensures userId !in r.likedUsers && r.likedUsers + {userId} == f.likedUsers + {userId}
  {
    f.(likes := f.likes - 1).(likedUsers := f.likedUsers - {userId})
  }

  /** A like moves the counter by one whatever the set does: a user who had
      already liked the film moves the counter away from the set size. */
  lemma CountLikeDrift(f: LegacyFilm, userId: int)
    ensures CountLike(f, userId).likes == f.likes + 1
    ensures userId in CountLike(f, userId).likedUsers
    ensures Drift(CountLike(f, userId)) == if userId in f.likedUsers then Drift(f) + 1 else Drift(f)
  {
    assert userId in f.likedUsers ==> CountLike(f, userId).likedUsers == f.likedUsers;
  }

  /** An unlike moves the counter by one whatever the set does: a user who
      had not liked the film moves the counter away from the set size. */
  lemma CountUnlikeDrift(f: LegacyFilm, userId: int)
    ensures CountUnlike(f, userId).likes == f.likes - 1
    ensures userId !in CountUnlike(f, userId).likedUsers
    ensures Drift(CountUnlike(f, userId)) == if userId in f.likedUsers then Drift(f) else Drift(f) - 1
  {
    assert userId !in f.likedUsers ==> CountUnlike(f, userId).likedUsers == f.likedUsers;
  }

  /** A film nobody liked, liked twice by the same user, counts two likes
      from one user. */
  lemma RepeatedLikeOvercounts(f: LegacyFilm, userId: int)
    requires f.likes == 0 && f.likedUsers == {}
    ensures CountLike(CountLike(f, userId), userId).likes == 2
    ensures |CountLike(CountLike(f, userId), userId).likedUsers| == 1
  {
    assert CountLike(CountLike(f, userId), userId).likedUsers == {userId};
  }

  /** A film nobody liked, unliked by anyone, counts minus one like. */
  lemma MissingUnlikeGoesNegative(f: LegacyFilm, userId: int)
    requires f.likes == 0 && f.likedUsers == {}
    ensures CountUnlike(f, userId).likes == -1 && CountUnlike(f, userId).likedUsers == {}
  {
  }

  /** The private getUser of InMemoryFilmStorage: a user in `users` with the
      given id, None when there is none. The source asks the stream for any
      match; the model takes the first, and as stored ids are unique the two
      are the same user. */
  function FindUserById(users: seq<User>, userId: int): (r: Option<User>)
    ensures r.Some? <==> exists i :: 0 <= i < |users| && users[i].id == userId
    ensures r.Some? ==> r.value.id == userId
    ensures r.Some? ==> exists i :: (0 <= i < |users| && users[i] == r.value &&
                                     forall j :: 0 <= j < i ==> users[j].id != userId)
  {
    if users == [] then None
    else if users[0].id == userId then Some(users[0])
    else
      var r := FindUserById(users[1..], userId);
      assert forall i :: 0 < i < |users| ==> users[i] == users[1..][i - 1];
      if r.Some? then
        var i :| 0 <= i < |users[1..]| && users[1..][i] == r.value &&
                 forall j :: 0 <= j < i ==> users[1..][j].id != userId;
        assert users[i + 1] == r.value;
        r
      else
        r
  }

  /** Scanning the list of all users finds exactly the user a lookup by id finds. */
  lemma ScanMatchesLookup(t: UserStore.UserTable, userId: int)
    requires UserStore.ValidTable(t)
    ensures FindUserById(UserStore.FindAllUsers(t), userId) == UserStore.GetUser(t, userId)
  {
    var all := UserStore.FindAllUsers(t);
    var r := FindUserById(all, userId);
    if userId in t.users {
      assert t.users[userId] in all;
    }
    if r.Some? {
      assert r.value in all;
    }
  }

  /** InMemoryUserStorage: the users map, the insertion order and the counter. */
  class InMemoryUserStorage {
    var users: map<int, User>
    var order: seq<int>
    var uniqueId: int

    /** The store's contents as a value. */
    function Table(): UserStore.UserTable
      reads this
    {
      UserStore.UserTable(users, order, uniqueId)
    }

    ghost predicate Valid()
      reads this
    {
      UserStore.ValidTable(Table())
    }

    constructor ()
      ensures Valid() && Table() == UserStore.EmptyTable
    {
      users, order, uniqueId := map[], [], 0;
    }

    /** findAllUsers: every stored user once, in the order of their ids. */
    function FindAllUsers(): (r: seq<User>)
      reads this
      requires Valid()
      ensures |r| == |users|
      ensures forall u :: u in r <==> u.id in users && users[u.id] == u
    {
      UserStore.FindAllUsers(Table())
    }

    /** getUser: the stored user, or null (None) for an unknown id. */
    function GetUser(userId: int): (r: Option<User>)
      reads this
      ensures r.Some? <==> userId in users
      ensures r.Some? ==> r.value == users[userId]
    {
      UserStore.GetUser(Table(), userId)
    }

    method AddUser(user: User) returns (r: User)
      requires Valid()
      modifies this
      ensures Valid()
      ensures (Table(), r) == UserStore.AddUser(old(Table()), user)
    {
      uniqueId := uniqueId + 1;
      r := user.(id := uniqueId);
      users := users[r.id := r];
      order := order + [r.id];
    }

    method UpdateUser(user: User) returns (r: Option<User>)
      requires Valid()
      modifies this
      ensures Valid()
      ensures (Table(), r) == UserStore.UpdateUser(old(Table()), user)
    {
      if user.id in users {
        users := users[user.id := user];
        r := Some(user);
      } else {
        r := None;
      }
    }

    /** addFriend is a stub that returns null. */
    function AddFriend(user: User): (r: Option<User>)
      ensures r == None
    {
      None
    }

    /** deleteFriend is a stub that does nothing. */
    method DeleteFriend(user: User)
      ensures Table() == old(Table())
    {
    }

    /** getFriends is a stub that returns null. */
    function GetFriends(userId: int): (r: Option<seq<User>>)
      ensures r == None
    {
      None
    }

    /** getCommonFriends is a stub that returns null. */
    function GetCommonFriends(userId: int, friendId: int): (r: Option<seq<User>>)
      ensures r == None
    {
      None
    }
  }

  /** The stored like counter, as the ranking's key. */
  function StoredLikes(f: LegacyFilm): int
  {
    f.likes
  }

  /** Every film is stored under its own id, ids were all taken from the
      counter, and `order` lists each stored id once in increasing order. */
  ghost predicate KeyedInOrder(films: map<int, LegacyFilm>, order: seq<int>, lastId: int)
  {
    && lastId >= 0
    && (forall k :: k in films ==> 1 <= k <= lastId && films[k].id == k)
    && Ids.Listed(films, order)
  }

  /** Replacing a stored film by one with the same id keeps the store well formed. */
  lemma KeyedInOrderReplace(films: map<int, LegacyFilm>, order: seq<int>, lastId: int, f: LegacyFilm)
    requires KeyedInOrder(films, order, lastId) && f.id in films
    ensures KeyedInOrder(films[f.id := f], order, lastId)
  {
  }

  /** InMemoryFilmStorage: the films map, the insertion order, the counter,
      and the user storage it scans to check that a user exists. */
  class InMemoryFilmStorage {
    var films: map<int, LegacyFilm>
    var order: seq<int>
    var uniqueId: int
    const userStorage: InMemoryUserStorage

    /** Every film is stored under its own id, ids were all taken from the
        counter, `order` lists each stored id once in increasing order, and
        the user storage is well formed. */
    ghost predicate Valid()
      reads this, userStorage
    {
      KeyedInOrder(films, order, uniqueId) && userStorage.Valid()
    }

    constructor (userStorage: InMemoryUserStorage)
      requires userStorage.Valid()
      ensures Valid() && this.userStorage == userStorage
      ensures films == map[] && order == [] && uniqueId == 0
    {
      this.userStorage := userStorage;
      films, order, uniqueId := map[], [], 0;
    }

    /** The private getUser: a scan of all the users of the user storage. */
    function GetUser(userId: int): (r: Option<User>)
      reads this, userStorage
      requires Valid()
      ensures r == userStorage.GetUser(userId)
    {
      ScanMatchesLookup(userStorage.Table(), userId);
      FindUserById(userStorage.FindAllUsers(), userId)
    }

    /** findAllFilms: every stored film once, in the order of their ids. */
    function FindAllFilms(): (r: seq<LegacyFilm>)
      reads this, userStorage
      requires Valid()
      ensures |r| == |films|
      ensures forall f :: f in r <==> f.id in films && films[f.id] == f
    {
      var r := Ids.ListInOrder(films, order);
      forall f: LegacyFilm | f in r ensures f.id in films && films[f.id] == f {
        var i :| 0 <= i < |r| && r[i] == f;
        assert order[i] in films;
      }
      forall f: LegacyFilm | f.id in films && films[f.id] == f ensures f in r {
        var i :| 0 <= i < |order| && order[i] == f.id;
        assert r[i] == f;
      }
      r
    }

    /** getFilm: the stored film, or None for an unknown id. */
    function GetFilm(filmId: int): (r: Option<LegacyFilm>)
      reads this
      ensures r.Some? <==> filmId in films
      ensures r.Some? ==> r.value == films[filmId]
    {
      if filmId in films then Some(films[filmId]) else None
    }

    method AddFilm(film: LegacyFilm) returns (r: LegacyFilm)
      requires Valid()
      modifies this
      ensures Valid()
      ensures r == film.(id := old(uniqueId) + 1) && uniqueId == old(uniqueId) + 1
      ensures r.id !in old(films) && films == old(films)[r.id := r] && order == old(order) + [r.id]
    {
      uniqueId := uniqueId + 1;
      r := film.(id := uniqueId);
      films := films[r.id := r];
      order := order + [r.id];
    }

    method UpdateFilm(film: LegacyFilm) returns (r: Option<LegacyFilm>)
      requires Valid()
      modifies this
      ensures Valid()
      ensures order == old(order) && uniqueId == old(uniqueId)
      ensures film.id in old(films) ==> films == old(films)[film.id := film] && r == Some(film)
      ensures film.id !in old(films) ==> films == old(films) && r == None
    {
      if film.id in films {
        films := films[film.id := film];
        r := Some(film);
      } else {
        r := None;
      }
    }

    method AddLike(filmId: int, userId: int) returns (r: Option<LegacyFilm>)
      requires Valid()
      modifies this
      ensures Valid()
      ensures order == old(order) && uniqueId == old(uniqueId)
      ensures userId in userStorage.users && filmId in old(films) ==>
        films == old(films)[filmId := CountLike(old(films)[filmId], userId)] && r == Some(films[filmId])
      ensures !(userId in userStorage.users && filmId in old(films)) ==> films == old(films) && r == None
    {
      var user := GetUser(userId);
      var film := GetFilm(filmId);
      assert user.Some? <==> userId in userStorage.users;
      if user.Some? && film.Some? {
        var f := film.value;
        f := f.(likes := f.likes + 1);
        f := f.(likedUsers := f.likedUsers + {userId});
        assert f == CountLike(film.value, userId);
        KeyedInOrderReplace(films, order, uniqueId, f);
        films := films[filmId := f];
        r := Some(f);
      } else {
        r := None;
      }
    }

    method DeleteLike(filmId: int, userId: int) returns (r: Option<LegacyFilm>)
      requires Valid()
      modifies this
      ensures Valid()
      ensures order == old(order) && uniqueId == old(uniqueId)
      ensures userId in userStorage.users && filmId in old(films) ==>
        films == old(films)[filmId := CountUnlike(old(films)[filmId], userId)] && r == Some(films[filmId])
      ensures !(userId in userStorage.users && filmId in old(films)) ==> films == old(films) && r == None
    {
      var user := GetUser(userId);
      var film := GetFilm(filmId);
      if user.Some? && film.Some? {
        var f := film.value;
        f := f.(likes := f.likes - 1);
        f := f.(likedUsers := f.likedUsers - {userId});
        assert f == CountUnlike(film.value, userId);
        KeyedInOrderReplace(films, order, uniqueId, f);
        films := films[filmId := f];
        r := Some(f);
      } else {
        r := None;
      }
    }

    /** getPopularFilms: the stored films by descending stored counter, equal
        counters in store order, cut to the first `count`. */
    function GetPopularFilms(count: nat): (r: seq<LegacyFilm>)
      reads this, userStorage
      requires Valid()
      ensures |r| == if count < |films| then count else |films|
      ensures forall i, j :: 0 <= i < j < |r| ==> r[i].likes >= r[j].likes
      ensures multiset(r) <= multiset(FindAllFilms())
      ensures r == Ranking.SortDesc(FindAllFilms(), StoredLikes)[..|r|]
    {
      Ranking.Top(FindAllFilms(), StoredLikes, count)
    }
  }

  /** Through the storage itself: a stored user who likes a new film twice
      leaves it with a counter of two and one liked user. */
  method RepeatedLikeInStorage(user: User, film: LegacyFilm) returns (f: LegacyFilm)
    requires film.likes == 0 && film.likedUsers == {}
    ensures f.likes == 2 && |f.likedUsers| == 1
  {
    var users := new InMemoryUserStorage();
    var stored := users.AddUser(user);
    var films := new InMemoryFilmStorage(users);
    var added := films.AddFilm(film);
    var first := films.AddLike(added.id, stored.id);
    var second := films.AddLike(added.id, stored.id);
    f := second.value;
    assert f == CountLike(CountLike(added, stored.id), stored.id);
    RepeatedLikeOvercounts(added, stored.id);
  }
}

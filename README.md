# Filmorate in-memory stores and services, modelled in Dafny

Filmorate is a small film-rating service. Users befriend each other and like
films. The service ranks films by how many users like them. This project
models its in-memory core:

- the user and film DAOs (`InMemoryUserDaoImpl`, `InMemoryFilmDaoImpl`);
- the genre DAO (`InMemoryGenreDaoImpl`) and the fixed genre and MPA rating tables;
- the film record and its bean-validation constraints (`Film`);
- the two services on top (`UserService`, `FilmService`);
- the older storage revision (`InMemoryUserStorage`, `InMemoryFilmStorage`).

The layout follows the source:

| file | modules | what |
|---|---|---|
| `wrappers.dfy`, `errors.dfy` | `Wrappers`, `Errors` | `Option` stands for Java `null` and `Optional`. `Result` stands for a return or the exception a service throws. |
| `dates.dfy` | `Dates` | `LocalDate.isBefore` as a field-by-field comparison. |
| `model.dfy` | `Model` | The `User` and `Film` records. A film's like count is derived from its liked-user set. Also the three field constraints of `Film` and their messages. |
| `catalog.dfy` | `Catalog` | The genre and rating tables, and the genre DAO. |
| `ranking.dfy` | `Ranking` | The popular-films ranking. The stream is sorted by a reversed comparator on the like count and then cut to `count`. The stream API does not promise stability for the unordered stream over a `HashMap`'s values; OpenJDK's sequential `sorted` uses TimSort, which is stable, and that is what is modelled. It is modelled as an insertion sort. That sort is proved to be the only stable descending sort of its input. |
| `ids.dfy` | `Ids` | Counting facts about the ids a store hands out, and the listing of a store in id order. |
| `user_store.dfy` | `UserStore`, `UserDao` | `UserStore` has the user DAO's operations as functions on the store's contents (`UserTable`). `UserDao.InMemoryUserDao` is the class with the DAO's fields; its methods update those fields in place and are proved equal to the functions. |
| `film_store.dfy` | `FilmStore`, `FilmDao` | The same pair for the film DAO. |
| `legacy_storage.dfy` | `LegacyStorage` | The older storage classes. Their film record has a stored like counter. |
| `user_service.dfy`, `film_service.dfy` | `UserService`, `FilmService` | The services, as functions over the stores' contents. |

How the model represents the source:

- **Stores.** A store is a map from id to record. The map comes with the list
  of ids in insertion order and with the id counter. The inserted ids are
  1, 2, 3, … in increasing order. While every id is below 65536 this is also
  the order in which a `HashMap` lists its values: `HashMap.hash` mixes in
  `h >>> 16`, which is zero there, and ids 1..n stay below the table's
  capacity. So `findAll*` and the ranking see the stored records in id order.
- **Friendship.** `addFriend` and `deleteFriend` change both users.
  `Symmetric` states that friendship is symmetric. Two lemmas show these
  operations keep it symmetric. A counterexample shows `updateUser` can
  break it.
- **Friend lists.** `getFriends` and `getCommonFriends` return sets of users,
  because a `HashSet` fixes no iteration order. A friend id with no stored
  user is left out. In the source it would give a `null` entry.
- **Likes.** `addLike` and `deleteLike` of the DAO add or remove the user from
  the film's liked-user set. They do not check that the user exists;
  `FilmService` checks that first.
- **Services.** The services declare their stores with the older types
  `storage.UserStorage` and `storage.FilmStorage`
  (UserService.java:8,16 and FilmService.java:9-10,19-20). Those interfaces
  return plain values that may be `null`, take other arguments
  (`addFriend(User)`, `addLike(Film)`) and have no `getPopularFilms`. The
  calls the services make, `.orElseThrow` on `Optional` results and the
  two-id friend and like calls, only fit the DAO interfaces
  `dao.interfaces.UserDao` and `FilmDao`. The model therefore connects the
  services to the DAO functions above. So the services see the like count
  derived from the liked-user set, not the legacy storage's stored counter.
  `findAllUsers` and `findAllFilms` of the services, and `getGenre` of the
  film DAO, delegate unchanged to `UserStore.FindAllUsers`,
  `FilmStore.FindAllFilms` and `Catalog.GetGenre`.

Behaviour of the code worth noting:

- **Earliest release date.** The earliest allowed release date is 1895-12-12.
- **updateUser.** It replaces the stored user wholesale, friend set included.
- **Self-friendship.** A user can befriend itself.
- **Common friends with oneself.** `getCommonFriends(u, u)` is not rejected;
  it gives the user's friends.
- **Popular films count.** A negative `count` makes `Stream.limit` throw
  `IllegalArgumentException`. A `count` of zero gives an empty list.
- **Genre normalisation.** There is no genre normalisation in the core. The
  core's `Film` has no genre or rating fields.

## Model

| member | source | states |
|---|---|---|
| Dates.IsBefore | src/main/java/ru/yandex/practicum/filmorate/service/FilmService.java:25 | `LocalDate.isBefore`: the year decides first, then the month, then the day. A date is never before itself, and between different years the earlier year is before. |
| Dates.IsBeforeIsDayOrder | src/main/java/ru/yandex/practicum/filmorate/service/FilmService.java:25 | For real calendar dates, comparing year, month and day in turn is the same as comparing day counts. |
| Dates.IsBeforeStrictTotal | src/main/java/ru/yandex/practicum/filmorate/service/FilmService.java:25 | The date comparison is irreflexive, asymmetric, transitive and total on distinct dates. |
| Model.Likes | src/main/java/ru/yandex/practicum/filmorate/model/Film.java:38-40 | The like count is the number of distinct users in the liked-user set. It is zero exactly when nobody has liked the film. |
| Model.Build | src/main/java/ru/yandex/practicum/filmorate/model/Film.java:16-36 | A built film has id 0 and no liked users, so zero likes. Its other fields are the arguments. |
| Model.Utf16Length | src/main/java/ru/yandex/practicum/filmorate/model/Film.java:25 | Java's string length is between the number of characters and twice that. It is zero only for the empty string. |
| Model.Utf16LengthBmp | src/main/java/ru/yandex/practicum/filmorate/model/Film.java:25 | On text in the Basic Multilingual Plane the length is the character count. |
| Model.Violations | src/main/java/ru/yandex/practicum/filmorate/model/Film.java:22-32 | Each of the three messages is reported exactly when its constraint is broken: empty name, description over 200 code units, duration not positive. No message at all means the film is valid. |
| Model.AllThreeViolations | src/main/java/ru/yandex/practicum/filmorate/model/Film.java:22-32 | An empty name, a 201-letter description and a negative duration give all three messages. |
| Catalog.GetGenre | src/main/java/ru/yandex/practicum/filmorate/dao/inMemory/InMemoryGenreDaoImpl.java:27-29 | A genre is found exactly for ids 1 to 6, and it carries the id asked for. |
| Catalog.GetAllGenres | src/main/java/ru/yandex/practicum/filmorate/dao/inMemory/InMemoryGenreDaoImpl.java:31-33 | Exactly six genres. Each is the one a lookup by its id finds. |
| Catalog.NamesDistinct | src/main/java/ru/yandex/practicum/filmorate/dao/inMemory/InMemoryGenreDaoImpl.java:18-25 | Different genre ids have different names, and so do different rating ids. |
| Catalog.AddFilmGenre | src/main/java/ru/yandex/practicum/filmorate/dao/inMemory/InMemoryGenreDaoImpl.java:35-38 | The film is handed back unchanged. |
| Catalog.DeleteFilmGenre | src/main/java/ru/yandex/practicum/filmorate/dao/inMemory/InMemoryGenreDaoImpl.java:40-42 | The genre table after the call answers every lookup as before it. |
| Catalog.GetRating | src/main/java/ru/yandex/practicum/filmorate/dao/inMemory/InMemoryFilmDaoImpl.java:55-57 | A rating is found exactly for ids 1 to 5, and it carries the id asked for. |
| Catalog.GetAllRatings | src/main/java/ru/yandex/practicum/filmorate/dao/inMemory/InMemoryFilmDaoImpl.java:59-61 | Exactly five ratings. Each is the one a lookup by its id finds. |
| Ranking.Insert | src/main/java/ru/yandex/practicum/filmorate/dao/inMemory/InMemoryFilmDaoImpl.java:98 | Inserting adds exactly the one element. |
| Ranking.InsertSorted | src/main/java/ru/yandex/practicum/filmorate/dao/inMemory/InMemoryFilmDaoImpl.java:98 | Inserting into a sequence sorted by descending key keeps it sorted. |
| Ranking.SortDesc | src/main/java/ru/yandex/practicum/filmorate/dao/inMemory/InMemoryFilmDaoImpl.java:98 | The result is a permutation of the input, sorted by descending key. |
| Ranking.SortDescStable | src/main/java/ru/yandex/practicum/filmorate/dao/inMemory/InMemoryFilmDaoImpl.java:98 | The elements sharing a key keep their input order. |
| Ranking.SortDescIsStableSort | src/main/java/ru/yandex/practicum/filmorate/dao/inMemory/InMemoryFilmDaoImpl.java:98 | The sort is a stable descending sort. |
| Ranking.StableSortUnique | src/main/java/ru/yandex/practicum/filmorate/dao/inMemory/InMemoryFilmDaoImpl.java:98 | Two descending sequences with the same groups of equal keys are equal. |
| Ranking.StableSortIsSortDesc | src/main/java/ru/yandex/practicum/filmorate/dao/inMemory/InMemoryFilmDaoImpl.java:98 | Any stable descending sort of the input equals the model's sort. |
| Ranking.SortDescEqualKeys | src/main/java/ru/yandex/practicum/filmorate/dao/inMemory/InMemoryFilmDaoImpl.java:98 | When all keys are equal, nothing moves. |
| Ranking.Top | src/main/java/ru/yandex/practicum/filmorate/dao/inMemory/InMemoryFilmDaoImpl.java:96-100 | The result has min(count, size) elements. They are a sub-multiset of the input, sorted, and the first ones of the sort. |
| Ranking.TopKeepsLargest | src/main/java/ru/yandex/practicum/filmorate/dao/inMemory/InMemoryFilmDaoImpl.java:96-100 | No element left out has a larger key than an element kept. |
| UserStore.FindAllUsers | src/main/java/ru/yandex/practicum/filmorate/dao/inMemory/InMemoryUserDaoImpl.java:18-21 | Every stored user appears exactly once, in increasing id order, and nothing else appears. |
| UserStore.GetUser | src/main/java/ru/yandex/practicum/filmorate/dao/inMemory/InMemoryUserDaoImpl.java:23-26 | The user is present exactly when its id is stored, and is the stored record. |
| UserStore.AddUser | src/main/java/ru/yandex/practicum/filmorate/dao/inMemory/InMemoryUserDaoImpl.java:28-33 | The user gets counter+1 as id. That id was unused. Only that entry is added, the id is appended to the insertion order, and the store stays well formed. |
| UserStore.AddUserListsLast | src/main/java/ru/yandex/practicum/filmorate/dao/inMemory/InMemoryUserDaoImpl.java:18-33 | After an add, the listing is the old listing followed by the new user. |
| UserStore.UpdateUser | src/main/java/ru/yandex/practicum/filmorate/dao/inMemory/InMemoryUserDaoImpl.java:35-43 | A known id has its record replaced by the argument as a whole. An unknown id gives None and no change. |
| UserStore.Link | src/main/java/ru/yandex/practicum/filmorate/dao/inMemory/InMemoryUserDaoImpl.java:50-51 | Each user gets the other as a friend. Nothing else changes, the same-user case included. |
| UserStore.Unlink | src/main/java/ru/yandex/practicum/filmorate/dao/inMemory/InMemoryUserDaoImpl.java:62-63 | Each user loses the other as a friend. Nothing else changes. |
| UserStore.LinkKeepsInvariants | src/main/java/ru/yandex/practicum/filmorate/dao/inMemory/InMemoryUserDaoImpl.java:45-55 | Adding a friendship keeps friendship symmetric, and keeps every friend id a stored user. |
| UserStore.UnlinkKeepsInvariants | src/main/java/ru/yandex/practicum/filmorate/dao/inMemory/InMemoryUserDaoImpl.java:57-65 | Removing a friendship keeps both of those properties. |
| UserStore.LinkIdempotent | src/main/java/ru/yandex/practicum/filmorate/dao/inMemory/InMemoryUserDaoImpl.java:50-51 | Adding a friendship twice is adding it once. |
| UserStore.UnlinkIdempotent | src/main/java/ru/yandex/practicum/filmorate/dao/inMemory/InMemoryUserDaoImpl.java:62-63 | Removing a friendship twice is removing it once. |
| UserStore.UnlinkAbsent | src/main/java/ru/yandex/practicum/filmorate/dao/inMemory/InMemoryUserDaoImpl.java:62-63 | When neither user has the other as a friend, in either direction, unlinking them changes nothing. |
| UserStore.UnlinkUndoesLink | src/main/java/ru/yandex/practicum/filmorate/dao/inMemory/InMemoryUserDaoImpl.java:45-65 | Removing a friendship just added between two non-friends gives back the graph before. |
| UserStore.AddFriend | src/main/java/ru/yandex/practicum/filmorate/dao/inMemory/InMemoryUserDaoImpl.java:45-55 | With both users stored, the friendship goes both ways and the first user is returned as now stored. Otherwise None and no change. |
| UserStore.DeleteFriend | src/main/java/ru/yandex/practicum/filmorate/dao/inMemory/InMemoryUserDaoImpl.java:57-65 | With both users stored, the friendship is removed both ways. Otherwise no change. |
| UserStore.GetFriends | src/main/java/ru/yandex/practicum/filmorate/dao/inMemory/InMemoryUserDaoImpl.java:67-74 | None exactly for an unknown user. Otherwise a user is in the result exactly when it is a stored friend. |
| UserStore.GetCommonFriends | src/main/java/ru/yandex/practicum/filmorate/dao/inMemory/InMemoryUserDaoImpl.java:76-89 | None unless both users are stored. Otherwise a user is in the result exactly when it is a stored friend of both. |
| UserStore.FriendIdsExact | src/main/java/ru/yandex/practicum/filmorate/dao/inMemory/InMemoryUserDaoImpl.java:67-74 | When every friend id is stored, the friends' ids are exactly the friend set. |
| UserStore.CommonFriendsSymmetric | src/main/java/ru/yandex/practicum/filmorate/dao/inMemory/InMemoryUserDaoImpl.java:76-89 | Common friends do not depend on the order of the two users. A user's common friends with itself are its friends. |
| UserStore.AddFriendIdempotent | src/main/java/ru/yandex/practicum/filmorate/dao/inMemory/InMemoryUserDaoImpl.java:45-55 | Calling addFriend twice leaves the store as calling it once. |
| UserStore.FriendOpsKeepSymmetric | src/main/java/ru/yandex/practicum/filmorate/dao/inMemory/InMemoryUserDaoImpl.java:45-65 | addFriend and deleteFriend keep friendship symmetric. |
| UserStore.DeleteFriendRemovesEdge | src/main/java/ru/yandex/practicum/filmorate/dao/inMemory/InMemoryUserDaoImpl.java:57-65 | Afterwards neither user lists the other. Deleting a friendship that does not exist is a no-op. |
| UserStore.SharedFriendIsCommon | src/main/java/ru/yandex/practicum/filmorate/dao/inMemory/InMemoryUserDaoImpl.java:45-89 | Two users who both befriend a third have it as a common friend. |
| UserStore.SelfFriendIsStored | src/main/java/ru/yandex/practicum/filmorate/dao/inMemory/InMemoryUserDaoImpl.java:45-55 | A user who befriends itself is stored among its own friends. |
| UserStore.UpdateUserCanBreakSymmetry | src/main/java/ru/yandex/practicum/filmorate/dao/inMemory/InMemoryUserDaoImpl.java:35-43 | A concrete symmetric store where updateUser makes friendship one-sided. |
| UserDao.InMemoryUserDao.constructor | src/main/java/ru/yandex/practicum/filmorate/dao/inMemory/InMemoryUserDaoImpl.java:15-16 | It starts as an empty, well-formed store. |
| UserDao.InMemoryUserDao.AddUser | src/main/java/ru/yandex/practicum/filmorate/dao/inMemory/InMemoryUserDaoImpl.java:28-33 | The new fields and the result are those of UserStore.AddUser on the old fields. |
| UserDao.InMemoryUserDao.UpdateUser | src/main/java/ru/yandex/practicum/filmorate/dao/inMemory/InMemoryUserDaoImpl.java:35-43 | The new fields and the result are those of UserStore.UpdateUser on the old fields. |
| UserDao.InMemoryUserDao.AddFriend | src/main/java/ru/yandex/practicum/filmorate/dao/inMemory/InMemoryUserDaoImpl.java:45-55 | The new fields and the result are those of UserStore.AddFriend on the old fields. |
| UserDao.InMemoryUserDao.DeleteFriend | src/main/java/ru/yandex/practicum/filmorate/dao/inMemory/InMemoryUserDaoImpl.java:57-65 | The new fields are those of UserStore.DeleteFriend on the old fields. |
| FilmStore.FindAllFilms | src/main/java/ru/yandex/practicum/filmorate/dao/inMemory/InMemoryFilmDaoImpl.java:37-40 | Every stored film appears exactly once, in increasing id order, and nothing else appears. |
| FilmStore.GetFilm | src/main/java/ru/yandex/practicum/filmorate/dao/inMemory/InMemoryFilmDaoImpl.java:42-45 | The film is present exactly when its id is stored, and is the stored record. |
| FilmStore.AddFilm | src/main/java/ru/yandex/practicum/filmorate/dao/inMemory/InMemoryFilmDaoImpl.java:63-68 | The film gets counter+1 as id. That id was unused. Only that entry is added, and the id is appended to the insertion order. |
| FilmStore.AddFilmListsLast | src/main/java/ru/yandex/practicum/filmorate/dao/inMemory/InMemoryFilmDaoImpl.java:37-68 | After an add, the listing is the old listing followed by the new film. |
| FilmStore.UpdateFilm | src/main/java/ru/yandex/practicum/filmorate/dao/inMemory/InMemoryFilmDaoImpl.java:70-78 | A known id has its record replaced by the argument as a whole, liked users included. An unknown id gives None and no change. |
| FilmStore.Like | src/main/java/ru/yandex/practicum/filmorate/dao/inMemory/InMemoryFilmDaoImpl.java:83 | Only the liked set changes: the user is in it and every other liker stays, with no one added. The count rises by one only for a new liker. |
| FilmStore.Unlike | src/main/java/ru/yandex/practicum/filmorate/dao/inMemory/InMemoryFilmDaoImpl.java:90 | Only the liked set changes: the user is not in it and every other liker stays, with no one added. The count falls by one only for a previous liker. |
| FilmStore.AddLike | src/main/java/ru/yandex/practicum/filmorate/dao/inMemory/InMemoryFilmDaoImpl.java:80-85 | A stored film is liked and returned as now stored. An unknown film gives None and no change. The user is not checked. |
| FilmStore.DeleteLike | src/main/java/ru/yandex/practicum/filmorate/dao/inMemory/InMemoryFilmDaoImpl.java:87-92 | A stored film is unliked and returned as now stored. An unknown film gives None and no change. |
| FilmStore.AddLikeIdempotent | src/main/java/ru/yandex/practicum/filmorate/dao/inMemory/InMemoryFilmDaoImpl.java:80-85 | Liking twice is liking once. |
| FilmStore.DeleteLikeUndoesAddLike | src/main/java/ru/yandex/practicum/filmorate/dao/inMemory/InMemoryFilmDaoImpl.java:80-92 | Deleting a like never given changes nothing. Deleting a fresh like restores the store. |
| FilmStore.LikesChangeOnlyAtFilm | src/main/java/ru/yandex/practicum/filmorate/dao/inMemory/InMemoryFilmDaoImpl.java:80-92 | A like or unlike changes one film's count by at most one, and no other film. |
| FilmStore.GetPopularFilms | src/main/java/ru/yandex/practicum/filmorate/dao/inMemory/InMemoryFilmDaoImpl.java:94-101 | The result has min(count, films) elements, is non-increasing in likes and is drawn from the stored films. It is a prefix of the stable sort by likes. |
| FilmStore.PopularFilmsAreStored | src/main/java/ru/yandex/practicum/filmorate/dao/inMemory/InMemoryFilmDaoImpl.java:94-101 | Every popular film is a stored film. |
| FilmStore.PopularFilmsFollowStableSort | src/main/java/ru/yandex/practicum/filmorate/dao/inMemory/InMemoryFilmDaoImpl.java:94-101 | The popular films are a prefix of any stable descending sort of the store by likes. |
| FilmStore.PopularFilmsKeepMostLiked | src/main/java/ru/yandex/practicum/filmorate/dao/inMemory/InMemoryFilmDaoImpl.java:94-101 | A stored film left out has no more likes than any film kept. |
| FilmStore.PopularFilmsEqualLikes | src/main/java/ru/yandex/practicum/filmorate/dao/inMemory/InMemoryFilmDaoImpl.java:94-101 | With equal like counts, the popular films are the first films in store order. |
| FilmDao.InMemoryFilmDao.constructor | src/main/java/ru/yandex/practicum/filmorate/dao/inMemory/InMemoryFilmDaoImpl.java:17-18 | It starts as an empty, well-formed store. |
| FilmDao.InMemoryFilmDao.AddFilm | src/main/java/ru/yandex/practicum/filmorate/dao/inMemory/InMemoryFilmDaoImpl.java:63-68 | The new fields and the result are those of FilmStore.AddFilm on the old fields. |
| FilmDao.InMemoryFilmDao.UpdateFilm | src/main/java/ru/yandex/practicum/filmorate/dao/inMemory/InMemoryFilmDaoImpl.java:70-78 | The new fields and the result are those of FilmStore.UpdateFilm on the old fields. |
| FilmDao.InMemoryFilmDao.AddLike | src/main/java/ru/yandex/practicum/filmorate/dao/inMemory/InMemoryFilmDaoImpl.java:80-85 | The new fields and the result are those of FilmStore.AddLike on the old fields. |
| FilmDao.InMemoryFilmDao.DeleteLike | src/main/java/ru/yandex/practicum/filmorate/dao/inMemory/InMemoryFilmDaoImpl.java:87-92 | The new fields and the result are those of FilmStore.DeleteLike on the old fields. |
| LegacyStorage.CountLike | src/main/java/ru/yandex/practicum/filmorate/storage/InMemoryFilmStorage.java:61-62 | The counter always rises by one and the user is in the liked set afterwards. The set is otherwise unchanged, and so is every other field of the film. |
| LegacyStorage.CountUnlike | src/main/java/ru/yandex/practicum/filmorate/storage/InMemoryFilmStorage.java:73-74 | The counter always falls by one and the user is not in the liked set afterwards. The set is otherwise unchanged, and so is every other field of the film. |
| LegacyStorage.CountLikeDrift | src/main/java/ru/yandex/practicum/filmorate/storage/InMemoryFilmStorage.java:61-62 | A like raises the counter by one and puts the user in the set. The drift between counter and set size grows by one exactly when the user had already liked the film. |
| LegacyStorage.CountUnlikeDrift | src/main/java/ru/yandex/practicum/filmorate/storage/InMemoryFilmStorage.java:73-74 | An unlike lowers the counter by one and takes the user out of the set. The drift falls by one exactly when the user had not liked the film. |
| LegacyStorage.RepeatedLikeOvercounts | src/main/java/ru/yandex/practicum/filmorate/storage/InMemoryFilmStorage.java:56-66 | Two likes by one user count two likes from one liked user. |
| LegacyStorage.MissingUnlikeGoesNegative | src/main/java/ru/yandex/practicum/filmorate/storage/InMemoryFilmStorage.java:68-78 | Unliking an unliked film gives a count of minus one. |
| LegacyStorage.FindUserById | src/main/java/ru/yandex/practicum/filmorate/storage/InMemoryFilmStorage.java:23-28 | A user is found exactly when one in the list has the id. The one found has that id and is the first in the list to have it. |
| LegacyStorage.ScanMatchesLookup | src/main/java/ru/yandex/practicum/filmorate/storage/InMemoryFilmStorage.java:23-28 | Scanning the list of all users finds the same user as a lookup by id. |
| LegacyStorage.InMemoryUserStorage.constructor | src/main/java/ru/yandex/practicum/filmorate/storage/InMemoryUserStorage.java:14-15 | It starts as an empty, well-formed store. |
| LegacyStorage.InMemoryUserStorage.FindAllUsers | src/main/java/ru/yandex/practicum/filmorate/storage/InMemoryUserStorage.java:17-20 | Every stored user appears exactly once, and nothing else. |
| LegacyStorage.InMemoryUserStorage.GetUser | src/main/java/ru/yandex/practicum/filmorate/storage/InMemoryUserStorage.java:22-25 | The stored user, or null for an unknown id. |
| LegacyStorage.InMemoryUserStorage.AddUser | src/main/java/ru/yandex/practicum/filmorate/storage/InMemoryUserStorage.java:27-32 | Behaves as UserStore.AddUser on the old fields. |
| LegacyStorage.InMemoryUserStorage.UpdateUser | src/main/java/ru/yandex/practicum/filmorate/storage/InMemoryUserStorage.java:34-42 | Behaves as UserStore.UpdateUser, with null for an unknown id. |
| LegacyStorage.InMemoryUserStorage.AddFriend | src/main/java/ru/yandex/practicum/filmorate/storage/InMemoryUserStorage.java:44-48 | This stub always returns null. |
| LegacyStorage.InMemoryUserStorage.DeleteFriend | src/main/java/ru/yandex/practicum/filmorate/storage/InMemoryUserStorage.java:50-53 | This stub changes nothing. |
| LegacyStorage.InMemoryUserStorage.GetFriends | src/main/java/ru/yandex/practicum/filmorate/storage/InMemoryUserStorage.java:55-58 | This stub always returns null. |
| LegacyStorage.InMemoryUserStorage.GetCommonFriends | src/main/java/ru/yandex/practicum/filmorate/storage/InMemoryUserStorage.java:60-63 | This stub always returns null. |
| LegacyStorage.InMemoryFilmStorage.constructor | src/main/java/ru/yandex/practicum/filmorate/storage/InMemoryFilmStorage.java:18-21 | It starts empty and keeps the user storage it is given. |
| LegacyStorage.InMemoryFilmStorage.GetUser | src/main/java/ru/yandex/practicum/filmorate/storage/InMemoryFilmStorage.java:23-28 | The scan gives the user storage's own lookup. |
| LegacyStorage.InMemoryFilmStorage.FindAllFilms | src/main/java/ru/yandex/practicum/filmorate/storage/InMemoryFilmStorage.java:30-33 | Every stored film appears exactly once, and nothing else. |
| LegacyStorage.InMemoryFilmStorage.GetFilm | src/main/java/ru/yandex/practicum/filmorate/storage/InMemoryFilmStorage.java:35-37 | The stored film, or null for an unknown id. |
| LegacyStorage.InMemoryFilmStorage.AddFilm | src/main/java/ru/yandex/practicum/filmorate/storage/InMemoryFilmStorage.java:39-44 | The film gets counter+1 as id. That id was unused. Only that entry and its place in the order are added. |
| LegacyStorage.InMemoryFilmStorage.UpdateFilm | src/main/java/ru/yandex/practicum/filmorate/storage/InMemoryFilmStorage.java:46-54 | A known id is replaced and the film returned. For an unknown id, null and no change. |
| LegacyStorage.InMemoryFilmStorage.AddLike | src/main/java/ru/yandex/practicum/filmorate/storage/InMemoryFilmStorage.java:56-66 | With a stored user and a stored film, the film is CountLike'd and returned. Otherwise null and no change. |
| LegacyStorage.InMemoryFilmStorage.DeleteLike | src/main/java/ru/yandex/practicum/filmorate/storage/InMemoryFilmStorage.java:68-78 | With a stored user and a stored film, the film is CountUnlike'd and returned. Otherwise null and no change. |
| LegacyStorage.InMemoryFilmStorage.GetPopularFilms | src/main/java/ru/yandex/practicum/filmorate/storage/InMemoryFilmStorage.java:80-87 | min(count, films) films, non-increasing in the stored counter. They are a prefix of the stable sort by that counter. |
| LegacyStorage.RepeatedLikeInStorage | src/main/java/ru/yandex/practicum/filmorate/storage/InMemoryFilmStorage.java:56-66 | Through the storage classes: a stored user liking a new film twice leaves its counter at 2 with one liked user. |
| UserService.IsBlank | src/main/java/ru/yandex/practicum/filmorate/service/UserService.java:23 | `String.isBlank`: the empty string is blank, and a string is blank exactly when every character in it is Java whitespace. |
| UserService.CheckUserName | src/main/java/ru/yandex/practicum/filmorate/service/UserService.java:22-26 | A missing or blank name becomes the login. A real name is kept. Nothing else changes. A non-blank login always gives a non-blank name. |
| UserService.CheckUserNameIdempotent | src/main/java/ru/yandex/practicum/filmorate/service/UserService.java:22-26 | Checking the name twice is checking it once. |
| UserService.GetUser | src/main/java/ru/yandex/practicum/filmorate/service/UserService.java:28-31 | The stored user, or "User not found" exactly for an unknown id. |
| UserService.AddUser | src/main/java/ru/yandex/practicum/filmorate/service/UserService.java:33-37 | The name-checked user is stored under the next id, which is appended to the insertion order; nothing else in the store changes. A non-blank login gives a non-blank stored name. |
| UserService.UpdateUser | src/main/java/ru/yandex/practicum/filmorate/service/UserService.java:39-44 | For a known id the name-checked user replaces the stored one. Otherwise "User not found" and no change. |
| UserService.AddFriend | src/main/java/ru/yandex/practicum/filmorate/service/UserService.java:46-50 | It succeeds exactly when both users are stored, and then the new store is the old one with just the two friend sets linked, so each lists the other. Otherwise "User not found" and no change. Symmetry is kept. |
| UserService.DeleteFriend | src/main/java/ru/yandex/practicum/filmorate/service/UserService.java:52-54 | It never fails. With both users stored, the new store is the old one with just the two friend sets unlinked, so neither lists the other. Otherwise no change. Symmetry is kept. |
| UserService.GetFriends | src/main/java/ru/yandex/practicum/filmorate/service/UserService.java:56-59 | Exactly the stored friends, or "User not found" for an unknown user. |
| UserService.GetCommonFriends | src/main/java/ru/yandex/practicum/filmorate/service/UserService.java:61-64 | Exactly the stored friends of both, or "User not found" unless both are stored. |
| UserService.AddedFriendIsListed | src/main/java/ru/yandex/practicum/filmorate/service/UserService.java:46-59 | After addFriend, each user is in the other's friend list. |
| UserService.DeletedFriendIsNotListed | src/main/java/ru/yandex/practicum/filmorate/service/UserService.java:52-59 | After deleteFriend, neither user is in the other's friend list. |
| UserService.AddedUserCanBeFetched | src/main/java/ru/yandex/practicum/filmorate/service/UserService.java:28-37 | A user just added is found under its new id, name checked. |
| FilmService.CheckFilmMaxDate | src/main/java/ru/yandex/practicum/filmorate/service/FilmService.java:22-28 | A validation error with the date message exactly for release dates before 1895-12-12. |
| FilmService.DateCheckIsDayOrder | src/main/java/ru/yandex/practicum/filmorate/service/FilmService.java:22-28 | For calendar dates, the check rejects exactly the dates with a smaller day count than 1895-12-12. |
| FilmService.GetFilm | src/main/java/ru/yandex/practicum/filmorate/service/FilmService.java:34-37 | The stored film, or "Film is not found" exactly for an unknown id. |
| FilmService.AddFilm | src/main/java/ru/yandex/practicum/filmorate/service/FilmService.java:39-43 | A film released too early is refused and nothing changes. Any other film is stored under the next id, which is appended to the insertion order; nothing else changes. |
| FilmService.UpdateFilm | src/main/java/ru/yandex/practicum/filmorate/service/FilmService.java:45-50 | The date error comes first, then "Film is not found". It succeeds exactly when neither applies, and the film then replaces the stored one. |
| FilmService.AddLike | src/main/java/ru/yandex/practicum/filmorate/service/FilmService.java:52-59 | "User not found" comes before the film check, then "Wrong film or userId is provided". On success the user is among the film's likers, and the new store is the old one with only that film replaced. |
| FilmService.DeleteLike | src/main/java/ru/yandex/practicum/filmorate/service/FilmService.java:61-68 | The same order, with "Wrong film or userId is presented". On success the user is not among the film's likers, and the new store is the old one with only that film replaced. |
| FilmService.GetPopularFilms | src/main/java/ru/yandex/practicum/filmorate/service/FilmService.java:70-73 | An error exactly for a negative count. Otherwise min(count, films) stored films, non-increasing in likes, forming a prefix of the stable descending sort of the films in store order, so ties keep store order. |
| FilmService.LikeThenUnlikeRestores | src/main/java/ru/yandex/practicum/filmorate/service/FilmService.java:52-68 | A fresh like taken back by the same user restores the film store. |
| FilmService.AddedFilmCanBeFetched | src/main/java/ru/yandex/practicum/filmorate/service/FilmService.java:34-43 | A film just added, with an accepted date, is found under its new id. |

## Left out

- The JDBC DAOs, the controllers, the exception handler and the HTTP layer are not part of this model. Neither are logging and the Spring wiring.
- `AtomicInteger` and its thread safety, and concurrent access to the maps: the model is sequential.
- Integer overflow of ids and of the legacy like counter: ids and counts are unbounded integers.
- Aliasing: the source stores and returns the caller's own objects, and later changes to a returned film or user show in the store. The model stores values.
- A `HashSet` or `HashMap` has no fixed iteration order. Friend lists and the genre and rating lists are sets. The stores list records in id order, as a `HashMap` does for `Integer` keys while every id is below 65536. From id 65536 on, the `HashMap` order differs and that order is not modelled.
- UserStore.GetFriends: a friend id with no stored user would give a `null` list entry in the source. The model leaves it out.
- UserStore.GetCommonFriends: the same dangling-id case, left out in the same way.
- `null` values passed for the name, description, release date or login of a record are not modelled, except the user's name, which is an `Option`.
- FilmStore.GetPopularFilms: takes `count` as a natural number. The negative case, where `Stream.limit` throws, is modelled in FilmService.GetPopularFilms.
- LegacyStorage.InMemoryFilmStorage.GetPopularFilms: also takes a natural number, and the same exception for a negative count is not modelled.
- The static maps of the legacy storages are shared by every instance in the source. Each model instance has its own.
- The repository's Film.java is the later revision and has no stored like counter. The legacy record `LegacyStorage.LegacyFilm`, a stored counter beside a liked-user set, is reconstructed from the calls at InMemoryFilmStorage.java:61-62 and 73-74. Adding and removing a liked user are taken to be set insertion and removal.
- Bean-validation constraints of `User` (email, login pattern, birthday) are checked by the HTTP layer and are not modelled.

## Findings

| source | as written | input that shows it | evidently intended | confidence | as-written member | corrected member |
|---|---|---|---|---|---|---|
| src/main/java/ru/yandex/practicum/filmorate/storage/InMemoryFilmStorage.java:56-78 | The like counter moves on every addLike and deleteLike, whether or not the liked-user set changes. | A stored user likes a new film twice: the counter is 2 but one user likes it. Unliking a film nobody liked gives -1. | The like count equals the number of distinct likers, and a repeated like or unlike changes nothing. | not executed | LegacyStorage.RepeatedLikeInStorage | FilmStore.Like |

The current film DAO derives the count from the liked-user set. `FilmStore.Like` and `FilmStore.Unlike` prove the count moves only when the set does. `FilmStore.AddLikeIdempotent` proves that a repeated like changes nothing. The services use that DAO.

/** The in-memory user DAO: a map from id to user, an id counter that only
    goes up, and the symmetric friendship graph kept in the users' friend sets.

    The store's contents are a value, UserTable; each operation is specified
    by a function from the old table to the new one (and its result), and the
    class InMemoryUserDao, whose methods change its fields in place, is proved
    against those functions. */
module UserStore {
  import opened Wrappers
  import opened Model
  import Ids

  /** The users by id, the ids in the order they were added (the order in
      which the store lists its users), and the last id handed out. */
  datatype UserTable = UserTable(users: map<int, User>, order: seq<int>, lastId: int)

  /** The store as it starts: no users, counter at 0. */
  const EmptyTable := UserTable(map[], [], 0)

  /** Every user is stored under its own id, ids were all taken from the
      counter, and `order` lists each stored id once, in increasing order. */
  ghost predicate ValidTable(t: UserTable)
  {
    && t.lastId >= 0
    && (forall k :: k in t.users ==> 1 <= k <= t.lastId && t.users[k].id == k)
    && Ids.Listed(t.users, t.order)
  }

  /** findAllUsers: every stored user once, in the order of their ids. */
  function FindAllUsers(t: UserTable): (r: seq<User>)
    requires ValidTable(t)
    ensures |r| == |t.users| == |t.order|
    ensures forall i :: 0 <= i < |r| ==> r[i] == t.users[t.order[i]]
    ensures forall u :: u in r <==> u.id in t.users && t.users[u.id] == u
    ensures forall i, j :: 0 <= i < j < |r| ==> r[i].id < r[j].id
  {
    var r := Ids.ListInOrder(t.users, t.order);
    forall u: User | u in r ensures u.id in t.users && t.users[u.id] == u {
      var i :| 0 <= i < |r| && r[i] == u;
      assert t.order[i] in t.users;
    }
    forall u: User | u.id in t.users && t.users[u.id] == u ensures u in r {
      var i :| 0 <= i < |t.order| && t.order[i] == u.id;
      assert r[i] == u;
    }
    r
  }

  /** getUser: the stored user, or None for an unknown id. */
  function GetUser(t: UserTable, userId: int): (r: Option<User>)
    ensures r.Some? <==> userId in t.users
    ensures r.Some? ==> r.value == t.users[userId]
  {
    if userId in t.users then Some(t.users[userId]) else None
  }

  /** addUser: the user gets the next id from the counter and is stored under
      it; that id was never used before. */
  function AddUser(t: UserTable, user: User): (res: (UserTable, User))
    requires ValidTable(t)
    ensures ValidTable(res.0)
    ensures res.1 == user.(id := t.lastId + 1) && res.0.lastId == t.lastId + 1
    ensures res.1.id !in t.users
    ensures res.0.users == t.users[res.1.id := res.1]
    ensures res.0.order == t.order + [res.1.id]
  {
    var stored := user.(id := t.lastId + 1);
    (UserTable(t.users[stored.id := stored], t.order + [stored.id], stored.id), stored)
  }

  /** A user added to the store is listed last by findAllUsers, after all the
      users that were there before. */
  lemma AddUserListsLast(t: UserTable, user: User)
    requires ValidTable(t)
    ensures FindAllUsers(AddUser(t, user).0) == FindAllUsers(t) + [AddUser(t, user).1]
  {
    var stored := AddUser(t, user).1;
    Ids.ListInOrderAppend(t.users, t.order, stored.id, stored);
  }

  /** updateUser: for a known id the stored record is replaced by the argument
      as a whole (its friend set included); for an unknown id nothing changes
      and the result is None. */
  function UpdateUser(t: UserTable, user: User): (res: (UserTable, Option<User>))
    requires ValidTable(t)
    ensures ValidTable(res.0)
    ensures user.id !in t.users ==> res == (t, None)
    ensures user.id in t.users ==>
      res.1 == Some(user) && res.0 == t.(users := t.users[user.id := user])
  {
    if user.id in t.users then
      (t.(users := t.users[user.id := user]), Some(user))
    else
      (t, None)
  }

  /** Friendship is symmetric among the stored users. */
  ghost predicate Symmetric(m: map<int, User>)
  {
    forall a, b :: a in m && b in m ==> (b in m[a].friends <==> a in m[b].friends)
  }

  /** Every friend id names a stored user. */
  ghost predicate Closed(m: map<int, User>)
  {
    forall a, b :: a in m && b in m[a].friends ==> b in m
  }

  /** `b` is added to `a`'s friends, then `a` to `b`'s, as addFriend does to the
      two stored objects (they are one object when a == b). */
  function Link(m: map<int, User>, a: int, b: int): (r: map<int, User>)
    requires a in m && b in m
    ensures r.Keys == m.Keys
    ensures r[a].friends == m[a].friends + {b} && r[b].friends == m[b].friends + {a}
    ensures r[a] == m[a].(friends := r[a].friends) && r[b] == m[b].(friends := r[b].friends)
    ensures forall k :: k in m && k != a && k != b ==> r[k] == m[k]
  {
    var m1 := m[a := m[a].(friends := m[a].friends + {b})];
    m1[b := m1[b].(friends := m1[b].friends + {a})]
  }

  /** `b` is removed from `a`'s friends, then `a` from `b`'s, as deleteFriend does. */
  function Unlink(m: map<int, User>, a: int, b: int): (r: map<int, User>)
    requires a in m && b in m
    ensures r.Keys == m.Keys
    ensures r[a].friends == m[a].friends - {b} && r[b].friends == m[b].friends - {a}
    ensures r[a] == m[a].(friends := r[a].friends) && r[b] == m[b].(friends := r[b].friends)
    ensures forall k :: k in m && k != a && k != b ==> r[k] == m[k]
  {
    var m1 := m[a := m[a].(friends := m[a].friends - {b})];
    m1[b := m1[b].(friends := m1[b].friends - {a})]
  }

  /** Adding an edge keeps the relation symmetric and its ids stored. */
  lemma LinkKeepsInvariants(m: map<int, User>, a: int, b: int)
    requires a in m && b in m
    ensures Symmetric(m) ==> Symmetric(Link(m, a, b))
    ensures Closed(m) ==> Closed(Link(m, a, b))
  {
    var r := Link(m, a, b);
    if Symmetric(m) {
      forall x, y | x in r && y in r ensures y in r[x].friends <==> x in r[y].friends {
        assert y in m[x].friends <==> x in m[y].friends;
      }
    }
    if Closed(m) {
      forall x, y | x in r && y in r[x].friends ensures y in r {
        if x != a && x != b { assert y in m[x].friends; }
      }
    }
  }

  /** Removing an edge keeps the relation symmetric and its ids stored. */
  lemma UnlinkKeepsInvariants(m: map<int, User>, a: int, b: int)
    requires a in m && b in m
    ensures Symmetric(m) ==> Symmetric(Unlink(m, a, b))
    ensures Closed(m) ==> Closed(Unlink(m, a, b))
  {
    var r := Unlink(m, a, b);
    if Symmetric(m) {
      forall x, y | x in r && y in r ensures y in r[x].friends <==> x in r[y].friends {
        assert y in m[x].friends <==> x in m[y].friends;
      }
    }
    if Closed(m) {
      forall x, y | x in r && y in r[x].friends ensures y in r {
        assert y in m[x].friends;
      }
    }
  }

  /** Adding the same edge twice is adding it once. */
  lemma LinkIdempotent(m: map<int, User>, a: int, b: int)
    requires a in m && b in m
    ensures Link(Link(m, a, b), a, b) == Link(m, a, b)
  {
    var r := Link(m, a, b);
    var rr := Link(r, a, b);
    assert rr[a].friends == r[a].friends;
    assert rr[b].friends == r[b].friends;
    assert forall k :: k in rr ==> rr[k] == r[k];
  }

  /** Removing the same edge twice is removing it once. */
  lemma UnlinkIdempotent(m: map<int, User>, a: int, b: int)
    requires a in m && b in m
    ensures Unlink(Unlink(m, a, b), a, b) == Unlink(m, a, b)
  {
    var r := Unlink(m, a, b);
    var rr := Unlink(r, a, b);
    assert rr[a].friends == r[a].friends;
    assert rr[b].friends == r[b].friends;
    assert forall k :: k in rr ==> rr[k] == r[k];
  }

  /** Removing an edge that is not there changes nothing. */
  lemma UnlinkAbsent(m: map<int, User>, a: int, b: int)
    requires a in m && b in m
    requires b !in m[a].friends && a !in m[b].friends
    ensures Unlink(m, a, b) == m
  {
    var r := Unlink(m, a, b);
    assert r[a].friends == m[a].friends;
    assert r[b].friends == m[b].friends;
    assert forall k :: k in r ==> r[k] == m[k];
  }

  /** Adding a new edge and removing it again gives back the graph. */
  lemma UnlinkUndoesLink(m: map<int, User>, a: int, b: int)
    requires a in m && b in m
    requires b !in m[a].friends && a !in m[b].friends
    ensures Unlink(Link(m, a, b), a, b) == m
  {
    var r := Unlink(Link(m, a, b), a, b);
    assert r[a].friends == m[a].friends;
    assert r[b].friends == m[b].friends;
    assert forall k :: k in r ==> r[k] == m[k];
  }

  /** addFriend: when both users are stored, each gets the other as a friend
      and the result is the first user as now stored; otherwise None and
      nothing changes. */
  function AddFriend(t: UserTable, userId: int, friendId: int): (res: (UserTable, Option<User>))
    requires ValidTable(t)
    ensures ValidTable(res.0)
    ensures userId in t.users && friendId in t.users ==>
      res.0 == t.(users := Link(t.users, userId, friendId)) && res.1 == Some(res.0.users[userId])
    ensures !(userId in t.users && friendId in t.users) ==> res == (t, None)
  {
    if userId in t.users && friendId in t.users then
      var t' := t.(users := Link(t.users, userId, friendId));
      (t', Some(t'.users[userId]))
    else
      (t, None)
  }

  /** deleteFriend: when both users are stored, the edge goes in both
      directions; otherwise nothing changes. It reports nothing either way. */
  function DeleteFriend(t: UserTable, userId: int, friendId: int): (t': UserTable)
    requires ValidTable(t)
    ensures ValidTable(t')
    ensures userId in t.users && friendId in t.users ==> t' == t.(users := Unlink(t.users, userId, friendId))
    ensures !(userId in t.users && friendId in t.users) ==> t' == t
  {
    if userId in t.users && friendId in t.users then
      t.(users := Unlink(t.users, userId, friendId))
    else
      t
  }

  /** The stored users whose ids are in `ids`. */
  function Resolve(t: UserTable, ids: set<int>): set<User>
  {
    set id | id in ids && id in t.users :: t.users[id]
  }

  /** getFriends: None for an unknown user; otherwise the stored users whose
      ids are in the user's friend set. */
  function GetFriends(t: UserTable, userId: int): (r: Option<set<User>>)
    requires ValidTable(t)
    ensures r.Some? <==> userId in t.users
    ensures r.Some? ==> forall u :: u in r.value <==>
      u.id in t.users[userId].friends && u.id in t.users && t.users[u.id] == u
  {
    if userId in t.users then Some(Resolve(t, t.users[userId].friends)) else None
  }

  /** getCommonFriends: None unless both users are stored; otherwise the
      stored users who are friends of both. */
  function GetCommonFriends(t: UserTable, userId: int, otherId: int): (r: Option<set<User>>)
    requires ValidTable(t)
    ensures r.Some? <==> userId in t.users && otherId in t.users
    ensures r.Some? ==> forall u :: u in r.value <==>
      u.id in t.users[userId].friends * t.users[otherId].friends && u.id in t.users && t.users[u.id] == u
  {
    if userId in t.users && otherId in t.users then
      Some(Resolve(t, t.users[userId].friends * t.users[otherId].friends))
    else
      None
  }

  /** When every friend id is stored, getFriends yields one user per friend id. */
  lemma FriendIdsExact(t: UserTable, userId: int)
    requires ValidTable(t) && Closed(t.users) && userId in t.users
    ensures (set u | u in GetFriends(t, userId).value :: u.id) == t.users[userId].friends
  {
    var fs := GetFriends(t, userId).value;
    forall id | id in t.users[userId].friends ensures id in (set u | u in fs :: u.id) {
      assert t.users[id] in fs;
    }
  }

  /** Common friends do not depend on the order of the two users, and a
      user's common friends with itself are its friends. */
  lemma CommonFriendsSymmetric(t: UserTable, userId: int, otherId: int)
    requires ValidTable(t)
    ensures GetCommonFriends(t, userId, otherId) == GetCommonFriends(t, otherId, userId)
    ensures GetCommonFriends(t, userId, userId) == GetFriends(t, userId)
  {
    if userId in t.users && otherId in t.users {
      assert t.users[userId].friends * t.users[otherId].friends == t.users[otherId].friends * t.users[userId].friends;
    }
    if userId in t.users {
      assert t.users[userId].friends * t.users[userId].friends == t.users[userId].friends;
    }
  }

  /** Adding the same friendship twice leaves the store as adding it once. */
  lemma AddFriendIdempotent(t: UserTable, userId: int, friendId: int)
    requires ValidTable(t)
    ensures AddFriend(AddFriend(t, userId, friendId).0, userId, friendId) == AddFriend(t, userId, friendId)
  {
    if userId in t.users && friendId in t.users {
      LinkIdempotent(t.users, userId, friendId);
    }
  }

  /** addFriend and deleteFriend keep friendship symmetric. */
  lemma FriendOpsKeepSymmetric(t: UserTable, userId: int, friendId: int)
    requires ValidTable(t) && Symmetric(t.users)
    ensures Symmetric(AddFriend(t, userId, friendId).0.users)
    ensures Symmetric(DeleteFriend(t, userId, friendId).users)
  {
    if userId in t.users && friendId in t.users {
      LinkKeepsInvariants(t.users, userId, friendId);
      UnlinkKeepsInvariants(t.users, userId, friendId);
    }
  }

  /** After deleteFriend of two stored users neither lists the other, and
      deleting an edge of a symmetric graph that is not there changes nothing. */
  lemma DeleteFriendRemovesEdge(t: UserTable, userId: int, friendId: int)
    requires ValidTable(t) && userId in t.users && friendId in t.users
    ensures var t' := DeleteFriend(t, userId, friendId);
      friendId !in t'.users[userId].friends && userId !in t'.users[friendId].friends
    ensures Symmetric(t.users) && friendId !in t.users[userId].friends ==> DeleteFriend(t, userId, friendId) == t
  {
    if Symmetric(t.users) && friendId !in t.users[userId].friends {
      UnlinkAbsent(t.users, userId, friendId);
    }
  }

  /** Two users who both befriend a third have that user as a common friend. */
  lemma SharedFriendIsCommon(t: UserTable, a: int, b: int, c: int)
    requires ValidTable(t) && a in t.users && b in t.users && c in t.users
    ensures var t2 := AddFriend(AddFriend(t, a, b).0, c, b).0;
      t2.users[b] in GetCommonFriends(t2, a, c).value
  {
    var t1 := AddFriend(t, a, b).0;
    var t2 := AddFriend(t1, c, b).0;
    assert b in t1.users[a].friends;
    assert b in t2.users[a].friends;
    assert b in t2.users[c].friends;
  }

  /** Nothing stops a user from befriending itself: addFriend with the same
      id twice stores the user among its own friends. */
  lemma SelfFriendIsStored(t: UserTable, userId: int)
    requires ValidTable(t) && userId in t.users
    ensures AddFriend(t, userId, userId).1.Some?
    ensures userId in AddFriend(t, userId, userId).0.users[userId].friends
  {
  }

  /** updateUser stores the argument's friend set as it is, so it can break
      the symmetry that addFriend and deleteFriend keep. */
  lemma UpdateUserCanBreakSymmetry(email: string, login: string, birthday: Dates.Date)
    ensures var u1 := User(1, email, login, None, birthday, {2});
      var u2 := User(2, email, login, None, birthday, {1});
      var t := UserTable(map[1 := u1, 2 := u2], [1, 2], 2);
      ValidTable(t) && Symmetric(t.users) && !Symmetric(UpdateUser(t, u1.(friends := {})).0.users)
  {
    var u1 := User(1, email, login, None, birthday, {2});
    var u2 := User(2, email, login, None, birthday, {1});
    var t := UserTable(map[1 := u1, 2 := u2], [1, 2], 2);
    var m := UpdateUser(t, u1.(friends := {})).0.users;
    assert 1 in m[2].friends && 2 !in m[1].friends;
  }
}

/** InMemoryUserDaoImpl itself: the fields its methods update in place. */
module UserDao {
  import opened Wrappers
  import opened Model
  import UserStore

  /** InMemoryUserDaoImpl: the users map, the insertion order and the counter. */
  class InMemoryUserDao {
    var users: map<int, User>
    var order: seq<int>
    var uniqueId: int

    /** The store's contents as a value. */
    function Table(): UserStore.UserTable
      reads this
    {
      UserStore.UserTable(users, order, uniqueId)
    }

    ghost predicate Valid()
      reads this
    {
      UserStore.ValidTable(Table())
    }

    constructor ()
      ensures Valid() && Table() == UserStore.EmptyTable
    {
      users, order, uniqueId := map[], [], 0;
    }

    method AddUser(user: User) returns (r: User)
      requires Valid()
      modifies this
      ensures Valid()
      ensures (Table(), r) == UserStore.AddUser(old(Table()), user)
    {
      uniqueId := uniqueId + 1;
      r := user.(id := uniqueId);
      users := users[r.id := r];
      order := order + [r.id];
    }

    method UpdateUser(user: User) returns (r: Option<User>)
      requires Valid()
      modifies this
      ensures Valid()
      ensures (Table(), r) == UserStore.UpdateUser(old(Table()), user)
    {
      var current := UserStore.GetUser(Table(), user.id);
      if current.Some? {
        users := users[user.id := user];
        r := Some(user);
      } else {
        r := current;
      }
    }

    method AddFriend(userId: int, friendId: int) returns (r: Option<User>)
      requires Valid()
      modifies this
      ensures Valid()
      ensures (Table(), r) == UserStore.AddFriend(old(Table()), userId, friendId)
    {
      var current := UserStore.GetUser(Table(), userId);
      var friend := UserStore.GetUser(Table(), friendId);
      if current.Some? && friend.Some? {
        var u := users[userId];
        users := users[userId := u.(friends := u.friends + {friendId})];
        var f := users[friendId];
        users := users[friendId := f.(friends := f.friends + {userId})];
        r := Some(users[userId]);
      } else {
        r := None;
      }
    }

    method DeleteFriend(userId: int, friendId: int)
      requires Valid()
      modifies this
      ensures Valid()
      ensures Table() == UserStore.DeleteFriend(old(Table()), userId, friendId)
    {
      var current := UserStore.GetUser(Table(), userId);
      var friend := UserStore.GetUser(Table(), friendId);
      if current.Some? && friend.Some? {
        var u := users[userId];
        users := users[userId := u.(friends := u.friends - {friendId})];
        var f := users[friendId];
        users := users[friendId := f.(friends := f.friends - {userId})];
      }
    }
  }
}

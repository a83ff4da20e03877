/** UserService: fills in a missing display name and turns the store's
    "not there" answers into ObjectNotFoundException. Each operation takes the
    user store's contents and, where the store changes, returns its new
    contents beside the result. */
module UserService {
  import opened Wrappers
  import opened Model
  import opened Errors
  import UserStore

  const UserNotFound := "User not found"

  /** Character.isWhitespace: the Unicode space, line and paragraph
      separators other than the three non-breaking spaces, and the control
      characters U+0009 to U+000D and U+001C to U+001F. */
  predicate IsWhitespace(c: char)
  {
    || '\U{0009}' <= c <= '\U{000D}'
    || '\U{001C}' <= c <= '\U{0020}'
    || c == '\U{1680}'
    || '\U{2000}' <= c <= '\U{2006}'
    || '\U{2008}' <= c <= '\U{200A}'
    || c == '\U{2028}' || c == '\U{2029}' || c == '\U{205F}' || c == '\U{3000}'
  }

  /** String.isBlank: empty, or whitespace only. */
  predicate IsBlank(s: string)
    ensures s == [] ==> IsBlank(s)
    ensures IsBlank(s) <==> forall c :: c in s ==> IsWhitespace(c)
  {
    forall i :: 0 <= i < |s| ==> IsWhitespace(s[i])
  }

  /** checkUserName: a user with no name, or a blank one, is named after the
      login; nothing else about the user changes. */
  function CheckUserName(user: User): (r: User)
    ensures r == user.(name := r.name)
    ensures user.name.None? || IsBlank(user.name.value) ==> r.name == Some(user.login)
    ensures user.name.Some? && !IsBlank(user.name.value) ==> r.name == user.name
    ensures !IsBlank(user.login) ==> r.name.Some? && !IsBlank(r.name.value)
  {
    if user.name.None? || IsBlank(user.name.value) then user.(name := Some(user.login)) else user
  }

  /** Checking the name a second time changes nothing. */
  lemma CheckUserNameIdempotent(user: User)
    ensures CheckUserName(CheckUserName(user)) == CheckUserName(user)
  {
  }

  /** getUser: the stored user, or "User not found". */
  function GetUser(t: UserStore.UserTable, userId: int): (r: Result<User>)
    ensures r.Ok? <==> userId in t.users
    ensures r.Ok? ==> r.value == t.users[userId]
    ensures r.Err? ==> r.error == NotFound(UserNotFound)
  {
    match UserStore.GetUser(t, userId)
    case Some(u) => Ok(u)
    case None => Err(NotFound(UserNotFound))
  }

  /** addUser: the user, its name checked, is stored under a fresh id. */
  function AddUser(t: UserStore.UserTable, user: User): (res: (UserStore.UserTable, User))
    requires UserStore.ValidTable(t)
    ensures UserStore.ValidTable(res.0)
    ensures res.1 == CheckUserName(user).(id := t.lastId + 1)
    ensures res.1.id !in t.users && res.0.users == t.users[res.1.id := res.1]
    ensures res.0.lastId == t.lastId + 1 && res.0.order == t.order + [res.1.id]
    ensures !IsBlank(user.login) ==> res.1.name.Some? && !IsBlank(res.1.name.value)
  {
    UserStore.AddUser(t, CheckUserName(user))
  }

  /** updateUser: the user, its name checked, replaces the stored user with
      its id; an unknown id is "User not found" and changes nothing. */
  function UpdateUser(t: UserStore.UserTable, user: User): (res: (UserStore.UserTable, Result<User>))
    requires UserStore.ValidTable(t)
    ensures UserStore.ValidTable(res.0)
    ensures res.1.Ok? <==> user.id in t.users
    ensures res.1.Ok? ==> res.1.value == CheckUserName(user) && res.0 == t.(users := t.users[user.id := res.1.value])
    ensures res.1.Err? ==> res.0 == t && res.1.error == NotFound(UserNotFound)
  {
    match UserStore.UpdateUser(t, CheckUserName(user))
    case (t', Some(u)) => (t', Ok(u))
    case (t', None) => (t', Err(NotFound(UserNotFound)))
  }

  /** addFriend: with both users stored, each becomes the other's friend and
      the result is the first user as now stored; otherwise "User not found"
      and nothing changes. Symmetric friendship stays symmetric. */
  function AddFriend(t: UserStore.UserTable, userId: int, friendId: int): (res: (UserStore.UserTable, Result<User>))
    requires UserStore.ValidTable(t)
    ensures UserStore.ValidTable(res.0)
    ensures res.1.Ok? <==> userId in t.users && friendId in t.users
    ensures res.1.Ok? ==> res.0 == t.(users := UserStore.Link(t.users, userId, friendId))
    ensures res.1.Ok? ==> res.0.users.Keys == t.users.Keys && res.1.value == res.0.users[userId]
    ensures res.1.Ok? ==> friendId in res.1.value.friends && userId in res.0.users[friendId].friends
    ensures res.1.Err? ==> res.0 == t && res.1.error == NotFound(UserNotFound)
    ensures UserStore.Symmetric(t.users) ==> UserStore.Symmetric(res.0.users)
  {
    var (t', found) := UserStore.AddFriend(t, userId, friendId);
    if found.Some? then
      UserStore.LinkKeepsInvariants(t.users, userId, friendId);
      (t', Ok(found.value))
    else
      (t', Err(NotFound(UserNotFound)))
  }

  /** deleteFriend: with both users stored, neither is the other's friend
      afterwards; it never fails. Symmetric friendship stays symmetric. */
  function DeleteFriend(t: UserStore.UserTable, userId: int, friendId: int): (t': UserStore.UserTable)
    requires UserStore.ValidTable(t)
    ensures UserStore.ValidTable(t') && t'.users.Keys == t.users.Keys
    ensures userId in t.users && friendId in t.users ==> t' == t.(users := UserStore.Unlink(t.users, userId, friendId))
    ensures userId in t.users && friendId in t.users ==>
      friendId !in t'.users[userId].friends && userId !in t'.users[friendId].friends
    ensures !(userId in t.users && friendId in t.users) ==> t' == t
    ensures UserStore.Symmetric(t.users) ==> UserStore.Symmetric(t'.users)
  {
    if userId in t.users && friendId in t.users then
      UserStore.UnlinkKeepsInvariants(t.users, userId, friendId);
      UserStore.DeleteFriend(t, userId, friendId)
    else
      UserStore.DeleteFriend(t, userId, friendId)
  }

  /** getFriends: the stored users among the user's friends, or "User not found". */
  function GetFriends(t: UserStore.UserTable, userId: int): (r: Result<set<User>>)
    requires UserStore.ValidTable(t)
    ensures r.Ok? <==> userId in t.users
    ensures r.Ok? ==> forall u :: u in r.value <==>
      u.id in t.users[userId].friends && u.id in t.users && t.users[u.id] == u
    ensures r.Err? ==> r.error == NotFound(UserNotFound)
  {
    match UserStore.GetFriends(t, userId)
    case Some(fs) => Ok(fs)
    case None => Err(NotFound(UserNotFound))
  }

  /** getCommonFriends: the stored users who are friends of both, or
      "User not found" unless both users are stored. */
  function GetCommonFriends(t: UserStore.UserTable, userId: int, otherId: int): (r: Result<set<User>>)
    requires UserStore.ValidTable(t)
    ensures r.Ok? <==> userId in t.users && otherId in t.users
    ensures r.Ok? ==> forall u :: u in r.value <==>
      u.id in t.users[userId].friends * t.users[otherId].friends && u.id in t.users && t.users[u.id] == u
    ensures r.Err? ==> r.error == NotFound(UserNotFound)
  {
    match UserStore.GetCommonFriends(t, userId, otherId)
    case Some(fs) => Ok(fs)
    case None => Err(NotFound(UserNotFound))
  }

  /** After addFriend succeeds, each user is listed among the other's friends. */
  lemma AddedFriendIsListed(t: UserStore.UserTable, userId: int, friendId: int)
    requires UserStore.ValidTable(t) && userId in t.users && friendId in t.users
    ensures var t' := AddFriend(t, userId, friendId).0;
      && t'.users[friendId] in GetFriends(t', userId).value
      && t'.users[userId] in GetFriends(t', friendId).value
  {
    var t' := AddFriend(t, userId, friendId).0;
    assert friendId in t'.users[userId].friends && userId in t'.users[friendId].friends;
  }

  /** After deleteFriend, neither user is listed among the other's friends. */
  lemma DeletedFriendIsNotListed(t: UserStore.UserTable, userId: int, friendId: int)
    requires UserStore.ValidTable(t) && userId in t.users && friendId in t.users
    ensures var t' := DeleteFriend(t, userId, friendId);
      && (forall u :: u in GetFriends(t', userId).value ==> u.id != friendId)
      && (forall u :: u in GetFriends(t', friendId).value ==> u.id != userId)
  {
    var t' := DeleteFriend(t, userId, friendId);
    assert friendId !in t'.users[userId].friends && userId !in t'.users[friendId].friends;
  }

  /** A user added by the service can be fetched back by its new id, name
      checked. */
  lemma AddedUserCanBeFetched(t: UserStore.UserTable, user: User)
    requires UserStore.ValidTable(t)
    ensures GetUser(AddUser(t, user).0, AddUser(t, user).1.id) == Ok(CheckUserName(user).(id := t.lastId + 1))
  {
  }
}

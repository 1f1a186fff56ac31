/** The JDBC user storage (repository/impl/UserDbStorage.java) over two
    tables: `users`, one row per user under a generated key, and `friends`,
    one row per directed friendship (user_id, friend_id) with a status. The
    storage writes status 2 and reads only rows with status 2. */
module UserDbStore {
  import opened Common
  import opened Ranking
  import opened Model

  /** The status of every friendship row this storage writes and reads. */
  const Confirmed: int := 2

  /** A row of the users table. */
  datatype UserRow = UserRow(name: string, email: string, login: string, birthday: Date)

  /** The user the row mapper builds from a row: no friends are loaded. */
  function RecordOf(id: Id, row: UserRow): (r: User)
    ensures r.id == id && r.email == Some(row.email) && r.name == Some(row.name)
    ensures r.login == row.login && r.birthday == row.birthday && r.friends == {}
  {
    User(id, Some(row.email), row.login, Some(row.name), row.birthday, {})
  }

  /** The row create and update write for a user whose email passed
      validateEmailFormat: a null or blank name is stored as the login. */
  function RowOf(user: User): (r: UserRow)
    requires user.email.Some?
    ensures r.name == (if Present(user.name) then user.name.value else user.login)
    ensures r.email == user.email.value && r.login == user.login && r.birthday == user.birthday
  {
    UserRow(WithDefaultName(user).name.value, user.email.value, user.login, user.birthday)
  }

  /** validateEmailFormat: a null or blank email, or one without '@', is an
      IncorrectParameterException. */
  function ValidateEmailFormat(user: User): (r: Outcome)
    ensures r == Pass <==> Present(user.email) && Contains(user.email.value, '@')
    ensures r != Pass ==> r == Fail(IncorrectParameter(BadEmail))
  {
    if !Present(user.email) || !Contains(user.email.value, '@') then Fail(IncorrectParameter(BadEmail))
    else Pass
  }

  /** The records of the given rows, in the order of `ids`. */
  function RecordsAt(users: map<Id, UserRow>, ids: seq<Id>): (r: seq<User>)
    requires forall i :: 0 <= i < |ids| ==> ids[i] in users
    ensures |r| == |ids| && forall i :: 0 <= i < |ids| ==> r[i] == RecordOf(ids[i], users[ids[i]])
  {
    seq(|ids|, i requires 0 <= i < |ids| => RecordOf(ids[i], users[ids[i]]))
  }

  /** Listing the records under every id of `s` lists exactly the records
      of the rows whose key is in `s`. */
  lemma RecordsAtCovers(users: map<Id, UserRow>, s: set<Id>, ids: seq<Id>)
    requires s <= users.Keys
    requires forall x :: x in ids <==> x in s
    ensures forall i :: 0 <= i < |ids| ==> ids[i] in users
    ensures forall u :: u in RecordsAt(users, ids) <==>
      u.id in s && u == RecordOf(u.id, users[u.id])
  {
    assert forall i :: 0 <= i < |ids| ==> ids[i] in ids;
    var r := RecordsAt(users, ids);
    forall u: User | u.id in s && u == RecordOf(u.id, users[u.id]) ensures u in r {
      var k: Id := u.id;
      assert k in ids;
      var i :| 0 <= i < |ids| && ids[i] == k;
      assert r[i] == u;
    }
  }

  /** The friends query's filter: there is a row from `a` to `b` with
      status 2. */
  predicate Befriended(friends: map<(Id, Id), int>, a: Id, b: Id) {
    (a, b) in friends && friends[(a, b)] == Confirmed
  }

  /** A friendship row is one-way: inserting (a, b) with status 2 makes
      `a` befriend `b` and leaves whether `b` befriends `a` as it was;
      deleting it ends `a`'s friendship with `b` only. */
  lemma FriendRowOneWay(friends: map<(Id, Id), int>, a: Id, b: Id)
    requires a != b
    ensures Befriended(friends[(a, b) := Confirmed], a, b)
    ensures Befriended(friends[(a, b) := Confirmed], b, a) == Befriended(friends, b, a)
    ensures !Befriended(friends - {(a, b)}, a, b)
    ensures Befriended(friends - {(a, b)}, b, a) == Befriended(friends, b, a)
  {
  }

  /** A set of rows is non-empty exactly when it has a member, and holds
      at most one row when any two of its rows are the same. */
  lemma SizeOfRows(rows: set<Id>)
    ensures |rows| > 0 <==> exists k :: k in rows
    ensures (forall a, b :: a in rows && b in rows ==> a == b) ==> |rows| <= 1
  {
    if |rows| > 0 {
      var k :| k in rows;
      if forall a, b :: a in rows && b in rows ==> a == b {
        assert rows == {k};
      }
    }
  }

  class UserDbStorage {
    var users: map<Id, UserRow>
    var friends: map<(Id, Id), int>
    /** The next key the users table's identity column generates. */
    var nextKey: nat

    /** Keys come from the identity column; no two users share an email;
        every friendship row names two stored users (the foreign keys). */
    ghost predicate Valid()
      reads this
    {
      && 1 <= nextKey
      && (forall k :: k in users ==> 1 <= k < nextKey)
      && UniqueEmails(users)
      && (forall p :: p in friends ==> p.0 in users && p.1 in users)
    }

    static ghost predicate UniqueEmails(users: map<Id, UserRow>) {
      forall a, b :: a in users && b in users && users[a].email == users[b].email ==> a == b
    }

    constructor ()
      ensures Valid() && users == map[] && friends == map[] && nextKey == 1
    {
      users := map[];
      friends := map[];
      nextKey := 1;
    }

    /** validateEmailUniqueness: some stored user has exactly this email. */
    predicate EmailInUse(email: string)
      reads this
    {
      exists k :: k in users && users[k].email == email
    }

    /** validateEmailUniquenessForUpdate: a stored user other than `id`
        has exactly this email. */
    predicate EmailInUseByOther(email: string, id: int)
      reads this
    {
      exists k :: k in users && users[k].email == email && k != id
    }

    /** The `SELECT COUNT(*) FROM users WHERE email = ?` of
        validateEmailUniqueness: how many stored users have exactly this
        email. Emails are unique, so it is 0 or 1. */
    function EmailCount(email: string): (n: nat)
      reads this
      ensures n > 0 <==> EmailInUse(email)
      ensures UniqueEmails(users) ==> n <= 1
    {
      var rows := set k | k in users && users[k].email == email;
      SizeOfRows(rows);
      assert forall k :: k in rows <==> k in users && users[k].email == email;
      |rows|
    }

    /** The `SELECT COUNT(*) FROM users WHERE email = ? AND user_id <> ?`
        of validateEmailUniquenessForUpdate. */
    function EmailCountOther(email: string, id: int): (n: nat)
      reads this
      ensures n > 0 <==> EmailInUseByOther(email, id)
      ensures UniqueEmails(users) ==> n <= 1
    {
      var rows := set k | k in users && users[k].email == email && k != id;
      SizeOfRows(rows);
      assert forall k :: k in rows <==> k in users && users[k].email == email && k != id;
      |rows|
    }

    /** An email used by another user is in use; and, emails being
        unique, a user who keeps its own email passes the update check. */
    lemma OwnEmailPasses(email: string, id: int)
      requires UniqueEmails(users)
      ensures EmailInUseByOther(email, id) ==> EmailInUse(email)
      ensures id in users && users[id].email == email ==> !EmailInUseByOther(email, id)
    {
    }

    /** create: validates the email's format, then its uniqueness; then
        inserts the row with the name defaulted to the login and returns
        the user with the generated key. */
    method Create(user: User) returns (r: Result<User>)
      requires Valid()
      modifies this
      ensures Valid() && friends == old(friends)
      ensures ValidateEmailFormat(user) != Pass ==> r == Failure(IncorrectParameter(BadEmail))
      ensures ValidateEmailFormat(user) == Pass && old(EmailInUse(user.email.value)) ==>
        r == Failure(IncorrectParameter(EmailTaken))
      ensures r.Failure? ==> users == old(users) && nextKey == old(nextKey)
      ensures ValidateEmailFormat(user) == Pass && !old(EmailInUse(user.email.value)) ==>
        && r == Success(WithDefaultName(user).(id := old(nextKey)))
        && old(nextKey) !in old(users)
        && users == old(users)[old(nextKey) := RowOf(user)]
        && nextKey == old(nextKey) + 1
    {
      var format := ValidateEmailFormat(user);
      if format.Fail? {
        return Failure(format.error);
      }
      var email := user.email.value;
      var count := EmailCount(email);
      if count > 0 {
        return Failure(IncorrectParameter(EmailTaken));
      }
      var key := nextKey;
      users := users[key := RowOf(user)];
      nextKey := nextKey + 1;
      r := Success(WithDefaultName(user).(id := key));
    }

    /** delete: removes a stored user, with the friendship rows that name
        it; an unknown id is an IncorrectParameterException. */
    method Delete(userId: int) returns (r: Outcome)
      requires Valid()
      modifies this
      ensures Valid() && nextKey == old(nextKey)
      ensures r == Pass <==> userId in old(users)
      ensures r != Pass ==> r == Fail(IncorrectParameter(UnknownId)) && users == old(users) && friends == old(friends)
      ensures r == Pass ==> users == old(users) - {userId as Id}
      ensures r == Pass ==> forall p :: p in friends <==> p in old(friends) && p.0 != userId && p.1 != userId
      ensures forall p :: p in friends ==> friends[p] == old(friends)[p]
    {
      if userId !in users {
        return Fail(IncorrectParameter(UnknownId));
      }
      users := users - {userId as Id};
      friends := map p | p in friends && p.0 != userId && p.1 != userId :: friends[p];
      r := Pass;
    }

    /** update: validates the email's format, then the id, then that no
        other user has the email, and only then that the user exists; the
        row gets the supplied fields, a blank name becoming the login. */
    method Update(user: User) returns (r: Result<User>)
      requires Valid()
      modifies this
      ensures Valid() && nextKey == old(nextKey) && friends == old(friends)
      ensures ValidateEmailFormat(user) != Pass ==> r == Failure(IncorrectParameter(BadEmail))
      ensures ValidateEmailFormat(user) == Pass && user.id <= 0 ==> r == Failure(IncorrectParameter(BadId))
      ensures ValidateEmailFormat(user) == Pass && user.id > 0 && old(EmailInUseByOther(user.email.value, user.id)) ==>
        r == Failure(IncorrectParameter(EmailTaken))
      ensures (ValidateEmailFormat(user) == Pass && user.id > 0 && !old(EmailInUseByOther(user.email.value, user.id))
               && user.id !in old(users)) ==> r == Failure(ObjectNotFound(UserEntity, user.id))
      ensures r.Failure? ==> users == old(users)
      ensures (ValidateEmailFormat(user) == Pass && user.id > 0 && !old(EmailInUseByOther(user.email.value, user.id))
               && user.id in old(users)) ==>
        && users == old(users)[user.id as Id := RowOf(user)]
        && r == Success(RecordOf(user.id as Id, RowOf(user)))
    {
      var format := ValidateEmailFormat(user);
      if format.Fail? {
        return Failure(format.error);
      }
      if user.id <= 0 {
        return Failure(IncorrectParameter(BadId));
      }
      var email := user.email.value;
      var count := EmailCountOther(email, user.id);
      if count > 0 {
        return Failure(IncorrectParameter(EmailTaken));
      }
      if user.id !in users {
        return Failure(ObjectNotFound(UserEntity, user.id));
      }
      users := users[user.id as Id := RowOf(user)];
      r := FindById(user.id);
    }

    /** findById: the stored user, or an ObjectNotFoundException. */
    function FindById(userId: int): (r: Result<User>)
      reads this
      ensures r.Success? <==> userId in users
      ensures r.Success? ==> r.value == RecordOf(userId as Id, users[userId])
      ensures r.Failure? ==> r.error == ObjectNotFound(UserEntity, userId)
    {
      if userId in users then Success(RecordOf(userId as Id, users[userId]))
      else Failure(ObjectNotFound(UserEntity, userId))
    }

    /** addFriends: both users must exist, the first looked up first; then
        a user cannot befriend themself, and a row for the pair must not
        exist yet, whatever its status. Only the row (user, friend) with
        status 2 is inserted: the friend does not befriend the user back. */
    method AddFriends(userId: int, friendId: int) returns (r: Outcome)
      requires Valid()
      modifies this
      ensures Valid() && users == old(users) && nextKey == old(nextKey)
      ensures userId !in users ==> r == Fail(ObjectNotFound(UserEntity, userId))
      ensures userId in users && friendId !in users ==> r == Fail(ObjectNotFound(UserEntity, friendId))
      ensures userId in users && friendId in users && userId == friendId ==>
        r == Fail(IncorrectParameter(SelfFriendship))
      ensures userId in users && friendId in users && userId != friendId && (userId as Id, friendId as Id) in old(friends) ==>
        r == Fail(IncorrectParameter(AlreadyFriends))
      ensures r != Pass ==> friends == old(friends)
      ensures r == Pass ==>
        && userId in users && friendId in users && userId != friendId
        && (userId as Id, friendId as Id) !in old(friends)
        && friends == old(friends)[(userId as Id, friendId as Id) := Confirmed]
      ensures r == Pass ==>
        && Befriended(friends, userId as Id, friendId as Id)
        && Befriended(friends, friendId as Id, userId as Id) == Befriended(old(friends), friendId as Id, userId as Id)
    {
      var user := FindById(userId);
      if user.Failure? {
        return Fail(user.error);
      }
      var friend := FindById(friendId);
      if friend.Failure? {
        return Fail(friend.error);
      }
      if userId == friendId {
        return Fail(IncorrectParameter(SelfFriendship));
      }
      var edge := (userId as Id, friendId as Id);
      if edge in friends {
        return Fail(IncorrectParameter(AlreadyFriends));
      }
      friends := friends[edge := Confirmed];
      r := Pass;
    }

    /** deleteFriends: both users must exist; then the row (user, friend)
        is deleted, which is no change when there is none. The row
        (friend, user) stays. */
    method DeleteFriends(userId: int, friendId: int) returns (r: Outcome)
      requires Valid()
      modifies this
      ensures Valid() && users == old(users) && nextKey == old(nextKey)
      ensures userId !in users ==> r == Fail(ObjectNotFound(UserEntity, userId))
      ensures userId in users && friendId !in users ==> r == Fail(ObjectNotFound(UserEntity, friendId))
      ensures r != Pass ==> friends == old(friends)
      ensures userId in users && friendId in users ==>
        r == Pass && friends == old(friends) - {(userId as Id, friendId as Id)}
      ensures r == Pass ==>
        && !Befriended(friends, userId as Id, friendId as Id)
        && (userId != friendId ==>
              Befriended(friends, friendId as Id, userId as Id) == Befriended(old(friends), friendId as Id, userId as Id))
    {
      var user := FindById(userId);
      if user.Failure? {
        return Fail(user.error);
      }
      var friend := FindById(friendId);
      if friend.Failure? {
        return Fail(friend.error);
      }
      friends := friends - {(userId as Id, friendId as Id)};
      r := Pass;
    }

    /** The stored users `a` has befriended: the friend side of the join. */
    function FriendIds(a: Id): (r: set<Id>)
      reads this
      ensures forall b :: b in r <==> b in users && Befriended(friends, a, b)
    {
      set b | b in users && Befriended(friends, a, b)
    }

    /** getFriendsThisUser: the user must exist; then every stored user it
        has a status-2 row to, each once, and an empty list when there is
        none. The query has no ORDER BY; the model lists them by
        ascending id. */
    function GetFriendsThisUser(userId: int): (r: Result<seq<User>>)
      reads this
      ensures r.Failure? <==> userId !in users
      ensures r.Failure? ==> r.error == ObjectNotFound(UserEntity, userId)
      ensures r.Success? ==> forall u :: u in r.value <==>
        u.id in users && Befriended(friends, userId as Id, u.id as Id) && u == RecordOf(u.id as Id, users[u.id])
      ensures r.Success? ==> forall i, j :: 0 <= i < j < |r.value| ==> r.value[i].id < r.value[j].id
    {
      if userId !in users then Failure(ObjectNotFound(UserEntity, userId))
      else
        var ids := Ascending(FriendIds(userId as Id));
        RecordsAtCovers(users, FriendIds(userId as Id), ids);
        Success(RecordsAt(users, ids))
    }

    /** The stored users both `a` and `b` have befriended. */
    function CommonFriendIds(a: Id, b: Id): (r: set<Id>)
      reads this
      ensures forall c :: c in r <==> c in users && Befriended(friends, a, c) && Befriended(friends, b, c)
    {
      set c | c in users && Befriended(friends, a, c) && Befriended(friends, b, c)
    }

    /** getCommonFriends: both users must exist; then every stored user
        both have a status-2 row to, each once. The query has no ORDER BY;
        the model lists them by ascending id. */
    function GetCommonFriends(userId: int, otherId: int): (r: Result<seq<User>>)
      reads this
      ensures userId !in users ==> r == Failure(ObjectNotFound(UserEntity, userId))
      ensures userId in users && otherId !in users ==> r == Failure(ObjectNotFound(UserEntity, otherId))
      ensures r.Success? <==> userId in users && otherId in users
      ensures r.Success? ==> forall u :: u in r.value <==>
        u.id in users && Befriended(friends, userId as Id, u.id as Id) && Befriended(friends, otherId as Id, u.id as Id)
        && u == RecordOf(u.id as Id, users[u.id])
      ensures r.Success? ==> forall i, j :: 0 <= i < j < |r.value| ==> r.value[i].id < r.value[j].id
    {
      if userId !in users then Failure(ObjectNotFound(UserEntity, userId))
      else if otherId !in users then Failure(ObjectNotFound(UserEntity, otherId))
      else
        var common := CommonFriendIds(userId as Id, otherId as Id);
        var ids := Ascending(common);
        RecordsAtCovers(users, common, ids);
        Success(RecordsAt(users, ids))
    }

    /** Common friends do not depend on which of the two users asks, and
        each of them is a friend of both. */
    lemma CommonFriendsOfBoth(a: Id, b: Id)
      requires a in users && b in users
      ensures GetCommonFriends(a, b) == GetCommonFriends(b, a)
      ensures forall u :: u in GetCommonFriends(a, b).value ==>
        u in GetFriendsThisUser(a).value && u in GetFriendsThisUser(b).value
    {
      assert CommonFriendIds(a, b) == CommonFriendIds(b, a);
    }
  }
}

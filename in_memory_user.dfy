/** The in-memory user storage (repository/InMemoryUserStorage.java): a map
    from id to user, a counter that hands out ids, and a friendship
    relation kept as a set of friend ids on every user. */
module InMemoryUserStore {
  import opened Common
  import opened Ranking
  import opened Model

  /** `m` with `b` added to the friends of `a` and `a` to the friends of `b`;
      when `a == b` the user befriends themself. */
  function Befriend(m: map<Id, User>, a: Id, b: Id): (r: map<Id, User>)
    requires a in m && b in m
    ensures r.Keys == m.Keys
    ensures forall k :: k in m ==> r[k] == m[k].(friends := r[k].friends)
    ensures forall k, x :: k in m ==>
      (x in r[k].friends <==> x in m[k].friends || (k == a && x == b) || (k == b && x == a))
  {
    var m1 := m[a := m[a].(friends := m[a].friends + {b})];
    m1[b := m1[b].(friends := m1[b].friends + {a})]
  }

  /** `m` with `b` removed from the friends of `a` and `a` from those of `b`. */
  function Unfriend(m: map<Id, User>, a: Id, b: Id): (r: map<Id, User>)
    requires a in m && b in m
    ensures r.Keys == m.Keys
    ensures forall k :: k in m ==> r[k] == m[k].(friends := r[k].friends)
    ensures forall k, x :: k in m ==>
      (x in r[k].friends <==> x in m[k].friends && !(k == a && x == b) && !(k == b && x == a))
  {
    var m1 := m[a := m[a].(friends := m[a].friends - {b})];
    m1[b := m1[b].(friends := m1[b].friends - {a})]
  }

  /** Friendship among stored users goes both ways. */
  ghost predicate Symmetric(m: map<Id, User>) {
    forall a, b :: a in m && b in m && b in m[a].friends ==> a in m[b].friends
  }

  /** Two maps whose users agree everywhere are the same map. */
  lemma SameUsers(m: map<Id, User>, n: map<Id, User>)
    requires m.Keys == n.Keys
    requires forall k :: k in m ==> m[k].(friends := n[k].friends) == n[k]
    requires forall k, x :: k in m ==> (x in m[k].friends <==> x in n[k].friends)
    ensures m == n
  {
    forall k | k in m ensures m[k] == n[k] {
      assert m[k].friends == n[k].friends;
    }
  }

  /** Befriending twice is befriending once. */
  lemma {:induction false} BefriendIdempotent(m: map<Id, User>, a: Id, b: Id)
    requires a in m && b in m
    ensures Befriend(Befriend(m, a, b), a, b) == Befriend(m, a, b)
  {
    SameUsers(Befriend(Befriend(m, a, b), a, b), Befriend(m, a, b));
  }

  /** Unfriending users who are not friends changes nothing. */
  lemma {:induction false} UnfriendAbsent(m: map<Id, User>, a: Id, b: Id)
    requires a in m && b in m
    requires b !in m[a].friends && a !in m[b].friends
    ensures Unfriend(m, a, b) == m
  {
    SameUsers(Unfriend(m, a, b), m);
  }

  /** Unfriending undoes befriending two users who were not friends. */
  lemma {:induction false} UnfriendUndoesBefriend(m: map<Id, User>, a: Id, b: Id)
    requires a in m && b in m
    requires b !in m[a].friends && a !in m[b].friends
    ensures Unfriend(Befriend(m, a, b), a, b) == m
  {
    SameUsers(Unfriend(Befriend(m, a, b), a, b), m);
  }

  /** Befriending and unfriending keep friendship symmetric. */
  lemma {:induction false} FriendshipStaysSymmetric(m: map<Id, User>, a: Id, b: Id)
    requires a in m && b in m && Symmetric(m)
    ensures Symmetric(Befriend(m, a, b)) && Symmetric(Unfriend(m, a, b))
  {
    var r := Befriend(m, a, b);
    forall x, y | x in r && y in r && y in r[x].friends ensures x in r[y].friends {
      assert y in m[x].friends || (x == a && y == b) || (x == b && y == a);
    }
    var s := Unfriend(m, a, b);
    forall x, y | x in s && y in s && y in s[x].friends ensures x in s[y].friends {
      assert y in m[x].friends;
    }
  }

  /** Removing a user keeps friendship among the remaining users symmetric,
      even though their friend sets may still name the removed id. */
  lemma {:induction false} DeleteKeepsSymmetric(m: map<Id, User>, k: Id)
    requires Symmetric(m)
    ensures Symmetric(m - {k})
  {
    var r := m - {k};
    forall x, y | x in r && y in r && y in r[x].friends ensures x in r[y].friends {
      assert x in m && y in m && y in m[x].friends;
    }
  }

  /** Listing the users of `m` under every id of `s` lists exactly the
      stored users whose id is in `s`, when every user is stored under its
      own id. */
  lemma UsersAtCovers(m: map<Id, User>, s: set<Id>, ids: seq<Id>)
    requires forall k :: k in m ==> m[k].id == k
    requires forall x :: x in ids <==> x in s && x in m
    ensures forall i :: 0 <= i < |ids| ==> ids[i] in m
    ensures forall u :: u in ValuesAt(m, ids) <==> u in m.Values && u.id in s
  {
    assert forall i :: 0 <= i < |ids| ==> ids[i] in ids;
    var users := ValuesAt(m, ids);
    forall u | u in m.Values && u.id in s ensures u in users {
      var k :| k in m && m[k] == u;
      assert k in ids;
      var i :| 0 <= i < |ids| && ids[i] == k;
      assert users[i] == u;
    }
  }

  /** createUser's duplicate check: some stored user's email equals this
      one, ignoring case. A stored user with exactly this email counts. */
  function EmailRegistered(m: map<Id, User>, email: string): (r: bool)
    ensures r <==> exists u :: u in m.Values && u.email.Some? && EqualsIgnoreCase(u.email.value, email)
    ensures forall k :: k in m && m[k].email == Some(email) ==> r
  {
    exists k :: k in m && m[k].email.Some? && EqualsIgnoreCase(m[k].email.value, email)
  }

  /** The duplicate check gives the same answer for two emails that differ
      only in the case of their letters. */
  lemma {:induction false} RegisteredIgnoresCase(m: map<Id, User>, a: string, b: string)
    requires EqualsIgnoreCase(a, b)
    ensures EmailRegistered(m, a) <==> EmailRegistered(m, b)
  {
    if EmailRegistered(m, a) {
      var k :| k in m && m[k].email.Some? && EqualsIgnoreCase(m[k].email.value, a);
      assert EqualsIgnoreCase(m[k].email.value, b);
    }
    if EmailRegistered(m, b) {
      var k :| k in m && m[k].email.Some? && EqualsIgnoreCase(m[k].email.value, b);
      assert EqualsIgnoreCase(m[k].email.value, a);
    }
  }

  class InMemoryUserStorage {
    var userStorage: map<Id, User>
    var nextIdUser: nat

    /** Every stored user was handed an id below the counter, is stored
        under its own id and has an email that passed checkEmail. */
    ghost predicate Valid()
      reads this
    {
      1 <= nextIdUser &&
      forall k :: k in userStorage ==>
        1 <= k < nextIdUser && userStorage[k].id == k && Present(userStorage[k].email)
    }

    constructor ()
      ensures Valid() && userStorage == map[] && nextIdUser == 1
    {
      userStorage := map[];
      nextIdUser := 1;
    }

    /** checkEmail: a null or blank email is an InvalidEmailException. */
    function CheckEmail(user: User): (r: Outcome)
      ensures r == Pass <==> Present(user.email)
      ensures r != Pass ==> r == Fail(InvalidEmail)
    {
      if !Present(user.email) then Fail(InvalidEmail) else Pass
    }

    /** createUser: checks the email, refuses an email that is already
        registered, defaults the name to the login and stores the user
        under the next id. The counter only moves forward, so an id is
        never handed out twice, even after its user is deleted. */
    method CreateUser(user: User) returns (r: Result<User>)
      requires Valid()
      modifies this
      ensures Valid()
      ensures !Present(user.email) ==> r == Failure(InvalidEmail)
      ensures Present(user.email) && EmailRegistered(old(userStorage), user.email.value) ==> r == Failure(UserAlreadyExist)
      ensures r.Failure? ==> userStorage == old(userStorage) && nextIdUser == old(nextIdUser)
      ensures Present(user.email) && !EmailRegistered(old(userStorage), user.email.value) ==>
        r == Success(WithDefaultName(user).(id := old(nextIdUser)))
      ensures r.Success? ==>
        && r.value.id !in old(userStorage)
        && (forall k :: k in old(userStorage) ==> k < r.value.id)
        && userStorage == old(userStorage)[old(nextIdUser) := r.value]
        && nextIdUser == old(nextIdUser) + 1
    {
      var checked := CheckEmail(user);
      if checked.Fail? {
        return Failure(checked.error);
      }
      var email := user.email.value;
      var emailExists := EmailRegistered(userStorage, email);
      if emailExists {
        return Failure(UserAlreadyExist);
      }
      var stored := WithDefaultName(user).(id := nextIdUser);
      userStorage := userStorage[nextIdUser := stored];
      nextIdUser := nextIdUser + 1;
      r := Success(stored);
    }

    /** deleteUser: removes a stored user; an unknown id is an
        IncorrectParameterException. Friend sets of other users are left
        as they are. */
    method DeleteUser(userId: int) returns (r: Outcome)
      requires Valid()
      modifies this
      ensures Valid() && nextIdUser == old(nextIdUser)
      ensures r == Pass <==> userId in old(userStorage)
      ensures r != Pass ==> r == Fail(IncorrectParameter(UnknownId)) && userStorage == old(userStorage)
      ensures r == Pass ==> userStorage == old(userStorage) - {userId as Id}
    {
      if userId in userStorage {
        userStorage := userStorage - {userId as Id};
        r := Pass;
      } else {
        r := Fail(IncorrectParameter(UnknownId));
      }
    }

    /** What updateUser leaves in a stored user: the supplied name, login,
        email and birthday, with the id and friends kept. The login that
        lines 78-80 put in place of a blank name is overwritten on the next
        line, so the supplied name is what remains. */
    static function Overwritten(existing: User, user: User): (r: User)
      ensures r.name == user.name && r.login == user.login
      ensures r.email == user.email && r.birthday == user.birthday
      ensures r.id == existing.id && r.friends == existing.friends
    {
      var defaulted := if !Present(user.name) then existing.(name := Some(user.login)) else existing;
      defaulted.(name := user.name, login := user.login, email := user.email, birthday := user.birthday)
    }

    /** updateUser: checks the email, then the id, then that the user
        exists, and overwrites the stored user's fields in place. */
    method UpdateUser(user: User) returns (r: Result<User>)
      requires Valid()
      modifies this
      ensures Valid() && nextIdUser == old(nextIdUser)
      ensures !Present(user.email) ==> r == Failure(InvalidEmail)
      ensures Present(user.email) && user.id <= 0 ==> r == Failure(IncorrectParameter(BadId))
      ensures Present(user.email) && user.id > 0 && user.id !in old(userStorage) ==>
        r == Failure(UserNotFound(user.id))
      ensures r.Failure? ==> userStorage == old(userStorage)
      ensures Present(user.email) && user.id > 0 && user.id in old(userStorage) ==>
        && r == Success(Overwritten(old(userStorage)[user.id], user))
        && userStorage == old(userStorage)[user.id as Id := r.value]
    {
      var checked := CheckEmail(user);
      if checked.Fail? {
        return Failure(checked.error);
      }
      if user.id <= 0 {
        return Failure(IncorrectParameter(BadId));
      }
      if user.id !in userStorage {
        return Failure(UserNotFound(user.id));
      }
      var existing := userStorage[user.id];
      var updated := Overwritten(existing, user);
      userStorage := userStorage[user.id as Id := updated];
      r := Success(updated);
    }

    /** findUserById: the stored user, or a UserNotFoundException. */
    function FindUserById(userId: int): (r: Result<User>)
      reads this
      requires Valid()
      ensures r.Success? <==> userId in userStorage
      ensures r.Success? ==> r.value == userStorage[userId] && r.value.id == userId
      ensures r.Failure? ==> r.error == UserNotFound(userId)
    {
      if userId in userStorage then Success(userStorage[userId]) else Failure(UserNotFound(userId))
    }

    /** addFriends: both users must exist (the first is looked up first);
        then each joins the other's friend set. There is no check against
        befriending oneself. */
    method AddFriends(userId: int, friendId: int) returns (r: Outcome)
      requires Valid()
      modifies this
      ensures Valid() && nextIdUser == old(nextIdUser)
      ensures userId !in old(userStorage) ==> r == Fail(UserNotFound(userId))
      ensures userId in old(userStorage) && friendId !in old(userStorage) ==> r == Fail(UserNotFound(friendId))
      ensures r != Pass ==> userStorage == old(userStorage)
      ensures userId in old(userStorage) && friendId in old(userStorage) ==>
        r == Pass && userStorage == Befriend(old(userStorage), userId, friendId)
    {
      var user := FindUserById(userId);
      if user.Failure? {
        return Fail(user.error);
      }
      var friend := FindUserById(friendId);
      if friend.Failure? {
        return Fail(friend.error);
      }
      userStorage := Befriend(userStorage, userId, friendId);
      r := Pass;
    }

    /** deleteFriends: both users must exist; then each leaves the other's
        friend set, which is no change when they were not friends. */
    method DeleteFriends(userId: int, friendId: int) returns (r: Outcome)
      requires Valid()
      modifies this
      ensures Valid() && nextIdUser == old(nextIdUser)
      ensures userId !in old(userStorage) ==> r == Fail(UserNotFound(userId))
      ensures userId in old(userStorage) && friendId !in old(userStorage) ==> r == Fail(UserNotFound(friendId))
      ensures r != Pass ==> userStorage == old(userStorage)
      ensures userId in old(userStorage) && friendId in old(userStorage) ==>
        r == Pass && userStorage == Unfriend(old(userStorage), userId, friendId)
    {
      var user := FindUserById(userId);
      if user.Failure? {
        return Fail(user.error);
      }
      var friend := FindUserById(friendId);
      if friend.Failure? {
        return Fail(friend.error);
      }
      userStorage := Unfriend(userStorage, userId, friendId);
      r := Pass;
    }

    /** getFriendsThisUser: the stored users among the friends of a stored
        user (ids of deleted users are skipped), each once. The source
        streams a HashSet; the model lists them by ascending id. */
    function GetFriendsThisUser(userId: int): (r: Result<seq<User>>)
      reads this
      requires Valid()
      ensures r.Failure? <==> userId !in userStorage
      ensures r.Failure? ==> r.error == UserNotFound(userId)
      ensures r.Success? ==> forall u :: u in r.value <==>
        u in userStorage.Values && u.id in userStorage[userId].friends
      ensures r.Success? ==> forall i, j :: 0 <= i < j < |r.value| ==> r.value[i].id < r.value[j].id
    {
      if userId !in userStorage then Failure(UserNotFound(userId))
      else
        var friends := userStorage[userId].friends;
        var ids := Ascending(set f | f in friends && f in userStorage);
        UsersAtCovers(userStorage, friends, ids);
        Success(ValuesAt(userStorage, ids))
    }

    /** The stored user under `id`, or null when there is none. */
    function Lookup(id: Id): (r: Option<User>)
      reads this
      ensures r.Some? <==> id in userStorage
      ensures r.Some? ==> r.value == userStorage[id]
    {
      if id in userStorage then Some(userStorage[id]) else None
    }

    /** getCommonFriends: both users must exist; then it walks the first
        user's friend set, in whatever order the set yields its ids, and
        keeps each id the other user's friend set also holds. `order` is
        that walk's order: each common friend once, and nothing else. An id
        whose user was deleted gives a null entry. */
    method GetCommonFriends(userId: int, otherId: int) returns (r: Result<seq<Option<User>>>, ghost order: seq<Id>)
      requires Valid()
      ensures userId !in userStorage ==> r == Failure(UserNotFound(userId))
      ensures userId in userStorage && otherId !in userStorage ==> r == Failure(UserNotFound(otherId))
      ensures userId in userStorage && otherId in userStorage ==>
        && r.Success?
        && Distinct(order)
        && (forall x :: x in order <==>
             x in userStorage[userId].friends && x in userStorage[otherId].friends)
        && |r.value| == |order|
        && (forall i :: 0 <= i < |order| ==> r.value[i] == Lookup(order[i]))
    {
      order := [];
      var user := FindUserById(userId);
      if user.Failure? {
        return Failure(user.error), order;
      }
      var otherUser := FindUserById(otherId);
      if otherUser.Failure? {
        return Failure(otherUser.error), order;
      }
      var mine, theirs := user.value.friends, otherUser.value.friends;
      var rest := mine;
      var commonFriend: seq<Option<User>> := [];
      while rest != {}
        invariant rest <= mine
        invariant forall x :: x in order <==> x in mine && x !in rest && x in theirs
        invariant Distinct(order)
        invariant |commonFriend| == |order|
        invariant forall i :: 0 <= i < |order| ==> commonFriend[i] == Lookup(order[i])
        decreases rest
      {
        var friendUserId :| friendUserId in rest;
        if friendUserId in theirs {
          commonFriend := commonFriend + [Lookup(friendUserId)];
          order := order + [friendUserId];
        }
        rest := rest - {friendUserId};
      }
      r := Success(commonFriend);
    }

    /** findAll: every stored user, each once. The source returns the
        HashMap's value view; the model lists the users by ascending id. */
    function FindAll(): (r: seq<User>)
      reads this
      requires Valid()
      ensures |r| == |userStorage|
      ensures forall u :: u in r <==> u in userStorage.Values
    {
      var ids := Ascending(userStorage.Keys);
      UsersAtCovers(userStorage, userStorage.Keys, ids);
      ValuesAt(userStorage, ids)
    }
  }
}

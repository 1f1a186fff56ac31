# Filmorate storages in Dafny

This project models the storage layer of Filmorate, a small film-rating
service. Users befriend each other, like films and ask for the most popular
films. It models four storages:

- **In-memory user storage.** A `HashMap` from id to user and an id
  counter. Friendship is a set of friend ids kept on every user, and adding
  or removing a friend changes both users.
- **In-memory film storage.** A `HashMap` from id to film and an id
  counter. Likes are a set of user ids on every film and are checked
  against the user storage. Popular films are the films with the largest
  like sets.
- **JDBC user storage.** A `users` table and a directed `friends` table.
  Every row it writes has status 2, and it reads only rows with status 2.
  A friendship is one row `(user, friend)`, so it is one-way.
- **JDBC film storage.** A `films` table plus the link tables `film_like`,
  `film_genre` and `film_director`. It reads the `rating`, `genres` and
  `directors` tables but never writes them. Create and update run as
  transactions.

Each storage is a Dafny `class` whose fields are the maps, tables and
counters the Java code updates. Operations that change state are methods.
Each method's postcondition gives the whole new state in terms of the old
one, and also gives the exception the call throws. Queries are functions.
Every exception is a `Failure`/`Fail` value carrying the exception's
constructor in `Common.Error`. A `Valid()` invariant holds for each
storage and every method preserves it:
- generated keys lie below the counter;
- emails are unique in the user table;
- every link row names a stored record.

The ranking queries share one ordering library, the `Ranking` module. It
turns a set of ids into an ascending sequence, sorts by a rank in
descending order with a stable sort, and takes the first `k`.

The files are:
- `common.dfy`: ids, dates as epoch days, and the `String` predicates the
  validations use.
- `model.dfy`: the records.
- `ranking.dfy`: the orderings.
- `in_memory_user.dfy`, `in_memory_film.dfy`, `user_db.dfy`, `film_db.dfy`:
  the four storages.

A few behaviours are modelled as the code does them, not as a reader might
expect:
- **In-memory `updateUser`.** Lines 78-80 set a blank name to the login,
  but line 81 then overwrites it with the supplied name. The stored name
  is therefore the supplied one, even when it is blank. The JDBC `update`
  stores the login in that case.
- **JDBC `updateFilmDirectors`.** It checks each director id against the
  genres table (line 624), so an unknown genre id causes its
  `ObjectNotFoundException`. `create` does not check directors at all.
- **JDBC `update` of a film.** It does not run `checkFieldsFilm`. A null
  rating is a `NullPointerException`.
- **Friendship in the two user storages.** The in-memory storage adds and
  removes friendship in both directions. The JDBC storage writes and
  deletes one direction only.
- **JDBC `addLikeFilm`.** It does not look up the user. The in-memory
  storage looks up the user first, then the film.

## Model

| member | source | states |
|---|---|---|
| Model.WithDefaultName | src/main/java/ru/yandex/practicum/filmorate/repository/InMemoryUserStorage.java:38-40 | the name becomes the login exactly when it is null or blank; no other field changes |
| Model.FieldProblem | src/main/java/ru/yandex/practicum/filmorate/repository/InMemoryFilmStorage.java:81-94 | no problem exactly when duration > 0, the name is present and the release date is not before 28 Dec 1895; a bad duration is reported before a bad name |
| Ranking.Ascending | src/main/java/ru/yandex/practicum/filmorate/repository/impl/FilmDbStorage.java:500 | the result holds exactly the members of the set, once each, in strictly ascending order |
| Ranking.Insert | src/main/java/ru/yandex/practicum/filmorate/repository/InMemoryFilmStorage.java:107 | insertion adds exactly one element and keeps the other elements, as a multiset |
| Ranking.InsertOrdered | src/main/java/ru/yandex/practicum/filmorate/repository/InMemoryFilmStorage.java:107 | inserting into a sequence sorted by descending rank keeps it sorted |
| Ranking.InsertDistinct | src/main/java/ru/yandex/practicum/filmorate/repository/InMemoryFilmStorage.java:107 | inserting a new id into a duplicate-free sequence keeps it duplicate-free |
| Ranking.InsertTies | src/main/java/ru/yandex/practicum/filmorate/repository/impl/FilmDbStorage.java:500 | inserting an id smaller than all others keeps equal-rank ids in ascending order (stability) |
| Ranking.SortDesc | src/main/java/ru/yandex/practicum/filmorate/repository/InMemoryFilmStorage.java:107 | the sort is a permutation of its input |
| Ranking.SortDescOrdered | src/main/java/ru/yandex/practicum/filmorate/repository/impl/FilmDbStorage.java:500 | the sort leaves ranks non-increasing, keeps ids distinct, and, given ascending input, orders equal ranks by ascending id |
| Ranking.TopK | src/main/java/ru/yandex/practicum/filmorate/repository/InMemoryFilmStorage.java:105-109 | min(k, n) distinct ids of the input, ranks non-increasing, and no omitted id outranks a chosen one |
| Ranking.TopOf | src/main/java/ru/yandex/practicum/filmorate/repository/impl/FilmDbStorage.java:285-292 | the same top-k guarantee, stated over a set of ids |
| InMemoryUserStore.Befriend | src/main/java/ru/yandex/practicum/filmorate/repository/InMemoryUserStorage.java:102-103 | each user gets the other as a friend; nothing else changes |
| InMemoryUserStore.Unfriend | src/main/java/ru/yandex/practicum/filmorate/repository/InMemoryUserStorage.java:110-111 | each user loses the other as a friend; nothing else changes |
| InMemoryUserStore.BefriendIdempotent | src/main/java/ru/yandex/practicum/filmorate/repository/InMemoryUserStorage.java:102-103 | befriending twice equals befriending once |
| InMemoryUserStore.UnfriendAbsent | src/main/java/ru/yandex/practicum/filmorate/repository/InMemoryUserStorage.java:110-111 | unfriending users who are not friends changes nothing |
| InMemoryUserStore.UnfriendUndoesBefriend | src/main/java/ru/yandex/practicum/filmorate/repository/InMemoryUserStorage.java:99-112 | unfriend after befriend restores the storage when the two were not friends |
| InMemoryUserStore.FriendshipStaysSymmetric | src/main/java/ru/yandex/practicum/filmorate/repository/InMemoryUserStorage.java:99-112 | befriending and unfriending keep friendship symmetric |
| InMemoryUserStore.DeleteKeepsSymmetric | src/main/java/ru/yandex/practicum/filmorate/repository/InMemoryUserStorage.java:48-50 | removing a user keeps friendship among the remaining users symmetric |
| InMemoryUserStore.UsersAtCovers | src/main/java/ru/yandex/practicum/filmorate/repository/InMemoryUserStorage.java:122-125 | looking up every friend id and dropping the missing ones yields exactly the stored users under those ids |
| InMemoryUserStore.EmailRegistered | src/main/java/ru/yandex/practicum/filmorate/repository/InMemoryUserStorage.java:27-28 | true exactly when some stored user's email equals the given one ignoring case, and always when a stored user has exactly that email |
| InMemoryUserStore.RegisteredIgnoresCase | src/main/java/ru/yandex/practicum/filmorate/repository/InMemoryUserStorage.java:27-28 | two emails that differ only in the case of their letters are both registered or both not |
| InMemoryUserStore.InMemoryUserStorage.constructor | src/main/java/ru/yandex/practicum/filmorate/repository/InMemoryUserStorage.java:20-21 | an empty map and a counter at 1 |
| InMemoryUserStore.InMemoryUserStorage.CheckEmail | src/main/java/ru/yandex/practicum/filmorate/repository/InMemoryUserStorage.java:57-63 | passes exactly when the email is non-null and not blank, otherwise InvalidEmailException |
| InMemoryUserStore.InMemoryUserStorage.CreateUser | src/main/java/ru/yandex/practicum/filmorate/repository/InMemoryUserStorage.java:24-45 | blank email is rejected first, then a case-insensitive duplicate email; on success the user gets the next id (greater than every stored id) and the name default, and is stored; the counter rises by one; failures change nothing |
| InMemoryUserStore.InMemoryUserStorage.DeleteUser | src/main/java/ru/yandex/practicum/filmorate/repository/InMemoryUserStorage.java:47-55 | removes exactly that id, or throws IncorrectParameterException and changes nothing |
| InMemoryUserStore.InMemoryUserStorage.Overwritten | src/main/java/ru/yandex/practicum/filmorate/repository/InMemoryUserStorage.java:78-84 | the stored user takes the supplied name (line 81 wins over the default), login, email and birthday; id and friends stay |
| InMemoryUserStore.InMemoryUserStorage.UpdateUser | src/main/java/ru/yandex/practicum/filmorate/repository/InMemoryUserStorage.java:65-86 | email check, then id > 0, then existence (UserNotFoundException); on success only that entry changes, as Overwritten says |
| InMemoryUserStore.InMemoryUserStorage.FindUserById | src/main/java/ru/yandex/practicum/filmorate/repository/InMemoryUserStorage.java:88-96 | the stored user under that id, or UserNotFoundException |
| InMemoryUserStore.InMemoryUserStorage.AddFriends | src/main/java/ru/yandex/practicum/filmorate/repository/InMemoryUserStorage.java:98-104 | the first missing user is reported, in call order; otherwise the new map is Befriend of the old one |
| InMemoryUserStore.InMemoryUserStorage.DeleteFriends | src/main/java/ru/yandex/practicum/filmorate/repository/InMemoryUserStorage.java:106-112 | the same lookups, then the new map is Unfriend of the old one |
| InMemoryUserStore.InMemoryUserStorage.GetFriendsThisUser | src/main/java/ru/yandex/practicum/filmorate/repository/InMemoryUserStorage.java:114-126 | UserNotFoundException for an unknown user; otherwise exactly the stored users among its friends, each once |
| InMemoryUserStore.InMemoryUserStorage.Lookup | src/main/java/ru/yandex/practicum/filmorate/repository/InMemoryUserStorage.java:135 | definition: the stored user, or null when the id is not stored |
| InMemoryUserStore.InMemoryUserStorage.GetCommonFriends | src/main/java/ru/yandex/practicum/filmorate/repository/InMemoryUserStorage.java:128-139 | both users must exist; the result has one entry per id the two friend sets share, each id once, each entry the lookup of that id (null when that user was deleted) |
| InMemoryUserStore.InMemoryUserStorage.FindAll | src/main/java/ru/yandex/practicum/filmorate/repository/InMemoryUserStorage.java:141-144 | exactly the stored users, as many as there are entries |
| InMemoryFilmStore.Liked | src/main/java/ru/yandex/practicum/filmorate/repository/InMemoryFilmStorage.java:76 | the user joins the film's likes; no other film changes |
| InMemoryFilmStore.Unliked | src/main/java/ru/yandex/practicum/filmorate/repository/InMemoryFilmStorage.java:100 | the user leaves the film's likes; no other film changes |
| InMemoryFilmStore.LikeIdempotent | src/main/java/ru/yandex/practicum/filmorate/repository/InMemoryFilmStorage.java:76 | liking twice equals liking once |
| InMemoryFilmStore.UnlikeAbsent | src/main/java/ru/yandex/practicum/filmorate/repository/InMemoryFilmStorage.java:100 | removing a like that is not there changes nothing |
| InMemoryFilmStore.UnlikeUndoesLike | src/main/java/ru/yandex/practicum/filmorate/repository/InMemoryFilmStorage.java:72-101 | unlike after like restores the storage when the user had not liked the film |
| InMemoryFilmStore.LikeCount | src/main/java/ru/yandex/practicum/filmorate/repository/InMemoryFilmStorage.java:76 | a like from a new user raises the count by one; a repeated like leaves it |
| InMemoryFilmStore.LikeCounts | src/main/java/ru/yandex/practicum/filmorate/repository/InMemoryFilmStorage.java:107 | definition: every stored film's key is the size of its like set |
| InMemoryFilmStore.FilmsAtCovers | src/main/java/ru/yandex/practicum/filmorate/repository/InMemoryFilmStorage.java:105 | the films under every id of a set are exactly the stored films with those ids |
| InMemoryFilmStore.FilmsRanked | src/main/java/ru/yandex/practicum/filmorate/repository/InMemoryFilmStorage.java:105-109 | the films under a like-count ranking of ids form a ranking of films (RankedByLikes) |
| InMemoryFilmStore.PopularRanking | src/main/java/ru/yandex/practicum/filmorate/repository/InMemoryFilmStorage.java:104-110 | the top-count ids by like count, as films, rank the stored films by likes |
| InMemoryFilmStore.InMemoryFilmStorage.constructor | src/main/java/ru/yandex/practicum/filmorate/repository/InMemoryFilmStorage.java:18-26 | an empty map, a counter at 1 and the injected user storage |
| InMemoryFilmStore.InMemoryFilmStorage.CheckFieldsFilm | src/main/java/ru/yandex/practicum/filmorate/repository/InMemoryFilmStorage.java:80-94 | passes exactly when duration > 0, the name is present and the date is not too early; otherwise IncorrectParameterException for the first failing check |
| InMemoryFilmStore.InMemoryFilmStorage.CreateFilm | src/main/java/ru/yandex/practicum/filmorate/repository/InMemoryFilmStorage.java:28-34 | the fields are checked before an id is taken; on success the film is stored under the next id and the counter rises by one |
| InMemoryFilmStore.InMemoryFilmStorage.GetAllFilm | src/main/java/ru/yandex/practicum/filmorate/repository/InMemoryFilmStorage.java:36-40 | exactly the stored films, as many as there are entries |
| InMemoryFilmStore.InMemoryFilmStorage.UpdateFilm | src/main/java/ru/yandex/practicum/filmorate/repository/InMemoryFilmStorage.java:42-60 | id > 0, then existence, then field checks; on success name, description, release date and duration are overwritten, while id, rating, genres, directors and likes stay |
| InMemoryFilmStore.InMemoryFilmStorage.FindFilmById | src/main/java/ru/yandex/practicum/filmorate/repository/InMemoryFilmStorage.java:62-70 | the stored film, or ObjectNotFoundException |
| InMemoryFilmStore.InMemoryFilmStorage.AddLikeFilm | src/main/java/ru/yandex/practicum/filmorate/repository/InMemoryFilmStorage.java:72-78 | the user is looked up before the film; on success the new map is Liked of the old one |
| InMemoryFilmStore.InMemoryFilmStorage.DeleteLikeFilm | src/main/java/ru/yandex/practicum/filmorate/repository/InMemoryFilmStorage.java:96-101 | the same lookups; on success the new map is Unliked of the old one |
| InMemoryFilmStore.InMemoryFilmStorage.GetPopularFilm | src/main/java/ru/yandex/practicum/filmorate/repository/InMemoryFilmStorage.java:103-110 | a negative count is IllegalArgumentException; otherwise min(count, n) distinct stored films with non-increasing like counts, and no omitted film has more likes than a listed one |
| UserDbStore.RecordOf | src/main/java/ru/yandex/practicum/filmorate/repository/impl/UserDbStorage.java:207-215 | definition: the row mapper copies every column and loads no friends |
| UserDbStore.RowOf | src/main/java/ru/yandex/practicum/filmorate/repository/impl/UserDbStorage.java:79-85 | the stored name is the login exactly when the supplied name is null or blank; the other columns are copied |
| UserDbStore.ValidateEmailFormat | src/main/java/ru/yandex/practicum/filmorate/repository/impl/UserDbStorage.java:199-205 | passes exactly when the email is non-blank and contains '@', otherwise IncorrectParameterException |
| UserDbStore.RecordsAtCovers | src/main/java/ru/yandex/practicum/filmorate/repository/impl/UserDbStorage.java:150-155 | reading the users under a set of keys yields exactly their records |
| UserDbStore.FriendRowOneWay | src/main/java/ru/yandex/practicum/filmorate/repository/impl/UserDbStorage.java:119-130 | inserting the status-2 row (a, b) makes a befriend b and leaves whether b befriends a unchanged; deleting it ends only a's friendship with b |
| UserDbStore.UserDbStorage.constructor | src/main/java/ru/yandex/practicum/filmorate/repository/impl/UserDbStorage.java:27-29 | empty tables and the identity column at 1 |
| UserDbStore.UserDbStorage.EmailCount | src/main/java/ru/yandex/practicum/filmorate/repository/impl/UserDbStorage.java:217-222 | the COUNT(*) of users with exactly this email is positive exactly when the email is in use, and at most 1 while emails are unique |
| UserDbStore.UserDbStorage.EmailCountOther | src/main/java/ru/yandex/practicum/filmorate/repository/impl/UserDbStorage.java:230-235 | the COUNT(*) of other users with this email is positive exactly when another user has it, and at most 1 while emails are unique |
| UserDbStore.UserDbStorage.OwnEmailPasses | src/main/java/ru/yandex/practicum/filmorate/repository/impl/UserDbStorage.java:230-241 | an email another user has is in use, and a user updated with its own stored email passes the check |
| UserDbStore.UserDbStorage.Create | src/main/java/ru/yandex/practicum/filmorate/repository/impl/UserDbStorage.java:31-54 | bad format, then an exactly equal email already stored, are IncorrectParameterException; otherwise the row goes under the next key and the user comes back with that id and the default name; emails stay unique |
| UserDbStore.UserDbStorage.Delete | src/main/java/ru/yandex/practicum/filmorate/repository/impl/UserDbStorage.java:56-65 | removes the row and every friendship row naming it, or IncorrectParameterException and nothing changes |
| UserDbStore.UserDbStorage.Update | src/main/java/ru/yandex/practicum/filmorate/repository/impl/UserDbStorage.java:67-92 | format, then id > 0, then email used by another user, then existence; on success only that row changes and the result is what findById reads back |
| UserDbStore.UserDbStorage.FindById | src/main/java/ru/yandex/practicum/filmorate/repository/impl/UserDbStorage.java:94-102 | the record of the stored row, or ObjectNotFoundException |
| UserDbStore.UserDbStorage.AddFriends | src/main/java/ru/yandex/practicum/filmorate/repository/impl/UserDbStorage.java:104-123 | missing user, then missing friend, then self, then an existing row, each an error that changes nothing; otherwise exactly the row (user, friend) with status 2 is added, not the reverse |
| UserDbStore.UserDbStorage.DeleteFriends | src/main/java/ru/yandex/practicum/filmorate/repository/impl/UserDbStorage.java:125-132 | both users must exist; then exactly the row (user, friend) is gone and the reverse row stays |
| UserDbStore.UserDbStorage.FriendIds | src/main/java/ru/yandex/practicum/filmorate/repository/impl/UserDbStorage.java:144-147 | definition: exactly the stored users with a status-2 row from the user |
| UserDbStore.UserDbStorage.GetFriendsThisUser | src/main/java/ru/yandex/practicum/filmorate/repository/impl/UserDbStorage.java:135-156 | ObjectNotFoundException for an unknown user; otherwise exactly the records of the users it has a status-2 row to, each once |
| UserDbStore.UserDbStorage.CommonFriendIds | src/main/java/ru/yandex/practicum/filmorate/repository/impl/UserDbStorage.java:168-176 | definition: exactly the stored users both have a status-2 row to |
| UserDbStore.UserDbStorage.GetCommonFriends | src/main/java/ru/yandex/practicum/filmorate/repository/impl/UserDbStorage.java:158-192 | both users must exist, checked in order; otherwise exactly the records of the users both have befriended, each once, listed by ascending id (the model's order) |
| UserDbStore.UserDbStorage.CommonFriendsOfBoth | src/main/java/ru/yandex/practicum/filmorate/repository/impl/UserDbStorage.java:168-176 | common friends do not depend on the order of the two users, and each is in both users' friend lists |
| FilmDbStore.RowFor | src/main/java/ru/yandex/practicum/filmorate/repository/impl/FilmDbStorage.java:40-51 | definition: the row holds the film's name, description, date, duration and rating id |
| FilmDbStore.FirstMissing | src/main/java/ru/yandex/practicum/filmorate/repository/impl/FilmDbStorage.java:581-584 | None exactly when every id is in the table; otherwise the first id that is not, with every earlier id present |
| FilmDbStore.LinksTo | src/main/java/ru/yandex/practicum/filmorate/repository/impl/FilmDbStorage.java:591-596 | definition: exactly the link rows from the film to the given ids |
| FilmDbStore.LikesOf | src/main/java/ru/yandex/practicum/filmorate/repository/impl/FilmDbStorage.java:288-290 | definition: exactly the like rows of the film |
| FilmDbStore.LikeAddsOne | src/main/java/ru/yandex/practicum/filmorate/repository/impl/FilmDbStorage.java:237-244 | inserting a like row raises the film's count by one unless the row existed |
| FilmDbStore.UnlikeTakesOne | src/main/java/ru/yandex/practicum/filmorate/repository/impl/FilmDbStorage.java:274-275 | deleting an existing like row lowers the film's count by one |
| FilmDbStore.LikeLeavesOthers | src/main/java/ru/yandex/practicum/filmorate/repository/impl/FilmDbStorage.java:243-244 | adding or deleting a like row of one film leaves every other film's likes |
| FilmDbStore.FilmDbStorage.constructor | src/main/java/ru/yandex/practicum/filmorate/repository/impl/FilmDbStorage.java:30-33 | empty film and link tables over the given rating, genre and director tables |
| FilmDbStore.FilmDbStorage.GenreIdsOf | src/main/java/ru/yandex/practicum/filmorate/repository/impl/FilmDbStorage.java:173-178 | exactly the known genres linked to the film, ascending (ORDER BY genre id) |
| FilmDbStore.FilmDbStorage.GenresOf | src/main/java/ru/yandex/practicum/filmorate/repository/impl/FilmDbStorage.java:206-213 | one genre with its title per linked known genre id, in that order |
| FilmDbStore.FilmDbStorage.DirectorIdsOf | src/main/java/ru/yandex/practicum/filmorate/repository/impl/FilmDbStorage.java:175-176 | exactly the known directors linked to the film, only the queried one when given |
| FilmDbStore.FilmDbStorage.DirectorsOf | src/main/java/ru/yandex/practicum/filmorate/repository/impl/FilmDbStorage.java:215-222 | one director with its name per linked known director id |
| FilmDbStore.FilmDbStorage.View | src/main/java/ru/yandex/practicum/filmorate/repository/impl/FilmDbStorage.java:184-229 | the film read back: the row's fields, the rating only when its row exists, its genres and directors, no likes |
| FilmDbStore.FilmDbStorage.Views | src/main/java/ru/yandex/practicum/filmorate/repository/impl/FilmDbStorage.java:294-296 | the view of each id, in the order of the ids |
| FilmDbStore.FilmDbStorage.FindById | src/main/java/ru/yandex/practicum/filmorate/repository/impl/FilmDbStorage.java:157-232 | the view of a stored film, or ObjectNotFoundException when no row comes back |
| FilmDbStore.FilmDbStorage.CheckFieldsFilm | src/main/java/ru/yandex/practicum/filmorate/repository/impl/FilmDbStorage.java:249-268 | the in-memory field checks, then a null rating, each an IncorrectParameterException; passes exactly when all hold |
| FilmDbStore.FilmDbStorage.CheckAllKnown | src/main/java/ru/yandex/practicum/filmorate/repository/impl/FilmDbStorage.java:607-612 | the existence checks of a batch stop at exactly FirstMissing |
| FilmDbStore.FilmDbStorage.SaveFilmGenres | src/main/java/ru/yandex/practicum/filmorate/repository/impl/FilmDbStorage.java:576-585 | checks and links each genre in turn; fails with the first unknown genre; on success exactly the links to the supplied genres are added |
| FilmDbStore.FilmDbStorage.SaveFilmDirector | src/main/java/ru/yandex/practicum/filmorate/repository/impl/FilmDbStorage.java:587-597 | exactly the links to the supplied directors are added, unchecked |
| FilmDbStore.FilmDbStorage.UpdateFilmGenres | src/main/java/ru/yandex/practicum/filmorate/repository/impl/FilmDbStorage.java:600-613 | on success the film's genre links are replaced by exactly the supplied genres, and other films' links stay; otherwise the first unknown genre |
| FilmDbStore.FilmDbStorage.UpdateFilmDirectors | src/main/java/ru/yandex/practicum/filmorate/repository/impl/FilmDbStorage.java:615-628 | the same for directors, each checked against the genres table |
| FilmDbStore.FilmDbStorage.ReplaceLinks | src/main/java/ru/yandex/practicum/filmorate/repository/impl/FilmDbStorage.java:152-153 | genres are replaced, then directors; either failure restores both link tables |
| FilmDbStore.FilmDbStorage.Create | src/main/java/ru/yandex/practicum/filmorate/repository/impl/FilmDbStorage.java:35-60 | field errors, then an unknown rating, then an unknown genre, with everything rolled back; on success the row goes under the next key with exactly the supplied links, and the result reads back the supplied name, description, date, duration and rating |
| FilmDbStore.FilmDbStorage.Insert | src/main/java/ru/yandex/practicum/filmorate/repository/impl/FilmDbStorage.java:40-59 | the key is used even when the genres roll the insert back |
| FilmDbStore.FilmDbStorage.Update | src/main/java/ru/yandex/practicum/filmorate/repository/impl/FilmDbStorage.java:132-155 | id > 0, existence, non-null rating, known rating, then the link checks; on success the row is overwritten and the film's links are replaced, and the result is findById; any failure leaves every table unchanged |
| FilmDbStore.FilmDbStorage.LinkCheck | src/main/java/ru/yandex/practicum/filmorate/repository/impl/FilmDbStorage.java:600-628 | passes exactly when every genre id and every director id is in the genres table |
| FilmDbStore.FilmDbStorage.Store | src/main/java/ru/yandex/practicum/filmorate/repository/impl/FilmDbStorage.java:140-154 | the writing part of update succeeds exactly when LinkCheck passes, and rolls back otherwise |
| FilmDbStore.FilmDbStorage.Delete | src/main/java/ru/yandex/practicum/filmorate/repository/impl/FilmDbStorage.java:384-393 | removes the film and all its like, genre and director rows, or IncorrectParameterException with nothing changed |
| FilmDbStore.FilmDbStorage.AddLikeFilm | src/main/java/ru/yandex/practicum/filmorate/repository/impl/FilmDbStorage.java:234-247 | ObjectNotFoundException for an unknown film; otherwise the like row is present afterwards, and an existing one changes nothing |
| FilmDbStore.FilmDbStorage.DeleteLikeFilm | src/main/java/ru/yandex/practicum/filmorate/repository/impl/FilmDbStorage.java:270-281 | unknown film, then missing like, each an error; otherwise exactly that row is deleted |
| FilmDbStore.FilmDbStorage.LikeCount | src/main/java/ru/yandex/practicum/filmorate/repository/impl/FilmDbStorage.java:288-290 | a film's like count is positive exactly when some user has a like row for it |
| FilmDbStore.FilmDbStorage.LikeCounts | src/main/java/ru/yandex/practicum/filmorate/repository/impl/FilmDbStorage.java:288-290 | definition: every stored film, liked or not, is keyed by its number of like rows |
| FilmDbStore.FilmDbStorage.ReleaseDays | src/main/java/ru/yandex/practicum/filmorate/repository/impl/FilmDbStorage.java:500 | definition: every stored film is keyed by its release day |
| FilmDbStore.FilmDbStorage.PopularIds | src/main/java/ru/yandex/practicum/filmorate/repository/impl/FilmDbStorage.java:285-293 | min(count, n) distinct stored films, like counts non-increasing, and no omitted film has more likes than a listed one |
| FilmDbStore.FilmDbStorage.GetPopularFilm | src/main/java/ru/yandex/practicum/filmorate/repository/impl/FilmDbStorage.java:283-297 | a negative count is an error; otherwise each popular id is read back by findById, in order |
| FilmDbStore.FilmDbStorage.CommonFilmIds | src/main/java/ru/yandex/practicum/filmorate/repository/impl/FilmDbStorage.java:313-326 | exactly the stored films both users like, once each, most liked first |
| FilmDbStore.FilmDbStorage.GetCommonFilms | src/main/java/ru/yandex/practicum/filmorate/repository/impl/FilmDbStorage.java:299-382 | the view of each common film, in ranking order |
| FilmDbStore.FilmDbStorage.DirectedBy | src/main/java/ru/yandex/practicum/filmorate/repository/impl/FilmDbStorage.java:411-417 | definition: exactly the stored films linked to the director |
| FilmDbStore.FilmDbStorage.DirectorIdsByLikes | src/main/java/ru/yandex/practicum/filmorate/repository/impl/FilmDbStorage.java:409-422 | exactly the director's films, once each, most liked first |
| FilmDbStore.FilmDbStorage.FindAllFilmsByDirectorIdSortByLikes | src/main/java/ru/yandex/practicum/filmorate/repository/impl/FilmDbStorage.java:395-477 | the view of each of those films, showing only that director |
| FilmDbStore.FilmDbStorage.DirectorIdsByYear | src/main/java/ru/yandex/practicum/filmorate/repository/impl/FilmDbStorage.java:493-500 | exactly the director's films, once each, latest release first, with same-day films by ascending id |
| FilmDbStore.FilmDbStorage.FindAllFilmsByDirectorIdSortByYear | src/main/java/ru/yandex/practicum/filmorate/repository/impl/FilmDbStorage.java:479-555 | the view of each of those films, showing only that director |

## Left out

- Logging and exception messages: every exception is its constructor, with the offending id where the source puts it in the message.
- Concurrency and HTTP: the storages are modelled as used by one caller at a time. The `rows == 0` branch of the JDBC film `update` can only be reached through a concurrent delete, because that method calls findById first (FilmDbStorage.java line 138), so it is not modelled. In the JDBC user `update` that branch is the only existence check, and it is modelled as ObjectNotFoundException.
- Null login, birthday, release date, duration or genre and director sets: the model's records always have them, so the `NullPointerException`s and `LocalDate` checks that would need them are not modelled. Emails, names, descriptions and ratings may be null (`Option`).
- Case folding: `equalsIgnoreCase` in the in-memory createUser folds ASCII letters only; the Unicode case tables are not modelled.
- Ids in friend and like sets are natural numbers (`Common.Id`), so a negative friend or user id inside a supplied set is not representable.
- Hash order: `HashMap.values()`, `HashSet` friend sets and result sets without ORDER BY come out in an order the JVM or database picks. The model lists them by ascending id. The contracts of `InMemoryUserStore.InMemoryUserStorage.GetFriendsThisUser`, `UserDbStore.UserDbStorage.GetFriendsThisUser` and `UserDbStore.UserDbStorage.GetCommonFriends` state that order; it is the model's choice, and the source promises only that each friend is listed once.
- Tie order of the popularity rankings: films with equal like counts come in no promised order, which is what both sources give (a stable sort of a hash order, and an SQL ORDER BY on the count only).
- FilmDbStore.FilmDbStorage.CommonFilmIds: ranks by the film's like count, while the query's COUNT(fl_all.user_id) is multiplied by the film's number of director rows. The query also groups by genre, so the directors listed per film may be a subset.
- FilmDbStore.FilmDbStorage.GetPopularFilm: a negative LIMIT is modelled as a refused call; the database's own error for it is not modelled.
- FilmDbStore.FilmDbStorage.View: directors are listed by ascending id, while the source collects them in a `HashSet`. Genres of the director queries are listed by ascending id, while those queries do not order by genre.
- Database schema: the schema is not part of this model. Deleting a user or film is assumed to delete their friendship, like and link rows (a cascade). A like for a user that does not exist, which a foreign key would refuse, is accepted as in the source.
- Duplicate ids in a supplied genre or director set (two `Genre` values with one id and different names) would violate the link table's primary key. Genre and director sets are modelled as sequences whose link rows form a set.
- getAll of the JDBC storages and the genre, rating and director storages are not part of this model.
- Integer overflow of the in-memory id counters (`int` after 2^31 - 1 ids) is not modelled; the counters are unbounded.
- Mutation of the argument object: the source sets the generated id on the caller's `User` or `Film` and the in-memory storages keep that very object, so later changes through the caller's reference would change the stored record. The model stores values, and the returned value carries the new id.
- Result-set folding: the `while (rs.next())` loops that fold joined rows into one film per id are modelled by the film they produce (`FilmDbStore.FilmDbStorage.View`), not as loops over rows.

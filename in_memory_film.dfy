/** The in-memory film storage (repository/InMemoryFilmStorage.java): a map
    from id to film, a counter that hands out ids, a like set on every film,
    and the popularity ranking over those like sets. Likes are checked
    against the user storage the film storage is given at construction. */
module InMemoryFilmStore {
  import opened Common
  import opened Ranking
  import opened Model
  import opened InMemoryUserStore

  /** `m` with user `u` added to the likes of film `f`. */
  function Liked(m: map<Id, Film>, f: Id, u: Id): (r: map<Id, Film>)
    requires f in m
    ensures r.Keys == m.Keys
    ensures r[f] == m[f].(likes := m[f].likes + {u})
    ensures forall k :: k in m && k != f ==> r[k] == m[k]
  {
    m[f := m[f].(likes := m[f].likes + {u})]
  }

  /** `m` with user `u` removed from the likes of film `f`. */
  function Unliked(m: map<Id, Film>, f: Id, u: Id): (r: map<Id, Film>)
    requires f in m
    ensures r.Keys == m.Keys
    ensures r[f] == m[f].(likes := m[f].likes - {u})
    ensures forall k :: k in m && k != f ==> r[k] == m[k]
  {
    m[f := m[f].(likes := m[f].likes - {u})]
  }

  /** Two maps whose films agree everywhere are the same map. */
  lemma SameFilms(m: map<Id, Film>, n: map<Id, Film>)
    requires m.Keys == n.Keys
    requires forall k :: k in m ==> m[k].(likes := n[k].likes) == n[k]
    requires forall k, x :: k in m ==> (x in m[k].likes <==> x in n[k].likes)
    ensures m == n
  {
    forall k | k in m ensures m[k] == n[k] {
      assert m[k].likes == n[k].likes;
    }
  }

  /** Liking a film twice is liking it once. */
  lemma {:induction false} LikeIdempotent(m: map<Id, Film>, f: Id, u: Id)
    requires f in m
    ensures Liked(Liked(m, f, u), f, u) == Liked(m, f, u)
  {
    SameFilms(Liked(Liked(m, f, u), f, u), Liked(m, f, u));
  }

  /** Removing a like that is not there changes nothing. */
  lemma {:induction false} UnlikeAbsent(m: map<Id, Film>, f: Id, u: Id)
    requires f in m && u !in m[f].likes
    ensures Unliked(m, f, u) == m
  {
    SameFilms(Unliked(m, f, u), m);
  }

  /** Removing a like undoes adding it, when it was not there before. */
  lemma {:induction false} UnlikeUndoesLike(m: map<Id, Film>, f: Id, u: Id)
    requires f in m && u !in m[f].likes
    ensures Unliked(Liked(m, f, u), f, u) == m
  {
    SameFilms(Unliked(Liked(m, f, u), f, u), m);
  }

  /** A like from a new user raises the film's like count by one; a repeated
      like leaves it where it was. */
  lemma {:induction false} LikeCount(m: map<Id, Film>, f: Id, u: Id)
    requires f in m
    ensures |Liked(m, f, u)[f].likes| == |m[f].likes| + (if u in m[f].likes then 0 else 1)
  {
    var likes := m[f].likes;
    if u in likes {
      assert likes + {u} == likes;
    } else {
      assert (likes + {u}) - {u} == likes;
    }
  }

  /** The like count of every film: the key the popularity ranking sorts by. */
  function LikeCounts(m: map<Id, Film>): (r: map<Id, int>)
    ensures r.Keys == m.Keys
    ensures forall k :: k in m ==> r[k] == |m[k].likes|
  {
    map k | k in m :: |m[k].likes|
  }

  /** Listing the films of `m` under every id of `s` lists exactly the
      stored films whose id is in `s`, when every film is stored under its
      own id. */
  lemma FilmsAtCovers(m: map<Id, Film>, s: set<Id>, ids: seq<Id>)
    requires forall k :: k in m ==> m[k].id == k
    requires forall x :: x in ids <==> x in s && x in m
    ensures forall i :: 0 <= i < |ids| ==> ids[i] in m
    ensures forall f :: f in ValuesAt(m, ids) <==> f in m.Values && f.id in s
  {
    assert forall i :: 0 <= i < |ids| ==> ids[i] in ids;
    var films := ValuesAt(m, ids);
    forall f | f in m.Values && f.id in s ensures f in films {
      var k :| k in m && m[k] == f;
      assert k in ids;
      var i :| 0 <= i < |ids| && ids[i] == k;
      assert films[i] == f;
    }
  }

  /** `r` is a popularity ranking of the films of `m`: distinct stored
      films, like counts never increasing, and no film of `m` left out
      with more likes than one in `r`. */
  ghost predicate RankedByLikes(r: seq<Film>, m: map<Id, Film>) {
    && (forall i, j :: 0 <= i < j < |r| ==> r[i].id != r[j].id)
    && (forall f :: f in r ==> f in m.Values)
    && (forall i, j :: 0 <= i < j < |r| ==> |r[i].likes| >= |r[j].likes|)
    && (forall f, i :: f in m.Values && f !in r && 0 <= i < |r| ==> |f.likes| <= |r[i].likes|)
  }

  /** The films under a ranking of ids by like count form a ranking of films. */
  lemma {:induction false} FilmsRanked(m: map<Id, Film>, ids: seq<Id>)
    requires forall k :: k in m ==> m[k].id == k
    requires forall i :: 0 <= i < |ids| ==> ids[i] in m
    requires Distinct(ids) && RankDescending(ids, LikeCounts(m))
    requires forall x, i :: x in m && x !in ids && 0 <= i < |ids| ==>
      Rank(LikeCounts(m), x) <= Rank(LikeCounts(m), ids[i])
    ensures RankedByLikes(ValuesAt(m, ids), m)
  {
    var key := LikeCounts(m);
    var r := ValuesAt(m, ids);
    assert forall i :: 0 <= i < |ids| ==> |r[i].likes| == Rank(key, ids[i]);
    forall f, i | f in m.Values && f !in r && 0 <= i < |r| ensures |f.likes| <= |r[i].likes| {
      var k :| k in m && m[k] == f;
      assert k !in ids;
    }
    forall f | f in r ensures f in m.Values {
      var i :| 0 <= i < |r| && r[i] == f;
      assert m[ids[i]] == f;
    }
  }

  /** The `count` ids with the most likes, as films, rank the films of `m`. */
  lemma {:induction false} PopularRanking(m: map<Id, Film>, count: nat)
    requires forall k :: k in m ==> m[k].id == k
    ensures var ids := TopK(Ascending(m.Keys), LikeCounts(m), count);
      && (forall i :: 0 <= i < |ids| ==> ids[i] in m)
      && |ids| == (if count < |m| then count else |m|)
      && RankedByLikes(ValuesAt(m, ids), m)
  {
    var all := Ascending(m.Keys);
    var key := LikeCounts(m);
    var ids := TopK(all, key, count);
    assert |all| == |m|;
    assert forall i :: 0 <= i < |ids| ==> ids[i] in m by {
      forall i | 0 <= i < |ids| ensures ids[i] in m {
        assert ids[i] in ids;
      }
    }
    assert forall x, i :: x in m && x !in ids && 0 <= i < |ids| ==> Rank(key, x) <= Rank(key, ids[i]) by {
      forall x, i | x in m && x !in ids && 0 <= i < |ids| ensures Rank(key, x) <= Rank(key, ids[i]) {
        assert x in all;
      }
    }
    FilmsRanked(m, ids);
  }

  class InMemoryFilmStorage {
    var filmsStorage: map<Id, Film>
    var nextId: nat
    const userStorage: InMemoryUserStorage

    /** Every stored film was handed an id below the counter and is stored
        under its own id. */
    ghost predicate Valid()
      reads this
    {
      1 <= nextId &&
      forall k :: k in filmsStorage ==> 1 <= k < nextId && filmsStorage[k].id == k
    }

    constructor (userStorage: InMemoryUserStorage)
      ensures Valid() && filmsStorage == map[] && nextId == 1
      ensures this.userStorage == userStorage
    {
      filmsStorage := map[];
      nextId := 1;
      this.userStorage := userStorage;
    }

    /** checkFieldsFilm: a non-positive duration, a null or blank name and
        a release date before 28 December 1895 are each an
        IncorrectParameterException, checked in that order. */
    function CheckFieldsFilm(film: Film): (r: Outcome)
      ensures r == Pass <==> film.duration > 0 && Present(film.name) && ReleaseDateFloor <= film.releaseDate
      ensures r != Pass ==> r == Fail(IncorrectParameter(FieldProblem(film).value))
    {
      var problem := FieldProblem(film);
      if problem.Some? then Fail(IncorrectParameter(problem.value)) else Pass
    }

    /** createFilm: checks the fields before taking an id, so a rejected
        film takes no id and changes nothing. */
    method CreateFilm(film: Film) returns (r: Result<Film>)
      requires Valid()
      modifies this
      ensures Valid()
      ensures CheckFieldsFilm(film) != Pass ==>
        r == Failure(CheckFieldsFilm(film).error) && filmsStorage == old(filmsStorage) && nextId == old(nextId)
      ensures CheckFieldsFilm(film) == Pass ==>
        && r == Success(film.(id := old(nextId)))
        && r.value.id !in old(filmsStorage)
        && (forall k :: k in old(filmsStorage) ==> k < r.value.id)
        && filmsStorage == old(filmsStorage)[old(nextId) := r.value]
        && nextId == old(nextId) + 1
    {
      var checked := CheckFieldsFilm(film);
      if checked.Fail? {
        return Failure(checked.error);
      }
      var stored := film.(id := nextId);
      filmsStorage := filmsStorage[nextId := stored];
      nextId := nextId + 1;
      r := Success(stored);
    }

    /** getAllFilm: every stored film, each once. The source copies the
        HashMap's values; the model lists the films by ascending id. */
    function GetAllFilm(): (r: seq<Film>)
      reads this
      requires Valid()
      ensures |r| == |filmsStorage|
      ensures forall f :: f in r <==> f in filmsStorage.Values
    {
      var ids := Ascending(filmsStorage.Keys);
      FilmsAtCovers(filmsStorage, filmsStorage.Keys, ids);
      ValuesAt(filmsStorage, ids)
    }

    /** updateFilm: checks the id, then that the film exists, then its
        fields; then overwrites name, description, release date and
        duration, keeping the id, rating, genres, directors and likes. */
    method UpdateFilm(film: Film) returns (r: Result<Film>)
      requires Valid()
      modifies this
      ensures Valid() && nextId == old(nextId)
      ensures film.id <= 0 ==> r == Failure(IncorrectParameter(BadId))
      ensures film.id > 0 && film.id !in old(filmsStorage) ==> r == Failure(ObjectNotFound(FilmEntity, film.id))
      ensures film.id > 0 && film.id in old(filmsStorage) && CheckFieldsFilm(film) != Pass ==>
        r == Failure(CheckFieldsFilm(film).error)
      ensures r.Failure? ==> filmsStorage == old(filmsStorage)
      ensures film.id > 0 && film.id in old(filmsStorage) && CheckFieldsFilm(film) == Pass ==>
        && r == Success(old(filmsStorage)[film.id].(name := film.name, description := film.description,
                          releaseDate := film.releaseDate, duration := film.duration))
        && filmsStorage == old(filmsStorage)[film.id as Id := r.value]
    {
      if film.id <= 0 {
        return Failure(IncorrectParameter(BadId));
      }
      if film.id !in filmsStorage {
        return Failure(ObjectNotFound(FilmEntity, film.id));
      }
      var existingFilm := filmsStorage[film.id];
      var checked := CheckFieldsFilm(film);
      if checked.Fail? {
        return Failure(checked.error);
      }
      existingFilm := existingFilm.(name := film.name, description := film.description,
                                    releaseDate := film.releaseDate, duration := film.duration);
      filmsStorage := filmsStorage[film.id as Id := existingFilm];
      r := Success(existingFilm);
    }

    /** findFilmById: the stored film, or an ObjectNotFoundException. */
    function FindFilmById(filmId: int): (r: Result<Film>)
      reads this
      requires Valid()
      ensures r.Success? <==> filmId in filmsStorage
      ensures r.Success? ==> r.value == filmsStorage[filmId] && r.value.id == filmId
      ensures r.Failure? ==> r.error == ObjectNotFound(FilmEntity, filmId)
    {
      if filmId in filmsStorage then Success(filmsStorage[filmId]) else Failure(ObjectNotFound(FilmEntity, filmId))
    }

    /** addLikeFilm: the user is looked up first, then the film; the user's
        id joins the film's like set, where a second like changes nothing
        (LikeIdempotent). */
    method AddLikeFilm(filmId: int, userId: int) returns (r: Result<Film>)
      requires Valid() && userStorage.Valid()
      modifies this
      ensures Valid() && nextId == old(nextId)
      ensures userId !in userStorage.userStorage ==> r == Failure(UserNotFound(userId))
      ensures userId in userStorage.userStorage && filmId !in old(filmsStorage) ==>
        r == Failure(ObjectNotFound(FilmEntity, filmId))
      ensures r.Failure? ==> filmsStorage == old(filmsStorage)
      ensures userId in userStorage.userStorage && filmId in old(filmsStorage) ==>
        && filmsStorage == Liked(old(filmsStorage), filmId, userId)
        && r == Success(filmsStorage[filmId])
    {
      var user := userStorage.FindUserById(userId);
      if user.Failure? {
        return Failure(user.error);
      }
      var film := FindFilmById(filmId);
      if film.Failure? {
        return Failure(film.error);
      }
      filmsStorage := Liked(filmsStorage, filmId, user.value.id);
      r := Success(filmsStorage[filmId]);
    }

    /** deleteLikeFilm: the user is looked up first, then the film; the
        user's id leaves the film's like set, which is no change when the
        user had not liked the film (UnlikeAbsent). */
    method DeleteLikeFilm(id: int, userId: int) returns (r: Outcome)
      requires Valid() && userStorage.Valid()
      modifies this
      ensures Valid() && nextId == old(nextId)
      ensures userId !in userStorage.userStorage ==> r == Fail(UserNotFound(userId))
      ensures userId in userStorage.userStorage && id !in old(filmsStorage) ==>
        r == Fail(ObjectNotFound(FilmEntity, id))
      ensures r != Pass ==> filmsStorage == old(filmsStorage)
      ensures userId in userStorage.userStorage && id in old(filmsStorage) ==>
        r == Pass && filmsStorage == Unliked(old(filmsStorage), id, userId)
    {
      var user := userStorage.FindUserById(userId);
      if user.Failure? {
        return Fail(user.error);
      }
      var film := FindFilmById(id);
      if film.Failure? {
        return Fail(film.error);
      }
      filmsStorage := Unliked(filmsStorage, id, user.value.id);
      r := Pass;
    }

    /** getPopularFilm: the `count` most liked films, most liked first; a
        negative count is the IllegalArgumentException of Stream.limit.
        Films with equal like counts come in no promised order. */
    function GetPopularFilm(count: int): (r: Result<seq<Film>>)
      reads this
      requires Valid()
      ensures r.Failure? <==> count < 0
      ensures r.Failure? ==> r.error == IllegalArgument
      ensures r.Success? ==> |r.value| == (if count < |filmsStorage| then count else |filmsStorage|)
      ensures r.Success? ==> RankedByLikes(r.value, filmsStorage)
    {
      if count < 0 then Failure(IllegalArgument)
      else
        PopularRanking(filmsStorage, count);
        Success(ValuesAt(filmsStorage, TopK(Ascending(filmsStorage.Keys), LikeCounts(filmsStorage), count)))
    }
  }
}

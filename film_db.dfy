/** The JDBC film storage (repository/impl/FilmDbStorage.java) over the
    `films` table and three link tables: `film_like` (user_id, film_id),
    `film_genre` (film_id, genre_id) and `film_director` (film_id,
    director_id). The `rating`, `genres` and `directors` tables are read,
    never written, by this storage. */
module FilmDbStore {
  import opened Common
  import opened Ranking
  import opened Model

  /** A row of the films table. */
  datatype FilmRow = FilmRow(
    name: Option<string>,
    description: Option<string>,
    releaseDate: Date,
    duration: int,
    ratingId: int)

  /** The row create and update write for a film that has a rating. */
  function RowFor(film: Film): (r: FilmRow)
    requires film.mpa.Some?
    ensures r.name == film.name && r.description == film.description
    ensures r.releaseDate == film.releaseDate && r.duration == film.duration
    ensures r.ratingId == film.mpa.value.id
  {
    FilmRow(film.name, film.description, film.releaseDate, film.duration, film.mpa.value.id)
  }

  function GenreIds(gs: seq<Genre>): (r: seq<int>)
    ensures |r| == |gs| && forall i :: 0 <= i < |gs| ==> r[i] == gs[i].id
  {
    seq(|gs|, i requires 0 <= i < |gs| => gs[i].id)
  }

  function DirectorIds(ds: seq<Director>): (r: seq<int>)
    ensures |r| == |ds| && forall i :: 0 <= i < |ds| ==> r[i] == ds[i].id
  {
    seq(|ds|, i requires 0 <= i < |ds| => ds[i].id)
  }

  /** The first id of `ids` that `table` lacks: the id whose
      ObjectNotFoundException a loop of existence checks throws. */
  function FirstMissing(ids: seq<int>, table: set<Id>): (r: Option<int>)
    ensures r == None <==> forall i :: 0 <= i < |ids| ==> ids[i] in table
    ensures r.Some? ==> exists i :: (0 <= i < |ids| && ids[i] == r.value && ids[i] !in table &&
      forall j :: 0 <= j < i ==> ids[j] in table)
  {
    if ids == [] then None
    else if ids[0] !in table then Some(ids[0])
    else
      var rest := FirstMissing(ids[1..], table);
      if rest.Some? then
        var i :| 0 <= i < |ids[1..]| && ids[1..][i] == rest.value && ids[1..][i] !in table &&
          forall j :: 0 <= j < i ==> ids[1..][j] in table;
        assert ids[i + 1] == rest.value;
        rest
      else
        assert forall i :: 1 <= i < |ids| ==> ids[i] == ids[1..][i - 1];
        rest
  }

  /** The link rows from film `f` to every id of `ids`. */
  function LinksTo(f: Id, ids: seq<int>): (r: set<(Id, int)>)
    ensures forall p :: p in r <==> p.0 == f && p.1 in ids
  {
    var r := set x | x in ids :: (f, x);
    forall p: (Id, int) | p.0 == f && p.1 in ids ensures p in r {
      var x := p.1;
      assert (f, x) in r;
    }
    r
  }

  /** `now` is `was` with the links of film `f` replaced by links to
      exactly `ids`. */
  ghost predicate Relinked(now: set<(Id, int)>, was: set<(Id, int)>, f: Id, ids: seq<int>) {
    forall p :: p in now <==> (p in was && p.0 != f) || p in LinksTo(f, ids)
  }

  /** The like rows (user_id, film_id) of film `f`. */
  function LikesOf(likes: set<(int, Id)>, f: Id): (r: set<(int, Id)>)
    ensures forall p :: p in r <==> p in likes && p.1 == f
  {
    set p | p in likes && p.1 == f
  }

  /** A like row for film `f` adds one to its like count, unless the row
      is already there. */
  lemma {:induction false} LikeAddsOne(likes: set<(int, Id)>, userId: int, f: Id)
    ensures |LikesOf(likes + {(userId, f)}, f)| ==
      |LikesOf(likes, f)| + (if (userId, f) in likes then 0 else 1)
  {
    if (userId, f) in likes {
      assert LikesOf(likes + {(userId, f)}, f) == LikesOf(likes, f);
    } else {
      assert LikesOf(likes + {(userId, f)}, f) == LikesOf(likes, f) + {(userId, f)};
    }
  }

  /** Deleting a like row of film `f` takes one from its like count. */
  lemma {:induction false} UnlikeTakesOne(likes: set<(int, Id)>, userId: int, f: Id)
    requires (userId, f) in likes
    ensures |LikesOf(likes - {(userId, f)}, f)| == |LikesOf(likes, f)| - 1
  {
    assert LikesOf(likes, f) == LikesOf(likes - {(userId, f)}, f) + {(userId, f)};
  }

  /** A like row, added or deleted, changes no other film's like count. */
  lemma {:induction false} LikeLeavesOthers(likes: set<(int, Id)>, userId: int, f: Id, g: Id)
    requires f != g
    ensures LikesOf(likes + {(userId, f)}, g) == LikesOf(likes, g)
    ensures LikesOf(likes - {(userId, f)}, g) == LikesOf(likes, g)
  {
  }

  class FilmDbStorage {
    var films: map<Id, FilmRow>
    var filmLike: set<(int, Id)>
    var filmGenre: set<(Id, int)>
    var filmDirector: set<(Id, int)>
    /** The next key the films table's identity column generates. */
    var nextKey: nat
    /** The rating, genres and directors tables: id to title or name. */
    const ratings: map<Id, string>
    const genres: map<Id, string>
    const directors: map<Id, string>

    /** Keys come from the identity column; every film's rating exists;
        every link row names a stored film (the foreign keys, with the
        link rows of a deleted film deleted with it); every genre link
        names a known genre. */
    ghost predicate Valid()
      reads this
    {
      && 1 <= nextKey
      && (forall k :: k in films ==> 1 <= k < nextKey && films[k].ratingId in ratings)
      && (forall p :: p in filmLike ==> p.1 in films)
      && (forall p :: p in filmGenre ==> p.0 in films && p.1 in genres)
      && (forall p :: p in filmDirector ==> p.0 in films)
    }

    constructor (ratings: map<Id, string>, genres: map<Id, string>, directors: map<Id, string>)
      ensures Valid()
      ensures films == map[] && filmLike == {} && filmGenre == {} && filmDirector == {} && nextKey == 1
      ensures this.ratings == ratings && this.genres == genres && this.directors == directors
    {
      films, filmLike, filmGenre, filmDirector, nextKey := map[], {}, {}, {}, 1;
      this.ratings, this.genres, this.directors := ratings, genres, directors;
    }

    /** The known genres film `f` is linked to, by ascending id. */
    function GenreIdsOf(f: Id): (ids: seq<Id>)
      reads this
      ensures StrictlyAscending(ids)
      ensures forall g :: g in ids <==> g in genres && (f, g) in filmGenre
    {
      Ascending(set g | g in genres && (f, g) in filmGenre)
    }

    /** The genres of film `f` as findById lists them (ORDER BY genre id),
        each with its name. */
    function GenresOf(f: Id): (r: seq<Genre>)
      reads this
      ensures |r| == |GenreIdsOf(f)|
      ensures forall i :: 0 <= i < |r| ==> r[i] == Genre(GenreIdsOf(f)[i], Some(genres[GenreIdsOf(f)[i]]))
    {
      var table := genres;
      var ids := GenreIdsOf(f);
      assert forall i :: 0 <= i < |ids| ==> ids[i] in ids;
      seq(|ids|, i requires 0 <= i < |ids| => Genre(ids[i], Some(table[ids[i]])))
    }

    /** The known directors film `f` is linked to, only director `only`
        when it is given, by ascending id. */
    function DirectorIdsOf(f: Id, only: Option<int>): (ids: seq<Id>)
      reads this
      ensures StrictlyAscending(ids)
      ensures forall d :: d in ids <==> d in directors && (f, d) in filmDirector && (only.Some? ==> d == only.value)
    {
      Ascending(set d | d in directors && (f, d) in filmDirector && (only.Some? ==> d == only.value))
    }

    /** The directors of film `f`, each with its name. */
    function DirectorsOf(f: Id, only: Option<int>): (r: seq<Director>)
      reads this
      ensures |r| == |DirectorIdsOf(f, only)|
      ensures forall i :: 0 <= i < |r| ==>
        r[i] == Director(DirectorIdsOf(f, only)[i], Some(directors[DirectorIdsOf(f, only)[i]]))
    {
      var table := directors;
      var ids := DirectorIdsOf(f, only);
      assert forall i :: 0 <= i < |ids| ==> ids[i] in ids;
      seq(|ids|, i requires 0 <= i < |ids| => Director(ids[i], Some(table[ids[i]])))
    }

    /** The film the result-set readers build for stored film `f`: its row,
        its rating when the rating row exists, its genres and its directors
        (only director `only` when the query joins on one). */
    function View(f: Id, only: Option<int>): (r: Film)
      reads this
      requires f in films
      ensures r.id == f && r.name == films[f].name && r.description == films[f].description
      ensures r.releaseDate == films[f].releaseDate && r.duration == films[f].duration
      ensures r.mpa == if films[f].ratingId in ratings
        then Some(Rating(films[f].ratingId, Some(ratings[films[f].ratingId]))) else None
      ensures r.genres == GenresOf(f) && r.directors == DirectorsOf(f, only) && r.likes == {}
    {
      var row := films[f];
      var mpa := if row.ratingId in ratings then Some(Rating(row.ratingId, Some(ratings[row.ratingId]))) else None;
      Film(f, row.name, row.description, row.releaseDate, row.duration, mpa, GenresOf(f), DirectorsOf(f, only), {})
    }

    /** The views of the stored films under `ids`, in that order. */
    function Views(ids: seq<Id>, only: Option<int>): (r: seq<Film>)
      reads this
      requires forall i :: 0 <= i < |ids| ==> ids[i] in films
      ensures |r| == |ids| && forall i :: 0 <= i < |ids| ==> r[i] == View(ids[i], only)
    {
      if ids == [] then [] else [View(ids[0], only)] + Views(ids[1..], only)
    }

    /** findById: the view of a stored film, or an ObjectNotFoundException. */
    function FindById(filmId: int): (r: Result<Film>)
      reads this
      ensures r.Success? <==> filmId in films
      ensures r.Success? ==> r.value == View(filmId as Id, None)
      ensures r.Failure? ==> r.error == ObjectNotFound(FilmEntity, filmId)
    {
      if filmId in films then Success(View(filmId as Id, None)) else Failure(ObjectNotFound(FilmEntity, filmId))
    }

    /** checkFieldsFilm: the checks of the in-memory storage, then a null
        rating, each an IncorrectParameterException. */
    function CheckFieldsFilm(film: Film): (r: Outcome)
      ensures r == Pass <==> FieldProblem(film) == None && film.mpa.Some?
      ensures FieldProblem(film).Some? ==> r == Fail(IncorrectParameter(FieldProblem(film).value))
      ensures FieldProblem(film) == None && film.mpa.None? ==> r == Fail(IncorrectParameter(MissingRating))
    {
      var problem := FieldProblem(film);
      if problem.Some? then Fail(IncorrectParameter(problem.value))
      else if film.mpa.None? then Fail(IncorrectParameter(MissingRating))
      else Pass
    }

    /** The existence checks of a loop over `ids`: the first id `table`
        lacks, or None when it has them all. */
    method CheckAllKnown(ids: seq<int>, table: set<Id>) returns (missing: Option<int>)
      ensures missing == FirstMissing(ids, table)
    {
      var i := 0;
      while i < |ids|
        invariant 0 <= i <= |ids|
        invariant forall j :: 0 <= j < i ==> ids[j] in table
        invariant FirstMissing(ids, table) == FirstMissing(ids[i..], table)
      {
        if ids[i] !in table {
          return Some(ids[i]);
        }
        assert ids[i..][1..] == ids[i + 1..];
        i := i + 1;
      }
      return None;
    }

    /** saveFilmGenres: for each genre in turn, checks that it exists and
        links the film to it; the first unknown genre stops the loop with
        an ObjectNotFoundException, leaving the links made so far. */
    method SaveFilmGenres(filmId: Id, gs: seq<Genre>) returns (r: Outcome)
      modifies this`filmGenre
      ensures r == Pass <==> FirstMissing(GenreIds(gs), genres.Keys) == None
      ensures r != Pass ==> r == Fail(ObjectNotFound(GenreEntity, FirstMissing(GenreIds(gs), genres.Keys).value))
      ensures r == Pass ==> filmGenre == old(filmGenre) + LinksTo(filmId, GenreIds(gs))
      ensures forall p :: p in filmGenre ==> p in old(filmGenre) || (p.0 == filmId && p.1 in genres)
    {
      ghost var ids := GenreIds(gs);
      for i := 0 to |gs|
        invariant forall j :: 0 <= j < i ==> ids[j] in genres
        invariant FirstMissing(ids, genres.Keys) == FirstMissing(ids[i..], genres.Keys)
        invariant filmGenre == old(filmGenre) + LinksTo(filmId, ids[..i])
        invariant forall p :: p in filmGenre ==> p in old(filmGenre) || (p.0 == filmId && p.1 in genres)
      {
        if gs[i].id !in genres {
          return Fail(ObjectNotFound(GenreEntity, gs[i].id));
        }
        assert ids[i..][1..] == ids[i + 1..];
        assert ids[..i + 1] == ids[..i] + [ids[i]];
        filmGenre := filmGenre + {(filmId, gs[i].id)};
      }
      assert ids[..|gs|] == ids;
      r := Pass;
    }

    /** saveFilmDirector: links the film to every director, unchecked. */
    method SaveFilmDirector(filmId: Id, ds: seq<Director>)
      modifies this`filmDirector
      ensures filmDirector == old(filmDirector) + LinksTo(filmId, DirectorIds(ds))
    {
      if |ds| == 0 {
        assert LinksTo(filmId, DirectorIds(ds)) == {};
        return;
      }
      filmDirector := filmDirector + LinksTo(filmId, DirectorIds(ds));
    }

    /** updateFilmGenres: drops the film's genre links, then, in one batch,
        checks every genre and links the film to it. */
    method UpdateFilmGenres(filmId: Id, gs: seq<Genre>) returns (r: Outcome)
      modifies this`filmGenre
      ensures r == Pass <==> FirstMissing(GenreIds(gs), genres.Keys) == None
      ensures r != Pass ==> r == Fail(ObjectNotFound(GenreEntity, FirstMissing(GenreIds(gs), genres.Keys).value))
      ensures r == Pass ==> Relinked(filmGenre, old(filmGenre), filmId, GenreIds(gs))
      ensures forall p :: p in filmGenre ==> p in old(filmGenre) || (p.0 == filmId && p.1 in genres)
    {
      filmGenre := set p | p in filmGenre && p.0 != filmId;
      if |gs| == 0 {
        return Pass;
      }
      var missing := CheckAllKnown(GenreIds(gs), genres.Keys);
      if missing.Some? {
        return Fail(ObjectNotFound(GenreEntity, missing.value));
      }
      filmGenre := filmGenre + LinksTo(filmId, GenreIds(gs));
      r := Pass;
    }

    /** updateFilmDirectors: drops the film's director links, then, in one
        batch, checks every director id against the genres table, as line
        624 of the source does, and links the film to it. */
    method UpdateFilmDirectors(filmId: Id, ds: seq<Director>) returns (r: Outcome)
      modifies this`filmDirector
      ensures r == Pass <==> FirstMissing(DirectorIds(ds), genres.Keys) == None
      ensures r != Pass ==> r == Fail(ObjectNotFound(GenreEntity, FirstMissing(DirectorIds(ds), genres.Keys).value))
      ensures r == Pass ==> Relinked(filmDirector, old(filmDirector), filmId, DirectorIds(ds))
      ensures forall p :: p in filmDirector ==> p in old(filmDirector) || p.0 == filmId
    {
      filmDirector := set p | p in filmDirector && p.0 != filmId;
      if |ds| == 0 {
        return Pass;
      }
      var missing := CheckAllKnown(DirectorIds(ds), genres.Keys);
      if missing.Some? {
        return Fail(ObjectNotFound(GenreEntity, missing.value));
      }
      filmDirector := filmDirector + LinksTo(filmId, DirectorIds(ds));
      r := Pass;
    }

    /** The link part of update: replaces the film's genre links, then its
        director links; a failing check of either undoes both. */
    method ReplaceLinks(filmId: Id, gs: seq<Genre>, ds: seq<Director>) returns (r: Outcome)
      modifies this`filmGenre, this`filmDirector
      ensures r == Pass <==>
        FirstMissing(GenreIds(gs), genres.Keys) == None && FirstMissing(DirectorIds(ds), genres.Keys) == None
      ensures FirstMissing(GenreIds(gs), genres.Keys).Some? ==>
        r == Fail(ObjectNotFound(GenreEntity, FirstMissing(GenreIds(gs), genres.Keys).value))
      ensures (FirstMissing(GenreIds(gs), genres.Keys) == None && FirstMissing(DirectorIds(ds), genres.Keys).Some?) ==>
        r == Fail(ObjectNotFound(GenreEntity, FirstMissing(DirectorIds(ds), genres.Keys).value))
      ensures r != Pass ==> filmGenre == old(filmGenre) && filmDirector == old(filmDirector)
      ensures r == Pass ==> Relinked(filmGenre, old(filmGenre), filmId, GenreIds(gs))
      ensures r == Pass ==> Relinked(filmDirector, old(filmDirector), filmId, DirectorIds(ds))
      ensures forall p :: p in filmGenre ==> p in old(filmGenre) || (p.0 == filmId && p.1 in genres)
      ensures forall p :: p in filmDirector ==> p in old(filmDirector) || p.0 == filmId
    {
      var savedGenres, savedDirectors := filmGenre, filmDirector;
      r := UpdateFilmGenres(filmId, gs);
      if r.Fail? {
        filmGenre := savedGenres;
        return;
      }
      r := UpdateFilmDirectors(filmId, ds);
      if r.Fail? {
        filmGenre, filmDirector := savedGenres, savedDirectors;
      }
    }

    /** create (one transaction): checks the fields and that the rating
        exists, then inserts the film; see Insert. */
    method Create(film: Film) returns (r: Result<Film>)
      requires Valid()
      modifies this
      ensures Valid() && filmLike == old(filmLike)
      ensures CheckFieldsFilm(film) != Pass ==> r == Failure(CheckFieldsFilm(film).error)
      ensures CheckFieldsFilm(film) == Pass && film.mpa.value.id !in ratings ==>
        r == Failure(ObjectNotFound(RatingEntity, film.mpa.value.id))
      ensures (CheckFieldsFilm(film) != Pass || film.mpa.value.id !in ratings) ==> nextKey == old(nextKey)
      ensures (CheckFieldsFilm(film) == Pass && film.mpa.value.id in ratings) ==>
        && nextKey == old(nextKey) + 1
        && (r.Success? <==> FirstMissing(GenreIds(film.genres), genres.Keys) == None)
        && (r.Failure? ==> r.error == ObjectNotFound(GenreEntity, FirstMissing(GenreIds(film.genres), genres.Keys).value))
      ensures r.Failure? ==> films == old(films) && filmGenre == old(filmGenre) && filmDirector == old(filmDirector)
      ensures r.Success? ==>
        && old(nextKey) !in old(films)
        && films == old(films)[old(nextKey) := RowFor(film)]
        && filmGenre == old(filmGenre) + LinksTo(old(nextKey), GenreIds(film.genres))
        && filmDirector == old(filmDirector) + LinksTo(old(nextKey), DirectorIds(film.directors))
        && r == Success(View(old(nextKey), None))
      ensures r.Success? ==>
        && r.value.name == film.name && r.value.description == film.description
        && r.value.releaseDate == film.releaseDate && r.value.duration == film.duration
        && r.value.mpa == Some(Rating(film.mpa.value.id, Some(ratings[film.mpa.value.id])))
    {
      var checked := CheckFieldsFilm(film);
      if checked.Fail? {
        return Failure(checked.error);
      }
      var ratingId := film.mpa.value.id;
      if ratingId !in ratings {
        return Failure(ObjectNotFound(RatingEntity, ratingId));
      }
      r := Insert(film);
    }

    /** The writing part of create: inserts the row under the next key,
        links the genres (checked) and the directors (unchecked) and reads
        the film back. An unknown genre rolls the rows back, but the key
        the identity column handed out stays used. */
    method Insert(film: Film) returns (r: Result<Film>)
      requires Valid() && film.mpa.Some? && film.mpa.value.id in ratings
      modifies this`films, this`filmGenre, this`filmDirector, this`nextKey
      ensures Valid() && nextKey == old(nextKey) + 1
      ensures r.Success? <==> FirstMissing(GenreIds(film.genres), genres.Keys) == None
      ensures r.Failure? ==> r.error == ObjectNotFound(GenreEntity, FirstMissing(GenreIds(film.genres), genres.Keys).value)
      ensures r.Failure? ==> films == old(films) && filmGenre == old(filmGenre) && filmDirector == old(filmDirector)
      ensures r.Success? ==>
        && old(nextKey) !in old(films)
        && films == old(films)[old(nextKey) := RowFor(film)]
        && filmGenre == old(filmGenre) + LinksTo(old(nextKey), GenreIds(film.genres))
        && filmDirector == old(filmDirector) + LinksTo(old(nextKey), DirectorIds(film.directors))
        && r == Success(View(old(nextKey), None))
    {
      var savedFilms, savedGenres := films, filmGenre;
      var filmId := nextKey;
      films := films[filmId := RowFor(film)];
      nextKey := nextKey + 1;
      var linked := SaveFilmGenres(filmId, film.genres);
      if linked.Fail? {
        films, filmGenre := savedFilms, savedGenres;
        return Failure(linked.error);
      }
      SaveFilmDirector(filmId, film.directors);
      r := FindById(filmId);
    }

    /** update (one transaction): checks the id, that the film exists and
        that its rating exists (a null rating is a NullPointerException;
        the fields are not checked), overwrites the row and replaces the
        film's genre and director links. A failing link check rolls
        everything back. */
    method Update(film: Film) returns (r: Result<Film>)
      requires Valid()
      modifies this
      ensures Valid() && filmLike == old(filmLike) && nextKey == old(nextKey)
      ensures film.id <= 0 ==> r == Failure(IncorrectParameter(BadId))
      ensures film.id > 0 && film.id !in old(films) ==> r == Failure(ObjectNotFound(FilmEntity, film.id))
      ensures film.id > 0 && film.id in old(films) && film.mpa.None? ==> r == Failure(NullReference)
      ensures film.id > 0 && film.id in old(films) && film.mpa.Some? && film.mpa.value.id !in ratings ==>
        r == Failure(ObjectNotFound(RatingEntity, film.mpa.value.id))
      ensures (film.id > 0 && film.id in old(films) && film.mpa.Some? && film.mpa.value.id in ratings) ==>
        (r.Success? <==> LinkCheck(film) == Pass) && (r.Failure? ==> r.error == LinkCheck(film).error)
      ensures r.Failure? ==> films == old(films) && filmGenre == old(filmGenre) && filmDirector == old(filmDirector)
      ensures r.Success? ==>
        && film.id > 0 && film.id in old(films) && film.mpa.Some?
        && films == old(films)[film.id as Id := RowFor(film)]
        && Relinked(filmGenre, old(filmGenre), film.id as Id, GenreIds(film.genres))
        && Relinked(filmDirector, old(filmDirector), film.id as Id, DirectorIds(film.directors))
        && r == Success(View(film.id as Id, None))
    {
      if film.id <= 0 {
        return Failure(IncorrectParameter(BadId));
      }
      var found := FindById(film.id);
      if found.Failure? {
        return Failure(found.error);
      }
      if film.mpa.None? {
        return Failure(NullReference);
      }
      var ratingId := film.mpa.value.id;
      if ratingId !in ratings {
        return Failure(ObjectNotFound(RatingEntity, ratingId));
      }
      r := Store(film);
    }

    /** The link checks of update: the first genre id, then the first
        director id, that the genres table lacks. */
    function LinkCheck(film: Film): (r: Outcome)
      ensures r == Pass <==>
        (forall g :: g in film.genres ==> g.id in genres) && (forall d :: d in film.directors ==> d.id in genres)
      ensures r != Pass ==> r.error.ObjectNotFound? && r.error.entity == GenreEntity
    {
      var genreMissing := FirstMissing(GenreIds(film.genres), genres.Keys);
      var directorMissing := FirstMissing(DirectorIds(film.directors), genres.Keys);
      assert forall i :: 0 <= i < |film.genres| ==> film.genres[i] in film.genres;
      assert forall i :: 0 <= i < |film.directors| ==> film.directors[i] in film.directors;
      if genreMissing.Some? then Fail(ObjectNotFound(GenreEntity, genreMissing.value))
      else if directorMissing.Some? then Fail(ObjectNotFound(GenreEntity, directorMissing.value))
      else Pass
    }

    /** The writing part of update: overwrites the row and replaces the
        film's links, all undone when a link check fails. */
    method Store(film: Film) returns (r: Result<Film>)
      requires Valid() && film.id in films && film.mpa.Some? && film.mpa.value.id in ratings
      modifies this`films, this`filmGenre, this`filmDirector
      ensures Valid()
      ensures r.Success? <==> LinkCheck(film) == Pass
      ensures r.Failure? ==> r.error == LinkCheck(film).error
      ensures r.Failure? ==> films == old(films) && filmGenre == old(filmGenre) && filmDirector == old(filmDirector)
      ensures r.Success? ==>
        && films == old(films)[film.id as Id := RowFor(film)]
        && Relinked(filmGenre, old(filmGenre), film.id as Id, GenreIds(film.genres))
        && Relinked(filmDirector, old(filmDirector), film.id as Id, DirectorIds(film.directors))
        && r == Success(View(film.id as Id, None))
    {
      var filmId: Id := film.id as Id;
      var savedFilms := films;
      films := films[filmId := RowFor(film)];
      var linked := ReplaceLinks(filmId, film.genres, film.directors);
      if linked.Fail? {
        films := savedFilms;
        return Failure(linked.error);
      }
      r := FindById(filmId);
    }

    /** delete: removes a stored film with its like, genre and director
        links; an unknown id is an IncorrectParameterException. */
    method Delete(filmId: int) returns (r: Outcome)
      requires Valid()
      modifies this
      ensures Valid() && nextKey == old(nextKey)
      ensures r == Pass <==> filmId in old(films)
      ensures r != Pass ==> (r == Fail(IncorrectParameter(UnknownId)) && films == old(films) &&
        filmLike == old(filmLike) && filmGenre == old(filmGenre) && filmDirector == old(filmDirector))
      ensures r == Pass ==>
        && films == old(films) - {filmId as Id}
        && (forall p :: p in filmLike <==> p in old(filmLike) && p.1 != filmId)
        && (forall p :: p in filmGenre <==> p in old(filmGenre) && p.0 != filmId)
        && (forall p :: p in filmDirector <==> p in old(filmDirector) && p.0 != filmId)
    {
      if filmId !in films {
        return Fail(IncorrectParameter(UnknownId));
      }
      films := films - {filmId as Id};
      filmLike := set p | p in filmLike && p.1 != filmId;
      filmGenre := set p | p in filmGenre && p.0 != filmId;
      filmDirector := set p | p in filmDirector && p.0 != filmId;
      r := Pass;
    }

    /** addLikeFilm: the film must exist; the like row is inserted unless
        it is already there, so liking twice is liking once. The user is
        not looked up. */
    method AddLikeFilm(filmId: int, userId: int) returns (r: Result<Film>)
      requires Valid()
      modifies this`filmLike
      ensures Valid()
      ensures filmId !in films ==> r == Failure(ObjectNotFound(FilmEntity, filmId)) && filmLike == old(filmLike)
      ensures filmId in films ==>
        && filmLike == old(filmLike) + {(userId, filmId as Id)}
        && r == Success(View(filmId as Id, None))
      ensures (userId, filmId) in old(filmLike) ==> filmLike == old(filmLike)
    {
      var film := FindById(filmId);
      if film.Failure? {
        return Failure(film.error);
      }
      var like := (userId, filmId as Id);
      if like in filmLike {
        return film;
      }
      filmLike := filmLike + {like};
      r := film;
    }

    /** deleteLikeFilm: the film must exist, and so must the like row,
        which is then deleted; a missing like is an
        IncorrectParameterException. */
    method DeleteLikeFilm(id: int, userId: int) returns (r: Outcome)
      requires Valid()
      modifies this`filmLike
      ensures Valid()
      ensures id !in films ==> r == Fail(ObjectNotFound(FilmEntity, id))
      ensures id in films && (userId, id) !in old(filmLike) ==> r == Fail(IncorrectParameter(LikeNotFound))
      ensures r != Pass ==> filmLike == old(filmLike)
      ensures r == Pass <==> id in films && (userId, id) in old(filmLike)
      ensures r == Pass ==> filmLike == old(filmLike) - {(userId, id as Id)}
    {
      var film := FindById(id);
      if film.Failure? {
        return Fail(film.error);
      }
      var like := (userId, id as Id);
      if like !in filmLike {
        return Fail(IncorrectParameter(LikeNotFound));
      }
      filmLike := filmLike - {like};
      r := Pass;
    }

    /** The number of like rows of film `f`. */
    function LikeCount(f: Id): (n: nat)
      reads this
      ensures n > 0 <==> exists u :: (u, f) in filmLike
    {
      var rows := LikesOf(filmLike, f);
      assert (exists u :: (u, f) in filmLike) ==> (exists p :: p in rows);
      assert |rows| > 0 ==> (var p :| p in rows; (p.0, f) in filmLike);
      |rows|
    }

    /** The like count of every stored film, zero included (the LEFT JOIN). */
    function LikeCounts(): (r: map<Id, int>)
      reads this
      ensures r.Keys == films.Keys
      ensures forall f :: f in films ==> r[f] == LikeCount(f)
    {
      map f | f in films :: LikeCount(f)
    }

    /** The release day of every stored film. */
    function ReleaseDays(): (r: map<Id, int>)
      reads this
      ensures r.Keys == films.Keys
      ensures forall f :: f in films ==> r[f] == films[f].releaseDate
    {
      map f | f in films :: films[f].releaseDate
    }

    /** The ids getPopularFilm's query selects: the `count` stored films
        with the most likes, most liked first, films without likes
        included. Films with equal like counts come in no promised order. */
    function PopularIds(count: nat): (ids: seq<Id>)
      reads this
      ensures |ids| == if count < |films| then count else |films|
      ensures Distinct(ids) && forall f :: f in ids ==> f in films
      ensures RankDescending(ids, LikeCounts())
      ensures forall f, i :: f in films && f !in ids && 0 <= i < |ids| ==>
        LikeCount(f) <= LikeCount(ids[i])
    {
      var key := LikeCounts();
      var ids := TopOf(films.Keys, key, count);
      forall f, i | f in films && f !in ids && 0 <= i < |ids| ensures LikeCount(f) <= LikeCount(ids[i]) {
        assert ids[i] in ids;
        assert Rank(key, f) <= Rank(key, ids[i]);
      }
      ids
    }

    /** getPopularFilm: the ids of the popularity query, each read back
        with findById. A negative count is refused (the controller only
        passes positive ones). */
    function GetPopularFilm(count: int): (r: Result<seq<Film>>)
      reads this
      ensures r.Failure? <==> count < 0
      ensures r.Failure? ==> r.error == IllegalArgument
      ensures r.Success? ==> |r.value| == |PopularIds(count)|
      ensures r.Success? ==> forall i :: 0 <= i < |r.value| ==>
        r.value[i].id == PopularIds(count)[i] && r.value[i] == FindById(r.value[i].id).value
    {
      if count < 0 then Failure(IllegalArgument)
      else
        var ids := PopularIds(count);
        Success(Views(ids, None))
    }

    /** The ids getCommonFilms lists: the stored films both users like,
        each once, most liked first. */
    function CommonFilmIds(userId: int, friendId: int): (ids: seq<Id>)
      reads this
      ensures Distinct(ids)
      ensures forall f :: f in ids <==> f in films && (userId, f) in filmLike && (friendId, f) in filmLike
      ensures RankDescending(ids, LikeCounts())
    {
      var common := set f | f in films && (userId, f) in filmLike && (friendId, f) in filmLike;
      var ids := SortDesc(Ascending(common), LikeCounts());
      SortDescOrdered(Ascending(common), LikeCounts());
      ids
    }

    /** getCommonFilms: the films both users like, most liked first, an
        empty list when there are none. */
    function GetCommonFilms(userId: int, friendId: int): (r: seq<Film>)
      reads this
      ensures |r| == |CommonFilmIds(userId, friendId)|
      ensures forall i :: 0 <= i < |r| ==>
        r[i].id == CommonFilmIds(userId, friendId)[i] && r[i] == View(CommonFilmIds(userId, friendId)[i], None)
    {
      Views(CommonFilmIds(userId, friendId), None)
    }

    /** The stored films linked to director `directorId`. */
    function DirectedBy(directorId: int): (r: set<Id>)
      reads this
      ensures forall f :: f in r <==> f in films && (f, directorId) in filmDirector
    {
      set f | f in films && (f, directorId) in filmDirector
    }

    /** The ids findAllFilmsByDirectorIdSortByLikes lists: the director's
        films, each once, most liked first; none for an unknown director. */
    function DirectorIdsByLikes(directorId: int): (ids: seq<Id>)
      reads this
      ensures Distinct(ids)
      ensures forall f :: f in ids <==> f in DirectedBy(directorId)
      ensures RankDescending(ids, LikeCounts())
    {
      var ids := SortDesc(Ascending(DirectedBy(directorId)), LikeCounts());
      SortDescOrdered(Ascending(DirectedBy(directorId)), LikeCounts());
      ids
    }

    /** findAllFilmsByDirectorIdSortByLikes: the director's films, most liked
        first, each showing only that director. */
    function FindAllFilmsByDirectorIdSortByLikes(directorId: int): (r: seq<Film>)
      reads this
      ensures |r| == |DirectorIdsByLikes(directorId)|
      ensures forall i :: 0 <= i < |r| ==>
        r[i].id == DirectorIdsByLikes(directorId)[i] && r[i] == View(DirectorIdsByLikes(directorId)[i], Some(directorId))
    {
      Views(DirectorIdsByLikes(directorId), Some(directorId))
    }

    /** The ids findAllFilmsByDirectorIdSortByYear lists: the director's
        films, each once, latest release first, films released the same day
        by ascending id. */
    function DirectorIdsByYear(directorId: int): (ids: seq<Id>)
      reads this
      ensures Distinct(ids)
      ensures forall f :: f in ids <==> f in DirectedBy(directorId)
      ensures forall i, j :: 0 <= i < j < |ids| ==>
        films[ids[i]].releaseDate > films[ids[j]].releaseDate ||
        (films[ids[i]].releaseDate == films[ids[j]].releaseDate && ids[i] < ids[j])
    {
      var key := ReleaseDays();
      var ids := SortDesc(Ascending(DirectedBy(directorId)), key);
      SortDescOrdered(Ascending(DirectedBy(directorId)), key);
      forall i, j | 0 <= i < j < |ids|
        ensures films[ids[i]].releaseDate > films[ids[j]].releaseDate ||
          (films[ids[i]].releaseDate == films[ids[j]].releaseDate && ids[i] < ids[j])
      {
        assert ids[i] in ids && ids[j] in ids;
        assert Rank(key, ids[i]) >= Rank(key, ids[j]);
      }
      ids
    }

    /** findAllFilmsByDirectorIdSortByYear: the director's films, latest
        first, each showing only that director. */
    function FindAllFilmsByDirectorIdSortByYear(directorId: int): (r: seq<Film>)
      reads this
      ensures |r| == |DirectorIdsByYear(directorId)|
      ensures forall i :: 0 <= i < |r| ==>
        r[i].id == DirectorIdsByYear(directorId)[i] && r[i] == View(DirectorIdsByYear(directorId)[i], Some(directorId))
    {
      Views(DirectorIdsByYear(directorId), Some(directorId))
    }
  }
}

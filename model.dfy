/** The records the storages keep and hand out: users and films, with the
    rating, genre and director values a film refers to (model/User.java,
    model/Film.java). Strings a client may leave out are `Option`s. */
module Model {
  import opened Common

  /** A user. `friends` holds the ids of the users this one has befriended;
      only the in-memory storage fills it. */
  datatype User = User(
    id: int,
    email: Option<string>,
    login: string,
    name: Option<string>,
    birthday: Date,
    friends: set<Id>)

  /** An MPA rating, a genre and a director: an id and, when known, a title. */
  datatype Rating = Rating(id: int, name: Option<string>)
  datatype Genre = Genre(id: int, name: Option<string>)
  datatype Director = Director(id: int, name: Option<string>)

  /** A film. `genres` and `directors` are sets in the source; each
      sequence stands for the iteration order of the set the caller
      supplied, which decides, for instance, which unknown genre is
      reported first. `likes` holds the ids of the users who like the film
      and is kept only by the in-memory storage. */
  datatype Film = Film(
    id: int,
    name: Option<string>,
    description: Option<string>,
    releaseDate: Date,
    duration: int,
    mpa: Option<Rating>,
    genres: seq<Genre>,
    directors: seq<Director>,
    likes: set<Id>)

  /** `user` with a null or blank name replaced by the login, as both user
      storages do before storing a new user. */
  function WithDefaultName(user: User): (r: User)
    ensures r.name == if Present(user.name) then user.name else Some(user.login)
    ensures r == user.(name := r.name)
  {
    if Present(user.name) then user else user.(name := Some(user.login))
  }

  /** The first field check a film fails, in the order checkFieldsFilm
      runs them: duration, then name, then release date. */
  function FieldProblem(film: Film): (r: Option<Problem>)
    ensures r == None <==> film.duration > 0 && Present(film.name) && ReleaseDateFloor <= film.releaseDate
    ensures r.Some? ==> r.value == NonPositiveDuration || r.value == BlankName || r.value == ReleaseTooEarly
    ensures film.duration <= 0 ==> r == Some(NonPositiveDuration)
    ensures film.duration > 0 && !Present(film.name) ==> r == Some(BlankName)
  {
    if film.duration <= 0 then Some(NonPositiveDuration)
    else if !Present(film.name) then Some(BlankName)
    else if film.releaseDate < ReleaseDateFloor then Some(ReleaseTooEarly)
    else None
  }
}

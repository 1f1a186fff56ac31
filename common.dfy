/** Shared vocabulary of the Filmorate storages: failure-carrying results,
    the exceptions the storages throw, calendar dates and the handful of
    java.lang.String operations the validations rely on. */
module Common {

  /** A record id. The storages generate ids from 1 upwards, so every
      stored id is a natural number. */
  type Id = nat

  datatype Option<+T> = None | Some(value: T)

  /** The value of a storage call, or the exception it throws. */
  datatype Result<+T> = Success(value: T) | Failure(error: Error)

  /** The values of `m` under the given ids, in that order: what a loop of
      map lookups over the ids collects. */
  function ValuesAt<T>(m: map<Id, T>, ids: seq<Id>): (r: seq<T>)
    requires forall i :: 0 <= i < |ids| ==> ids[i] in m
    ensures |r| == |ids| && forall i :: 0 <= i < |ids| ==> r[i] == m[ids[i]]
  {
    seq(|ids|, i requires 0 <= i < |ids| => m[ids[i]])
  }

  /** The outcome of a storage call that returns nothing (a Java void method). */
  datatype Outcome = Pass | Fail(error: Error)

  /** What an IncorrectParameterException complains about (its message). */
  datatype Problem =
    | BadId               // "Id ... указан некорректно" / "должен быть указан"
    | NonPositiveDuration // the duration of a film must be positive
    | BlankName           // the name of a film must not be empty
    | ReleaseTooEarly     // the release date is before 28 December 1895
    | MissingRating       // a film needs an MPA rating
    | BadEmail            // the email is empty or has no '@'
    | EmailTaken          // another user already has this email
    | SelfFriendship      // a user cannot befriend themself
    | AlreadyFriends      // the friendship row already exists
    | UnknownId           // nothing to delete under this id
    | LikeNotFound        // no like to remove

  /** The kinds of record an ObjectNotFoundException can be about. */
  datatype Entity = UserEntity | FilmEntity | GenreEntity | RatingEntity

  /** One constructor per exception the storages throw. */
  datatype Error =
    | IncorrectParameter(problem: Problem)    // IncorrectParameterException
    | InvalidEmail                            // InvalidEmailException
    | UserAlreadyExist                        // UserAlreadyExistException
    | UserNotFound(userId: int)               // UserNotFoundException
    | ObjectNotFound(entity: Entity, id: int) // ObjectNotFoundException
    | IllegalArgument                         // IllegalArgumentException (a negative row limit)
    | NullReference                           // NullPointerException

  /** A java.time.LocalDate as its day number: days since 1970-01-01,
      which is what LocalDate.toEpochDay gives. Day numbers compare as
      the dates do, so LocalDate.isBefore is `<`. */
  type Date = int

  /** 28 December 1895, the earliest release date a film may have. */
  const ReleaseDateFloor: Date := -27032

  /** Character.isWhitespace: the Unicode space, line and paragraph
      separators except the non-breaking ones, and the controls
      U+0009..U+000D and U+001C..U+001F. */
  predicate IsWhitespace(c: char) {
    var n := c as int;
    || (0x09 <= n <= 0x0D)
    || (0x1C <= n <= 0x20)
    || n == 0x1680
    || (0x2000 <= n <= 0x2006)
    || (0x2008 <= n <= 0x200A)
    || n == 0x2028 || n == 0x2029 || n == 0x205F || n == 0x3000
  }

  /** String.isBlank: empty, or whitespace only. */
  predicate IsBlank(s: string) {
    forall i :: 0 <= i < |s| ==> IsWhitespace(s[i])
  }

  /** A String that is neither null nor blank. */
  predicate Present(s: Option<string>) {
    s.Some? && !IsBlank(s.value)
  }

  /** String.contains for a one-character string. */
  predicate Contains(s: string, c: char) {
    exists i :: 0 <= i < |s| && s[i] == c
  }

  /** Case folding of the ASCII letters. */
  function FoldCase(c: char): char {
    if 'A' <= c <= 'Z' then (c as int + 32) as char else c
  }

  /** String.equalsIgnoreCase, with case folding limited to ASCII letters. */
  predicate EqualsIgnoreCase(a: string, b: string) {
    |a| == |b| && forall i :: 0 <= i < |a| ==> FoldCase(a[i]) == FoldCase(b[i])
  }
}

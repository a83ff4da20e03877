/** The records the stores hold: users and films. */
module Model {
  import opened Wrappers
  import opened Dates

  /** A user. `name` is None where the source's field is null; `friends`
      holds the ids of the user's friends. */
  datatype User = User(
    id: int,
    email: string,
    login: string,
    name: Option<string>,
    birthday: Date,
    friends: set<int>)

  /** A film. The like count is not a field: it is derived from `likedUsers`,
      the ids of the users who liked the film. `duration` is in seconds. */
  datatype Film = Film(
    id: int,
    name: string,
    description: string,
    releaseDate: Date,
    duration: int,
    likedUsers: set<int>)

  /** Film.getLikes: the number of distinct users who liked the film. */
  function Likes(f: Film): (r: nat)
    ensures r == 0 <==> f.likedUsers == {}
  {
    |f.likedUsers|
  }

  /** The film the builder makes: id 0 (the int default), nobody has liked it. */
  function Build(name: string, description: string, releaseDate: Date, duration: int): (f: Film)
    ensures f.likedUsers == {} && Likes(f) == 0
    ensures f.id == 0 && f.name == name && f.description == description
    ensures f.releaseDate == releaseDate && f.duration == duration
  {
    Film(0, name, description, releaseDate, duration, {})
  }

  /** Java's String.length(): characters outside the Basic Multilingual
      Plane take two UTF-16 code units. */
  function Utf16Length(s: string): (n: nat)
    ensures |s| <= n <= 2 * |s|
    ensures n == 0 <==> s == []
  {
    if s == [] then 0
    else (if s[0] as int > 0xFFFF then 2 else 1) + Utf16Length(s[1..])
  }

  /** On text inside the Basic Multilingual Plane, Java's length is the number of characters. */
  lemma {:induction false} Utf16LengthBmp(s: string)
    requires forall i :: 0 <= i < |s| ==> s[i] as int <= 0xFFFF
    ensures Utf16Length(s) == |s|
  {
    if s != [] {
      Utf16LengthBmp(s[1..]);
    }
  }

  const NameMessage := "name can not be empty or null"
  const DescriptionMessage := "max description size is 200"
  const DurationMessage := "select positive duration in seconds only"

  /** The field constraints of a film: a name that is not empty, a
      description of at most 200 UTF-16 code units, a positive duration. */
  predicate Valid(f: Film)
  {
    f.name != [] && Utf16Length(f.description) <= 200 && f.duration > 0
  }

  /** The messages of the bean-validation constraints a film breaks:
      a name that is empty, a description longer than 200 UTF-16 code units,
      a duration that is not positive. */
  function Violations(f: Film): (r: set<string>)
    ensures r <= {NameMessage, DescriptionMessage, DurationMessage}
    ensures r == {} <==> Valid(f)
    ensures NameMessage in r <==> f.name == []
    ensures DescriptionMessage in r <==> Utf16Length(f.description) > 200
    ensures DurationMessage in r <==> f.duration <= 0
  {
    (if f.name == [] then {NameMessage} else {})
    + (if Utf16Length(f.description) > 200 then {DescriptionMessage} else {})
    + (if f.duration <= 0 then {DurationMessage} else {})
  }


  /** An empty name, a 201-character description and a negative duration are
      each reported. */
  lemma AllThreeViolations(description: string, releaseDate: Date)
    requires |description| == 201
    requires forall i :: 0 <= i < |description| ==> 'a' <= description[i] <= 'z'
    ensures Violations(Build("", description, releaseDate, -2)) == {NameMessage, DescriptionMessage, DurationMessage}
  {
    Utf16LengthBmp(description);
  }
}

/** The `User` entity of `valutatrade_hub/core/models.py`: username and
    password rules, salted password hashing, verification and the record
    that is stored for a user. SHA-256 is the parameter `sha256`, applied to
    the password followed by the salt; a fresh random salt is the parameter
    `freshSalt`; dates are integers. */
module Models {
  import opened Text
  import opened Errors

  /** `to_dict`: everything stored for a user. */
  datatype UserRecord = UserRecord(
    userId: int,
    username: string,
    hashedPassword: string,
    salt: string,
    registrationDate: int)

  /** `get_user_info`: what may be shown of a user. */
  datatype UserInfo = UserInfo(userId: int, username: string, registrationDate: int)

  const MinUsernameLength := 3
  const MinPasswordLength := 4

  /** The password `from_dict` constructs a user with before it overwrites
      the hash with the stored one. */
  const PlaceholderPassword := "temp"

  /** The username setter: a blank value is refused, then a value shorter
      than three characters before stripping; otherwise the stripped value is
      kept. */
  function CheckUsername(value: string): (r: Result<string>)
    ensures IsBlank(value) ==> r == Err(EmptyUsername)
    ensures !IsBlank(value) && |value| < MinUsernameLength ==> r == Err(ShortUsername)
    ensures r.Ok? <==> !IsBlank(value) && |value| >= MinUsernameLength
    ensures r.Ok? ==> r.value != [] && Strip(r.value) == r.value && r.value == Strip(value)
  {
    StripEmptyIffBlank(value);
    StripIdempotent(value);
    if IsBlank(value) then Err(EmptyUsername)
    else if |value| < MinUsernameLength then Err(ShortUsername)
    else Ok(Strip(value))
  }

  /** `_hash_password`: refuses a password shorter than four characters,
      otherwise hashes the password followed by the salt. */
  function HashPassword(password: string, salt: string, sha256: string -> string): (r: Result<string>)
    ensures r.Err? <==> |password| < MinPasswordLength
    ensures r.Err? ==> r.error == ShortPassword
    ensures r.Ok? ==> r.value == sha256(password + salt)
  {
    if |password| < MinPasswordLength then Err(ShortPassword) else Ok(sha256(password + salt))
  }

  /** `verify_password` on a stored record: the hash of the password equals
      the stored hash; a short password is a mismatch, not an error. */
  predicate PasswordMatches(rec: UserRecord, password: string, sha256: string -> string) {
    var h := HashPassword(password, rec.salt, sha256);
    h.Ok? && h.value == rec.hashedPassword
  }

  /** `get_user_info` on a stored record. */
  function InfoOf(rec: UserRecord): UserInfo {
    UserInfo(rec.userId, rec.username, rec.registrationDate)
  }

  /** What the user constructor stores, or the first error it raises: the
      username, then the salt (an empty one is replaced by `freshSalt`), then
      the password, then the date (`now` when none is given). */
  function Created(userId: int, username: string, password: string, salt: string,
                   freshSalt: string, date: Option<int>, now: int, sha256: string -> string): (r: Result<UserRecord>)
    ensures CheckUsername(username).Err? ==> r == Err(CheckUsername(username).error)
    ensures CheckUsername(username).Ok? && |password| < MinPasswordLength ==> r == Err(ShortPassword)
    ensures r.Ok? <==> CheckUsername(username).Ok? && |password| >= MinPasswordLength
    ensures r.Ok? ==>
      && r.value.userId == userId
      && r.value.username == Strip(username)
      && r.value.salt == (if salt != "" then salt else freshSalt)
      && r.value.registrationDate == (if date.Some? then date.value else now)
      && PasswordMatches(r.value, password, sha256)
  {
    match CheckUsername(username)
    case Err(e) => Err(e)
    case Ok(name) =>
      var s := if salt != "" then salt else freshSalt;
      match HashPassword(password, s, sha256)
      case Err(e) => Err(e)
      case Ok(h) =>
        Ok(UserRecord(userId, name, h, s, if date.Some? then date.value else now))
  }

  /** What `from_dict` rebuilds from a stored record: a user constructed
      with the stored fields and a placeholder password, whose hash is then
      replaced by the stored hash. */
  function Loaded(data: UserRecord, freshSalt: string, sha256: string -> string): (r: Result<UserRecord>)
    ensures r.Ok? <==> CheckUsername(data.username).Ok?
    ensures r.Err? ==> r.error == CheckUsername(data.username).error
    ensures r.Ok? ==>
      && r.value.userId == data.userId
      && r.value.hashedPassword == data.hashedPassword
      && r.value.registrationDate == data.registrationDate
      && r.value.username == Strip(data.username)
      && (data.salt != "" ==> r.value.salt == data.salt)
  {
    match Created(data.userId, data.username, PlaceholderPassword, data.salt, freshSalt,
                  Some(data.registrationDate), data.registrationDate, sha256)
    case Err(e) => Err(e)
    case Ok(rec) => Ok(rec.(hashedPassword := data.hashedPassword))
  }

  /** A record as the user constructor leaves it: a stripped, non-empty
      username and a non-empty salt. */
  predicate WellFormed(rec: UserRecord) {
    rec.username != [] && Strip(rec.username) == rec.username && rec.salt != ""
  }

  /** A freshly created user accepts the password it was created with. */
  lemma CreatedAcceptsPassword(userId: int, username: string, password: string, salt: string,
                               freshSalt: string, date: Option<int>, now: int, sha256: string -> string)
    requires Created(userId, username, password, salt, freshSalt, date, now, sha256).Ok?
    ensures PasswordMatches(Created(userId, username, password, salt, freshSalt, date, now, sha256).value, password, sha256)
    ensures freshSalt != "" ==> WellFormed(Created(userId, username, password, salt, freshSalt, date, now, sha256).value)
  {
  }

  /** `from_dict(to_dict(u))` gives `u` back, whenever the stored username
      is at least three characters long. */
  lemma {:induction false} LoadRoundTrip(rec: UserRecord, freshSalt: string, sha256: string -> string)
    requires WellFormed(rec) && |rec.username| >= MinUsernameLength
    ensures Loaded(rec, freshSalt, sha256) == Ok(rec)
  {
    assert !IsSpace(rec.username[0]);
    assert !IsBlank(rec.username);
  }

  /** The setter measures the length before stripping, so a value such as
      `"  a"` is accepted and stored as `"a"`; such a record can no longer be
      loaded. */
  lemma ShortStrippedNameNotReloadable(value: string, rec: UserRecord, freshSalt: string, sha256: string -> string)
    requires CheckUsername(value).Ok? && |Strip(value)| < MinUsernameLength
    requires rec.username == CheckUsername(value).value
    ensures Loaded(rec, freshSalt, sha256) == Err(ShortUsername)
  {
    var name := rec.username;
    assert !IsSpace(name[0]);
    assert !IsBlank(name);
    assert CheckUsername(name) == Err(ShortUsername);
  }

  /** The stripping setter does accept a name that strips to one character. */
  lemma PaddedNameAccepted()
    ensures CheckUsername("  a") == Ok("a")
  {
    assert !IsBlank("  a") by { assert !IsSpace("  a"[2]); }
    assert TrimStart("  a") == "a" by {
      assert "  a"[1..] == " a";
      assert " a"[1..] == "a";
    }
  }

  class User {
    const userId: int
    var username: string
    const salt: string
    var hashedPassword: string
    const registrationDate: int

    ghost predicate Valid()
      reads this
    {
      WellFormed(ToDict())
    }

    /** Stores a record that the checks of `NewUser` have already produced. */
    constructor (rec: UserRecord)
      ensures ToDict() == rec
    {
      userId := rec.userId;
      username := rec.username;
      salt := rec.salt;
      hashedPassword := rec.hashedPassword;
      registrationDate := rec.registrationDate;
    }

    /** `to_dict`. */
    function ToDict(): UserRecord
      reads this
    {
      UserRecord(userId, username, hashedPassword, salt, registrationDate)
    }

    /** `get_user_info`: the id, the name and the date, never the hash or
        the salt, which therefore cannot influence it. */
    function GetUserInfo(): (info: UserInfo)
      reads this
      ensures info == InfoOf(ToDict())
      ensures forall other: UserRecord {:trigger InfoOf(other)} ::
        other.userId == userId && other.username == username && other.registrationDate == registrationDate
        ==> InfoOf(other) == info
    {
      UserInfo(userId, username, registrationDate)
    }

    /** `verify_password`. */
    function VerifyPassword(password: string, sha256: string -> string): (ok: bool)
      reads this
      ensures ok <==> PasswordMatches(ToDict(), password, sha256)
      ensures |password| < MinPasswordLength ==> !ok
    {
      var h := HashPassword(password, salt, sha256);
      h.Ok? && h.value == hashedPassword
    }

    /** The username setter. */
    method SetUsername(value: string) returns (e: Option<Error>)
      modifies this`username
      ensures CheckUsername(value).Err? ==> e == Some(CheckUsername(value).error) && username == old(username)
      ensures CheckUsername(value).Ok? ==> e == None && username == CheckUsername(value).value
    {
      match CheckUsername(value)
      case Err(err) =>
        e := Some(err);
      case Ok(name) =>
        username := name;
        e := None;
    }

    /** `change_password`: a short password is refused and nothing changes;
        otherwise the stored hash becomes the hash of the new password, which
        from then on is the one that verifies. */
    method ChangePassword(newPassword: string, sha256: string -> string) returns (e: Option<Error>)
      modifies this`hashedPassword
      ensures |newPassword| < MinPasswordLength ==> e == Some(ShortPassword) && hashedPassword == old(hashedPassword)
      ensures |newPassword| >= MinPasswordLength ==>
        e == None && hashedPassword == sha256(newPassword + salt) && VerifyPassword(newPassword, sha256)
    {
      if |newPassword| < MinPasswordLength {
        return Some(ShortPassword);
      }
      hashedPassword := HashPassword(newPassword, salt, sha256).value;
      e := None;
    }
  }

  /** The `User` constructor, which raises on a bad username or password. */
  method NewUser(userId: int, username: string, password: string, salt: string,
                 freshSalt: string, date: Option<int>, now: int, sha256: string -> string)
    returns (r: Result<User>)
    requires freshSalt != ""
    ensures r.Err? <==> Created(userId, username, password, salt, freshSalt, date, now, sha256).Err?
    ensures r.Err? ==> r.error == Created(userId, username, password, salt, freshSalt, date, now, sha256).error
    ensures r.Ok? ==>
      && fresh(r.value)
      && r.value.ToDict() == Created(userId, username, password, salt, freshSalt, date, now, sha256).value
      && r.value.Valid()
      && r.value.VerifyPassword(password, sha256)
  {
    var c := Created(userId, username, password, salt, freshSalt, date, now, sha256);
    if c.Err? {
      return Err(c.error);
    }
    var u := new User(c.value);
    return Ok(u);
  }

  /** `from_dict`: builds the user with a placeholder password, then puts
      the stored hash in place. */
  method FromDict(data: UserRecord, freshSalt: string, sha256: string -> string) returns (r: Result<User>)
    requires freshSalt != ""
    ensures r.Err? <==> Loaded(data, freshSalt, sha256).Err?
    ensures r.Err? ==> r.error == Loaded(data, freshSalt, sha256).error
    ensures r.Ok? ==> fresh(r.value) && r.value.ToDict() == Loaded(data, freshSalt, sha256).value && r.value.Valid()
  {
    ghost var c := Created(data.userId, data.username, PlaceholderPassword, data.salt, freshSalt,
                           Some(data.registrationDate), data.registrationDate, sha256);
    assert c.Err? ==> Loaded(data, freshSalt, sha256) == Err(c.error);
    assert c.Ok? ==> Loaded(data, freshSalt, sha256) == Ok(c.value.(hashedPassword := data.hashedPassword));
    var made := NewUser(data.userId, data.username, PlaceholderPassword, data.salt, freshSalt,
                        Some(data.registrationDate), data.registrationDate, sha256);
    if made.Err? {
      return Err(made.error);
    }
    var user := made.value;
    user.hashedPassword := data.hashedPassword;
    assert user.ToDict() == c.value.(hashedPassword := data.hashedPassword);
    return Ok(user);
  }
}

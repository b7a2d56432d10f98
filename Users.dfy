/** `UserManager` of `valutatrade_hub/core/usecases.py`: the stored user
    records and portfolio entries, held in memory instead of the two JSON
    files, with registration, authentication and portfolio load and save. */
module Users {
  import opened Text
  import opened Errors
  import opened Models
  import opened Portfolios

  /** The id `register_user` gives the next user: one more than the largest
      id in use, or 1 when there are no users. */
  function NextId(users: seq<UserRecord>): (id: int)
    ensures users == [] ==> id == 1
    ensures forall i :: 0 <= i < |users| ==> users[i].userId < id
    ensures users != [] ==> exists i :: 0 <= i < |users| && users[i].userId == id - 1
    decreases |users|
  {
    if |users| == 0 then 1
    else
      var rest := NextId(users[1..]);
      assert forall i :: 1 <= i < |users| ==> users[i] == users[1..][i - 1];
      if |users| == 1 || users[0].userId >= rest then users[0].userId + 1 else rest
  }

  /** The position of the first stored record with this exact username. */
  function FirstIndex(users: seq<UserRecord>, name: string): (r: Option<nat>)
    ensures r.Some? ==> r.value < |users| && users[r.value].username == name
    ensures r.Some? ==> forall j :: 0 <= j < r.value ==> users[j].username != name
    ensures r.None? ==> forall j :: 0 <= j < |users| ==> users[j].username != name
    decreases |users|
  {
    if |users| == 0 then None
    else if users[0].username == name then Some(0)
    else
      match FirstIndex(users[1..], name)
      case None => None
      case Some(i) => Some(i + 1)
  }

  predicate NameTaken(users: seq<UserRecord>, name: string) {
    exists i :: 0 <= i < |users| && users[i].username == name
  }

  /** `authenticate_user` on the stored records: both fields are required;
      the first record with exactly this username is rebuilt and must accept
      the password; no such record means the user is not found. */
  function Authentication(users: seq<UserRecord>, username: string, password: string,
                          freshSalt: string, sha256: string -> string): (r: Result<UserRecord>)
    ensures username == "" || password == "" ==> r == Err(MissingCredentials)
    ensures username != "" && password != "" && !NameTaken(users, username) ==> r == Err(UserNotFound(username))
    ensures r.Ok? ==> NameTaken(users, username) && PasswordMatches(r.value, password, sha256)
    ensures r.Ok? ==> r.value.userId == users[FirstIndex(users, username).value].userId
    ensures username != "" && password != "" && FirstIndex(users, username).Some? ==>
      var loaded := Loaded(users[FirstIndex(users, username).value], freshSalt, sha256);
      && (loaded.Err? ==> r == Err(loaded.error))
      && (loaded.Ok? ==> (r.Ok? <==> PasswordMatches(loaded.value, password, sha256)))
      && (loaded.Ok? && r.Ok? ==> r.value == loaded.value)
      && (loaded.Ok? && r.Err? ==> r.error == WrongPassword)
  {
    if username == "" || password == "" then Err(MissingCredentials)
    else
      match FirstIndex(users, username)
      case None => Err(UserNotFound(username))
      case Some(i) =>
        match Loaded(users[i], freshSalt, sha256)
        case Err(e) => Err(e)
        case Ok(rec) =>
          if PasswordMatches(rec, password, sha256) then Ok(rec) else Err(WrongPassword)
  }

  /** The portfolio entries after `get_user_portfolio(userId)`: an entry that
      is missing is created empty. */
  function WithEntry(portfolios: map<int, seq<Wallet>>, userId: int): (p: map<int, seq<Wallet>>)
    ensures userId in p && p.Keys == portfolios.Keys + {userId}
    ensures userId in portfolios ==> p == portfolios
    ensures userId !in portfolios ==> p[userId] == []
    ensures forall k :: k in portfolios ==> k in p && p[k] == portfolios[k]
  {
    if userId in portfolios then portfolios else portfolios[userId := []]
  }

  /** The stored users as registration leaves them: distinct usernames, ids
      increasing in registration order, valid records, each with a portfolio
      entry. */
  ghost predicate ValidStore(users: seq<UserRecord>, portfolios: map<int, seq<Wallet>>) {
    DistinctNames(users) && IncreasingIds(users) && HasEntries(users, portfolios) && RecordsValid(users)
  }

  ghost predicate DistinctNames(users: seq<UserRecord>) {
    forall i, j :: 0 <= i < j < |users| ==> users[i].username != users[j].username
  }

  ghost predicate IncreasingIds(users: seq<UserRecord>) {
    forall i, j :: 0 <= i < j < |users| ==> users[i].userId < users[j].userId
  }

  ghost predicate HasEntries(users: seq<UserRecord>, portfolios: map<int, seq<Wallet>>) {
    forall i :: 0 <= i < |users| ==> users[i].userId in portfolios
  }

  ghost predicate RecordsValid(users: seq<UserRecord>) {
    forall i :: 0 <= i < |users| ==> WellFormed(users[i]) && |users[i].username| >= MinUsernameLength
  }

  /** A user added as registration adds one can log in straight away with
      the password they registered. */
  lemma {:induction false} RegisteredCanAuthenticate(users: seq<UserRecord>, rec: UserRecord, password: string,
                                                     freshSalt: string, sha256: string -> string)
    requires !NameTaken(users, rec.username)
    requires WellFormed(rec) && |rec.username| >= MinUsernameLength
    requires PasswordMatches(rec, password, sha256)
    ensures Authentication(users + [rec], rec.username, password, freshSalt, sha256) == Ok(rec)
  {
    FirstIndexAfterAppend(users, rec);
    LoadRoundTrip(rec, freshSalt, sha256);
  }

  lemma {:induction false} FirstIndexAfterAppend(users: seq<UserRecord>, rec: UserRecord)
    requires !NameTaken(users, rec.username)
    ensures FirstIndex(users + [rec], rec.username) == Some(|users|)
    decreases |users|
  {
    if |users| > 0 {
      assert (users + [rec])[1..] == users[1..] + [rec];
      assert !NameTaken(users[1..], rec.username) by {
        forall i | 0 <= i < |users[1..]|
          ensures users[1..][i].username != rec.username
        {
          assert users[1..][i] == users[i + 1];
        }
      }
      FirstIndexAfterAppend(users[1..], rec);
    }
  }

  /** Login does not strip: a name typed with a leading space finds nobody,
      since every stored name is stripped. */
  lemma PaddedLoginNotFound(users: seq<UserRecord>, portfolios: map<int, seq<Wallet>>, username: string,
                            password: string, freshSalt: string, sha256: string -> string)
    requires ValidStore(users, portfolios)
    requires username != "" && password != "" && IsSpace(username[0])
    ensures Authentication(users, username, password, freshSalt, sha256) == Err(UserNotFound(username))
  {
    forall i | 0 <= i < |users|
      ensures users[i].username != username
    {
      assert WellFormed(users[i]);
      assert !IsSpace(Strip(users[i].username)[0]);
    }
  }

  class UserManager {
    var users: seq<UserRecord>
    var portfolios: map<int, seq<Wallet>>

    ghost predicate Valid()
      reads this
    {
      ValidStore(users, portfolios)
    }

    /** A manager whose data files were just created: no users, no
        portfolios. */
    constructor ()
      ensures Valid() && users == [] && portfolios == map[]
    {
      users := [];
      portfolios := map[];
    }

    /** `max(user_id) + 1`, or 1 when there are no users. */
    method NextUserId() returns (id: int)
      ensures id == NextId(users)
    {
      if |users| == 0 {
        return 1;
      }
      var top := users[0].userId;
      var i := 1;
      while i < |users|
        invariant 1 <= i <= |users|
        invariant forall j :: 0 <= j < i ==> users[j].userId <= top
        invariant exists j :: 0 <= j < i && users[j].userId == top
      {
        if users[i].userId > top {
          top := users[i].userId;
        }
        i := i + 1;
      }
      id := top + 1;
      var next := NextId(users);
      assert exists j :: 0 <= j < |users| && users[j].userId == next - 1;
    }

    /** The uniqueness scan of `register_user`. */
    method IsNameTaken(name: string) returns (taken: bool)
      ensures taken <==> NameTaken(users, name)
    {
      var i := 0;
      while i < |users|
        invariant 0 <= i <= |users|
        invariant forall j :: 0 <= j < i ==> users[j].username != name
      {
        if users[i].username == name {
          return true;
        }
        i := i + 1;
      }
      return false;
    }

    /** The lookup scan of `authenticate_user`: the first record with this
        username. */
    method FindUser(name: string) returns (index: Option<nat>)
      ensures index == FirstIndex(users, name)
    {
      var i := 0;
      while i < |users|
        invariant 0 <= i <= |users|
        invariant forall j :: 0 <= j < i ==> users[j].username != name
      {
        if users[i].username == name {
          FirstIndexIsFirst(users, name, i);
          return Some(i);
        }
        i := i + 1;
      }
      FirstIndexIsFirst(users, name, |users|);
      return None;
    }

    /** `register_user`: a blank username, then a short password, then a
        taken (stripped) username are refused; otherwise the user gets the
        next id, is stored, and gets an empty portfolio entry. The user
        constructor's own checks run on the stripped name, so a name that
        strips below three characters is refused there, before anything is
        stored. */
    method RegisterUser(username: string, password: string, freshSalt: string, now: int,
                        sha256: string -> string) returns (r: Result<User>)
      requires Valid() && freshSalt != ""
      modifies this
      ensures Valid()
      ensures IsBlank(username) ==> r == Err(EmptyUsername)
      ensures !IsBlank(username) && |password| < MinPasswordLength ==> r == Err(ShortPassword)
      ensures !IsBlank(username) && |password| >= MinPasswordLength && NameTaken(old(users), Strip(username)) ==>
        r == Err(UsernameTaken(Strip(username)))
      ensures (!IsBlank(username) && |password| >= MinPasswordLength && !NameTaken(old(users), Strip(username))
               && |Strip(username)| < MinUsernameLength) ==> r == Err(ShortUsername)
      ensures r.Ok? <==> (!IsBlank(username) && |password| >= MinPasswordLength
                          && !NameTaken(old(users), Strip(username)) && |Strip(username)| >= MinUsernameLength)
      ensures r.Err? ==> users == old(users) && portfolios == old(portfolios)
      ensures r.Ok? ==>
        && fresh(r.value)
        && r.value.userId == NextId(old(users))
        && r.value.username == Strip(username)
        && r.value.VerifyPassword(password, sha256)
        && r.value.ToDict() == UserRecord(NextId(old(users)), Strip(username), sha256(password + freshSalt), freshSalt, now)
        && users == old(users) + [r.value.ToDict()]
        && portfolios == old(portfolios)[r.value.userId := []]
    {
      StripEmptyIffBlank(username);
      if IsBlank(username) {
        return Err(EmptyUsername);
      }
      if |password| < MinPasswordLength {
        return Err(ShortPassword);
      }
      var name := Strip(username);
      var taken := IsNameTaken(name);
      if taken {
        return Err(UsernameTaken(name));
      }
      var id := NextUserId();
      RegistrationRecord(id, username, password, freshSalt, now, sha256);
      var made := NewUser(id, name, password, "", freshSalt, None, now, sha256);
      if made.Err? {
        return Err(made.error);
      }
      var user := made.value;
      var rec := user.ToDict();
      AppendKeepsStore(users, portfolios, rec);
      users := users + [rec];
      portfolios := portfolios[id := []];
      return Ok(user);
    }

    /** `authenticate_user`. */
    method AuthenticateUser(username: string, password: string, freshSalt: string,
                            sha256: string -> string) returns (r: Result<User>)
      requires freshSalt != ""
      ensures r.Err? <==> Authentication(users, username, password, freshSalt, sha256).Err?
      ensures r.Err? ==> r.error == Authentication(users, username, password, freshSalt, sha256).error
      ensures r.Ok? ==> fresh(r.value) && r.value.ToDict() == Authentication(users, username, password, freshSalt, sha256).value
    {
      if username == "" || password == "" {
        return Err(MissingCredentials);
      }
      var index := FindUser(username);
      if index.None? {
        return Err(UserNotFound(username));
      }
      var loaded := FromDict(users[index.value], freshSalt, sha256);
      if loaded.Err? {
        return Err(loaded.error);
      }
      var user := loaded.value;
      var ok := user.VerifyPassword(password, sha256);
      if !ok {
        return Err(WrongPassword);
      }
      return Ok(user);
    }

    /** `get_user_portfolio`: the stored wallets, creating and saving an
        empty entry when there is none. */
    method GetUserPortfolio(userId: int) returns (p: Portfolio)
      requires Valid()
      modifies this`portfolios
      ensures Valid()
      ensures portfolios == WithEntry(old(portfolios), userId)
      ensures p == Portfolio(userId, portfolios[userId])
    {
      if userId !in portfolios {
        portfolios := portfolios[userId := []];
      }
      p := Portfolio(userId, portfolios[userId]);
    }

    /** `save_user_portfolio`: overwrites the entry of the portfolio's user. */
    method SaveUserPortfolio(p: Portfolio)
      requires Valid()
      modifies this`portfolios
      ensures Valid()
      ensures portfolios == old(portfolios)[p.userId := p.wallets]
    {
      portfolios := portfolios[p.userId := p.wallets];
    }
  }

  lemma {:induction false} FirstIndexIsFirst(users: seq<UserRecord>, name: string, i: nat)
    requires i <= |users|
    requires forall j :: 0 <= j < i ==> users[j].username != name
    requires i < |users| ==> users[i].username == name
    ensures i < |users| ==> FirstIndex(users, name) == Some(i)
    ensures i == |users| ==> FirstIndex(users, name) == None
    decreases i
  {
    if i > 0 {
      assert users[0].username != name;
      forall j | 0 <= j < i - 1
        ensures users[1..][j].username != name
      {
        assert users[1..][j] == users[j + 1];
      }
      FirstIndexIsFirst(users[1..], name, i - 1);
    }
  }

  /** What the user constructor makes of a registration that passed the
      blank-name and password checks: a record with the stripped name, the
      fresh salt and today's date when that name has at least three
      characters, a short-name error otherwise. */
  lemma RegistrationRecord(id: int, username: string, password: string, freshSalt: string, now: int,
                           sha256: string -> string)
    requires !IsBlank(username) && |password| >= MinPasswordLength && freshSalt != ""
    ensures var c := Created(id, Strip(username), password, "", freshSalt, None, now, sha256);
      && (c.Ok? <==> |Strip(username)| >= MinUsernameLength)
      && (c.Err? ==> c.error == ShortUsername)
      && (c.Ok? ==> c.value == UserRecord(id, Strip(username), sha256(password + freshSalt), freshSalt, now)
                    && WellFormed(c.value) && |c.value.username| >= MinUsernameLength)
  {
    StrippedNameAccepted(username);
    StripIdempotent(username);
    var name := Strip(username);
    if |name| >= MinUsernameLength {
      assert CheckUsername(name) == Ok(name);
      assert HashPassword(password, freshSalt, sha256) == Ok(sha256(password + freshSalt));
    } else {
      assert CheckUsername(name) == Err(ShortUsername);
    }
  }

  /** Stripping a non-blank name gives a name the username checks pass on
      exactly when it is at least three characters long. */
  lemma StrippedNameAccepted(username: string)
    requires !IsBlank(username)
    ensures CheckUsername(Strip(username)).Ok? <==> |Strip(username)| >= MinUsernameLength
    ensures CheckUsername(Strip(username)).Err? ==> CheckUsername(Strip(username)).error == ShortUsername
    ensures CheckUsername(Strip(username)).Ok? ==> CheckUsername(Strip(username)).value == Strip(username)
  {
    StripEmptyIffBlank(username);
    var name := Strip(username);
    StrippedNotBlank(name);
    StripIdempotent(username);
    if |name| >= MinUsernameLength {
      assert CheckUsername(name) == Ok(name);
    } else {
      assert CheckUsername(name) == Err(ShortUsername);
    }
  }

  /** A non-empty string that starts with a non-space is not blank. */
  lemma StrippedNotBlank(name: string)
    requires name != [] && !IsSpace(name[0])
    ensures !IsBlank(name)
  {
  }

  lemma AppendKeepsStore(users: seq<UserRecord>, portfolios: map<int, seq<Wallet>>, rec: UserRecord)
    requires ValidStore(users, portfolios)
    requires !NameTaken(users, rec.username)
    requires rec.userId == NextId(users)
    requires WellFormed(rec) && |rec.username| >= MinUsernameLength
    ensures ValidStore(users + [rec], portfolios[rec.userId := []])
  {
    AppendKeepsNamesDistinct(users, rec);
    AppendKeepsIdsIncreasing(users, rec);
    AppendKeepsEntries(users, portfolios, rec);
    AppendKeepsRecordsValid(users, rec);
  }

  lemma AppendKeepsNamesDistinct(users: seq<UserRecord>, rec: UserRecord)
    requires DistinctNames(users) && !NameTaken(users, rec.username)
    ensures DistinctNames(users + [rec])
  {
    var us := users + [rec];
    forall i, j | 0 <= i < j < |us|
      ensures us[i].username != us[j].username
    {
      assert us[i] == users[i];
      if j < |users| {
        assert us[j] == users[j];
      }
    }
  }

  lemma AppendKeepsIdsIncreasing(users: seq<UserRecord>, rec: UserRecord)
    requires IncreasingIds(users) && rec.userId == NextId(users)
    ensures IncreasingIds(users + [rec])
  {
    var us := users + [rec];
    forall i, j | 0 <= i < j < |us|
      ensures us[i].userId < us[j].userId
    {
      assert us[i] == users[i];
      if j < |users| {
        assert us[j] == users[j];
      }
    }
  }

  lemma AppendKeepsEntries(users: seq<UserRecord>, portfolios: map<int, seq<Wallet>>, rec: UserRecord)
    requires HasEntries(users, portfolios)
    ensures HasEntries(users + [rec], portfolios[rec.userId := []])
  {
    var us := users + [rec];
    forall i | 0 <= i < |us|
      ensures us[i].userId in portfolios[rec.userId := []]
    {
      if i < |users| {
        assert us[i] == users[i];
      }
    }
  }

  lemma AppendKeepsRecordsValid(users: seq<UserRecord>, rec: UserRecord)
    requires RecordsValid(users)
    requires WellFormed(rec) && |rec.username| >= MinUsernameLength
    ensures RecordsValid(users + [rec])
  {
    var us := users + [rec];
    forall i | 0 <= i < |us|
      ensures WellFormed(us[i]) && |us[i].username| >= MinUsernameLength
    {
      if i < |users| {
        assert us[i] == users[i];
      }
    }
  }
}

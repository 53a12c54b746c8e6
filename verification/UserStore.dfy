/** Registered users in memory mode. */
module UserStore {
  import opened Wrappers
  import opened Passwords

  datatype UserRecord = UserRecord(id: nat, username: string, passwordHash: string)

  datatype Users = Users(byUsername: map<string, UserRecord>, usernamesById: map<nat, string>, nextId: nat) {
    function FindByUsername(username: string): Option<UserRecord> {
      if username in byUsername then Some(byUsername[username]) else None
    }

    function FindById(id: nat): Option<UserRecord> {
      if id in usernamesById then FindByUsername(usernamesById[id]) else None
    }

    /** `hash` is what hashing the password gave, empty when it failed. */
    function Register(username: string, password: string, hash: string): (Users, Result<nat, string>) {
      if username == "" || password == "" then (this, Err("username and password are required"))
      else if |username| > MAX_USERNAME then (this, Err("username too long"))
      else if username in byUsername then (this, Err("username already exists"))
      else if hash == "" then (this, Err("failed to hash password"))
      else (Users(byUsername[username := UserRecord(nextId, username, hash)], usernamesById[nextId := username], nextId + 1),
            Ok(nextId))
    }

    function VerifyLogin(kdf: Kdf, username: string, password: string): Option<UserRecord> {
      var user := FindByUsername(username);
      if user.Some? && Verify(kdf, password, user.value.passwordHash) then user else None
    }

    /** Names and ids are one to one, and ids stay below the counter. */
    ghost predicate OneToOne() {
      && (forall n :: n in byUsername ==>
            && byUsername[n].username == n
            && 1 <= byUsername[n].id < nextId
            && byUsername[n].id in usernamesById && usernamesById[byUsername[n].id] == n)
      && (forall id :: id in usernamesById ==>
            usernamesById[id] in byUsername && byUsername[usernamesById[id]].id == id)
    }
  }

  const MAX_USERNAME := 64

  const NO_USERS := Users(map[], map[], 1)

  lemma RegisterKeeps(users: Users, username: string, password: string, hash: string)
    requires users.OneToOne() && users.nextId >= 1
    ensures var (after, result) := users.Register(username, password, hash);
            && after.OneToOne() && after.nextId >= users.nextId
            && (forall n :: n in users.byUsername ==> after.FindByUsername(n) == users.FindByUsername(n))
            && (result.Ok? <==>
                  1 <= |username| <= MAX_USERNAME && password != "" && hash != "" && username !in users.byUsername)
            && (result.Ok? ==> result.value !in users.usernamesById)
            && (result.Ok? ==>
                  && after.FindById(result.value) == Some(UserRecord(result.value, username, hash))
                  && after.FindByUsername(username) == after.FindById(result.value))
            && (result.Err? ==> after == users)
  {
  }

  /** Finding by name and by id agree. */
  lemma LookupsAgree(users: Users, record: UserRecord)
    requires users.OneToOne()
    ensures users.FindByUsername(record.username) == Some(record) <==> users.FindById(record.id) == Some(record)
  {
  }

  // ------------------------------------------------------------ runs

  datatype Registration = Registration(username: string, password: string, salt: Option<seq<Byte>>)

  function RegisterOne(kdf: Kdf, users: Users, r: Registration): (Users, Result<nat, string>) {
    users.Register(r.username, r.password, HashPassword(kdf, r.password, r.salt))
  }

  function RegisterAll(kdf: Kdf, requests: seq<Registration>): Users {
    if requests == [] then NO_USERS
    else RegisterOne(kdf, RegisterAll(kdf, requests[..|requests| - 1]), requests[|requests| - 1]).0
  }

  lemma {:induction false} AlwaysOneToOne(kdf: Kdf, requests: seq<Registration>)
    ensures RegisterAll(kdf, requests).OneToOne() && RegisterAll(kdf, requests).nextId >= 1
  {
    if requests != [] {
      AlwaysOneToOne(kdf, requests[..|requests| - 1]);
      var r := requests[|requests| - 1];
      RegisterKeeps(RegisterAll(kdf, requests[..|requests| - 1]), r.username, r.password,
                    HashPassword(kdf, r.password, r.salt));
    }
  }

  /** Once registered, a user keeps id and record through all later registrations. */
  lemma {:induction false} RecordsLast(kdf: Kdf, requests: seq<Registration>, k: nat, username: string)
    requires k <= |requests| && username in RegisterAll(kdf, requests[..k]).byUsername
    ensures RegisterAll(kdf, requests).FindByUsername(username) == RegisterAll(kdf, requests[..k]).FindByUsername(username)
    decreases |requests|
  {
    if k == |requests| {
      assert requests[..k] == requests;
    } else {
      var front, r := requests[..|requests| - 1], requests[|requests| - 1];
      assert front[..k] == requests[..k];
      RecordsLast(kdf, front, k, username);
      AlwaysOneToOne(kdf, front);
      RegisterKeeps(RegisterAll(kdf, front), r.username, r.password, HashPassword(kdf, r.password, r.salt));
    }
  }

  /** A registration that succeeded, with a salt of at least one byte, fixes the account: at any later
      time the name logs in, as the id that was returned, with exactly the passwords that derive the
      same key. */
  lemma RegisteredUserLogsIn(kdf: Kdf, requests: seq<Registration>, k: nat, attempt: string)
    requires DerivesKeys(kdf) && k < |requests|
    requires RegisterOne(kdf, RegisterAll(kdf, requests[..k]), requests[k]).1.Ok?
    requires requests[k].salt != Some([])
    ensures var r, id := requests[k], RegisterOne(kdf, RegisterAll(kdf, requests[..k]), requests[k]).1.value;
            var user := RegisterAll(kdf, requests).VerifyLogin(kdf, r.username, attempt);
            && (user.Some? ==> user.value.id == id && user.value.username == r.username)
            && r.salt.Some?
            && (user.Some? <==>
                  kdf(attempt, DEFAULT_ITERATIONS, r.salt.value) == kdf(r.password, DEFAULT_ITERATIONS, r.salt.value))
            && RegisterAll(kdf, requests).VerifyLogin(kdf, r.username, r.password).Some?
  {
    hide Verify, MakeHash;
    var r, before := requests[k], RegisterAll(kdf, requests[..k]);
    var hash := HashPassword(kdf, r.password, r.salt);
    AlwaysOneToOne(kdf, requests[..k]);
    RegisterKeeps(before, r.username, r.password, hash);
    assert requests[..k + 1][..k] == requests[..k] && requests[..k + 1][k] == r;
    RecordsLast(kdf, requests, k + 1, r.username);
    KeyWasDerived(kdf, r.password, DEFAULT_ITERATIONS, r.salt.value);
    RecordRoundTrip(kdf, r.password, DEFAULT_ITERATIONS, r.salt.value, attempt);
    RecordRoundTrip(kdf, r.password, DEFAULT_ITERATIONS, r.salt.value, r.password);
  }

  lemma KeyWasDerived(kdf: Kdf, password: string, iterations: nat, salt: seq<Byte>)
    requires MakeHash(kdf, password, iterations, salt) != ""
    ensures kdf(password, iterations, salt).Some?
  {
  }

  // ------------------------------------------------------------ the store

  class UserStore {
    var usersByUsername: map<string, UserRecord>
    var usernamesById: map<nat, string>
    var nextMemoryId: nat
    const kdf: Kdf

    ghost function State(): Users
      reads this
    {
      Users(usersByUsername, usernamesById, nextMemoryId)
    }

    constructor (kdf: Kdf)
      ensures State() == NO_USERS && this.kdf == kdf
    {
      usersByUsername, usernamesById, nextMemoryId := map[], map[], 1;
      this.kdf := kdf;
    }

    /** `salt` is what the random generator delivers if it is asked. */
    method RegisterUser(username: string, password: string, salt: Option<seq<Byte>>)
      returns (result: Result<nat, string>)
      modifies this
      ensures (State(), result) == RegisterOne(kdf, old(State()), Registration(username, password, salt))
    {
      if username == "" || password == "" {
        return Err("username and password are required");
      }
      if |username| > MAX_USERNAME {
        return Err("username too long");
      }
      if username in usersByUsername {
        return Err("username already exists");
      }
      var passwordHash := HashPassword(kdf, password, salt);
      if passwordHash == "" {
        return Err("failed to hash password");
      }
      var userId := nextMemoryId;
      nextMemoryId := nextMemoryId + 1;
      usersByUsername := usersByUsername[username := UserRecord(userId, username, passwordHash)];
      usernamesById := usernamesById[userId := username];
      return Ok(userId);
    }

    method FindUserByUsername(username: string) returns (user: Option<UserRecord>)
      ensures user == State().FindByUsername(username)
    {
      if username !in usersByUsername {
        return None;
      }
      return Some(usersByUsername[username]);
    }

    method FindUserById(userId: nat) returns (user: Option<UserRecord>)
      ensures user == State().FindById(userId)
    {
      if userId !in usernamesById {
        return None;
      }
      var username := usernamesById[userId];
      if username !in usersByUsername {
        return None;
      }
      return Some(usersByUsername[username]);
    }

    method VerifyLogin(username: string, password: string) returns (user: Option<UserRecord>)
      ensures user == State().VerifyLogin(kdf, username, password)
    {
      var found := FindUserByUsername(username);
      if found.None? || !Verify(kdf, password, found.value.passwordHash) {
        return None;
      }
      return found;
    }
  }
}

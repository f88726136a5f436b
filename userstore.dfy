/** The user table of the database store: `CreateUser` writes a row with the
    Argon2 costs as integers and the salt and hash as unpadded base64 text;
    the two getters read a row back and decode it. The table is a map keyed
    by username. Also the status guard of `UpdateApplicationStatus`. */
module UserStore {
  import opened Prelude
  import opened Auth
  import Base64
  import JobApplication

  /** pgx's `ErrNoRows`, which `QueryRow(...).Scan` returns for a missing row. */
  const NoRows := "no rows in result set"

  /** The insert's error for a username that already has a row. */
  const DuplicateKey := "duplicate key value violates unique constraint"

  const InvalidStatus := "invalid status value"

  /** One row of `users`, with the columns as stored. */
  datatype UserRow = UserRow(
    email: string,
    username: string,
    argon2Memory: int,
    argon2Time: int,
    argon2Threads: int,
    hashedPassword: string,
    salt: string)

  /** The row `CreateUser` inserts: integers as they are, binary fields as
      unpadded standard base64. */
  function EncodeUser(email: string, username: string, p: Argon2Params, hashed: seq<Byte>): (row: UserRow)
    ensures row.email == email && row.username == username
    ensures row.argon2Memory == p.memory as int && row.argon2Time == p.time as int && row.argon2Threads == p.threads as int
    ensures Base64.DecodeString(row.hashedPassword) == Ok(hashed) && Base64.DecodeString(row.salt) == Ok(p.salt)
  {
    Base64.RoundTrip(hashed);
    Base64.RoundTrip(p.salt);
    UserRow(email, username, p.memory as int, p.time as int, p.threads as int,
            Base64.EncodeToString(hashed), Base64.EncodeToString(p.salt))
  }

  /** The decoding half of `GetUserHashedPassword`. */
  function DecodeHashedPassword(row: UserRow): Result<seq<Byte>> {
    Base64.DecodeString(row.hashedPassword)
  }

  /** The decoding half of `GetUserArgon2Auth`: the salt is decoded, the
      integers converted back to `uint32`/`uint8`. */
  function DecodeArgon2Params(row: UserRow): (r: Result<Argon2Params>)
    ensures r.Ok? <==> Base64.DecodeString(row.salt).Ok?
    ensures r.Err? ==> r.error == Base64.CorruptInput
    ensures r.Ok? ==> r.value.salt == Base64.DecodeString(row.salt).value
    ensures r.Ok? ==>
      && (r.value.memory as int - row.argon2Memory) % 0x1_0000_0000 == 0
      && (r.value.time as int - row.argon2Time) % 0x1_0000_0000 == 0
      && (r.value.threads as int - row.argon2Threads) % 0x100 == 0
  {
    match Base64.DecodeString(row.salt)
    case Err(e) => Err(e)
    case Ok(salt) =>
      Ok(Argon2Params(ToUint32(row.argon2Memory), ToUint32(row.argon2Time), ToUint8(row.argon2Threads), salt))
  }

  /** `GetUserHashedPassword` over the table's contents. */
  function HashedPasswordOf(users: map<string, UserRow>, username: string): (r: Result<seq<Byte>>)
    ensures username !in users ==> r == Err(NoRows)
    ensures username in users && Base64.DecodeString(users[username].hashedPassword).Err? ==> r.Err?
  {
    if username !in users then Err(NoRows) else DecodeHashedPassword(users[username])
  }

  /** `GetUserArgon2Auth` over the table's contents. */
  function Argon2ParamsOf(users: map<string, UserRow>, username: string): (r: Result<Argon2Params>)
    ensures username !in users ==> r == Err(NoRows)
    ensures username in users && Base64.DecodeString(users[username].salt).Err? ==> r.Err?
  {
    if username !in users then Err(NoRows) else DecodeArgon2Params(users[username])
  }

  /** The stored hash is read back exactly as written. */
  lemma HashedPasswordRoundTrip(email: string, username: string, p: Argon2Params, hashed: seq<Byte>)
    ensures DecodeHashedPassword(EncodeUser(email, username, p, hashed)) == Ok(hashed)
  {
    Base64.RoundTrip(hashed);
  }

  /** The stored costs and salt are read back exactly as written. */
  lemma Argon2ParamsRoundTrip(email: string, username: string, p: Argon2Params, hashed: seq<Byte>)
    ensures DecodeArgon2Params(EncodeUser(email, username, p, hashed)) == Ok(p)
  {
    Base64.RoundTrip(p.salt);
  }

  /** `CreateUser` then either getter, for the same username, gives back what
      was written, whatever the other rows hold. */
  lemma CreateThenGet(users: map<string, UserRow>, email: string, username: string, p: Argon2Params, hashed: seq<Byte>)
    ensures HashedPasswordOf(users[username := EncodeUser(email, username, p, hashed)], username) == Ok(hashed)
    ensures Argon2ParamsOf(users[username := EncodeUser(email, username, p, hashed)], username) == Ok(p)
  {
    HashedPasswordRoundTrip(email, username, p, hashed);
    Argon2ParamsRoundTrip(email, username, p, hashed);
  }

  /** A stored hash or salt holding a character outside the base64 alphabet
      (other than a newline) makes the getter fail rather than return a
      shortened value. */
  lemma CorruptColumnRefused(users: map<string, UserRow>, username: string, i: nat)
    requires username in users
    ensures var h := users[username].hashedPassword;
      i < |h| && h[i] != '\r' && h[i] != '\n' && Base64.DecodeChar(h[i]).None? ==>
        HashedPasswordOf(users, username).Err?
    ensures var s := users[username].salt;
      i < |s| && s[i] != '\r' && s[i] != '\n' && Base64.DecodeChar(s[i]).None? ==>
        Argon2ParamsOf(users, username).Err?
    ensures |Base64.SkipNewlines(users[username].hashedPassword)| % 4 == 1 ==> HashedPasswordOf(users, username).Err?
    ensures |Base64.SkipNewlines(users[username].salt)| % 4 == 1 ==> Argon2ParamsOf(users, username).Err?
  {
    var h := users[username].hashedPassword;
    var s := users[username].salt;
    if i < |h| && h[i] != '\r' && h[i] != '\n' && Base64.DecodeChar(h[i]).None? {
      Base64.RejectForeignChar(h, i);
    }
    if i < |s| && s[i] != '\r' && s[i] != '\n' && Base64.DecodeChar(s[i]).None? {
      Base64.RejectForeignChar(s, i);
    }
    if |Base64.SkipNewlines(h)| % 4 == 1 {
      Base64.RejectLoneChar(h);
    }
    if |Base64.SkipNewlines(s)| % 4 == 1 {
      Base64.RejectLoneChar(s);
    }
  }

  /** A stored user is read back exactly when its stored hash (for the
      password getter) or salt (for the parameter getter) is well-formed
      unpadded base64; otherwise the getter fails. */
  lemma StoredColumnsAccepted(users: map<string, UserRow>, username: string)
    requires username in users
    ensures HashedPasswordOf(users, username).Ok? <==> Base64.WellFormed(users[username].hashedPassword)
    ensures Argon2ParamsOf(users, username).Ok? <==> Base64.WellFormed(users[username].salt)
  {
    Base64.DecodeStringAccepts(users[username].hashedPassword);
    Base64.DecodeStringAccepts(users[username].salt);
  }

  /** The database store, reduced to its user table. */
  class DB {
    var users: map<string, UserRow>

    constructor ()
      ensures users == map[]
    {
      users := map[];
    }

    /** `CreateUser`: inserts the encoded row, unless the username already
        has one. */
    method CreateUser(email: string, username: string, argon2auth: Argon2Auth, hashedPassword: seq<Byte>)
      returns (r: Outcome)
      modifies this
      ensures r.Pass? <==> username !in old(users)
      ensures r.Pass? ==> users == old(users)[username := EncodeUser(email, username, argon2auth.Params(), hashedPassword)]
      ensures r.Fail? ==> r.error == DuplicateKey && users == old(users)
    {
      var mem := argon2auth.memory as int;
      var time := argon2auth.time as int;
      var threads := argon2auth.threads as int;
      var salt := Base64.EncodeToString(argon2auth.salt);
      if username in users {
        return Fail(DuplicateKey);
      }
      users := users[username := UserRow(email, username, mem, time, threads,
                                         Base64.EncodeToString(hashedPassword), salt)];
      return Pass;
    }

    /** `GetUserHashedPassword`: the row's hash decoded, or the lookup's or
        the decoder's error; never part of a value. */
    function GetUserHashedPassword(username: string): (r: Result<seq<Byte>>)
      reads this
      ensures r.Ok? ==> username in users && Base64.DecodeString(users[username].hashedPassword) == r
    {
      HashedPasswordOf(users, username)
    }

    /** `GetUserArgon2Auth`: a new `Argon2Auth` built from the row, or the
        lookup's or the decoder's error. */
    method GetUserArgon2Auth(username: string) returns (r: Result<Argon2Auth>)
      ensures r.Ok? <==> Argon2ParamsOf(users, username).Ok?
      ensures r.Ok? ==> fresh(r.value) && r.value.Params() == Argon2ParamsOf(users, username).value
      ensures r.Err? ==> r.error == Argon2ParamsOf(users, username).error
    {
      if username !in users {
        return Err(NoRows);
      }
      var row := users[username];
      var decodedSalt := Base64.DecodeString(row.salt);
      if decodedSalt.Err? {
        return Err(decodedSalt.error);
      }
      var argon2auth := new Argon2Auth.FromParams(
        Argon2Params(ToUint32(row.argon2Memory), ToUint32(row.argon2Time), ToUint8(row.argon2Threads), decodedSalt.value));
      return Ok(argon2auth);
    }

    /** `UpdateApplicationStatus`: an out-of-range status is refused before
        any statement runs, so no row changes. The update statement itself
        works on the applications table, which this model does not hold: its
        outcome `exec` is passed in and returned as it is. */
    method UpdateApplicationStatus(username: string, companyID: string, status: JobApplication.ApplicationStatus,
                                   exec: Outcome)
      returns (r: Outcome)
      ensures status > JobApplication.MaxStatus ==> r == Fail(InvalidStatus)
      ensures status <= JobApplication.MaxStatus ==> r == exec
    {
      if status > JobApplication.MaxStatus {
        return Fail(InvalidStatus);
      }
      return exec;
    }
  }
}

/** The authentication handlers: `Register` derives and stores a credential,
    `Login` checks one and binds the username into the session, `Logout`
    destroys the session. Requests are reduced to their form values and
    responses to a status code and a body; the session manager is a small
    state machine. */
module AuthHandlers {
  import opened Prelude
  import opened Auth
  import opened UserStore

  const StatusOK := 200
  const StatusCreated := 201
  const StatusUnauthorized := 401
  const StatusInternalServerError := 500

  /** The session key `Login` stores the username under. */
  const UsernameKey := "username"

  datatype Response = Response(status: int, body: string)

  const Created := Response(StatusCreated, "User created successfully")
  const LoggedIn := Response(StatusOK, "Login successful")
  const LoggedOut := Response(StatusOK, "Logout successful")
  const Unauthorized := Response(StatusUnauthorized, "invalid username or password")

  /** The value of a session: its current token (none before one is issued
      or after the session is destroyed), the values stored in it, and how
      many tokens have been issued so far. Tokens are drawn as the issue
      counter, so a newly issued one differs from every earlier one. */
  datatype SessionState = SessionState(token: Option<nat>, data: map<string, string>, issued: nat)
  {
    /** Every token in use was issued earlier. */
    predicate Valid() {
      token.Some? ==> token.value < issued
    }
  }

  /** The session after `RenewToken`, given whether the session store and the
      random source let it through: a new token that moves the stored values
      over, or, on failure, the session as it was. */
  function Renewed(s: SessionState, renewal: Outcome): (t: SessionState)
    ensures t.data == s.data
    ensures s.Valid() ==> t.Valid()
    ensures t.issued >= s.issued
    ensures renewal.Pass? ==> t.token.Some? && t.token.value >= s.issued && t.issued == t.token.value + 1
    ensures renewal.Pass? && s.Valid() ==> t.token != s.token
    ensures renewal.Fail? ==> t == s
  {
    if renewal.Pass? then s.(token := Some(s.issued), issued := s.issued + 1) else s
  }

  /** The session after `Login` answered `resp`: only a 200 renews the token
      (its error dropped) and then stores the username. */
  function AfterLogin(s: SessionState, resp: Response, renewal: Outcome, username: string): SessionState {
    if resp.status == StatusOK then Renewed(s, renewal).(data := s.data[UsernameKey := username]) else s
  }

  /** A successful login whose renewal went through binds the username under a
      token never issued before, so neither the client's current token nor
      any earlier one (one from before a logout included) is authenticated. */
  lemma LoginRenewsToken(s: SessionState, renewal: Outcome, username: string)
    requires s.Valid() && renewal.Pass?
    ensures var t := AfterLogin(s, LoggedIn, renewal, username);
      && t.Valid() && t.data[UsernameKey] == username
      && t.token.Some? && t.token.value >= s.issued && t.token != s.token
  {
  }

  /** Session fixation as the handler is written: when renewal fails, the
      handler still answers 200 and binds the username under the token the
      client already had before logging in. */
  lemma LoginFixation(s: SessionState, renewal: Outcome, username: string)
    requires s.token.Some? && renewal.Fail?
    ensures var t := AfterLogin(s, LoggedIn, renewal, username);
      t.data[UsernameKey] == username && t.token == s.token
  {
  }

  /** `Login` with the renewal error checked, as the session manager's API
      intends: a failed renewal answers 500 and binds nothing. */
  function CheckedLoginResponse(users: map<string, UserRow>, username: string, password: seq<Byte>,
                                kdf: Argon2IdKey, renewal: Outcome): (r: Response)
    ensures r.status == StatusOK <==> LoginResponse(users, username, password, kdf).status == StatusOK && renewal.Pass?
    ensures LoginResponse(users, username, password, kdf).status != StatusOK ==> r == LoginResponse(users, username, password, kdf)
    ensures LoginResponse(users, username, password, kdf).status == StatusOK && renewal.Fail? ==>
      r == Response(StatusInternalServerError, "failed to renew session token: " + renewal.error)
  {
    var r := LoginResponse(users, username, password, kdf);
    if r.status == StatusOK && renewal.Fail? then
      Response(StatusInternalServerError, "failed to renew session token: " + renewal.error)
    else r
  }

  /** With the renewal error checked, whenever a username gets bound the
      session carries a new token, so a token planted before login is never
      authenticated. */
  lemma {:induction false} CheckedLoginNoFixation(s: SessionState, users: map<string, UserRow>, username: string,
                                                  password: seq<Byte>, kdf: Argon2IdKey, renewal: Outcome)
    requires s.Valid()
    ensures var resp := CheckedLoginResponse(users, username, password, kdf, renewal);
      var t := AfterLogin(s, resp, renewal, username);
      && t.Valid()
      && (resp.status == StatusOK ==>
            t.data[UsernameKey] == username && t.token.Some? && t.token.value >= s.issued && t.token != s.token)
      && (resp.status != StatusOK ==> t == s)
  {
    var resp := CheckedLoginResponse(users, username, password, kdf, renewal);
    if resp.status == StatusOK {
      assert renewal.Pass?;
      LoginRenewsToken(s, renewal, username);
    }
  }

  /** The session after `Destroy`, given whether the session store let the
      deletion through: anonymous, with only the issue count kept, or, on
      failure, the session as it was. */
  function Destroyed(s: SessionState, destroyal: Outcome): (t: SessionState)
    ensures t.issued == s.issued
    ensures s.Valid() ==> t.Valid()
    ensures destroyal.Pass? ==> t.token.None? && t.data == map[]
    ensures destroyal.Fail? ==> t == s
  {
    if destroyal.Pass? then SessionState(None, map[], s.issued) else s
  }

  /** As the handler is written, `Logout` drops `Destroy`'s error: when the
      deletion fails it still answers "Logout successful", and whoever was
      logged in stays bound under the same token. */
  lemma LogoutStillBound(s: SessionState, destroyal: Outcome, username: string)
    requires UsernameKey in s.data && s.data[UsernameKey] == username && destroyal.Fail?
    ensures var t := Destroyed(s, destroyal);
      t.token == s.token && UsernameKey in t.data && t.data[UsernameKey] == username
  {
  }

  /** `Logout` with the deletion error checked: a failed deletion answers 500
      instead of reporting success. */
  function CheckedLogoutResponse(destroyal: Outcome): (r: Response)
    ensures r == LoggedOut <==> destroyal.Pass?
    ensures destroyal.Fail? ==> r.status == StatusInternalServerError
  {
    if destroyal.Fail? then Response(StatusInternalServerError, "failed to destroy session: " + destroyal.error)
    else LoggedOut
  }

  /** With the deletion error checked, "Logout successful" is answered only
      when no username is left bound and no token remains, and a 500 tells the
      client the session is as it was. */
  lemma {:induction false} CheckedLogoutUnbinds(s: SessionState, destroyal: Outcome)
    ensures var resp := CheckedLogoutResponse(destroyal);
      var t := Destroyed(s, destroyal);
      && (resp == LoggedOut ==> UsernameKey !in t.data && t.token.None?)
      && (resp != LoggedOut ==> resp.status == StatusInternalServerError && t == s)
  {
    if destroyal.Pass? {
      assert Destroyed(s, destroyal).data == map[];
    }
  }

  /** The session manager's state for the requesting client. */
  class Session {
    var token: Option<nat>
    var data: map<string, string>
    var issued: nat

    /** A new, anonymous session with no token. */
    constructor ()
      ensures View() == SessionState(None, map[], 0)
    {
      token, data, issued := None, map[], 0;
    }

    function View(): SessionState
      reads this
    {
      SessionState(token, data, issued)
    }

    /** `RenewToken`: a new token replaces the current one and the stored
        values move over to it; when the store cannot delete the old token or
        no new one can be drawn (`renewal` fails), its error is returned and
        the token stays. */
    method RenewToken(renewal: Outcome) returns (r: Outcome)
      modifies this
      ensures r == renewal
      ensures View() == Renewed(old(View()), renewal)
    {
      if renewal.Fail? {
        return renewal;
      }
      token := Some(issued);
      issued := issued + 1;
      return Pass;
    }

    /** `Put`: stores `value` under `key`, keeping the token. */
    method Put(key: string, value: string)
      modifies this
      ensures View() == old(View()).(data := old(data)[key := value])
    {
      data := data[key := value];
    }

    /** `Destroy`: the stored values and the token are discarded; when the
        store cannot delete the token (`destroyal` fails), its error is
        returned and the session is left as it was. */
    method Destroy(destroyal: Outcome) returns (r: Outcome)
      modifies this
      ensures r == destroyal
      ensures View() == Destroyed(old(View()), destroyal)
    {
      if destroyal.Fail? {
        return destroyal;
      }
      data, token := map[], None;
      return Pass;
    }
  }

  /** The parameters `Register` derives with: the defaults, and the salt
      `SetDefaults` drew, or the zero value's empty salt when drawing failed,
      since `Register` drops that error. */
  function RegisteredParams(entropy: Entropy): (p: Argon2Params)
    ensures p.memory == DefaultMemory && p.time == DefaultTime && p.threads == DefaultThreads
    ensures GenerateSalt(SaltLength, entropy).Ok? ==> |p.salt| == SaltLength && p.salt == entropy.available[..SaltLength]
    ensures GenerateSalt(SaltLength, entropy).Err? ==> p.salt == []
  {
    var drawn := GenerateSalt(SaltLength, entropy);
    Argon2Params(DefaultMemory, DefaultTime, DefaultThreads, if drawn.Ok? then drawn.value else [])
  }

  /** The row `Register` writes for a new user. */
  function RegisteredRow(email: string, username: string, password: seq<Byte>, kdf: Argon2IdKey, entropy: Entropy): UserRow {
    var p := RegisteredParams(entropy);
    EncodeUser(email, username, p, p.HashPassword(kdf, password))
  }

  /** The response of `Login` over the user table. A failed hash lookup
      answers 500 before the parameters are looked up; a failed parameter
      lookup answers 500 too; only a verified password answers 200. */
  function LoginResponse(users: map<string, UserRow>, username: string, password: seq<Byte>, kdf: Argon2IdKey): (r: Response)
    ensures r.status == StatusOK || r.status == StatusUnauthorized || r.status == StatusInternalServerError
    ensures HashedPasswordOf(users, username).Err? ==>
      r == Response(StatusInternalServerError, "failed to get user hashed password: " + HashedPasswordOf(users, username).error)
    ensures HashedPasswordOf(users, username).Ok? && Argon2ParamsOf(users, username).Err? ==>
      r == Response(StatusInternalServerError, "failed to get user argon2 auth: " + Argon2ParamsOf(users, username).error)
    ensures r.status == StatusOK <==>
      && HashedPasswordOf(users, username).Ok? && Argon2ParamsOf(users, username).Ok?
      && Argon2ParamsOf(users, username).value.VerifyPassword(kdf, password, HashedPasswordOf(users, username).value)
    ensures r.status == StatusOK ==> r == LoggedIn
    ensures r.status == StatusUnauthorized ==> r == Unauthorized
    ensures && HashedPasswordOf(users, username).Ok? && Argon2ParamsOf(users, username).Ok?
            && !Argon2ParamsOf(users, username).value.VerifyPassword(kdf, password, HashedPasswordOf(users, username).value)
            ==> r == Unauthorized
  {
    match HashedPasswordOf(users, username)
    case Err(e) => Response(StatusInternalServerError, "failed to get user hashed password: " + e)
    case Ok(hashed) =>
      match Argon2ParamsOf(users, username)
      case Err(e) => Response(StatusInternalServerError, "failed to get user argon2 auth: " + e)
      case Ok(p) => if p.VerifyPassword(kdf, password, hashed) then LoggedIn else Unauthorized
  }

  /** An unknown username answers 500 with the lookup's error. */
  lemma LoginUnknownUser(users: map<string, UserRow>, username: string, password: seq<Byte>, kdf: Argon2IdKey)
    requires username !in users
    ensures LoginResponse(users, username, password, kdf) ==
      Response(StatusInternalServerError, "failed to get user hashed password: " + NoRows)
  {
  }

  /** Whatever the entropy source did, a user just registered logs in with
      the same password, whatever the other rows hold. */
  lemma RegisterThenLogin(users: map<string, UserRow>, email: string, username: string,
                          password: seq<Byte>, kdf: Argon2IdKey, entropy: Entropy)
    ensures LoginResponse(users[username := RegisteredRow(email, username, password, kdf, entropy)],
                          username, password, kdf) == LoggedIn
  {
    var p := RegisteredParams(entropy);
    CreateThenGet(users, email, username, p, p.HashPassword(kdf, password));
    VerifyOwnHash(p, kdf, password);
  }

  /** A registered user logging in with a password that derives another key
      is refused with 401, not 500. */
  lemma LoginWrongPassword(users: map<string, UserRow>, email: string, username: string,
                           password: seq<Byte>, other: seq<Byte>, kdf: Argon2IdKey, entropy: Entropy)
    requires RegisteredParams(entropy).HashPassword(kdf, password) != RegisteredParams(entropy).HashPassword(kdf, other)
    ensures LoginResponse(users[username := RegisteredRow(email, username, password, kdf, entropy)],
                          username, other, kdf) == Unauthorized
  {
    var p := RegisteredParams(entropy);
    CreateThenGet(users, email, username, p, p.HashPassword(kdf, password));
    VerifyRejectsOtherPassword(p, kdf, password, other);
  }

  /** `App` with the two dependencies the handlers use: the store and the
      session of the requesting client. */
  class App {
    const db: DB
    const session: Session

    constructor (db: DB, session: Session)
      ensures this.db == db && this.session == session
    {
      this.db := db;
      this.session := session;
    }

    /** `Register`: derives a credential with the defaults (the salt error
        dropped) and inserts it; 201 on success, 500 with the insert error
        otherwise. The session is not touched. */
    method Register(email: string, username: string, password: seq<Byte>, kdf: Argon2IdKey, entropy: Entropy)
      returns (resp: Response)
      modifies db
      ensures resp.status == StatusCreated <==> username !in old(db.users)
      ensures resp.status == StatusCreated ==>
        resp == Created && db.users == old(db.users)[username := RegisteredRow(email, username, password, kdf, entropy)]
      ensures resp.status != StatusCreated ==>
        resp == Response(StatusInternalServerError, "DB insert failed: " + DuplicateKey) && db.users == old(db.users)
      ensures unchanged(session)
    {
      var argon2auth := new Argon2Auth();
      var _ := argon2auth.SetDefaults(entropy);
      var hashedPassword := argon2auth.Params().HashPassword(kdf, password);
      var err := db.CreateUser(email, username, argon2auth, hashedPassword);
      if err.Fail? {
        return Response(StatusInternalServerError, "DB insert failed: " + err.error);
      }
      return Created;
    }

    /** `Login`: answers as `LoginResponse`; only on success is the token
        renewed and then the username stored. The renewal's error is
        dropped, so the username is bound even when the token could not be
        renewed. Otherwise the session is as it was. */
    method Login(username: string, password: seq<Byte>, kdf: Argon2IdKey, renewal: Outcome) returns (resp: Response)
      modifies session
      ensures resp == LoginResponse(db.users, username, password, kdf)
      ensures session.View() == AfterLogin(old(session.View()), resp, renewal, username)
    {
      var hashedPassword := db.GetUserHashedPassword(username);
      if hashedPassword.Err? {
        return Response(StatusInternalServerError, "failed to get user hashed password: " + hashedPassword.error);
      }
      var argon2auth := db.GetUserArgon2Auth(username);
      if argon2auth.Err? {
        return Response(StatusInternalServerError, "failed to get user argon2 auth: " + argon2auth.error);
      }
      if !argon2auth.value.Params().VerifyPassword(kdf, password, hashedPassword.value) {
        return Unauthorized;
      }
      var _ := session.RenewToken(renewal);
      session.Put(UsernameKey, username);
      return LoggedIn;
    }

    /** `Login` with the renewal error checked: a failed renewal answers 500
        and leaves the session unbound. */
    method LoginChecked(username: string, password: seq<Byte>, kdf: Argon2IdKey, renewal: Outcome) returns (resp: Response)
      modifies session
      ensures resp == CheckedLoginResponse(db.users, username, password, kdf, renewal)
      ensures session.View() == AfterLogin(old(session.View()), resp, renewal, username)
    {
      var hashedPassword := db.GetUserHashedPassword(username);
      if hashedPassword.Err? {
        return Response(StatusInternalServerError, "failed to get user hashed password: " + hashedPassword.error);
      }
      var argon2auth := db.GetUserArgon2Auth(username);
      if argon2auth.Err? {
        return Response(StatusInternalServerError, "failed to get user argon2 auth: " + argon2auth.error);
      }
      if !argon2auth.value.Params().VerifyPassword(kdf, password, hashedPassword.value) {
        return Unauthorized;
      }
      var err := session.RenewToken(renewal);
      if err.Fail? {
        return Response(StatusInternalServerError, "failed to renew session token: " + err.error);
      }
      session.Put(UsernameKey, username);
      return LoggedIn;
    }

    /** `Logout`: the session is destroyed and "Logout successful" answered;
        `Destroy`'s error is dropped, so a failed deletion is answered the
        same way with the session still as it was. */
    method Logout(destroyal: Outcome) returns (resp: Response)
      modifies session
      ensures resp == LoggedOut
      ensures session.View() == Destroyed(old(session.View()), destroyal)
    {
      var _ := session.Destroy(destroyal);
      return LoggedOut;
    }

    /** `Logout` with the deletion error checked: a failed deletion answers
        500 and the session is as it was. */
    method LogoutChecked(destroyal: Outcome) returns (resp: Response)
      modifies session
      ensures resp == CheckedLogoutResponse(destroyal)
      ensures session.View() == Destroyed(old(session.View()), destroyal)
    {
      var err := session.Destroy(destroyal);
      if err.Fail? {
        return Response(StatusInternalServerError, "failed to destroy session: " + err.error);
      }
      return LoggedOut;
    }

    /** A new user registers, logs in with the same password and is bound
        into the session; logging out then unbinds them when the deletion
        goes through, and leaves them bound, under a 200 answer, when it
        does not. */
    method RegisterLoginLogout(email: string, username: string, password: seq<Byte>, kdf: Argon2IdKey,
                               entropy: Entropy, renewal: Outcome, destroyal: Outcome)
      returns (registered: Response, loggedIn: Response, loggedOut: Response)
      requires username !in db.users
      modifies db, session
      ensures registered == Created && loggedIn == LoggedIn && loggedOut == LoggedOut
      ensures destroyal.Pass? ==> UsernameKey !in session.data && session.token == None
      ensures destroyal.Fail? ==> UsernameKey in session.data && session.data[UsernameKey] == username
    {
      ghost var before := db.users;
      registered := Register(email, username, password, kdf, entropy);
      RegisterThenLogin(before, email, username, password, kdf, entropy);
      loggedIn := Login(username, password, kdf, renewal);
      loggedOut := Logout(destroyal);
    }
  }
}

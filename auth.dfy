/** The authentication decisions of the service: the `token_required` gate in
    front of the write endpoints, `login` and `signup`. Signing, verifying and
    hashing are functions passed in; the user table is a sequence in table
    order. */
module Auth {
  import opened Values
  import opened Models

  /** Token lifetime: 30 minutes, in seconds. */
  const TokenLifetime := 30 * 60

  /** What `jwt.decode(token, key, algorithms=["HS256"])` yields. */
  datatype Decoded = Claims(payload: map<string, Json>) | Refused(message: string)

  datatype InvalidToken =
    | DecodeFailed(message: string)   // any exception of `jwt.decode`
    | NoIdClaim                       // the KeyError of `data["id"]`

  datatype GateDecision =
    | Proceed                         // the wrapped endpoint runs
    | KeyNotConfigured                // `JWT_KEY` unset or empty: ValueError, 500
    | TokenMissing                    // 401 "Token is missing"
    | TokenInvalid(why: InvalidToken)  // 401 "Token is invalid. ..."

  /** `token_required`. The user the `id` claim names is looked up but never
      checked, so a token for an account that no longer exists still passes. */
  function TokenRequired(jwtKey: Option<string>, authorization: Option<string>, decode: (string, string) -> Decoded): (r: GateDecision)
    ensures !Given(jwtKey) ==> r == KeyNotConfigured
    ensures r == Proceed ==>
      && Given(jwtKey) && Given(authorization)
      && decode(authorization.value, jwtKey.value).Claims?
      && "id" in decode(authorization.value, jwtKey.value).payload
    ensures Given(jwtKey) && !Given(authorization) ==> r == TokenMissing
    ensures Given(jwtKey) && Given(authorization) && decode(authorization.value, jwtKey.value).Refused? ==>
      r == TokenInvalid(DecodeFailed(decode(authorization.value, jwtKey.value).message))
    ensures Given(jwtKey) && Given(authorization) && decode(authorization.value, jwtKey.value).Claims? ==>
      && (r == Proceed <==> "id" in decode(authorization.value, jwtKey.value).payload)
      && (r != Proceed ==> r == TokenInvalid(NoIdClaim))
  {
    if !Given(jwtKey) then KeyNotConfigured
    else if !Given(authorization) then TokenMissing
    else
      match decode(authorization.value, jwtKey.value)
      case Refused(message) => TokenInvalid(DecodeFailed(message))
      case Claims(payload) => if "id" in payload then Proceed else TokenInvalid(NoIdClaim)
  }

  /** `User.query.filter_by(username=name).first()`, in table order. */
  function FirstWithName(users: seq<User>, name: string): (r: Option<nat>)
    ensures r.None? <==> forall i :: 0 <= i < |users| ==> users[i].username != name
    ensures r.Some? ==>
      && r.value < |users| && users[r.value].username == name
      && forall j :: 0 <= j < r.value ==> users[j].username != name
  {
    if users == [] then None
    else if users[0].username == name then Some(0)
    else
      var rest := FirstWithName(users[1..], name);
      assert forall i :: 1 <= i < |users| ==> users[i] == users[1..][i - 1];
      if rest.Some? then Some(rest.value + 1) else None
  }

  datatype LoginOutcome =
    | TokenIssued(claims: map<string, Json>)  // 201 with the signed claims
    | LoginKeyMissing                         // `JWT_KEY` unset or empty: ValueError, 500
    | CredentialsNotProvided                  // 401
    | AccountMissing                          // 401 "Please create an account"
    | CredentialsWrong                        // 401 "Please check your credentials"
    | LoginCrash                              // an exception escapes: 500

  /** The claims `login` signs for a user at time `now` (seconds). */
  function TokenClaims(id: int, now: int): map<string, Json> {
    map["id" := JInt(id), "exp" := JInt(now + TokenLifetime)]
  }

  /** The credentials are both sent and truthy. */
  predicate CredentialsSent(body: map<string, Json>) {
    Truthy(Get(body, "username")) && Truthy(Get(body, "password"))
  }

  /** `login`. `matches(hash, password)` is `check_password_hash`; a username
      that is not a string makes the lookup fail, and a password that is not a
      string makes the hash check fail. */
  function Login(jwtKey: Option<string>, body: Option<map<string, Json>>, users: seq<User>,
                 matches: (string, string) -> bool, now: int): (r: LoginOutcome)
    ensures !Given(jwtKey) ==> r == LoginKeyMissing
    ensures r == CredentialsNotProvided <==> Given(jwtKey) && (body.None? || !CredentialsSent(body.value))
    ensures r == AccountMissing <==>
      && Given(jwtKey) && body.Some? && CredentialsSent(body.value) && IsPyStr(Get(body.value, "username"))
      && FirstWithName(users, Get(body.value, "username").s).None?
    ensures r == LoginCrash <==>
      && Given(jwtKey) && body.Some? && CredentialsSent(body.value)
      && (!IsPyStr(Get(body.value, "username"))
          || (FirstWithName(users, Get(body.value, "username").s).Some? && !IsPyStr(Get(body.value, "password"))))
    ensures Given(jwtKey) && body.Some? && CredentialsSent(body.value)
            && IsPyStr(Get(body.value, "username")) && IsPyStr(Get(body.value, "password"))
            && FirstWithName(users, Get(body.value, "username").s).Some? ==>
      var user := users[FirstWithName(users, Get(body.value, "username").s).value];
      && (matches(user.password, Get(body.value, "password").s) ==> r == TokenIssued(TokenClaims(user.id, now)))
      && (!matches(user.password, Get(body.value, "password").s) ==> r == CredentialsWrong)
    ensures r.TokenIssued? || r == CredentialsWrong ==>
      && Given(jwtKey) && body.Some? && CredentialsSent(body.value)
      && IsPyStr(Get(body.value, "username")) && IsPyStr(Get(body.value, "password"))
      && FirstWithName(users, Get(body.value, "username").s).Some?
  {
    if !Given(jwtKey) then LoginKeyMissing
    else if body.None? || !CredentialsSent(body.value) then CredentialsNotProvided
    else
      var username, password := Get(body.value, "username"), Get(body.value, "password");
      if !IsPyStr(username) then LoginCrash
      else
        var i := FirstWithName(users, username.s);
        if i.None? then AccountMissing
        else if !IsPyStr(password) then LoginCrash
        else if matches(users[i.value].password, password.s) then TokenIssued(TokenClaims(users[i.value].id, now))
        else CredentialsWrong
  }

  datatype SignupOutcome =
    | UserCreated(users: seq<User>, user: User)  // 201 "User created"
    | UsernameTaken                              // 409
    | CannotCreate                               // 500 "Unable to create user"
    | SignupCrash                                // an exception escapes: 500

  /** `signup`. `hash` is `generate_password_hash`, `newId` the next value of
      the key sequence and `now` the database's `now()`. */
  function Signup(users: seq<User>, body: Option<map<string, Json>>, hash: string -> string,
                  newId: int, now: int): (r: SignupOutcome)
    ensures r == CannotCreate <==> body.Some? && !CredentialsSent(body.value)
    ensures r == UsernameTaken <==>
      && body.Some? && CredentialsSent(body.value) && IsPyStr(Get(body.value, "username"))
      && FirstWithName(users, Get(body.value, "username").s).Some?
    ensures r.UserCreated? <==>
      && body.Some? && CredentialsSent(body.value)
      && IsPyStr(Get(body.value, "username")) && IsPyStr(Get(body.value, "password"))
      && var name, password := Get(body.value, "username").s, Get(body.value, "password").s;
      && (forall i :: 0 <= i < |users| ==> users[i].username != name)
      && |name| <= MaxTextLength && |hash(password)| <= MaxPasswordLength
    ensures r.UserCreated? ==>
      var name, password := Get(body.value, "username").s, Get(body.value, "password").s;
      && r.user == User(newId, name, hash(password), now)
      && r.users == users + [r.user]
  {
    if body.None? then SignupCrash
    else if !CredentialsSent(body.value) then CannotCreate
    else
      var username, password := Get(body.value, "username"), Get(body.value, "password");
      if !IsPyStr(username) then SignupCrash
      else if FirstWithName(users, username.s).Some? then UsernameTaken
      else if !IsPyStr(password) then SignupCrash
      else
        var user := User(newId, username.s, hash(password.s), now);
        if |user.username| > MaxTextLength || |user.password| > MaxPasswordLength then SignupCrash
        else UserCreated(users + [user], user)
  }

  /** No two accounts share a username. */
  predicate UniqueUsernames(users: seq<User>) {
    forall i, j :: 0 <= i < j < |users| ==> users[i].username != users[j].username
  }

  /** Signing up never creates a second account with a taken username. */
  lemma SignupKeepsUsernamesUnique(users: seq<User>, body: Option<map<string, Json>>, hash: string -> string, newId: int, now: int)
    requires UniqueUsernames(users)
    requires Signup(users, body, hash, newId, now).UserCreated?
    ensures UniqueUsernames(Signup(users, body, hash, newId, now).users)
  {
    var s := Signup(users, body, hash, newId, now).users;
    forall i, j | 0 <= i < j < |s| ensures s[i].username != s[j].username {
      if j == |users| {
        assert s[i] == users[i];
      } else {
        assert s[i] == users[i] && s[j] == users[j];
      }
    }
  }

  /** With a hash that `matches` accepts for the password it was made from,
      the credentials of a fresh signup log in as the new account. */
  lemma SignupThenLogin(users: seq<User>, body: map<string, Json>, hash: string -> string,
                        matches: (string, string) -> bool, jwtKey: Option<string>, newId: int, created: int, now: int)
    requires Signup(users, Some(body), hash, newId, created).UserCreated?
    requires forall password :: matches(hash(password), password)
    requires Given(jwtKey)
    ensures Login(jwtKey, Some(body), Signup(users, Some(body), hash, newId, created).users, matches, now)
            == TokenIssued(TokenClaims(newId, now))
  {
    var s := Signup(users, Some(body), hash, newId, created).users;
    var name := Get(body, "username").s;
    var i := FirstWithName(s, name);
    assert s[|users|].username == name;
    assert i.Some?;
    assert forall j :: 0 <= j < |users| ==> s[j] == users[j];
    assert i.value == |users|;
  }

  /** The token `login` issues passes `token_required` under the same key,
      for any signer `encode` whose tokens are non-empty and which `decode`
      inverts (`jwt.decode(jwt.encode(claims, key), key) == claims`, as it
      does before the `exp` claim passes). */
  lemma IssuedTokenAdmitted(jwtKey: Option<string>, body: Option<map<string, Json>>, users: seq<User>,
                            matches: (string, string) -> bool, now: int,
                            encode: (map<string, Json>, string) -> string, decode: (string, string) -> Decoded)
    requires Login(jwtKey, body, users, matches, now).TokenIssued?
    requires forall claims, key :: decode(encode(claims, key), key) == Claims(claims)
    requires forall claims, key :: encode(claims, key) != ""
    ensures TokenRequired(jwtKey, Some(encode(Login(jwtKey, body, users, matches, now).claims, jwtKey.value)), decode) == Proceed
  {
  }
}

/**
 * Properties that relate several handlers of the authentication service:
 * registration followed by login, login followed by the access gate, the
 * invariants registration keeps, and the quirks of the gate and the invite code.
 */
module AuthProperties {
  import opened Wrappers
  import opened JsString
  import opened Bcrypt
  import opened Jwt
  import opened UserStore
  import opened Server

  /** A password of three characters outside the Basic Multilingual Plane passes the six-character minimum. */
  lemma {:induction false} AstralPasswordLength()
    ensures var p := "\U{1F600}\U{1F600}\U{1F600}"; |p| == 3 && Utf16Length(p) == MinPasswordLength
  {
    var p := "\U{1F600}\U{1F600}\U{1F600}";
    assert p[1..][1..][1..] == [];
  }

  /** The gate reads the second space-separated piece whatever the first piece (the scheme) says. */
  lemma {:induction false} GateIgnoresScheme(scheme: string, other: string, rest: string, secret: string, now: nat)
    requires ' ' !in scheme && ' ' !in other
    ensures AuthenticateToken(Some(scheme + " " + rest), secret, now) == AuthenticateToken(Some(other + " " + rest), secret, now)
  {
    SplitFirstSeparator(scheme, rest, ' ');
    SplitFirstSeparator(other, rest, ' ');
  }

  /**
   * `scheme token rest` yields the token, for a space-free scheme, a non-empty
   * space-free token, and a rest that is empty or starts a further piece.
   */
  lemma {:induction false} BearerTokenOfHeader(scheme: string, token: string, rest: string)
    requires ' ' !in scheme && ' ' !in token && token != ""
    requires rest == "" || rest[0] == ' '
    ensures BearerToken(Some(scheme + " " + token + rest)) == Some(token)
  {
    SplitSecondPiece(scheme, token, rest, ' ');
    assert scheme + " " + token + rest == scheme + [' '] + token + rest;
  }

  /** A missing header, or one without a space, is answered 401 before any token is verified. */
  lemma {:induction false} NoTokenUnauthenticated(header: Option<string>, secret: string, now: nat)
    requires header.None? || ' ' !in header.value
    ensures AuthenticateToken(header, secret, now) == Rejected(TokenRequired)
  {
    if header.Some? {
      SplitJoin([header.value], ' ');
    }
  }

  /** A token that is not dot-separated text is answered 403. */
  lemma {:induction false} GarbageTokenForbidden(scheme: string, garbage: string, secret: string, now: nat)
    requires ' ' !in scheme && ' ' !in garbage && '.' !in garbage && garbage != ""
    ensures AuthenticateToken(Some(scheme + " " + garbage), secret, now) == Rejected(TokenRejected)
  {
    BearerTokenOfHeader(scheme, garbage, "");
    assert scheme + " " + garbage + "" == scheme + " " + garbage;
    DotlessTokenMalformed(garbage, secret, now);
  }

  /** A token from `Sign` passes the gate for 24 hours with the signed claims attached, and is refused after. */
  lemma {:induction false} GateAdmitsSignedToken(scheme: string, claims: Claims, secret: string, issuedAt: nat, now: nat)
    requires ' ' !in scheme
    ensures now < issuedAt + ExpiresIn ==>
              AuthenticateToken(Some(scheme + " " + Sign(claims, secret, issuedAt)), secret, now)
              == Admitted(Payload(claims.id, claims.username, claims.email, issuedAt, issuedAt + ExpiresIn))
    ensures now >= issuedAt + ExpiresIn ==>
              AuthenticateToken(Some(scheme + " " + Sign(claims, secret, issuedAt)), secret, now) == Rejected(TokenRejected)
  {
    var token := Sign(claims, secret, issuedAt);
    SignedSegments(Payload(claims.id, claims.username, claims.email, issuedAt, issuedAt + ExpiresIn), secret);
    BearerTokenOfHeader(scheme, token, "");
    assert scheme + " " + token + "" == scheme + " " + token;
    if now < issuedAt + ExpiresIn {
      SignVerifyRoundTrip(claims, secret, issuedAt, now);
    } else {
      SignedTokenExpires(claims, secret, issuedAt, now);
    }
  }

  /** An unknown email and a wrong password for a known email get exactly the same response. */
  lemma LoginFailuresIndistinguishable(t: Table, unknown: string, anyPassword: string, known: string, wrong: string,
                                       secret: string, now: nat)
    requires Valid(t)
    requires unknown != "" && anyPassword != "" && known != "" && wrong != ""
    requires forall i :: 0 <= i < |t.rows| ==> t.rows[i].email != unknown
    requires exists i :: 0 <= i < |t.rows| && t.rows[i].email == known && !Compare(wrong, t.rows[i].password)
    ensures Login(t, LoginRequest(Some(unknown), Some(anyPassword)), secret, now)
         == Login(t, LoginRequest(Some(known), Some(wrong)), secret, now)
         == InvalidCredentials
  {
    var i :| 0 <= i < |t.rows| && t.rows[i].email == known && !Compare(wrong, t.rows[i].password);
    assert FindByEmail(t, known) == Some(t.rows[i]);
  }

  /** Registration keeps usernames distinct, which the schema alone does not. */
  lemma RegisterKeepsUsernamesUnique(t: Table, req: RegisterRequest, salt: nat, now: nat)
    requires Valid(t) && UniqueUsernames(t)
    ensures UniqueUsernames(Register(t, req, salt, now).table)
  {
    var r := Register(t, req, salt, now);
    if r.response.status == 201 {
      var row: UserRecord :| r.table.rows == t.rows + [row] && row.username == req.username.value;
      assert forall i :: 0 <= i < |t.rows| ==> r.table.rows[i] == t.rows[i];
    }
  }

  function RequestFor(username: string, email: string, password: string, code: string): RegisterRequest {
    RegisterRequest(Some(username), Some(email), Some(password), Some(code))
  }

  /** After a successful registration, logging in with the same email and password succeeds for the new row. */
  lemma RegisterThenLogin(t: Table, username: string, email: string, password: string, code: string,
                          salt: nat, now: nat, secret: string, later: nat)
    requires Valid(t)
    requires Register(t, RequestFor(username, email, password, code), salt, now).response.status == 201
    ensures var reg := Register(t, RequestFor(username, email, password, code), salt, now);
            var user := reg.response.body.user;
            && user == PublicUser(user.id, username, email)
            && Login(reg.table, LoginRequest(Some(email), Some(password)), secret, later)
               == Response(200, LoggedIn("Login successful", Sign(Claims(user.id, username, email), secret, later), user))
  {
    var reg := Register(t, RequestFor(username, email, password, code), salt, now);
    var row: UserRecord :| && reg.table.rows == t.rows + [row]
                           && row.username == username && row.email == email
                           && Compare(password, row.password)
                           && reg.response.body == Registered("User registered successfully", Public(row));
    assert reg.table.rows[|t.rows|] == row;
    assert FindByEmail(reg.table, email) == Some(row);
  }

  /** The token of a successful login admits its holder, with the logged-in user's claims, for 24 hours. */
  lemma LoginThenAccess(t: Table, req: LoginRequest, secret: string, now: nat, scheme: string, later: nat)
    requires Valid(t)
    requires Login(t, req, secret, now).status == 200
    requires ' ' !in scheme
    ensures var body := Login(t, req, secret, now).body;
            AuthenticateToken(Some(scheme + " " + body.token), secret, later)
            == if later < now + ExpiresIn
               then Admitted(Payload(body.user.id, body.user.username, body.user.email, now, now + ExpiresIn))
               else Rejected(TokenRejected)
  {
    var i :| 0 <= i < |t.rows| && t.rows[i].email == req.email.value
             && Login(t, req, secret, now).body
                == LoggedIn("Login successful", Sign(Claims(t.rows[i].id, t.rows[i].username, t.rows[i].email), secret, now), Public(t.rows[i]));
    GateAdmitsSignedToken(scheme, Claims(t.rows[i].id, t.rows[i].username, t.rows[i].email), secret, now, later);
  }

  /** A second registration with a taken email, or a taken username, is refused and changes nothing. */
  lemma DuplicateRegistrationRefused(t: Table, first: RegisterRequest, second: RegisterRequest, salt: nat, now: nat, salt2: nat, later: nat)
    requires Valid(t)
    requires Register(t, first, salt, now).response.status == 201
    requires AllFieldsPresent(second) && Utf16Length(second.password.value) >= MinPasswordLength && !CodeRejected(second.code.value)
    requires second.email == first.email || second.username == first.username
    ensures var t1 := Register(t, first, salt, now).table;
            Register(t1, second, salt2, later) == Transition(UserExists, t1)
  {
    var t1 := Register(t, first, salt, now).table;
    var row: UserRecord :| t1.rows == t.rows + [row] && row.username == first.username.value && row.email == first.email.value;
    assert t1.rows[|t.rows|] == row;
  }

  /** A still-valid token whose id has no row (the row is gone) gets 404 from the profile route. */
  lemma ProfileOfVanishedUser(t: Table, claims: Claims, secret: string, issuedAt: nat, now: nat)
    requires Valid(t)
    requires forall i :: 0 <= i < |t.rows| ==> t.rows[i].id != claims.id
    requires now < issuedAt + ExpiresIn
    ensures ProfileRoute(t, Some("Bearer " + Sign(claims, secret, issuedAt)), secret, now) == UserNotFound
  {
    var header := "Bearer " + Sign(claims, secret, issuedAt);
    assert header == "Bearer" + " " + Sign(claims, secret, issuedAt);
    GateAdmitsSignedToken("Bearer", claims, secret, issuedAt, now);
    var g := AuthenticateToken(Some(header), secret, now);
    assert g.Admitted? && g.user.id == claims.id;
    assert ProfileHandler(t, g.user) == UserNotFound;
  }

  /**
   * Without a non-empty `JWT_SECRET`, the gate admits any token signed with the
   * publicly known fallback secret, whatever claims it carries.
   */
  lemma {:induction false} FallbackSecretAdmitsForgedClaims(env: Option<string>, claims: Claims, issuedAt: nat, now: nat)
    requires !Truthy(env)
    requires now < issuedAt + ExpiresIn
    ensures AuthenticateToken(Some("Bearer " + Sign(claims, FallbackSecret, issuedAt)), JwtSecret(env), now)
         == Admitted(Payload(claims.id, claims.username, claims.email, issuedAt, issuedAt + ExpiresIn))
  {
    var token := Sign(claims, FallbackSecret, issuedAt);
    assert "Bearer " + token == "Bearer" + " " + token;
    assert JwtSecret(env) == FallbackSecret;
    GateAdmitsSignedToken("Bearer", claims, FallbackSecret, issuedAt, now);
  }

  /** Under the configured secret, a login token passes the gate with the logged-in user's claims for 24 hours. */
  lemma {:induction false} ConfiguredSecretRoundTrip(env: Option<string>, t: Table, req: LoginRequest, now: nat, later: nat)
    requires Valid(t)
    requires Login(t, req, JwtSecret(env), now).status == 200
    requires later < now + ExpiresIn
    ensures var body := Login(t, req, JwtSecret(env), now).body;
            AuthenticateToken(Some("Bearer " + body.token), JwtSecret(env), later)
            == Admitted(Payload(body.user.id, body.user.username, body.user.email, now, now + ExpiresIn))
  {
    var body := Login(t, req, JwtSecret(env), now).body;
    assert "Bearer " + body.token == "Bearer" + " " + body.token;
    LoginThenAccess(t, req, JwtSecret(env), now, "Bearer", later);
  }
}

/**
 * The request handlers of the authentication service: the access gate
 * (`authenticateToken`), registration, login, and the protected profile, user
 * list and logout routes. Each handler is a pure function of the request, the
 * user table, the signing secret and the clock; registration also takes the
 * salt bcrypt would draw, and returns the table it leaves behind.
 */
module Server {
  import opened Wrappers
  import opened JsString
  import opened Bcrypt
  import opened Jwt
  import opened UserStore

  /** The secret used when the environment supplies none. */
  const FallbackSecret: string := "your-secret-key"

  /** `process.env.JWT_SECRET || "your-secret-key"`: an unset or empty variable falls back. */
  function JwtSecret(env: Option<string>): (secret: string)
    ensures secret != ""
    ensures Truthy(env) ==> secret == env.value
    ensures !Truthy(env) ==> secret == FallbackSecret
  {
    if Truthy(env) then env.value else FallbackSecret
  }

  /** The user as registration and login report it: never the password or its digest. */
  datatype PublicUser = PublicUser(id: nat, username: string, email: string)

  /** The user as the profile and user-list routes report it. */
  datatype ProfileUser = ProfileUser(id: nat, username: string, email: string, createdAt: nat)

  /** The JSON bodies the handlers send. */
  datatype Body =
    | Error(error: string)
    | Registered(message: string, user: PublicUser)
    | LoggedIn(message: string, token: string, user: PublicUser)
    | Profile(profile: ProfileUser)
    | UserList(users: seq<ProfileUser>)
    | Message(message: string)

  datatype Response = Response(status: nat, body: Body)

  const AllFieldsRequired: Response := Response(400, Error("All fields are required"))
  const PasswordTooShort: Response := Response(400, Error("Password must be at least 6 characters"))
  const IncorrectCode: Response := Response(400, Error("Incorrect Code.Contact admin for the code"))
  const UserExists: Response := Response(400, Error("User already exists"))
  const InternalError: Response := Response(500, Error("Internal server error"))
  const CredentialsRequired: Response := Response(400, Error("Email and password are required"))
  const InvalidCredentials: Response := Response(401, Error("Invalid credentials"))
  const TokenRequired: Response := Response(401, Error("Access token required"))
  const TokenRejected: Response := Response(403, Error("Invalid or expired token"))
  const UserNotFound: Response := Response(404, Error("User not found"))

  const MinPasswordLength: nat := 6
  const MinCodeLength: nat := 6
  const AdminCode: string := "270319"

  function Public(row: UserRecord): PublicUser {
    PublicUser(row.id, row.username, row.email)
  }

  function ProfileOf(row: UserRecord): ProfileUser {
    ProfileUser(row.id, row.username, row.email, row.createdAt)
  }

  // ---------------------------------------------------------------------------
  // Access gate

  /**
   * `authHeader && authHeader.split(" ")[1]`, kept only when truthy: the second
   * space-separated piece of the header. The first piece (the scheme) is not looked at.
   */
  function BearerToken(header: Option<string>): (token: Option<string>)
    ensures token.Some? ==> token.value != "" && ' ' !in token.value
    ensures token.Some? ==> header.Some? && exists scheme, rest ::
              && ' ' !in scheme && (rest == "" || rest[0] == ' ')
              && header.value == scheme + " " + token.value + rest
  {
    if header.None? then None
    else
      var parts := Split(header.value, ' ');
      if |parts| < 2 || parts[1] == "" then None
      else
        assert parts == [parts[0]] + parts[1..];
        assert parts[1..] == [parts[1]] + parts[2..];
        assert ' ' !in parts[0];
        if |parts| == 2 then
          assert header.value == parts[0] + " " + parts[1] + "";
          Some(parts[1])
        else
          assert Join(parts[1..], ' ') == parts[1] + " " + Join(parts[2..], ' ');
          assert header.value == parts[0] + " " + parts[1] + (" " + Join(parts[2..], ' '));
          assert (" " + Join(parts[2..], ' '))[0] == ' ';
          Some(parts[1])
  }

  /** The outcome of the gate: a rejection sent in place of the route, or the decoded token the route runs with. */
  datatype GateResult = Rejected(response: Response) | Admitted(user: Payload)

  /** `authenticateToken`: 401 without a token, 403 when verification fails, otherwise admit with the decoded payload. */
  function AuthenticateToken(header: Option<string>, secret: string, now: nat): (g: GateResult)
    ensures g == Rejected(TokenRequired) <==> BearerToken(header).None?
    ensures g == Rejected(TokenRejected) <==> BearerToken(header).Some? && Verify(BearerToken(header).value, secret, now).Err?
    ensures g.Admitted? ==> Verify(BearerToken(header).value, secret, now) == Ok(g.user) && now < g.user.exp
    ensures g.Rejected? ==> g.response == TokenRequired || g.response == TokenRejected
  {
    match BearerToken(header)
    case None => Rejected(TokenRequired)
    case Some(token) =>
      match Verify(token, secret, now)
      case Err(_) => Rejected(TokenRejected)
      case Ok(user) => Admitted(user)
  }

  /** A route behind the gate: the handler runs once, with the decoded payload, only when the gate admits. */
  function Protected(header: Option<string>, secret: string, now: nat, handler: Payload -> Response): (r: Response)
    ensures AuthenticateToken(header, secret, now).Rejected? ==> r == AuthenticateToken(header, secret, now).response
    ensures AuthenticateToken(header, secret, now).Admitted? ==> r == handler(AuthenticateToken(header, secret, now).user)
  {
    match AuthenticateToken(header, secret, now)
    case Rejected(response) => response
    case Admitted(user) => handler(user)
  }

  // ---------------------------------------------------------------------------
  // Registration

  /** The request body fields registration reads; None stands for a missing (undefined or null) field. */
  datatype RegisterRequest = RegisterRequest(username: Option<string>, email: Option<string>, password: Option<string>, code: Option<string>)

  predicate AllFieldsPresent(req: RegisterRequest) {
    Truthy(req.username) && Truthy(req.email) && Truthy(req.password) && Truthy(req.code)
  }

  /**
   * The invite-code test as written: short and not the admin code. The admin code
   * is itself six characters long, so the test is nothing more than a length test.
   */
  predicate CodeRejected(code: string): (rejected: bool)
    ensures rejected <==> Utf16Length(code) < MinCodeLength
  {
    Utf16LengthOfBmp(AdminCode);
    Utf16Length(code) < MinCodeLength && code != AdminCode
  }

  /** A handler's response together with the table it leaves behind. */
  datatype Transition = Transition(response: Response, table: Table)

  /** Every check registration makes before it hashes and inserts. */
  predicate RegistrationAccepted(t: Table, req: RegisterRequest) {
    && AllFieldsPresent(req)
    && Utf16Length(req.password.value) >= MinPasswordLength
    && !CodeRejected(req.code.value)
    && forall i :: 0 <= i < |t.rows| ==> t.rows[i].email != req.email.value && t.rows[i].username != req.username.value
  }

  /**
   * `POST /api/register`: required fields, password length, invite code, then
   * the existing-user check; on success the password is hashed with `salt` at
   * cost 10 and a row inserted at time `now`. A failing insert is reported as 500.
   */
  function Register(t: Table, req: RegisterRequest, salt: nat, now: nat): (r: Transition)
    requires Valid(t)
    ensures Valid(r.table)
    ensures r.response.status != 201 ==> r.table == t
    ensures !AllFieldsPresent(req) ==> r.response == AllFieldsRequired
    ensures AllFieldsPresent(req) && Utf16Length(req.password.value) < MinPasswordLength ==> r.response == PasswordTooShort
    ensures AllFieldsPresent(req) && Utf16Length(req.password.value) >= MinPasswordLength && CodeRejected(req.code.value)
            ==> r.response == IncorrectCode
    ensures AllFieldsPresent(req) && Utf16Length(req.password.value) >= MinPasswordLength && !CodeRejected(req.code.value)
            && FindByEmailOrUsername(t, req.email.value, req.username.value).Some?
            ==> r.response == UserExists
    ensures r.response.status == 201 <==> RegistrationAccepted(t, req) && t.lastId < MaxRowId
    ensures RegistrationAccepted(t, req) && t.lastId >= MaxRowId ==> r.response == InternalError
    ensures r.response.status == 201 ==>
              exists row: UserRecord ::
                && r.table.rows == t.rows + [row]
                && row.username == req.username.value && row.email == req.email.value
                && Compare(req.password.value, row.password) && row.password == Hash(req.password.value, SaltRounds, salt)
                && row.id == t.lastId + 1 && r.table.lastId == row.id
                && row.createdAt == now
                && (forall i :: 0 <= i < |t.rows| ==> t.rows[i].id < row.id)
                && r.response.body == Registered("User registered successfully", Public(row))
  {
    if !AllFieldsPresent(req) then Transition(AllFieldsRequired, t)
    else
      var username, email, password, code := req.username.value, req.email.value, req.password.value, req.code.value;
      if Utf16Length(password) < MinPasswordLength then Transition(PasswordTooShort, t)
      else if CodeRejected(code) then Transition(IncorrectCode, t)
      else if FindByEmailOrUsername(t, email, username).Some? then Transition(UserExists, t)
      else
        var digest := Hash(password, SaltRounds, salt);
        match Insert(t, username, email, digest, now)
        case Err(_) => Transition(InternalError, t)
        case Ok(inserted) =>
          var row := UserRecord(inserted.id, username, email, digest, now);
          assert inserted.table.rows == t.rows + [row];
          Transition(Response(201, Registered("User registered successfully", Public(row))), inserted.table)
  }

  // ---------------------------------------------------------------------------
  // Login

  /** The request body fields login reads. */
  datatype LoginRequest = LoginRequest(email: Option<string>, password: Option<string>)

  /** Whether the table holds a row with this email whose digest matches this password. */
  predicate CredentialsMatch(t: Table, email: string, password: string) {
    exists i :: 0 <= i < |t.rows| && t.rows[i].email == email && Compare(password, t.rows[i].password)
  }

  /**
   * `POST /api/login`: both fields required; an unknown email and a wrong
   * password both give the same 401; otherwise a token for the row's
   * `{id, username, email}` is signed at time `now`.
   */
  function Login(t: Table, req: LoginRequest, secret: string, now: nat): (r: Response)
    requires Valid(t)
    ensures !(Truthy(req.email) && Truthy(req.password)) ==> r == CredentialsRequired
    ensures Truthy(req.email) && Truthy(req.password) && !CredentialsMatch(t, req.email.value, req.password.value)
            ==> r == InvalidCredentials
    ensures r.status == 200 <==> Truthy(req.email) && Truthy(req.password) && CredentialsMatch(t, req.email.value, req.password.value)
    ensures r.status == 200 ==>
              exists i :: 0 <= i < |t.rows| && t.rows[i].email == req.email.value
                          && r.body == LoggedIn("Login successful",
                                                Sign(Claims(t.rows[i].id, t.rows[i].username, t.rows[i].email), secret, now),
                                                Public(t.rows[i]))
  {
    if !(Truthy(req.email) && Truthy(req.password)) then CredentialsRequired
    else
      var email, password := req.email.value, req.password.value;
      match FindByEmail(t, email)
      case None => InvalidCredentials
      case Some(user) =>
        if !Compare(password, user.password) then InvalidCredentials
        else
          var token := Sign(Claims(user.id, user.username, user.email), secret, now);
          Response(200, LoggedIn("Login successful", token, Public(user)))
  }

  // ---------------------------------------------------------------------------
  // Protected routes

  /** The profile handler once the gate has admitted `user`: 404 when no row has the token's id. */
  function ProfileHandler(t: Table, user: Payload): (r: Response)
    requires Valid(t)
    ensures r == UserNotFound <==> forall i :: 0 <= i < |t.rows| ==> t.rows[i].id != user.id
    ensures r != UserNotFound ==> exists i :: 0 <= i < |t.rows| && t.rows[i].id == user.id
                                              && r == Response(200, Profile(ProfileOf(t.rows[i])))
  {
    match FindById(t, user.id)
    case None => UserNotFound
    case Some(row) => Response(200, Profile(ProfileOf(row)))
  }

  /** `GET /api/profile` */
  function ProfileRoute(t: Table, header: Option<string>, secret: string, now: nat): (r: Response)
    requires Valid(t)
    ensures AuthenticateToken(header, secret, now).Admitted? ==> r == ProfileHandler(t, AuthenticateToken(header, secret, now).user)
    ensures AuthenticateToken(header, secret, now).Rejected? ==> r == AuthenticateToken(header, secret, now).response
  {
    Protected(header, secret, now, user => ProfileHandler(t, user))
  }

  /** `SELECT id, username, email, createdAt FROM users`, row by row in rowid order. */
  function ListUsers(rows: seq<UserRecord>): (users: seq<ProfileUser>)
    ensures |users| == |rows|
    ensures forall i :: 0 <= i < |rows| ==> users[i] == ProfileOf(rows[i])
  {
    if rows == [] then [] else [ProfileOf(rows[0])] + ListUsers(rows[1..])
  }

  /** `GET /api/users` */
  function UsersRoute(t: Table, header: Option<string>, secret: string, now: nat): (r: Response)
    ensures AuthenticateToken(header, secret, now).Admitted? ==> r == Response(200, UserList(ListUsers(t.rows)))
    ensures AuthenticateToken(header, secret, now).Rejected? ==> r == AuthenticateToken(header, secret, now).response
  {
    Protected(header, secret, now, _ => Response(200, UserList(ListUsers(t.rows))))
  }

  /** `POST /api/logout`: nothing happens server-side; tokens stay valid until they expire. */
  function LogoutRoute(header: Option<string>, secret: string, now: nat): (r: Response)
    ensures r.status == 200 <==> AuthenticateToken(header, secret, now).Admitted?
    ensures r.status == 200 ==> r.body == Message("Logout successful")
    ensures AuthenticateToken(header, secret, now).Rejected? ==> r == AuthenticateToken(header, secret, now).response
  {
    Protected(header, secret, now, _ => Response(200, Message("Logout successful")))
  }
}

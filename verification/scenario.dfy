/** Alice registers, logs in, reads her profile, and a wrong password is refused. */
module Scenario {
  import opened Wrappers
  import opened JsString
  import opened Bcrypt
  import opened Jwt
  import opened UserStore
  import opened Server
  import AuthProperties

  function AliceRequest(): RegisterRequest {
    RegisterRequest(Some("alice"), Some("a@x.com"), Some("secret1"), Some("270319"))
  }

  /** Alice's request passes every check registration makes on an empty table. */
  lemma AliceAccepted()
    ensures RegistrationAccepted(Table([], 0), AliceRequest())
  {
    Utf16LengthOfBmp("secret1");
    assert Utf16Length("secret1") >= MinPasswordLength;
  }

  /** On a freshly created table alice gets id 1 and her row is the only one. */
  lemma {:induction false} AliceRegisters(salt: nat, now: nat)
    ensures var reg := Register(CreateTableIfNotExists(None), AliceRequest(), salt, now);
            && reg.response == Response(201, Registered("User registered successfully", PublicUser(1, "alice", "a@x.com")))
            && reg.table.rows == [UserRecord(1, "alice", "a@x.com", Hash("secret1", SaltRounds, salt), now)]
  {
    var empty := CreateTableIfNotExists(None);
    assert empty == Table([], 0);
    AliceAccepted();
    var reg := Register(empty, AliceRequest(), salt, now);
    assert reg.response.status == 201;
    var row: UserRecord :| && reg.table.rows == [] + [row]
                           && row.username == "alice" && row.email == "a@x.com"
                           && row.createdAt == now && row.id == 1
                           && row.password == Hash("secret1", SaltRounds, salt)
                           && reg.response.body == Registered("User registered successfully", Public(row));
    assert [] + [row] == [row];
  }

  function AliceTable(salt: nat, now: nat): Table {
    Table([UserRecord(1, "alice", "a@x.com", Hash("secret1", SaltRounds, salt), now)], 1)
  }

  lemma AliceTableValid(salt: nat, now: nat)
    ensures Valid(AliceTable(salt, now))
  {
    var t := AliceTable(salt, now);
    assert |t.rows| == 1 && t.rows[0].id == 1 && t.lastId == 1;
  }

  /** Logging in with alice's email and password yields a token for `{1, "alice", "a@x.com"}`; another password gets 401. */
  lemma {:induction false} AliceLogsIn(salt: nat, now: nat, secret: string, later: nat)
    ensures Login(AliceTable(salt, now), LoginRequest(Some("a@x.com"), Some("secret1")), secret, later)
         == Response(200, LoggedIn("Login successful", Sign(Claims(1, "alice", "a@x.com"), secret, later), PublicUser(1, "alice", "a@x.com")))
    ensures Login(AliceTable(salt, now), LoginRequest(Some("a@x.com"), Some("secret2")), secret, later) == InvalidCredentials
  {
    var t := AliceTable(salt, now);
    AliceTableValid(salt, now);
    assert Compare("secret1", t.rows[0].password);
    assert CredentialsMatch(t, "a@x.com", "secret1");
    assert "secret1" != "secret2";
    assert !CredentialsMatch(t, "a@x.com", "secret2");
  }

  /** The login token, presented as `Bearer <token>`, reads alice's profile. */
  lemma {:induction false} AliceReadsProfile(salt: nat, now: nat, secret: string, later: nat)
    requires later < now + ExpiresIn
    ensures ProfileRoute(AliceTable(salt, now), Some("Bearer " + Sign(Claims(1, "alice", "a@x.com"), secret, now)), secret, later)
         == Response(200, Profile(ProfileUser(1, "alice", "a@x.com", now)))
  {
    var t := AliceTable(salt, now);
    var token := Sign(Claims(1, "alice", "a@x.com"), secret, now);
    assert "Bearer " + token == "Bearer" + " " + token;
    AuthProperties.GateAdmitsSignedToken("Bearer", Claims(1, "alice", "a@x.com"), secret, now, later);
    var g := AuthenticateToken(Some("Bearer " + token), secret, later);
    assert g.Admitted? && g.user.id == 1;
    assert FindById(t, 1) == Some(t.rows[0]);
  }

  /** The table registration leaves is the one the later steps use. */
  lemma AliceTableIsRegistered(salt: nat, now: nat)
    ensures Register(CreateTableIfNotExists(None), AliceRequest(), salt, now).table == AliceTable(salt, now)
  {
    AliceRegisters(salt, now);
  }
}

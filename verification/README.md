# Authentication service model

A Dafny model of the authentication core of a small Express service backed by a
SQLite `users` table: user registration, login with a signed 24-hour token, the
`authenticateToken` access gate, and the protected profile, user-list and
logout routes. Each request handler is a pure function of the request body or
`Authorization` header, the user table, the signing secret and the clock.
Registration also returns the table it leaves behind.

Modules, leaves first:

- `Wrappers` (`wrappers.dfy`): `Option` and `Result`.
- `JsString` (`js_string.dfy`): the JavaScript string behaviour the handlers depend on. A body
  field is truthy only when it is a non-empty string. `length` counts UTF-16 code units.
  `split(" ")` is modelled with its inverse `join`.
- `HexText` (`hex_text.dfy`): hex numerals and six-digit character codes, with round trips.
- `Bcrypt` (`bcrypt.dfy`): `bcrypt.hash`/`bcrypt.compare`, modelled as a symbolic digest.
- `Jwt` (`jwt.dfy`): `jwt.sign`/`jwt.verify`. A token is URL-safe text
  `HS256.<payload>.<signature>`. The payload is `{id, username, email, iat, exp}` with
  `exp = iat + 86400`. Verification checks the format first, then the signature, then
  expiry. A token is expired from the second `now >= exp` on.
- `UserStore` (`user_store.dfy`): the `users` table as rows in rowid order plus the
  AUTOINCREMENT counter. It holds the schema invariant (ids increasing and at most the
  counter, emails distinct), `CREATE TABLE IF NOT EXISTS`, the three lookups and the insert.
- `Server` (`server.dfy`): the secret configuration, the access gate and the route handlers.
- `AuthProperties` (`auth_properties.dfy`): lemmas that link handlers, e.g. register then
  login, login then gate, and the invariants registration keeps.
- `Scenario` (`scenario.dfy`): alice registers, logs in, reads her profile and is refused
  with a wrong password.

Behaviour of the code worth knowing, each stated as a lemma:

- The invite-code test `code.length < 6 && code !== "270319"` is the same as
  `code.length < 6`, because the admin code is itself six characters long.
  Every code of six or more UTF-16 units is accepted (`CodeRejected`).
- The gate takes the second space-separated piece of the header and never looks
  at the first, so any scheme word works, not only `Bearer` (`GateIgnoresScheme`).
- Only `email` is UNIQUE in the schema. Two rows may share a username
  (`SchemaAllowsDuplicateUsername`). Registration's own pre-check keeps usernames
  distinct (`RegisterKeepsUsernamesUnique`).
- A duplicate email or username is answered `400 "User already exists"`.
- Length is counted in UTF-16 code units, so three emoji make a valid
  six-unit password (`AstralPasswordLength`).
- Without a non-empty `JWT_SECRET` the fallback secret is used, so anyone can sign
  tokens the gate admits (`FallbackSecretAdmitsForgedClaims`).

Every handler and gate takes the secret as a parameter. The service passes it the
configured value `JwtSecret(env)`; `ConfiguredSecretRoundTrip` states the login-to-gate
round trip under that value.

## Model

| member | source | states |
|---|---|---|
| Server.JwtSecret | index.js:33 | the signing secret is the environment value when that is a non-empty string and otherwise "your-secret-key"; it is never empty |
| JsString.Truthy | index.js:66 | a body field passes the `!field` test exactly when it is present and has a positive `length` |
| JsString.Utf16Length | index.js:70 | `length` of a string lies between its character count and twice that, and is zero only for the empty string |
| JsString.Split | index.js:38 | `split` returns at least one piece, no piece contains the separator, and joining the pieces restores the input |
| JsString.SplitJoin | index.js:38 | splitting a join of separator-free pieces gives back exactly those pieces |
| JsString.SplitSecondPiece | index.js:38 | in `w sep v rest`, with `rest` empty or starting with the separator, the first two pieces are `w` and `v` |
| Server.BearerToken | index.js:37-38 | the extracted token is non-empty and holds no space; it follows the header's first space, after a space-free scheme, and runs to the next space or the end |
| AuthProperties.BearerTokenOfHeader | index.js:38 | a header `scheme token rest`, with a space-free scheme, a non-empty space-free token and a rest that is empty or begins with a space, yields exactly `token` |
| AuthProperties.GateIgnoresScheme | index.js:38 | two headers that differ only in the first word get the same gate outcome |
| Server.AuthenticateToken | index.js:36-51 | 401 "Access token required" exactly when there is no token; 403 "Invalid or expired token" exactly when verification fails; otherwise admitted with the verified, unexpired payload |
| Server.Protected | index.js:44-50 | the route handler runs, with the decoded payload, only when the gate admits; otherwise the response is the gate's 401 or 403 |
| AuthProperties.NoTokenUnauthenticated | index.js:40-42 | a missing header, or one with no space, is answered 401 |
| AuthProperties.GarbageTokenForbidden | index.js:44-47 | a non-empty token with no dot is answered 403 |
| AuthProperties.GateAdmitsSignedToken | index.js:44-49 | a signed token is admitted with its claims, issue time and expiry before 24 hours have passed, and answered 403 from then on |
| Bcrypt.Hash | index.js:92-93 | the digest records cost and salt, matches the hashed password, and matches no other password |
| Bcrypt.CompareAcceptsOnlyItsHash | index.js:134 | `compare` accepts a password exactly when the digest is that password's hash under the digest's own cost and salt |
| Jwt.Sign | index.js:140-148 | a token contains only URL-safe characters and therefore no space |
| Jwt.Verify | index.js:44-47 | a token verifies only before its expiry and only if it is the format-correct signing, under this secret, of the payload returned |
| Jwt.PayloadRoundTrip | index.js:140-145 | the encoded claims, issue time and expiry decode to the same values |
| Jwt.SignVerifyRoundTrip | index.js:140-148 | verifying a signed token with the same secret before expiry gives back the claims with `iat` = issue time and `exp` = issue time + 24h |
| Jwt.SignedTokenExpires | index.js:147 | from 24 hours after issue on, the same token fails as expired |
| Jwt.OtherSecretRejected | index.js:44-47 | a token checked against a secret that would have signed the same claims differently fails on its signature |
| Jwt.TamperedSignatureRejected | index.js:44-47 | replacing a token's signature segment with any other dot-free text makes it fail on its signature |
| Jwt.DotlessTokenMalformed | index.js:44-47 | text without a dot is rejected as malformed |
| UserStore.Valid | db.js:7-9 | the schema invariant: ids increase in rowid order and never exceed the AUTOINCREMENT counter, and emails are distinct; it implies that ids are distinct and that there are no more rows than ids handed out |
| UserStore.CreateTableIfNotExists | db.js:5-13 | an existing table is returned unchanged, otherwise the new table is empty and satisfies the schema |
| UserStore.CreateTableIdempotent | db.js:5-6 | running table creation twice gives the same table as once, and keeps existing rows |
| UserStore.Insert | db.js:6-11 | the insert succeeds iff the email is unused and rowids are not exhausted; it appends exactly one row with the given fields, a fresh id, the counter plus one, above every existing id and `createdAt` = now; the schema invariant is kept |
| UserStore.SchemaAllowsDuplicateUsername | db.js:8-9 | two inserts with one username and different emails both succeed and leave a valid table with a repeated username |
| UserStore.FindByEmailOrUsername | index.js:83-85 | finds nothing iff no row has the email or the username; a found row has one of them |
| UserStore.FindByEmail | index.js:127 | finds nothing iff no row has the email, otherwise returns the row with that email |
| UserStore.FindById | index.js:167 | finds nothing iff no row has the id, otherwise returns the row with that id |
| Server.Register | index.js:61-114 | the checks run in order (fields, password length, code, existing user), each with its own 400 message; any non-201 leaves the table unchanged; 201 iff every check passes and a rowid is left; on 201 exactly one row is appended, holding the username, email, the cost-10 digest of the password with the given salt, the id counter plus one (above every existing id, and the new value of the counter) and `createdAt` = now; the body is `{message, user: {id, username, email}}`; the schema invariant is kept |
| Server.CodeRejected | index.js:76-80 | the code test as written rejects a code iff it is shorter than six UTF-16 units |
| AuthProperties.AstralPasswordLength | index.js:70 | a three-character password of emoji has length six and passes the minimum |
| AuthProperties.RegisterKeepsUsernamesUnique | index.js:83-89 | registration keeps usernames distinct |
| AuthProperties.DuplicateRegistrationRefused | index.js:83-89 | after a successful registration, a second one with the same email or the same username gets "User already exists" and changes nothing |
| Server.Login | index.js:117-163 | 400 when email or password is missing; the same 401 "Invalid credentials" when no row has the email or the password does not match; 200 iff some row has the email and a matching digest, with a token signed now for that row's `{id, username, email}` and the same three fields as `user` |
| AuthProperties.LoginFailuresIndistinguishable | index.js:129-137 | an unknown email and a wrong password get identical responses |
| AuthProperties.RegisterThenLogin | index.js:96-158 | after a successful registration, logging in with the same email and password returns 200 with a token for the new id, username and email |
| AuthProperties.LoginThenAccess | index.js:140-158 | the token a login returns passes the gate with the logged-in user's claims for 24 hours and is refused afterwards |
| AuthProperties.ConfiguredSecretRoundTrip | index.js:33 | with the configured secret, a login token passes the gate with the user's claims for 24 hours |
| AuthProperties.FallbackSecretAdmitsForgedClaims | index.js:33 | with `JWT_SECRET` unset or empty, a token signed with "your-secret-key" for any claims is admitted |
| Server.ProfileHandler | index.js:167-180 | 404 "User not found" iff no row has the token's id; otherwise 200 with that row's id, username, email and createdAt |
| Server.ProfileRoute | index.js:166-181 | the profile handler runs on the gate's payload when admitted, and the gate's rejection is returned otherwise |
| AuthProperties.ProfileOfVanishedUser | index.js:167-171 | a still-valid token whose id has no row gets 404 |
| Server.ListUsers | index.js:190-198 | one entry per row, in rowid order, with exactly id, username, email and createdAt |
| Server.UsersRoute | index.js:189-201 | admitted callers get 200 with the listing of every row; others get the gate's rejection |
| Server.LogoutRoute | index.js:184-186 | 200 "Logout successful" exactly when the gate admits; otherwise the gate's own 401 or 403 response; nothing else changes |
| Scenario.AliceRegisters | index.js:100-109 | alice registering on a new table gets 201 with id 1, and hers is the only row |
| Scenario.AliceLogsIn | index.js:140-158 | alice's password yields a token for `{1, "alice", "a@x.com"}`; another password gets 401 |
| Scenario.AliceReadsProfile | index.js:173-180 | alice's token, sent as `Bearer <token>`, returns her profile |

## Left out

- Express wiring, CORS, static files, the `/` page, the 404 and error middleware and `app.listen` are transport plumbing.
- Logging and the `catch` blocks are not modelled separately. The only failure in the model after validation is a failed insert, which registration answers with 500 "Internal server error".
- Bcrypt.Hash: the digest is a symbolic term that `Compare` opens only for its own password. Real bcrypt truncates passwords to 72 bytes, so two long passwords sharing a prefix would both match; the model leaves this out and is injective.
- Jwt.Sign: the JSON, base64url and HMAC-SHA256 of a real token are replaced by a hex text format and a stand-in keyed function `Mac`. Nothing is proved about the unforgeability of signatures.
- Jwt.Verify: only the format, signature and `exp` checks are modelled. The library's `nbf`, audience and algorithm-list options are not used by the service.
- Request bodies are modelled as absent or string fields only. A number or boolean in the JSON body is not modelled. With such a value, `password.length` and `code.length` are `undefined` and the source's length checks pass.
- `createdAt` is the insertion time in seconds. SQLite's `CURRENT_TIMESTAMP` text format is not modelled.
- Execution is sequential. Concurrent registrations racing between the existence check and the insert are not modelled. In the sequential model the insert's UNIQUE constraint never fires after the pre-check passes.
- Rows are never deleted by this core. The 404 of the profile route is reached in the model with a token whose id has no row.
- Server.Protected: calling `next` exactly once is expressed by the handler being applied once to the decoded payload. Callback scheduling is not modelled.
- Server.Register: ids are exact integers up to 2^63-1. In the service, `lastInsertRowid` is a JavaScript number, exact only up to 2^53, so the reported id would be rounded above that.
- Server.Login: the token's and the response's `id` are exact in the model. In the service they are JavaScript numbers rounded above 2^53.
- Server.ProfileHandler: the lookup uses the exact id. In the service an id above 2^53 arrives rounded, so the lookup could miss the row or find another one.
- JsString.Utf16Length: strings are sequences of Unicode scalar values. A JSON body can carry a lone surrogate such as `"\uD800"`, which JavaScript counts as one unit; such strings are not modelled.
- The clock (`now`, whole seconds), the bcrypt salt and the `JWT_SECRET` environment value are parameters.

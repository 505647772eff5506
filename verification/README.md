# Verified model of the restapi_jwt authentication core

This project models, in Dafny, the decision logic of a small Go HTTP API
that registers users, logs them in with a bcrypt-checked password and
issues an HS256 JSON Web Token (RFC 7519; HS256 is section 3.2 of
RFC 7518), and guards one endpoint with a bearer-token check. The
libraries underneath are abstract oracles:

- bcrypt is a `Bcrypt.Hasher`: an uninterpreted `generate(password, cost)`
  and `compare(hash, password)`;
- the users table is a `Store.Db`: the result of the insert and of the
  lookup by email;
- jwt-go is a `Jwt.Library`: uninterpreted `sign`, `decode` and `verify`,
  with the order in which `jwt.Parse` consults them and the key callback
  written out (`Jwt.Parse`).

Each handler is a pure function of the decoded request and the oracles. The
signup and login handlers return a `Controllers.Run`: how the request ends
(a response, or `Fatal` where the Go code calls `log.Fatal`) together with
the calls made into the collaborators, so that "nothing was hashed or
stored" is something a contract can say. The middleware returns a
`Middlewares.Verdict`: the wrapped handler is called with the request, a
401 is written, or the nil-error branch is reached (proved impossible).

The signup, login, token and middleware code exists twice in the
repository (main.go, and controllers/user.go, utils/utils.go,
middlewares/middlewares.go) with identical bodies; one model serves both
copies and the table below cites either.

Modules: `Wrappers` (Option, Result), `Models` (User, responses, status
codes), `Strings` (Go's `strings.Split` on one character, with `Join`),
`Bcrypt` and `Store` (oracles), `Jwt` (the jwt-go skeleton), `Utils`
(`GenerateToken`), `Controllers` (signup, login), `Middlewares` (the bearer
check) and `Flows` (login token against the middleware).

A successful signup answers 200, because the handler writes the body
without a status and net/http then sends 200. Lookup errors other than
"no rows", and bcrypt or signing failures, end the process (`Fatal`)
instead of answering. The scheme word of the `Authorization` header is
never checked. The 400 messages of signup are Portuguese strings.

## Model

| member | source | states |
|---|---|---|
| Strings.Split | middlewares/middlewares.go:21 | the header splits into one more part than it has spaces and no part contains a space, so there are two parts exactly when there is one space, and an empty header is one part |
| Strings.JoinSplit | main.go:165 | splitting loses nothing: the parts joined with single spaces give the header back |
| Strings.SplitJoin | middlewares/middlewares.go:21-25 | space-free parts are recovered by splitting their join |
| Strings.SplitInTwo | main.go:165-169 | a header that splits in two is the first part, one space, then the second part |
| Strings.SplitAround | middlewares/middlewares.go:21-23 | two space-free words around one space split into exactly those two words |
| Jwt.MethodFamily | middlewares/middlewares.go:29 | the HMAC family of signing methods is exactly HS256, HS384 and HS512 |
| Jwt.Parse | main.go:172-177 | the parse error is nil exactly when the token is valid; a key reaches verification only as the callback's answer for the token's method family; a valid token has verified under that key |
| Utils.TokenClaims | utils/utils.go:37-40 | the claim set is exactly email and iss, with iss equal to "course" |
| Utils.GenerateToken | utils/utils.go:33-49 | a token is issued exactly when signing HS256 under "secret" succeeds; a signing failure is fatal; no error is ever returned |
| Utils.TokenDependsOnlyOnEmail | main.go:78-94 | users with the same email get the same token: id and password do not reach it |
| Utils.IssuedTokenVerifies | utils/utils.go:35-42 | under the library's round-trip promise an issued token decodes to HS256 and its claims, verifies under "secret" and contains no space |
| Controllers.Signup | main.go:37-75 | no collaborator is called unless both fields are present; empty email gives 400 with its message whatever the password; empty password gives 400; only the cost-10 bcrypt hash of the password is inserted; a user record answers 200 with the inserted id and a blank password; every error body is one of three fixed messages |
| Controllers.SignupSucceedsIff | controllers/user.go:17-55 | a user record is returned exactly when both fields are present and hashing and the insert succeed |
| Controllers.SignupInsertFailureIsOpaque | controllers/user.go:44-49 | every failed insert, duplicate email included, gives the same 500 "Server error." whatever the database error was |
| Controllers.SignupFatalOnlyOnHashFailure | main.go:54-58 | the process ends exactly when bcrypt fails, and then nothing is inserted |
| Controllers.Login | main.go:96-151 | no collaborator is called unless both fields are present; the email check comes first; a token is written only for a found row whose hash accepts the password, with status 200; valid credentials always get a token unless the process ends; the process ends exactly on a lookup error other than no rows or a signing failure; the token is the one GenerateToken issues for the stored row; every error body is one of four fixed messages |
| Controllers.LoginUnknownUser | controllers/user.go:80-86 | an unknown email gives 400 "The user does not exists" after the lookup alone, whatever the password |
| Controllers.LoginQueryErrorIsFatal | main.go:119-129 | a lookup error other than no rows ends the process instead of answering |
| Controllers.LoginSignsBeforeComparing | controllers/user.go:92-111 | the token is signed before the password is compared; a signing failure ends the process whatever the password; once signed, a match answers 200 with that token and a mismatch answers 401 "Invalid Password" |
| Middlewares.KeyFunc | middlewares/middlewares.go:28-33 | the callback yields a key exactly for the HMAC family, and that key is "secret", the issuing key |
| Middlewares.TokenVerifyMiddleware | main.go:158-199 | the verdict names at most one call of the handler, which receives the request unchanged; the nil-error branch is unreachable; a header without exactly one space gets 401 "Invalid token."; every refusal is a 401 error body |
| Middlewares.VerifiesOnlyWithSecret | main.go:172-177 | any key given to signature verification is "secret", and only for an HMAC-family token |
| Middlewares.DecidedBySecondWord | middlewares/middlewares.go:19-43 | with one space in the header the handler runs exactly when the word after it decodes, names an HMAC method and verifies under "secret"; otherwise the 401 carries the parse error's message |
| Middlewares.SchemeWordIgnored | main.go:165-169 | headers differing only in the word before the space get the same verdict |
| Middlewares.ForwardIff | middlewares/middlewares.go:14-55 | the handler runs exactly when the header has one space and the second part is an accepted token |
| Middlewares.NonHmacRefusedWithoutKey | middlewares/middlewares.go:28-31 | a token naming a registered non-HMAC method gets 401 "There was an error" and no key is ever supplied for it |
| Middlewares.MissingHeaderRefused | middlewares/middlewares.go:49-52 | a missing or empty header is one empty part and gets 401 "Invalid token." |
| Flows.IssuedTokenOpensProtected | utils/utils.go:42 | a token issued by GenerateToken passes the middleware under any one-word scheme, given the library's round-trip promise |
| Flows.LoginTokenOpensProtected | main.go:146-150 | the token a successful login writes, sent as "Bearer <token>", lets the protected handler run, given the library's round-trip promise |
| Flows.LoginTokenNamesAccount | main.go:131-150 | the token a successful login writes decodes to exactly the stored row's email and the "course" issuer, given the library's round-trip promise |
| Flows.ForeignKeyTokenRefused | main.go:172-183 | an HS256 token signed under a key of at most 64 ASCII characters that is not "secret" up to trailing zero bytes gets a 401 carrying the verifier's message, given the library's round-trip promise and HMAC's key separation |
| Flows.ZeroPaddedSecretAccepted | main.go:172-187 | an HS256 token signed under "secret" followed by at most 58 zero bytes (so the key fits one 64-byte HMAC block) is let through, because HMAC zero-pads such keys, given the library's round-trip promise and that padding equivalence |

## Left out

- Routing, `main`, `ListenAndServe`, `Logging` and `protectedEndpoint` (main.go:22-35, 153-155): wiring and printing, no decisions.
- driver/driver.go is not part of this model: a database connection with a fixed connection string.
- JSON encoding and header writing in `RespondWithError` and `ResponseJSON`, including the Content-Type header signup sets: a response is a status and a body value.
- The ignored JSON decode error of both handlers: the decoded email and password are the inputs.
- bcrypt internals (salt, cost schedule, Blowfish): `generate` and `compare` are uninterpreted, so properties of the hash itself (salting, never equal to the plaintext) are not stated.
- jwt-go internals (base64url, JSON claims, HMAC-SHA-256): `sign`, `decode` and `verify` are uninterpreted; claim validation and the signature check are one `verify`, so their separate error messages are not modelled. `verify` reads the clock (jwt-go checks `exp`, `iat` and `nbf` against the current time), so a `Library` value stands for the library at the moment of one request, and lemmas comparing two requests hold them at the same moment.
- Jwt.RoundTrips, Jwt.KeySeparates and Jwt.PadInsensitive: the sign/parse round trip, HMAC key separation and HMAC's zero-padding equivalence are hypotheses of the lemmas that use them, not something proved.
- Flows.ForeignKeyTokenRefused: covers only keys of at most 64 ASCII characters that differ from "secret" by more than trailing zero bytes; HMAC pads keys that fit its block with zeros (so "secret" followed by at most 58 zero bytes is accepted, see Flows.ZeroPaddedSecretAccepted) and hashes keys longer than its 64-byte block first, which the model does not compute.
- The database as state: each request sees one insert or lookup result, so the unique email constraint and concurrent signups are not modelled; a duplicate email is one of the insert failures.
- `log.Fatal` ends the process; here it is the terminal `Fatal` outcome.
- Login's `if err != nil` after `GenerateToken` (main.go:132-134): `GenerateToken` never returns a non-nil error, so the branch has no counterpart.
- Request fields other than the header are carried through unexamined.

/** The three handlers together: a token that login writes opens the
    protected endpoint, because it is signed with the key the middleware
    verifies with. */
module Flows {
  import opened Models
  import opened Jwt
  import opened Utils
  import opened Controllers
  import opened Middlewares
  import opened Wrappers

  /** Every token GenerateToken issues passes the middleware under any
      one-word scheme, given the library's round-trip promise. */
  lemma IssuedTokenOpensProtected(lib: Library, user: User, req: Request, scheme: string)
    requires RoundTrips(lib)
    requires GenerateToken(lib, user).Issued?
    requires ' ' !in scheme
    requires AuthHeader(req) == scheme + " " + GenerateToken(lib, user).token
    ensures TokenVerifyMiddleware(lib, req) == Forward(req)
  {
    var token := GenerateToken(lib, user).token;
    IssuedTokenVerifies(lib, user);
    assert MethodFamily(SigningAlg) == Some(Hmac);
    assert Accepts(lib, token);
    DecidedBySecondWord(lib, req, scheme, token);
  }

  /** A token written by a successful login, presented as
      `Authorization: Bearer <token>`, lets the protected handler run. */
  lemma LoginTokenOpensProtected(env: Env, email: string, password: string, req: Request)
    requires RoundTrips(env.jwt)
    requires RespondsToken(Login(env, email, password))
    requires AuthHeader(req) == "Bearer " + Login(env, email, password).outcome.response.body.token
    ensures TokenVerifyMiddleware(env.jwt, req) == Forward(req)
  {
    var user := env.db.select(email).user;
    IssuedTokenOpensProtected(env.jwt, user, req, "Bearer");
  }

  /** A token signed with HS256 under a short key that is not the shared
      secret up to zero padding is refused with the verifier's message,
      given the library's round-trip promise and HMAC's key separation. */
  lemma ForeignKeyTokenRefused(lib: Library, req: Request, scheme: string, key: string, claims: Claims)
    requires RoundTrips(lib) && KeySeparates(lib)
    requires ShortKey(key) && !SameHmacKey(key, Secret)
    requires "exp" !in claims && "nbf" !in claims && "iat" !in claims
    requires lib.sign(SigningAlg, key, claims).Ok?
    requires ' ' !in scheme
    requires AuthHeader(req) == scheme + " " + lib.sign(SigningAlg, key, claims).value
    ensures TokenVerifyMiddleware(lib, req).Reject?
    ensures TokenVerifyMiddleware(lib, req).response.body
            == ErrorBody(lib.verify(lib.sign(SigningAlg, key, claims).value, SigningAlg, Secret).value)
  {
    var token := lib.sign(SigningAlg, key, claims).value;
    assert lib.decode(token) == Ok(Header(Some(SigningAlg), claims));
    assert ShortKey(Secret);
    assert lib.verify(token, SigningAlg, Secret).Some?;
    DecidedBySecondWord(lib, req, scheme, token);
  }

  /** The converse edge: a token signed under the shared secret followed by
      zero bytes, still within one HMAC block, is let through, because HMAC
      pads the secret to the same key. */
  lemma ZeroPaddedSecretAccepted(lib: Library, req: Request, scheme: string, pad: nat, claims: Claims)
    requires RoundTrips(lib) && PadInsensitive(lib)
    requires |Secret| + pad <= HmacBlockSize
    requires "exp" !in claims && "nbf" !in claims && "iat" !in claims
    requires lib.sign(SigningAlg, Secret + seq(pad, _ => '\0'), claims).Ok?
    requires ' ' !in scheme
    requires AuthHeader(req) == scheme + " " + lib.sign(SigningAlg, Secret + seq(pad, _ => '\0'), claims).value
    ensures TokenVerifyMiddleware(lib, req) == Forward(req)
  {
    var padded := Secret + seq(pad, _ => '\0');
    assert padded[..|Secret|] == Secret;
    assert ZeroPadded(Secret, padded);
    assert ShortKey(Secret) && ShortKey(padded);
    assert lib.sign(SigningAlg, padded, claims) == lib.sign(SigningAlg, Secret, claims);
    var token := lib.sign(SigningAlg, padded, claims).value;
    assert lib.decode(token) == Ok(Header(Some(SigningAlg), claims));
    assert lib.verify(token, SigningAlg, Secret).None?;
    assert MethodFamily(SigningAlg) == Some(Hmac);
    DecidedBySecondWord(lib, req, scheme, token);
  }

  /** The token a successful login writes names the stored row's email and
      the "course" issuer, and nothing else, given the library's round-trip
      promise. */
  lemma LoginTokenNamesAccount(env: Env, email: string, password: string)
    requires RoundTrips(env.jwt)
    requires RespondsToken(Login(env, email, password))
    ensures env.jwt.decode(Login(env, email, password).outcome.response.body.token).Ok?
    ensures env.jwt.decode(Login(env, email, password).outcome.response.body.token).value.claims
            == map["email" := env.db.select(email).user.email, "iss" := Issuer]
  {
    IssuedTokenVerifies(env.jwt, env.db.select(email).user);
  }
}

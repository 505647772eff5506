/** Token issuance, `GenerateToken` (written twice, in main.go and in the
    utils package, with the same body). */
module Utils {
  import opened Wrappers
  import opened Models
  import opened Jwt

  /** The HMAC key tokens are signed with, and verified with by the middleware. */
  const Secret := "secret"
  /** The value of the `iss` claim. */
  const Issuer := "course"
  /** The signing algorithm, HMAC with SHA-256 (section 3.2 of RFC 7518). */
  const SigningAlg := "HS256"

  /** The claim set of every issued token. */
  function TokenClaims(email: string): (c: Claims)
    ensures c.Keys == {"email", "iss"}
    ensures c["email"] == email && c["iss"] == Issuer
  {
    map["email" := email, "iss" := Issuer]
  }

  /** The result of `GenerateToken`: the signed token, or the signing error
      that `log.Fatal` ends the process with. There is no third case: the
      function's error result is always nil. */
  datatype Issued = Issued(token: string) | SignFatal(err: string)

  /** Signs the claim set for `user.email` with HS256 under `Secret`. */
  function GenerateToken(lib: Library, user: User): (r: Issued)
    ensures r.Issued? <==> lib.sign(SigningAlg, Secret, TokenClaims(user.email)).Ok?
    ensures r.Issued? ==> lib.sign(SigningAlg, Secret, TokenClaims(user.email)) == Ok(r.token)
    ensures r.SignFatal? ==> lib.sign(SigningAlg, Secret, TokenClaims(user.email)) == Err(r.err)
  {
    match lib.sign(SigningAlg, Secret, TokenClaims(user.email))
    case Ok(t) => Issued(t)
    case Err(e) => SignFatal(e)
  }

  /** Only the email reaches the token: the id and the password do not. */
  lemma TokenDependsOnlyOnEmail(lib: Library, u1: User, u2: User)
    requires u1.email == u2.email
    ensures GenerateToken(lib, u1) == GenerateToken(lib, u2)
  {
  }

  /** Under the library's round-trip promise, an issued token decodes to
      HS256 and the issued claims, verifies under `Secret`, and contains no
      space. */
  lemma IssuedTokenVerifies(lib: Library, user: User)
    requires RoundTrips(lib)
    requires GenerateToken(lib, user).Issued?
    ensures lib.decode(GenerateToken(lib, user).token) == Ok(Header(Some(SigningAlg), TokenClaims(user.email)))
    ensures lib.verify(GenerateToken(lib, user).token, SigningAlg, Secret).None?
    ensures ' ' !in GenerateToken(lib, user).token
  {
    var c := TokenClaims(user.email);
    assert "exp" !in c && "nbf" !in c && "iat" !in c;
  }
}

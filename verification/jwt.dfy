/** The parts of jwt-go (v3) the handlers rely on. Base64url, JSON claim
    encoding and the HMAC computation stay uninterpreted; the order in which
    `jwt.Parse` consults the header, the key callback and the verifier is
    modelled, because the middleware's decision depends on it. */
module Jwt {
  import opened Wrappers

  /** A claim set, such as `{"email": ..., "iss": ...}`. */
  type Claims = map<string, string>

  /** The families of jwt-go's registered signing methods. */
  datatype Family = Hmac | Rsa | Ecdsa | RsaPss | Unsecured

  /** jwt-go's signing-method registry: the family registered under an `alg`
      header value, if any. */
  function MethodFamily(alg: string): (f: Option<Family>)
    ensures f == Some(Hmac) <==> alg in {"HS256", "HS384", "HS512"}
  {
    if alg == "HS256" || alg == "HS384" || alg == "HS512" then Some(Hmac)
    else if alg == "RS256" || alg == "RS384" || alg == "RS512" then Some(Rsa)
    else if alg == "ES256" || alg == "ES384" || alg == "ES512" then Some(Ecdsa)
    else if alg == "PS256" || alg == "PS384" || alg == "PS512" then Some(RsaPss)
    else if alg == "none" then Some(Unsecured)
    else None
  }

  /** The unverified content of a compact token: its `alg` header (None when
      the header has none) and its claims. */
  datatype Header = Header(alg: Option<string>, claims: Claims)

  /** The uninterpreted parts of the library.
      - `sign(alg, key, claims)`: `jwt.NewWithClaims(...).SignedString(key)`;
      - `decode(token)`: splitting the compact form and decoding header and
        claims, or the "malformed" error;
      - `verify(token, alg, key)`: claim validation and signature check under
        `key`, None when both pass. */
  datatype Library = Library(
    sign: (string, string, Claims) -> Result<string, string>,
    decode: string -> Result<Header, string>,
    verify: (string, string, string) -> Option<string>)

  /** What the key callback handed to `jwt.Parse` returns. */
  datatype KeyLookup = Key(key: string) | KeyError(message: string)

  /** What `jwt.Parse` hands back: `token.Valid`, the error (None for nil) and
      the key signature verification was run with, if it got that far. */
  datatype Parsed = Parsed(valid: bool, err: Option<string>, keyUsed: Option<string>)

  /** The signing-method family a token's header names, when the token
      decodes and its `alg` is registered. */
  function TokenFamily(lib: Library, token: string): Option<Family>
  {
    match lib.decode(token)
    case Err(_) => None
    case Ok(h) => if h.alg.None? then None else MethodFamily(h.alg.value)
  }

  /** `jwt.Parse(token, keyFunc)`: decode, look the method up, ask the
      callback for a key, then verify. */
  function Parse(lib: Library, token: string, keyFunc: Family -> KeyLookup): (p: Parsed)
    ensures p.valid <==> p.err.None?
    ensures p.keyUsed.Some? ==>
              TokenFamily(lib, token).Some? && keyFunc(TokenFamily(lib, token).value) == Key(p.keyUsed.value)
    ensures p.valid ==>
              p.keyUsed.Some? && lib.verify(token, lib.decode(token).value.alg.value, p.keyUsed.value).None?
  {
    match lib.decode(token)
    case Err(e) => Parsed(false, Some(e), None)
    case Ok(h) =>
      match h.alg
      case None => Parsed(false, Some("signing method (alg) is unspecified."), None)
      case Some(alg) =>
        match MethodFamily(alg)
        case None => Parsed(false, Some("signing method (alg) is unavailable."), None)
        case Some(family) =>
          match keyFunc(family)
          case KeyError(m) => Parsed(false, Some(m), None)
          case Key(k) =>
            match lib.verify(token, alg, k)
            case Some(e) => Parsed(false, Some(e), Some(k))
            case None => Parsed(true, None, Some(k))
  }

  /** The library's round-trip promise: a token it signed over a claim set
      without time claims decodes to the signing algorithm and those claims,
      verifies under the signing key, and is written in the compact
      alphabet, which has no space. */
  ghost predicate RoundTrips(lib: Library)
  {
    forall alg: string, key: string, claims: Claims
      | lib.sign(alg, key, claims).Ok? && "exp" !in claims && "nbf" !in claims && "iat" !in claims ::
      && lib.decode(lib.sign(alg, key, claims).value) == Ok(Header(Some(alg), claims))
      && lib.verify(lib.sign(alg, key, claims).value, alg, key).None?
      && ' ' !in lib.sign(alg, key, claims).value
  }

  /** The HMAC block size of SHA-256, in bytes. */
  const HmacBlockSize := 64

  /** A key whose UTF-8 encoding fits one HMAC block: at most 64 ASCII
      characters. HMAC hashes longer keys first (section 2 of RFC 2104). */
  predicate ShortKey(key: string)
  {
    |key| <= HmacBlockSize && forall i | 0 <= i < |key| :: key[i] < 128 as char
  }

  /** `long` is `short` followed by zero or more zero bytes. HMAC pads short
      keys with zero bytes up to the block size, so two such keys sign and
      verify alike. */
  predicate ZeroPadded(short: string, long: string)
  {
    && |short| <= |long|
    && long[..|short|] == short
    && forall i | |short| <= i < |long| :: long[i] == '\0'
  }

  /** Two keys HMAC cannot tell apart by zero padding. */
  predicate SameHmacKey(k1: string, k2: string)
  {
    ZeroPadded(k1, k2) || ZeroPadded(k2, k1)
  }

  /** HMAC's key separation, as far as it goes: a token signed under one
      short key does not verify under a short key that differs from it by
      more than zero padding. */
  ghost predicate KeySeparates(lib: Library)
  {
    forall alg: string, k1: string, k2: string, claims: Claims
      | ShortKey(k1) && ShortKey(k2) && !SameHmacKey(k1, k2) && lib.sign(alg, k1, claims).Ok? ::
      lib.verify(lib.sign(alg, k1, claims).value, alg, k2).Some?
  }

  /** HMAC's zero-padding equivalence: two keys that both fit one block and
      differ only by trailing zero bytes give the same signature. Longer keys
      are hashed first, so the equivalence does not reach them. */
  ghost predicate PadInsensitive(lib: Library)
  {
    forall alg: string, k1: string, k2: string, claims: Claims
      | ShortKey(k1) && ShortKey(k2) && SameHmacKey(k1, k2) ::
      lib.sign(alg, k1, claims) == lib.sign(alg, k2, claims)
  }
}

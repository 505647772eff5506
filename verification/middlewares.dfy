/** The bearer-header check in front of the protected endpoint (written
    twice, in main.go and in the middlewares package, with the same body). */
module Middlewares {
  import opened Wrappers
  import opened Models
  import opened Jwt
  import opened Strings
  import Utils

  /** The parts of a request the middleware sees or passes on. Header keys
      are in canonical form, as net/http stores them. */
  datatype Request = Request(header: map<string, seq<string>>, verb: string, url: string, body: string)

  /** `r.Header.Get(key)`: the first value stored under `key`, or "". */
  function HeaderGet(header: map<string, seq<string>>, key: string): string
  {
    if key in header && |header[key]| > 0 then header[key][0] else ""
  }

  /** The `Authorization` header of a request, "" when absent. */
  function AuthHeader(req: Request): string
  {
    HeaderGet(req.header, "Authorization")
  }

  /** How the middleware ends: the wrapped handler is called with the
      request, a 401 is written, or `.Error()` is called on a nil error. */
  datatype Verdict = Forward(request: Request) | Reject(response: Response) | NilErrorPanic

  const InvalidToken := "Invalid token."
  const KeyFuncError := "There was an error"

  /** The callback given to `jwt.Parse`: the shared secret for HMAC-family
      methods, an error for every other family. */
  function KeyFunc(family: Family): (k: KeyLookup)
    ensures k.Key? <==> family == Hmac
    ensures k.Key? ==> k.key == Utils.Secret
  {
    if family == Hmac then Key(Utils.Secret) else KeyError(KeyFuncError)
  }

  /** A bearer token the middleware lets through: it decodes, names an
      HMAC-family method, and verifies under the shared secret. */
  predicate Accepts(lib: Library, token: string)
  {
    && lib.decode(token).Ok?
    && lib.decode(token).value.alg.Some?
    && MethodFamily(lib.decode(token).value.alg.value) == Some(Hmac)
    && lib.verify(token, lib.decode(token).value.alg.value, Utils.Secret).None?
  }

  /** `TokenVerifyMiddleware(next)` applied to one request. */
  function TokenVerifyMiddleware(lib: Library, req: Request): (v: Verdict)
    // the wrapped handler sees the request unchanged
    ensures v.Forward? ==> v.request == req
    // the nil-error branch cannot be reached
    ensures !v.NilErrorPanic?
    // a header without exactly one space is refused outright
    ensures Count(AuthHeader(req), ' ') != 1 ==> v == Reject(RespondWithError(StatusUnauthorized, InvalidToken))
    // every refusal is a 401
    ensures v.Reject? ==> v.response.status == StatusUnauthorized && v.response.body.ErrorBody?
  {
    var bearerToken := Split(AuthHeader(req), ' ');
    if |bearerToken| == 2 then
      var p := Parse(lib, bearerToken[1], KeyFunc);
      match p.err
      case Some(m) => Reject(RespondWithError(StatusUnauthorized, m))
      case None => if p.valid then Forward(req) else NilErrorPanic
    else
      Reject(RespondWithError(StatusUnauthorized, InvalidToken))
  }

  /** Any key the middleware hands to signature verification is the shared
      secret, and only for an HMAC-family token. */
  lemma VerifiesOnlyWithSecret(lib: Library, token: string)
    ensures Parse(lib, token, KeyFunc).keyUsed.Some? ==>
              Parse(lib, token, KeyFunc).keyUsed == Some(Utils.Secret) && TokenFamily(lib, token) == Some(Hmac)
  {
  }

  /** With one space in the header, only the word after it is examined: the
      scheme word is never compared with "Bearer". The handler runs exactly
      when that word is accepted; otherwise the 401 carries the parse error. */
  lemma DecidedBySecondWord(lib: Library, req: Request, scheme: string, token: string)
    requires ' ' !in scheme && ' ' !in token
    requires AuthHeader(req) == scheme + " " + token
    ensures TokenVerifyMiddleware(lib, req).Forward? <==> Accepts(lib, token)
    ensures !Accepts(lib, token) ==>
              TokenVerifyMiddleware(lib, req) == Reject(RespondWithError(StatusUnauthorized, Parse(lib, token, KeyFunc).err.value))
  {
    SplitAround(scheme, token, ' ');
  }

  /** Two headers that differ only in the scheme word get the same verdict. */
  lemma SchemeWordIgnored(lib: Library, req1: Request, req2: Request, s1: string, s2: string, token: string)
    requires ' ' !in s1 && ' ' !in s2 && ' ' !in token
    requires AuthHeader(req1) == s1 + " " + token && AuthHeader(req2) == s2 + " " + token
    ensures TokenVerifyMiddleware(lib, req1).Forward? <==> TokenVerifyMiddleware(lib, req2).Forward?
    ensures TokenVerifyMiddleware(lib, req1).Reject? ==> TokenVerifyMiddleware(lib, req1) == TokenVerifyMiddleware(lib, req2)
  {
    DecidedBySecondWord(lib, req1, s1, token);
    DecidedBySecondWord(lib, req2, s2, token);
  }

  /** The handler runs exactly when the header is one space-free word, one
      space and an accepted token. */
  lemma ForwardIff(lib: Library, req: Request)
    ensures TokenVerifyMiddleware(lib, req).Forward? <==>
              Count(AuthHeader(req), ' ') == 1 && Accepts(lib, Split(AuthHeader(req), ' ')[1])
  {
    var h := AuthHeader(req);
    if Count(h, ' ') == 1 {
      var parts := Split(h, ' ');
      SplitInTwo(h, ' ');
      DecidedBySecondWord(lib, req, parts[0], parts[1]);
    }
  }

  /** A token naming a registered method outside the HMAC family is refused
      with the callback's message, before any key is supplied. */
  lemma NonHmacRefusedWithoutKey(lib: Library, req: Request, scheme: string, token: string)
    requires ' ' !in scheme && ' ' !in token
    requires AuthHeader(req) == scheme + " " + token
    requires TokenFamily(lib, token).Some? && TokenFamily(lib, token) != Some(Hmac)
    ensures TokenVerifyMiddleware(lib, req) == Reject(RespondWithError(StatusUnauthorized, KeyFuncError))
    ensures Parse(lib, token, KeyFunc).keyUsed.None?
  {
    SplitAround(scheme, token, ' ');
  }

  /** An absent or empty header is one empty part, and refused. */
  lemma MissingHeaderRefused(lib: Library, req: Request)
    requires AuthHeader(req) == ""
    ensures Split(AuthHeader(req), ' ') == [""]
    ensures TokenVerifyMiddleware(lib, req) == Reject(RespondWithError(StatusUnauthorized, InvalidToken))
  {
  }
}

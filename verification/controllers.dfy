/** The signup and login handlers (written twice, in main.go and in the
    controllers package, with the same bodies). Each is a chain of gates
    that ends the request at the first one that fails. */
module Controllers {
  import opened Wrappers
  import opened Models
  import opened Jwt
  import opened Utils
  import Bcrypt
  import Store

  /** The collaborators a handler reaches: bcrypt, the users table and jwt-go. */
  datatype Env = Env(hasher: Bcrypt.Hasher, db: Store.Db, jwt: Library)

  /** One call a handler makes into a collaborator, in the order made. */
  datatype Call =
    | GenerateHash(password: string, cost: nat)
    | InsertUser(email: string, hash: string)
    | SelectUser(email: string)
    | SignToken(alg: string, key: string, claims: Claims)
    | CompareHash(hash: string, password: string)

  /** How a request ends: a written response, or `log.Fatal` ending the process. */
  datatype Outcome = Respond(response: Response) | Fatal(reason: string)

  /** A handler's outcome together with the collaborator calls it made. */
  datatype Run = Run(outcome: Outcome, calls: seq<Call>)

  const EmailInvalid := "Favor inserir um e-mail válido"
  const PasswordInvalid := "Favor inserir uma senha válida"
  const ServerError := "Server error."
  const EmailMissing := "Email missing"
  const PasswordMissing := "Password missing"
  const UserNotFound := "The user does not exists"
  const InvalidPassword := "Invalid Password"

  /** The response carries an error message with the given status. */
  predicate RespondsError(r: Run, status: int, message: string)
  {
    r.outcome == Respond(RespondWithError(status, message))
  }

  /** The response carries a user record. */
  predicate RespondsUser(r: Run)
  {
    r.outcome.Respond? && r.outcome.response.body.UserBody?
  }

  /** The response carries a token. */
  predicate RespondsToken(r: Run)
  {
    r.outcome.Respond? && r.outcome.response.body.TokenBody?
  }

  // ---------------------------------------------------------------- signup

  /** POST /signup with the decoded email and password. */
  function Signup(env: Env, email: string, password: string): (r: Run)
    // both field checks come before any collaborator is called
    ensures r.calls == [] <==> email == "" || password == ""
    ensures email == "" ==> RespondsError(r, StatusBadRequest, EmailInvalid)
    ensures email != "" && password == "" ==> RespondsError(r, StatusBadRequest, PasswordInvalid)
    // the password is hashed at cost 10 and only its hash is stored
    ensures forall i | 0 <= i < |r.calls| && r.calls[i].GenerateHash? :: r.calls[i] == GenerateHash(password, Bcrypt.Cost)
    ensures forall i | 0 <= i < |r.calls| && r.calls[i].InsertUser? ::
              r.calls[i].email == email && env.hasher.generate(password, Bcrypt.Cost) == Ok(r.calls[i].hash)
    // a user record is returned only after a successful insert, with the
    // inserted id and a blank password
    ensures RespondsUser(r) ==>
              && r.outcome.response.status == StatusOK
              && env.hasher.generate(password, Bcrypt.Cost).Ok?
              && env.db.insert(email, env.hasher.generate(password, Bcrypt.Cost).value).Ok?
              && r.outcome.response.body.user
                 == User(env.db.insert(email, env.hasher.generate(password, Bcrypt.Cost).value).value, email, "")
    // error bodies are drawn from three fixed messages
    ensures r.outcome.Respond? && !RespondsUser(r) ==>
              || RespondsError(r, StatusBadRequest, EmailInvalid)
              || RespondsError(r, StatusBadRequest, PasswordInvalid)
              || RespondsError(r, StatusInternalServerError, ServerError)
  {
    if email == "" then
      Run(Respond(RespondWithError(StatusBadRequest, EmailInvalid)), [])
    else if password == "" then
      Run(Respond(RespondWithError(StatusBadRequest, PasswordInvalid)), [])
    else
      match env.hasher.generate(password, Bcrypt.Cost)
      case Err(e) => Run(Fatal(e), [GenerateHash(password, Bcrypt.Cost)])
      case Ok(hash) =>
        var calls := [GenerateHash(password, Bcrypt.Cost), InsertUser(email, hash)];
        match env.db.insert(email, hash)
        case Err(_) => Run(Respond(RespondWithError(StatusInternalServerError, ServerError)), calls)
        case Ok(id) => Run(Respond(Response(StatusOK, UserBody(User(id, email, "")))), calls)
  }

  /** The conditions under which signup creates an account. */
  predicate SignupAccepted(env: Env, email: string, password: string)
  {
    && email != "" && password != ""
    && env.hasher.generate(password, Bcrypt.Cost).Ok?
    && env.db.insert(email, env.hasher.generate(password, Bcrypt.Cost).value).Ok?
  }

  /** Signup answers with the new user record exactly when both fields are
      present, hashing succeeds and the insert succeeds. */
  lemma SignupSucceedsIff(env: Env, email: string, password: string)
    ensures RespondsUser(Signup(env, email, password)) <==> SignupAccepted(env, email, password)
  {
  }

  /** Every failed insert, a duplicate email included, gives the same
      generic 500 whatever the database said. */
  lemma SignupInsertFailureIsOpaque(env1: Env, env2: Env, email: string, password: string)
    requires email != "" && password != ""
    requires env1.hasher.generate(password, Bcrypt.Cost) == env2.hasher.generate(password, Bcrypt.Cost)
    requires env1.hasher.generate(password, Bcrypt.Cost).Ok?
    requires env1.db.insert(email, env1.hasher.generate(password, Bcrypt.Cost).value).Err?
    requires env2.db.insert(email, env2.hasher.generate(password, Bcrypt.Cost).value).Err?
    ensures Signup(env1, email, password) == Signup(env2, email, password)
    ensures RespondsError(Signup(env1, email, password), StatusInternalServerError, ServerError)
  {
  }

  /** The process ends only when bcrypt fails, and then nothing is stored. */
  lemma SignupFatalOnlyOnHashFailure(env: Env, email: string, password: string)
    ensures Signup(env, email, password).outcome.Fatal? <==>
              email != "" && password != "" && env.hasher.generate(password, Bcrypt.Cost).Err?
    ensures Signup(env, email, password).outcome.Fatal? ==>
              Signup(env, email, password).calls == [GenerateHash(password, Bcrypt.Cost)]
  {
  }

  // ----------------------------------------------------------------- login

  /** Valid credentials: both fields present, a row for the email, and
      bcrypt accepting the password against that row's hash. */
  predicate Authorized(env: Env, email: string, password: string)
  {
    && email != "" && password != ""
    && env.db.select(email).Found?
    && env.hasher.compare(env.db.select(email).user.password, password)
  }

  /** POST /login with the decoded email and password. */
  function Login(env: Env, email: string, password: string): (r: Run)
    ensures r.calls == [] <==> email == "" || password == ""
    ensures email == "" ==> RespondsError(r, StatusBadRequest, EmailMissing)
    ensures email != "" && password == "" ==> RespondsError(r, StatusBadRequest, PasswordMissing)
    // a token is written only for valid credentials ...
    ensures RespondsToken(r) ==> Authorized(env, email, password) && r.outcome.response.status == StatusOK
    // ... and valid credentials get one unless the process ends
    ensures Authorized(env, email, password) ==> RespondsToken(r) || r.outcome.Fatal?
    // the process ends only on a lookup error or a signing failure
    ensures r.outcome.Fatal? <==>
              && email != "" && password != ""
              && (|| env.db.select(email).QueryFailed?
                  || (env.db.select(email).Found? && GenerateToken(env.jwt, env.db.select(email).user).SignFatal?))
    // the token is the HS256 signature of the stored row's email claims
    ensures RespondsToken(r) ==>
              GenerateToken(env.jwt, env.db.select(email).user) == Issued(r.outcome.response.body.token)
    // error bodies are drawn from four fixed messages
    ensures r.outcome.Respond? && !RespondsToken(r) ==>
              || RespondsError(r, StatusBadRequest, EmailMissing)
              || RespondsError(r, StatusBadRequest, PasswordMissing)
              || RespondsError(r, StatusBadRequest, UserNotFound)
              || RespondsError(r, StatusUnauthorized, InvalidPassword)
  {
    if email == "" then
      Run(Respond(RespondWithError(StatusBadRequest, EmailMissing)), [])
    else if password == "" then
      Run(Respond(RespondWithError(StatusBadRequest, PasswordMissing)), [])
    else
      match env.db.select(email)
      case NoRows => Run(Respond(RespondWithError(StatusBadRequest, UserNotFound)), [SelectUser(email)])
      case QueryFailed(e) => Run(Fatal(e), [SelectUser(email)])
      case Found(user) =>
        var sign := SignToken(SigningAlg, Secret, TokenClaims(user.email));
        match GenerateToken(env.jwt, user)
        case SignFatal(e) => Run(Fatal(e), [SelectUser(email), sign])
        case Issued(token) =>
          var calls := [SelectUser(email), sign, CompareHash(user.password, password)];
          if env.hasher.compare(user.password, password) then
            Run(Respond(Response(StatusOK, TokenBody(token))), calls)
          else
            Run(Respond(RespondWithError(StatusUnauthorized, InvalidPassword)), calls)
  }

  /** An unknown email gives 400 after the lookup alone: nothing is signed or
      compared, and the answer does not depend on the password. */
  lemma LoginUnknownUser(env: Env, email: string, p1: string, p2: string)
    requires email != "" && p1 != "" && p2 != ""
    requires env.db.select(email).NoRows?
    ensures RespondsError(Login(env, email, p1), StatusBadRequest, UserNotFound)
    ensures Login(env, email, p1) == Login(env, email, p2)
    ensures Login(env, email, p1).calls == [SelectUser(email)]
  {
  }

  /** A lookup error other than "no rows" ends the process instead of answering. */
  lemma LoginQueryErrorIsFatal(env: Env, email: string, password: string)
    requires email != "" && password != ""
    requires env.db.select(email).QueryFailed?
    ensures Login(env, email, password) == Run(Fatal(env.db.select(email).error), [SelectUser(email)])
  {
  }

  /** The token is generated before the password is compared. Once it is
      signed, the comparison alone decides: a match answers 200 with the
      token, a mismatch answers 401 without it. A signing failure ends the
      process whatever the password. */
  lemma LoginSignsBeforeComparing(env: Env, email: string, password: string)
    requires email != "" && password != "" && env.db.select(email).Found?
    ensures var row := env.db.select(email).user;
            var r := Login(env, email, password);
            && |r.calls| >= 2
            && r.calls[..2] == [SelectUser(email), SignToken(SigningAlg, Secret, TokenClaims(row.email))]
            && (GenerateToken(env.jwt, row).SignFatal? ==> r.outcome == Fatal(GenerateToken(env.jwt, row).err))
            && (GenerateToken(env.jwt, row).Issued? && env.hasher.compare(row.password, password) ==>
                  r.outcome == Respond(Response(StatusOK, TokenBody(GenerateToken(env.jwt, row).token))))
            && (GenerateToken(env.jwt, row).Issued? && !env.hasher.compare(row.password, password) ==>
                  RespondsError(r, StatusUnauthorized, InvalidPassword))
  {
  }
}

/** bcrypt, as the handlers see it: two uninterpreted operations. Salt,
    cost schedule and Blowfish are not part of this model. */
module Bcrypt {
  import opened Wrappers

  /** The work factor both handlers pass to `GenerateFromPassword`. */
  const Cost: nat := 10

  /** `generate(password, cost)` is `bcrypt.GenerateFromPassword`, giving the
      hash or the library's error; `compare(hash, password)` is true when
      `bcrypt.CompareHashAndPassword` returns a nil error. */
  datatype Hasher = Hasher(
    generate: (string, nat) -> Result<string, string>,
    compare: (string, string) -> bool)
}

/** The two statements the handlers send to the users table, reduced to
    their results. The unique constraint on the email column lives in the
    database schema and shows up here only as an insert that may fail. */
module Store {
  import opened Wrappers
  import opened Models

  /** What `db.QueryRow("select * from users where email=$1;", email).Scan(...)` yields. */
  datatype Lookup =
    | Found(user: User)
    | NoRows
    | QueryFailed(error: string)

  /** `insert(email, hash)` is the `insert ... RETURNING id` statement: the new
      id or the error; `select(email)` is the lookup by email. */
  datatype Db = Db(
    insert: (string, string) -> Result<int, string>,
    select: string -> Lookup)
}

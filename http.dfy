/** What the Express handlers exchange with a client: the principal the
    authentication middleware attaches to a request, the JSON truthiness the
    handlers test request fields with, and the response they send. */
module Http {
  import opened Sql

  /** `req.user` as the middleware leaves it: the account id and the admin
      flag. */
  datatype Principal = Principal(id: int, isAdmin: bool)

  /** `jwt.sign({ userId }, ...)`: the token is modelled by its payload. */
  datatype Token = Token(userId: int)

  /** `res.status(s).json(...)`: a success body with an optional `message`,
      or `{ error }`. */
  datatype Response<+T> =
    | Success(status: int, message: Option<string>, payload: T)
    | Failure(status: int, error: string)

  /** A string field of a JSON body is truthy when present and non-empty. */
  predicate TruthyString(s: Option<string>) {
    s.Some? && s.value != ""
  }

  /** A numeric field of a JSON body is truthy when present and non-zero. */
  predicate TruthyNumber(n: Option<int>) {
    n.Some? && n.value != 0
  }

  /** `x || null` on an optional string: an empty string becomes null. */
  function OrNull(s: Option<string>): (r: Option<string>)
    ensures r.Some? <==> TruthyString(s)
    ensures r.Some? ==> r == s
  {
    if TruthyString(s) then s else None
  }
}

/**
 * The shape of the controllers' HTTP replies (`res.status(..).cookie(..).json(..)`),
 * and what a browser does with the `Set-Cookie` header a reply carries.
 */
module Http {
  import opened Wrappers

  const OK := 200
  const CREATED := 201
  const BAD_REQUEST := 400
  const NOT_FOUND := 404

  /** A request field counts as given when it is a non-empty string (JavaScript truthiness of a form field). */
  predicate Given(f: Option<string>)
  {
    f.Some? && f.value != ""
  }

  /** A cookie set by `res.cookie(name, value, { maxAge })`; `maxAge` is in milliseconds, as Express takes it. */
  datatype Cookie = Cookie(name: string, value: string, maxAge: nat)

  /**
   * A reply: the status code and the JSON body's `success`, `message` and `error` fields,
   * the returned document (`user`, `job` or `jobs`) if any, and the cookie set, if any.
   * A body without a `message` field has the empty message.
   */
  datatype Reply<T> = Reply(
    status: int,
    success: bool,
    message: string,
    error: Option<string>,
    payload: Option<T>,
    cookie: Option<Cookie>)

  /** An error reply `{ message, success: false }`. */
  function Failure<T>(status: int, message: string): (r: Reply<T>)
    ensures r.status == status && r.message == message && !r.success
    ensures r.payload.None? && r.cookie.None? && r.error.None?
  {
    Reply(status, false, message, None, None, None)
  }

  /** The cookies a browser holds for the site, by name. */
  type CookieJar = map<string, string>

  /**
   * The browser's handling of a `Set-Cookie` header (section 5.3 of RFC 6265): Express writes
   * `Max-Age` as the whole seconds in `maxAge`; a cookie whose Max-Age is not positive
   * expires at once (section 5.2.2), which removes any cookie of that name.
   */
  function ApplyCookie(jar: CookieJar, c: Cookie): (jar': CookieJar)
    ensures c.maxAge >= 1000 ==> c.name in jar' && jar'[c.name] == c.value
    ensures c.maxAge < 1000 ==> c.name !in jar'
    ensures forall n :: n != c.name ==> (n in jar' <==> n in jar)
    ensures forall n :: n != c.name && n in jar ==> jar'[n] == jar[n]
  {
    if c.maxAge / 1000 > 0 then jar[c.name := c.value] else jar - {c.name}
  }

  /** The browser's cookie jar after it receives `reply`. */
  function Receive<T>(jar: CookieJar, reply: Reply<T>): CookieJar
  {
    match reply.cookie
    case None => jar
    case Some(c) => ApplyCookie(jar, c)
  }
}

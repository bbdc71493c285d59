/**
 * The slice of Express the core touches: the problem responses it writes,
 * the `req.user` context, and the request/response exchange a middleware
 * works on.
 */
module Http {
  import opened Base

  /** The last segment of each problem's `type` URL. */
  datatype ProblemKind =
    | ValidationError
    | UserExists
    | InvalidCredentials
    | UserNotFound
    | MissingToken
    | InvalidTokenFormat
    | InvalidToken
    | UserDeactivated
    | AuthError
    | NoUserContext
    | InsufficientPermissions
    | InternalError

  /** A problem response: its status, its kind and its `detail`. */
  datatype Problem = Problem(status: nat, kind: ProblemKind, detail: string)

  /** The 400 answer to a body that failed its schema: the first error's message. */
  function ValidationProblem(message: string): Problem
  {
    Problem(400, ValidationError, message)
  }

  /** A handler's response: a problem, or a success status with its body. */
  datatype Reply<B> = Rejected(problem: Problem) | Ok(status: nat, body: B)

  /** `req.user`, as the authentication middleware attaches it. */
  datatype AuthUser = AuthUser(id: Id, email: string, roles: seq<string>, firstName: string, lastName: string)

  /** One request passing through the middleware chain. */
  class Exchange {
    /** `req.headers.authorization`. */
    const authorization: Option<string>
    /** `req.user`. */
    var user: Option<AuthUser>
    /** The problem written with `res.status(...).json(...)`, if any. */
    var sent: Option<Problem>
    /** How many times `next()` was invoked. */
    var forwarded: nat

    constructor (authorization: Option<string>, user: Option<AuthUser>)
      ensures this.authorization == authorization && this.user == user
      ensures sent.None? && forwarded == 0
    {
      this.authorization := authorization;
      this.user := user;
      this.sent := None;
      this.forwarded := 0;
    }
  }
}

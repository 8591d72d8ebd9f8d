/** The middleware of adminGuard.js that admits only administrators and managers. */
module AdminGuard {
  import opened Common
  import opened Constants

  /** What the middleware does with a request: answer 401, answer 403, or pass it on. */
  datatype Decision = Unauthorized | Forbidden | Next

  /** The role of the authenticated user attached to the request, none when no user is. The role
      is looked at only once a user is known: without one the answer is 401 whatever else the
      request carries, and with one it is never 401. */
  function Guard(user: Option<Role>): (d: Decision)
    ensures d == Unauthorized <==> user.None?
    ensures d == Next <==> user.Some? && (user.value == Admin || user.value == Manager)
    ensures d == Forbidden <==> user.Some? && user.value.Customer?
  {
    if user.None? then Unauthorized
    else if user.value != Admin && user.value != Manager then Forbidden
    else Next
  }
}

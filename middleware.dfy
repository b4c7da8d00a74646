/** The request middleware's redirect decision on the session's user and the request path. */
module Middleware {
  import Text

  datatype Decision = RedirectToLogin | RedirectToDashboard | PassThrough

  /** The paths an anonymous request may reach. */
  predicate PublicPath(path: string) {
    Text.StartsWith(path, "/login") || Text.StartsWith(path, "/auth/callback") || Text.StartsWith(path, "/debug")
  }

  /** `middleware(request)`, after the session has been refreshed. */
  function Decide(hasUser: bool, path: string): (d: Decision)
    ensures d == RedirectToLogin <==> !hasUser && !PublicPath(path)
    ensures d == RedirectToDashboard <==> hasUser && Text.StartsWith(path, "/login")
    ensures d == PassThrough <==> (hasUser || PublicPath(path)) && !(hasUser && Text.StartsWith(path, "/login"))
  {
    if !hasUser && !PublicPath(path) then RedirectToLogin
    else if hasUser && Text.StartsWith(path, "/login") then RedirectToDashboard
    else PassThrough
  }

  /** Following a redirect never redirects again: the login page lets an anonymous request
    * through, and the dashboard lets a signed-in request through. */
  lemma NoRedirectLoop(hasUser: bool, path: string)
    ensures Decide(hasUser, path) == RedirectToLogin ==> Decide(hasUser, "/login") == PassThrough
    ensures Decide(hasUser, path) == RedirectToDashboard ==> Decide(hasUser, "/dashboard") == PassThrough
  {
    assert Text.StartsWith("/login", "/login");
    assert "/dashboard"[1] != "/login"[1];
    assert !Text.StartsWith("/dashboard", "/login");
  }

  /** The two redirects are told apart by the user alone: without one the request can only be
    * sent to the login page, with one only to the dashboard. */
  lemma RedirectsExclusive(hasUser: bool, path: string)
    ensures !hasUser ==> Decide(hasUser, path) != RedirectToDashboard
    ensures hasUser ==> Decide(hasUser, path) != RedirectToLogin
    ensures !hasUser && Text.StartsWith(path, "/login") ==> Decide(hasUser, path) == PassThrough
  {
  }
}

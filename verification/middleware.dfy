/**
 * The route guard (src/middleware.ts): "/" is public, "/login" sends a signed-in
 * visitor on to the dashboard, and every other page needs a token that verifies.
 * `token` is the `token` cookie; `tokenVerifies` is whether `verifyAuth` accepts it.
 */
module Middleware {
  import opened Wrappers
  import opened Strings

  const RootPath: string := "/"
  const LoginPath: string := "/login"
  const DashboardPath: string := "/dashboard"

  /** `NextResponse.next()` or `NextResponse.redirect` to a path. */
  datatype Decision = Next | Redirect(path: string)

  /** A visitor holding a token that `verifyAuth` accepts (an empty cookie is no token). */
  predicate SignedIn(token: Option<string>, tokenVerifies: bool) {
    Truthy(token) && tokenVerifies
  }

  /** The guard's decision for one request. */
  function Guard(pathname: string, token: Option<string>, tokenVerifies: bool): (d: Decision)
    ensures pathname == RootPath ==> d == Next
    ensures pathname == LoginPath ==> (d == Next <==> !SignedIn(token, tokenVerifies))
    ensures pathname == LoginPath && d != Next ==> d == Redirect(DashboardPath)
    ensures pathname != RootPath && pathname != LoginPath ==>
      (d == Next <==> SignedIn(token, tokenVerifies)) && (d != Next ==> d == Redirect(LoginPath))
    ensures d.Redirect? ==> d.path != pathname && (d.path == LoginPath || d.path == DashboardPath)
  {
    if pathname == RootPath then Next
    else if pathname == LoginPath then
      if Truthy(token) && tokenVerifies then Redirect(DashboardPath) else Next
    else if !Truthy(token) then Redirect(LoginPath)
    else if tokenVerifies then Next
    else Redirect(LoginPath)
  }

  /** Without a token every page but "/" and "/login" sends the visitor to "/login". */
  lemma NoTokenGoesToLogin(pathname: string, tokenVerifies: bool)
    requires pathname != RootPath && pathname != LoginPath
    ensures Guard(pathname, None, tokenVerifies) == Redirect(LoginPath)
    ensures Guard(pathname, Some(""), tokenVerifies) == Redirect(LoginPath)
  {
  }

  /**
   * A redirect is followed by a page the guard lets through with the same cookie: the
   * guard never redirects twice in a row, so it cannot loop.
   */
  lemma RedirectSettles(pathname: string, token: Option<string>, tokenVerifies: bool)
    requires Guard(pathname, token, tokenVerifies).Redirect?
    ensures Guard(Guard(pathname, token, tokenVerifies).path, token, tokenVerifies) == Next
  {
    assert |LoginPath| != |DashboardPath|;
    assert DashboardPath != RootPath;
  }
}

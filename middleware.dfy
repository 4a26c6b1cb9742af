// The edge route gate of frontend/src/middleware.ts: a decision over the
// request path and whether the `access_token` cookie is present.
module EdgeMiddleware {
  import opened Common

  datatype Decision = Redirect(to: string) | Next

  /** `pathname.startsWith("/home") || pathname.startsWith("/timeline")`:
      a literal prefix test, so the predicate alone would also match
      "/homework"; the route matcher only runs the middleware on "/",
      "/home/..." and "/timeline/...". */
  predicate IsProtectedRoute(pathname: string)
  {
    StartsWith(pathname, "/home") || StartsWith(pathname, "/timeline")
  }

  /** middleware: protected without a token goes to "/", exactly "/" with a
      token goes to "/home", everything else passes through. */
  function Middleware(pathname: string, hasToken: bool): (r: Decision)
    ensures r == Redirect("/") <==> IsProtectedRoute(pathname) && !hasToken
    ensures r == Redirect("/home") <==> pathname == "/" && hasToken
    ensures r == Next <==> !(IsProtectedRoute(pathname) && !hasToken) && !(pathname == "/" && hasToken)
    ensures r.Redirect? ==> r.to == "/" || r.to == "/home"
  {
    if IsProtectedRoute(pathname) && !hasToken then Redirect("/")
    else if pathname == "/" && hasToken then Redirect("/home")
    else Next
  }

  /** A redirect to "/" happens only without a token and one to "/home" only
      with one, so at most one rule applies to any request. */
  lemma RulesExclusive(pathname: string, hasToken: bool)
    ensures Middleware(pathname, hasToken) == Redirect("/") ==> !hasToken
    ensures Middleware(pathname, hasToken) == Redirect("/home") ==> hasToken
    ensures !(IsProtectedRoute(pathname) && pathname == "/")
  {
  }

  /** Following a redirect never triggers a second one: "/" is not protected
      and "/home" is not "/". */
  lemma RedirectTargetsSettle()
    ensures Middleware("/", false) == Next
    ensures Middleware("/home", true) == Next
  {
  }
}

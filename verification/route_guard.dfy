/**
 * The navigation guard run before every route change in the browser:
 * a pure decision from the requested path and the stored token.
 */
module RouteGuard {
  import opened Wrappers
  import AuthService

  const LoginPath: string := "/login"
  const CallbackPath: string := "/auth/callback"
  const HomePath: string := "/my-map"

  /** The only paths open without a token. */
  const PublicRoutes: seq<string> := [LoginPath, CallbackPath]

  /** The guard reads the browser's stored token itself; an empty one counts as none. */
  predicate HasToken(token: Option<string>) {
    AuthService.Truthy(token)
  }

  /**
   * Where to send a navigation to `path`: `None` lets it proceed, `Some(p)`
   * redirects to `p`.
   */
  function BeforeEach(path: string, token: Option<string>): (r: Option<string>)
    ensures r == Some(LoginPath) <==> path !in PublicRoutes && !HasToken(token)
    ensures r == Some(HomePath) <==> path == LoginPath && HasToken(token)
    ensures r.None? <==> (path in PublicRoutes || HasToken(token)) && !(path == LoginPath && HasToken(token))
    ensures r.Some? ==> r.value != path
  {
    if path !in PublicRoutes && !HasToken(token) then Some(LoginPath)
    else if path == LoginPath && HasToken(token) then Some(HomePath)
    else None
  }

  /** A redirect lands on a path the guard lets through, so navigation never loops. */
  lemma RedirectSettles(path: string, token: Option<string>)
    ensures var r := BeforeEach(path, token);
      r.Some? ==> BeforeEach(r.value, token).None?
  {
  }

  /** A path is never sent to the login page, token or not, exactly when it is public. */
  lemma PublicMeansNeverSentToLogin(path: string)
    ensures (forall token :: BeforeEach(path, token) != Some(LoginPath)) <==> path in PublicRoutes
  {
    if path !in PublicRoutes {
      assert BeforeEach(path, None) == Some(LoginPath);
    }
  }
}

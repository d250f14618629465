/**
 * The browser-side holder of the session token: storing it after the
 * OAuth callback, dropping it on logout, and the headers it builds for
 * its own backend calls. A network reply is a parameter (`Err` when the request
 * itself threw).
 */
module AuthService {
  import opened Wrappers

  /** The current user as the backend describes it. */
  datatype UserInfo = UserInfo(id: string, email: string, name: string)

  /** `token` is `None` when the service holds no token at all. */
  datatype AuthState = AuthState(token: Option<string>)

  /** The service starts with whatever token the browser kept from an earlier session. */
  function Init(stored: Option<string>): AuthState {
    AuthState(stored)
  }

  function GetToken(st: AuthState): Option<string> {
    st.token
  }

  /** Keeps the token handed back by the OAuth callback. */
  function SetToken(st: AuthState, token: string): (r: AuthState)
    ensures GetToken(r) == Some(token)
    ensures IsAuthenticated(r)
  {
    AuthState(Some(token))
  }

  /**
   * Ends the session. The backend call may resolve or throw; the token is
   * dropped either way.
   */
  function Logout(st: AuthState, call: Result<(), string>): (r: AuthState)
    ensures GetToken(r).None? && !IsAuthenticated(r)
  {
    AuthState(None)
  }

  /** Holding any token at all, even an empty one, counts as signed in. */
  predicate IsAuthenticated(st: AuthState) {
    st.token.Some?
  }

  /** A stored token counts in a truthiness test only when it is present and non-empty. */
  predicate Truthy(token: Option<string>) {
    token.Some? && token.value != ""
  }

  /** Only a truthy token goes into the headers the service builds. */
  predicate SendsToken(st: AuthState) {
    Truthy(st.token)
  }

  /**
   * The headers `getAuthHeaders` builds for the logout and current-user
   * calls: always JSON, plus the bearer token when the token is truthy.
   */
  function AuthHeaders(st: AuthState): (h: map<string, string>)
    ensures "Content-Type" in h && h["Content-Type"] == "application/json"
    ensures "Authorization" in h <==> SendsToken(st)
    ensures "Authorization" in h ==> h["Authorization"] == "Bearer " + st.token.value
    ensures h.Keys <= {"Content-Type", "Authorization"}
  {
    var json := map["Content-Type" := "application/json"];
    if SendsToken(st) then json["Authorization" := "Bearer " + st.token.value] else json
  }

  /** A backend reply: its status and its body, `None` when the body is not a user. */
  datatype Response = Response(status: int, body: Option<UserInfo>)

  predicate IsOk(resp: Response) {
    200 <= resp.status <= 299
  }

  /** What asking for the current user gives, whether a request went out, and the token after it. */
  datatype CurrentUserStep = CurrentUserStep(user: Option<UserInfo>, requested: bool, auth: AuthState)

  /**
   * Asks the backend who the token belongs to. Without a truthy token
   * nothing is asked; a 2xx reply gives its user; a 401 reply logs out;
   * every failure gives no user.
   */
  function GetCurrentUser(st: AuthState, reply: Result<Response, string>): (r: CurrentUserStep)
    ensures !SendsToken(st) ==> !r.requested && r.user.None? && r.auth == st
    ensures SendsToken(st) ==> r.requested
    ensures r.user.Some? ==> reply.Ok? && IsOk(reply.value) && r.user == reply.value.body
    ensures SendsToken(st) && reply.Ok? && IsOk(reply.value) ==> r.user == reply.value.body && r.auth == st
    ensures r.auth.token.None? <==>
      st.token.None? || (SendsToken(st) && reply.Ok? && reply.value.status == 401)
    ensures r.auth != st ==> r.auth.token.None?
  {
    if !SendsToken(st) then CurrentUserStep(None, false, st)
    else
      match reply
      case Err(_) => CurrentUserStep(None, true, st)
      case Ok(resp) =>
        if !IsOk(resp) then
          var auth := if resp.status == 401 then Logout(st, Ok(())) else st;
          CurrentUserStep(None, true, auth)
        else CurrentUserStep(resp.body, true, st)
  }

  /**
   * An empty token is the odd case: the service reports itself signed in,
   * yet the headers it builds carry no Authorization entry and it never
   * asks who the user is.
   */
  lemma EmptyTokenIsSignedInButAnonymous(st: AuthState, reply: Result<Response, string>)
    ensures var st' := SetToken(st, "");
      && IsAuthenticated(st')
      && "Authorization" !in AuthHeaders(st')
      && !GetCurrentUser(st', reply).requested
  {
  }

  /** After logging out the headers it builds carry no token, and asking for the user makes no request. */
  lemma LogoutSilencesRequests(st: AuthState, call: Result<(), string>, reply: Result<Response, string>)
    ensures var st' := Logout(st, call);
      && AuthHeaders(st') == map["Content-Type" := "application/json"]
      && GetCurrentUser(st', reply) == CurrentUserStep(None, false, st')
  {
  }
}

// The OAuth guards of internal/application/auth.go. The identity provider
// behind the domain `auth.Auth` interface is a pair of functions: the
// authorization-URL builder and the code-for-token exchange (which yields
// the token's access token or an error).
module OAuthCallback {
  import opened Common
  import opened DomainErrors

  const OAuthStateString: string := "secure-random-string-for-security"

  /** auth.Auth: GetAuthURL and ExchangeCode. */
  datatype Authenticator = Authenticator(
    getAuthURL: string -> string,
    exchangeCode: string -> Result<string, Error>)

  /** The errors HandleCallback returns; an exchange failure is wrapped with
      `%w`, so its cause stays in the chain. */
  datatype CallbackError = StateMismatch | CodeNotFound | ExchangeFailed(cause: Error)

  /** errors.Is on a callback error: only the wrapped exchange failure has a
      chain below it. */
  predicate CallbackIs(e: CallbackError, target: Sentinel)
  {
    e.ExchangeFailed? && Is(e.cause, target)
  }

  /** GetLoginURL: the authorization URL for the fixed state string. */
  function GetLoginURL(a: Authenticator): (url: string)
    ensures url == a.getAuthURL(OAuthStateString)
  {
    a.getAuthURL(OAuthStateString)
  }

  /** HandleCallback: the state is checked first, then the code, and only
      then is the code exchanged. */
  function HandleCallback(a: Authenticator, state: string, code: string): (r: Result<string, CallbackError>)
    ensures state != OAuthStateString <==> r == Failure(StateMismatch)
    ensures r == Failure(CodeNotFound) <==> state == OAuthStateString && code == ""
    ensures r.Failure? && r.error.ExchangeFailed? <==>
      state == OAuthStateString && code != "" && a.exchangeCode(code).Failure?
    ensures r.Failure? && r.error.ExchangeFailed? ==> r.error.cause == a.exchangeCode(code).error
    ensures r.Success? <==> state == OAuthStateString && code != "" && a.exchangeCode(code).Success?
    ensures r.Success? ==> r.value == a.exchangeCode(code).value
  {
    if state != OAuthStateString then Failure(StateMismatch)
    else if code == "" then Failure(CodeNotFound)
    else
      match a.exchangeCode(code)
      case Failure(err) => Failure(ExchangeFailed(err))
      case Success(accessToken) => Success(accessToken)
  }

  /** A rejected state or an empty code is decided without the provider:
      any two providers give the same answer, so the code is never
      exchanged. */
  lemma GuardsPrecedeExchange(a: Authenticator, b: Authenticator, state: string, code: string)
    requires state != OAuthStateString || code == ""
    ensures HandleCallback(a, state, code) == HandleCallback(b, state, code)
    ensures HandleCallback(a, state, code).Failure?
  {
  }

  /** The state GetLoginURL sends is the one the callback accepts. */
  lemma LoginStateAccepted(a: Authenticator, code: string)
    ensures HandleCallback(a, OAuthStateString, code) != Failure(StateMismatch)
  {
  }

  /** The exchange's error can still be found through the wrap. */
  lemma ExchangeCauseVisible(a: Authenticator, code: string, target: Sentinel)
    requires code != "" && a.exchangeCode(code).Failure?
    ensures HandleCallback(a, OAuthStateString, code).Failure?
    ensures CallbackIs(HandleCallback(a, OAuthStateString, code).error, target) <==>
      Is(a.exchangeCode(code).error, target)
  {
  }
}

/**
 * The client's HTTP interceptor, PisciApp/src/app/core/interceptors/auth.interceptor.ts.
 *
 * Outgoing requests get "Authorization: Bearer <token>" unless their URL is
 * one of the authentication endpoints. A 401 starts one token refresh; 401s
 * that arrive while it runs wait for its token instead of starting another.
 * The observable plumbing is replaced by one method per event: the error
 * arriving, the refresh succeeding, the refresh failing.
 */
module AuthInterceptorModel {
  import opened Wrappers
  import opened Strings
  import opened AuthClient

  /** `isAuthRoute`: the URL contains one of the five authentication paths. */
  predicate IsAuthRoute(url: string) {
    || Includes(url, "/auth/login")
    || Includes(url, "/auth/register")
    || Includes(url, "/auth/verify")
    || Includes(url, "/auth/refresh")
    || Includes(url, "/auth/2fa/verificar")
  }

  /** The `Authorization` header put on an outgoing request, if any. */
  function AttachedHeader(token: Option<string>, url: string): (h: Option<string>)
    ensures h.Some? <==> Truthy(token) && !IsAuthRoute(url)
    ensures h.Some? ==> h.value == "Bearer " + token.value
  {
    if Truthy(token) && !IsAuthRoute(url) then Some("Bearer " + token.value) else None
  }

  /** A URL ending in "/auth/login" is an authentication route and gets no header. */
  lemma LoginRouteGetsNoHeader(prefix: string, token: Option<string>)
    ensures AttachedHeader(token, prefix + "/auth/login") == None
  {
    var url := prefix + "/auth/login";
    assert url[|prefix|..|prefix| + |"/auth/login"|] == "/auth/login";
    assert OccursAt(url, "/auth/login", |prefix|);
  }

  /** What the interceptor does with a failed response. */
  datatype ErrorAction =
    /** Start a refresh, then retry with the new token. */
    | StartRefresh
    /** Wait for the refresh in progress, then retry with its token. */
    | WaitForRefresh
    /** Pass the error on unchanged. */
    | Rethrow

  /** `isTokenExpired`: no payload or a falsy `exp` counts as expired; otherwise `exp` before the current second. */
  function IsTokenExpired(token: string, jwtDecode: string -> Option<Payload>, nowMs: nat): (b: bool)
    ensures !b <==> jwtDecode(token).Some? && jwtDecode(token).value.exp.Some?
                    && jwtDecode(token).value.exp.value != 0
                    && jwtDecode(token).value.exp.value * 1000 >= nowMs - nowMs % 1000
  {
    var decoded := jwtDecode(token);
    if decoded.None? || decoded.value.exp.None? || decoded.value.exp.value == 0 then true
    else decoded.value.exp.value < nowMs / 1000
  }

  /** An `exp` equal to the current second is not expired; one second earlier is. */
  lemma ExpiryBoundary(token: string, jwtDecode: string -> Option<Payload>, nowMs: nat, exp: int)
    requires jwtDecode(token).Some? && jwtDecode(token).value.exp == Some(exp) && exp != 0
    ensures exp == nowMs / 1000 ==> !IsTokenExpired(token, jwtDecode, nowMs)
    ensures exp == nowMs / 1000 - 1 ==> IsTokenExpired(token, jwtDecode, nowMs)
  {
  }

  /** The interceptor's `isLoggedIn`: a token that has not expired. */
  function IsLoggedInWithValidToken(auth: AuthService, nowMs: nat): (b: bool)
    reads auth
    ensures b ==> auth.IsLoggedIn()
    ensures b <==> Truthy(auth.GetToken()) && !IsTokenExpired(auth.GetToken().value, auth.jwtDecode, nowMs)
  {
    var token := auth.GetToken();
    if !Truthy(token) then false else !IsTokenExpired(token.value, auth.jwtDecode, nowMs)
  }

  class AuthInterceptor {
    var isRefreshing: bool
    /** The value of `refreshTokenSubject`: the last refreshed token, or null while a refresh runs. */
    var refreshToken: Option<string>
    const auth: AuthService

    constructor (auth: AuthService)
      ensures !isRefreshing && refreshToken.None? && this.auth == auth
    {
      isRefreshing := false;
      refreshToken := None;
      this.auth := auth;
    }

    /**
     * `intercept` on the way out: the header the request is sent with. The
     * token is the one `getToken` finds, so a remembered token wins over a
     * session one.
     */
    method Outgoing(url: string) returns (header: Option<string>)
      ensures header.Some? <==> auth.IsLoggedIn() && !IsAuthRoute(url)
      ensures header.Some? ==>
        header.value == "Bearer " + (if Truthy(auth.local) then auth.local.value else auth.session.value)
    {
      var token := auth.GetToken();
      var isAuthRoute := IsAuthRoute(url);
      header := None;
      if Truthy(token) && !isAuthRoute {
        header := Some("Bearer " + token.value);
      }
    }

    /**
     * The `catchError` of `intercept`. A 401 outside the authentication routes
     * starts a refresh when none runs; any 401 while one runs waits for it,
     * on an authentication route too; everything else is passed on.
     */
    method OnError(status: int, url: string) returns (action: ErrorAction)
      modifies this
      ensures action == StartRefresh <==> status == 401 && !old(isRefreshing) && !IsAuthRoute(url)
      ensures action == WaitForRefresh <==> status == 401 && old(isRefreshing)
      ensures action == StartRefresh ==> isRefreshing && refreshToken.None?
      ensures action != StartRefresh ==> isRefreshing == old(isRefreshing) && refreshToken == old(refreshToken)
    {
      var isAuthRoute := IsAuthRoute(url);
      if status == 401 && !isRefreshing && !isAuthRoute {
        isRefreshing := true;
        refreshToken := None;
        return StartRefresh;
      } else if status == 401 && isRefreshing {
        return WaitForRefresh;
      }
      action := Rethrow;
    }

    /** The refresh succeeded: the flag is cleared, waiters get the token, and the original request is retried with it. */
    method OnRefreshSuccess(newToken: string) returns (retryHeader: string)
      modifies this
      ensures !isRefreshing && refreshToken == Some(newToken)
      ensures retryHeader == "Bearer " + newToken
    {
      isRefreshing := false;
      refreshToken := Some(newToken);
      retryHeader := "Bearer " + newToken;
    }

    /** The refresh failed: the flag is cleared and the user is logged out. */
    method OnRefreshFailure()
      requires auth.Valid()
      modifies this, auth
      ensures !isRefreshing && refreshToken == old(refreshToken)
      ensures auth.Valid() && !auth.IsLoggedIn() && auth.currentUser.None?
    {
      isRefreshing := false;
      auth.Logout();
    }
  }

  /** The header a waiting request is retried with, once the subject holds a token. */
  function WaitingRetryHeader(refreshToken: Option<string>): (h: Option<string>)
    ensures h.Some? <==> refreshToken.Some?
    ensures h.Some? ==> h.value == "Bearer " + refreshToken.value
  {
    if refreshToken.Some? then Some("Bearer " + refreshToken.value) else None
  }
}

/**
 * GET /api/oauth/authorize (app/api/oauth/authorize/route.ts): the authorization step of
 * the OAuth 2.0 authorization-code grant (RFC 6749, section 4.1.1 and 4.1.2). A chain of
 * guards ends the request with a JSON error, suspends it to the login or the consent page,
 * or issues a ten-minute authorization code and sends the browser back to the client.
 */
module Authorize {
  import opened Optional
  import opened Http
  import opened Entities
  import Jwt

  /** `expiresIn: "10m"`. */
  const CodeTtl: nat := 600

  const AuthorizePath := "/api/oauth/authorize"

  /** The claims an authorization code carries. */
  function CodeClaims(clientId: string, userId: string, redirectUri: string, scope: string): Jwt.Claims
  {
    [("clientId", clientId), ("userId", userId), ("redirectUri", redirectUri), ("scope", scope)]
  }

  /** Each of the four claims of a code reads back as given. */
  lemma CodeClaimsRead(clientId: string, userId: string, redirectUri: string, scope: string)
    ensures var c := CodeClaims(clientId, userId, redirectUri, scope);
            && Jwt.Claim(c, "clientId") == Some(clientId)
            && Jwt.Claim(c, "userId") == Some(userId)
            && Jwt.Claim(c, "redirectUri") == Some(redirectUri)
            && Jwt.Claim(c, "scope") == Some(scope)
  {
    var c1: Jwt.Claims := [("clientId", clientId)];
    var c2 := c1 + [("userId", userId)];
    var c3 := c2 + [("redirectUri", redirectUri)];
    var c4 := c3 + [("scope", scope)];
    assert c4 == CodeClaims(clientId, userId, redirectUri, scope);
    assert Jwt.Claim([], "clientId") == None;
    assert c1 == [] + [("clientId", clientId)];
    Jwt.ClaimSnoc([], "clientId", clientId, "clientId");
    Jwt.ClaimSnoc(c1, "userId", userId, "clientId");
    Jwt.ClaimSnoc(c2, "redirectUri", redirectUri, "clientId");
    Jwt.ClaimSnoc(c3, "scope", scope, "clientId");
    Jwt.ClaimSnoc(c2, "redirectUri", redirectUri, "userId");
    Jwt.ClaimSnoc(c3, "scope", scope, "userId");
    Jwt.ClaimSnoc(c3, "scope", scope, "redirectUri");
  }

  /** The parameter guard: `client_id` and `redirect_uri` present and non-empty, `response_type` exactly "code". */
  predicate WellFormed(q: Query)
  {
    Truthy(Get(q, "client_id")) && Truthy(Get(q, "redirect_uri")) && Get(q, "response_type") == Some("code")
  }

  /** The client is registered and lists the redirect URI, compared as whole strings. */
  predicate RedirectRegistered(apps: seq<Application>, clientId: string, redirectUri: string)
  {
    match FindByClientId(apps, clientId)
    case None => false
    case Some(app) => redirectUri in app.redirectUris
  }

  /** `scope || ""`. */
  function ScopeOrEmpty(scope: Option<string>): string
  {
    if scope.Some? then scope.value else ""
  }

  /** Every guard passes: parameters, client and redirect URI, a signed-in user, and `consent=true`. */
  predicate Granted(q: Query, apps: seq<Application>, session: Option<SessionInfo>)
  {
    && WellFormed(q)
    && RedirectRegistered(apps, Get(q, "client_id").value, Get(q, "redirect_uri").value)
    && session.Some?
    && Get(q, "consent") == Some("true")
  }

  /** Where the login page sends the user back to: this endpoint with the original query. */
  function ReturnUrl(q: Query): string
  {
    AuthorizePath + "?" + EncodeQuery(q)
  }

  function LoginRedirect(returnUrl: string): Url
  {
    Url("/login", [("returnUrl", returnUrl)])
  }

  /** The authorization code issued for a granted request at time `now`. */
  function IssueCode(q: Query, userId: string, secret: string, now: nat): string
    requires WellFormed(q)
  {
    Jwt.Sign(secret, CodeClaims(Get(q, "client_id").value, userId, Get(q, "redirect_uri").value, ScopeOrEmpty(Get(q, "scope"))), now, CodeTtl)
  }

  /** The outcome of one authorize request. */
  function AuthorizeResponse(q: Query, apps: seq<Application>, session: Option<SessionInfo>, secret: string, now: nat): (r: Response<()>)
    // the parameter guard comes first and needs neither store nor session
    ensures !WellFormed(q) <==> r == JsonError("invalid_request", 400)
    // then the client and redirect check
    ensures WellFormed(q) && !RedirectRegistered(apps, Get(q, "client_id").value, Get(q, "redirect_uri").value)
            <==> r == JsonError("unauthorized_client", 401)
    // errors are JSON, never redirects
    ensures r.JsonError? ==> r.status == 400 || r.status == 401
    // then the login suspension, carrying the whole original query
    ensures WellFormed(q) && RedirectRegistered(apps, Get(q, "client_id").value, Get(q, "redirect_uri").value) && session.None?
            ==> r == Redirect(LoginRedirect(ReturnUrl(q)))
    // then the consent suspension, carrying every original pair in order
    ensures WellFormed(q) && RedirectRegistered(apps, Get(q, "client_id").value, Get(q, "redirect_uri").value) && session.Some?
            && Get(q, "consent") != Some("true")
            ==> r == Redirect(Url("/consent", q))
    // a code reaches the client only when every guard passed
    ensures r.Redirect? && r.to.base != "/login" && r.to.base != "/consent" <==> Granted(q, apps, session) && HasScheme(Get(q, "redirect_uri").value)
    ensures Granted(q, apps, session) && HasScheme(Get(q, "redirect_uri").value) ==>
            && r.to.base == Get(q, "redirect_uri").value
            && |r.to.params| > 0
            && r.to.params[0] == ("code", IssueCode(q, session.value.userId, secret, now))
            && r.to.params[1..] == IfPresent("state", Get(q, "state"))
    // a redirect URI that `new URL` cannot parse makes the handler throw
    ensures Granted(q, apps, session) && !HasScheme(Get(q, "redirect_uri").value) ==> r == Uncaught()
  {
    if !WellFormed(q) then JsonError("invalid_request", 400)
    else
      var clientId := Get(q, "client_id").value;
      var redirectUri := Get(q, "redirect_uri").value;
      if !RedirectRegistered(apps, clientId, redirectUri) then JsonError("unauthorized_client", 401)
      else if session.None? then Redirect(LoginRedirect(ReturnUrl(q)))
      else if Get(q, "consent") != Some("true") then Redirect(Url("/consent", q))
      else if !HasScheme(redirectUri) then Uncaught()
      else Redirect(Url(redirectUri, [("code", IssueCode(q, session.value.userId, secret, now))] + IfPresent("state", Get(q, "state"))))
  }

  /** The handler, building its redirect URLs by successive `searchParams.append` calls. */
  method Authorize(q: Query, apps: seq<Application>, session: Option<SessionInfo>, secret: string, now: nat) returns (r: Response<()>)
    ensures r == AuthorizeResponse(q, apps, session, secret, now)
  {
    var clientId := Get(q, "client_id");
    var redirectUri := Get(q, "redirect_uri");
    var responseType := Get(q, "response_type");
    var state := Get(q, "state");
    var consent := Get(q, "consent");
    var scope := Get(q, "scope");

    if !Truthy(clientId) || !Truthy(redirectUri) || responseType != Some("code") {
      return JsonError("invalid_request", 400);
    }

    var application := FindByClientId(apps, clientId.value);
    if application.None? || redirectUri.value !in application.value.redirectUris {
      return JsonError("unauthorized_client", 401);
    }

    if session.None? {
      return Redirect(LoginRedirect(AuthorizePath + "?" + EncodeQuery(q)));
    }

    if consent != Some("true") {
      var consentUrl := ConsentRedirect(q);
      return Redirect(consentUrl);
    }

    var code := Jwt.Sign(secret, CodeClaims(clientId.value, session.value.userId, redirectUri.value, ScopeOrEmpty(scope)), now, CodeTtl);

    if !HasScheme(redirectUri.value) {
      return Uncaught();
    }
    var redirectUrl := ClientRedirect(redirectUri.value, code, state);
    return Redirect(redirectUrl);
  }

  /** The consent page's URL: `/consent` with every pair of the request appended in order. */
  method ConsentRedirect(q: Query) returns (u: Url)
    ensures u == Url("/consent", q)
  {
    var consentUrl := new UrlBuilder("/consent");
    var i := 0;
    while i < |q|
      invariant 0 <= i <= |q|
      invariant consentUrl.base == "/consent"
      invariant consentUrl.params == q[..i]
    {
      consentUrl.Append(q[i].0, q[i].1);
      i := i + 1;
    }
    assert q[..i] == q;
    return consentUrl.Value();
  }

  /** The client's redirect URI with `code` appended, then `state` when it is non-empty. */
  method ClientRedirect(redirectUri: string, code: string, state: Option<string>) returns (u: Url)
    ensures u == Url(redirectUri, [("code", code)] + IfPresent("state", state))
  {
    var redirectUrl := new UrlBuilder(redirectUri);
    redirectUrl.Append("code", code);
    redirectUrl.AppendIfPresent("state", state);
    return redirectUrl.Value();
  }

  /** The login page's return URL reads back as the original query, so no parameter is lost. */
  lemma ReturnUrlRecoversQuery(q: Query)
    ensures ReturnUrl(q)[..|AuthorizePath| + 1] == AuthorizePath + "?"
    ensures DecodeQuery(ReturnUrl(q)[|AuthorizePath| + 1..]) == Some(q)
  {
    assert ReturnUrl(q)[|AuthorizePath| + 1..] == EncodeQuery(q);
    DecodeEncodeQuery(q);
  }

  /**
   * The code sent to the client verifies, until ten minutes after issue, to the client id,
   * the signed-in user, the redirect URI and the scope of the request; afterwards it fails.
   */
  lemma IssuedCodeCarriesRequest(q: Query, apps: seq<Application>, session: Option<SessionInfo>, secret: string, now: nat, t: nat)
    requires Granted(q, apps, session) && HasScheme(Get(q, "redirect_uri").value)
    ensures var r := AuthorizeResponse(q, apps, session, secret, now);
            Jwt.Verify(secret, r.to.params[0].1, t) ==
              if t < now + CodeTtl
              then Some(CodeClaims(Get(q, "client_id").value, session.value.userId, Get(q, "redirect_uri").value, ScopeOrEmpty(Get(q, "scope"))))
              else None
  {
    Jwt.VerifySign(secret, CodeClaims(Get(q, "client_id").value, session.value.userId, Get(q, "redirect_uri").value, ScopeOrEmpty(Get(q, "scope"))), now, CodeTtl, t);
  }

  /** `state` comes back to the client unchanged when the request carried a non-empty one, and is absent otherwise. */
  lemma StateEchoed(q: Query, apps: seq<Application>, session: Option<SessionInfo>, secret: string, now: nat)
    requires Granted(q, apps, session) && HasScheme(Get(q, "redirect_uri").value)
    ensures var r := AuthorizeResponse(q, apps, session, secret, now);
            Get(r.to.params, "state") == if Truthy(Get(q, "state")) then Get(q, "state") else None
  {
    var r := AuthorizeResponse(q, apps, session, secret, now);
    assert r.to.params[1..] == IfPresent("state", Get(q, "state"));
    assert Get(r.to.params, "state") == Get(r.to.params[1..], "state");
  }
}

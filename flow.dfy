/**
 * The authorization-code grant end to end, across the endpoints and pages: a request that
 * has to sign in first comes back intact, consent leads to a code that carries the request,
 * the code buys tokens for its ten minutes, and the access token reads the user's profile
 * for its hour.
 */
module Flow {
  import opened Optional
  import opened Http
  import opened Entities
  import Jwt
  import Authorize
  import TokenEndpoint
  import UserInfo
  import ConsentPage

  /** A well-formed request from a registered client, for a redirect URI it registered. */
  ghost predicate RegisteredRequest(q: Query, apps: seq<Application>)
  {
    Authorize.WellFormed(q) && Authorize.RedirectRegistered(apps, Get(q, "client_id").value, Get(q, "redirect_uri").value)
  }

  /**
   * Signing in first loses nothing: the login redirect's return URL reads back as the
   * original query, and asked again with a session the endpoint sends the user to consent
   * with every original pair.
   */
  lemma SignInResumesRequest(q: Query, apps: seq<Application>, session: SessionInfo, secret: string, now: nat)
    requires RegisteredRequest(q, apps) && Get(q, "consent") != Some("true")
    ensures Authorize.AuthorizeResponse(q, apps, None, secret, now) == Redirect(Authorize.LoginRedirect(Authorize.ReturnUrl(q)))
    ensures DecodeQuery(Authorize.ReturnUrl(q)[|Authorize.AuthorizePath| + 1..]) == Some(q)
    ensures Authorize.AuthorizeResponse(q, apps, Some(session), secret, now) == Redirect(Url("/consent", q))
  {
    Authorize.ReturnUrlRecoversQuery(q);
  }

  /**
   * Allow on the consent page completes the request: the URL it builds is accepted by the
   * authorize endpoint, which answers with the code and state the original request would
   * have earned with `consent=true`.
   */
  lemma AllowCompletesRequest(q: Query, apps: seq<Application>, session: SessionInfo, secret: string, now: nat, origin: string)
    requires RegisteredRequest(q, apps) && HasScheme(Get(q, "redirect_uri").value)
    ensures var q' := ConsentPage.AllowUrl(q, origin).params;
            && Authorize.Granted(q', apps, Some(session))
            && Authorize.AuthorizeResponse(q', apps, Some(session), secret, now)
               == Redirect(Url(Get(q, "redirect_uri").value,
                               [("code", Authorize.IssueCode(q, session.userId, secret, now))] + IfPresent("state", Get(q, "state"))))
  {
    var q' := ConsentPage.AllowUrl(q, origin).params;
    ConsentPage.AllowUrlParams(q, origin);
    assert Authorize.WellFormed(q');
    assert Authorize.ScopeOrEmpty(Get(q', "scope")) == Authorize.ScopeOrEmpty(Get(q, "scope"));
    assert Authorize.IssueCode(q', session.userId, secret, now) == Authorize.IssueCode(q, session.userId, secret, now);
    assert Authorize.Granted(q', apps, Some(session));
    var r := Authorize.AuthorizeResponse(q', apps, Some(session), secret, now);
    assert r.to.params == [r.to.params[0]] + r.to.params[1..];
  }

  /**
   * Deny on the consent page of a registered request sends the user to the client's own
   * redirect URI with `error=access_denied` and the request's state (RFC 6749, section
   * 4.1.2.1).
   */
  lemma DenyReturnsToClient(q: Query, apps: seq<Application>, origin: string)
    requires RegisteredRequest(q, apps) && HasScheme(Get(q, "redirect_uri").value)
    ensures var u := ConsentPage.DenyUrl(q, origin);
            && u.base == Get(q, "redirect_uri").value
            && u.params[0] == ("error", "access_denied")
            && Get(u.params, "state") == if Truthy(Get(q, "state")) then Get(q, "state") else None
  {
  }

  /** The token request a client makes with a code it was sent for request q. */
  function CodeForm(q: Query, code: string, clientSecret: string): TokenEndpoint.TokenForm
    requires Authorize.WellFormed(q)
  {
    TokenEndpoint.TokenForm(Some("authorization_code"), Some(code), Get(q, "redirect_uri"), Get(q, "client_id"), Some(clientSecret))
  }

  /**
   * A code issued at `issued`, presented with the client's stored secret, is exchanged for
   * tokens of its user at any time within ten minutes, as often as it is presented; from
   * the tenth minute on it is refused with `invalid_grant`.
   */
  lemma CodeExchange(q: Query, apps: seq<Application>, users: UserStore, session: SessionInfo,
                     secret: string, issued: nat, t: nat)
    requires RegisteredRequest(q, apps) && session.userId in users
    // the registry's generated secrets are 64 characters, never empty
    requires FindByClientId(apps, Get(q, "client_id").value).value.clientSecret != ""
    ensures var app := FindByClientId(apps, Get(q, "client_id").value).value;
            var f := CodeForm(q, Authorize.IssueCode(q, session.userId, secret, issued), app.clientSecret);
            var r := TokenEndpoint.Exchange(f, apps, users, secret, t);
            var u := users[session.userId];
            && (t < issued + Authorize.CodeTtl ==> r.Json? && r.body.user == TokenEndpoint.UserSummary(u.id, u.email, u.name))
            && (t >= issued + Authorize.CodeTtl ==> r == JsonError("invalid_grant", 400))
  {
    var clientId := Get(q, "client_id").value;
    var redirectUri := Get(q, "redirect_uri").value;
    var claims := Authorize.CodeClaims(clientId, session.userId, redirectUri, Authorize.ScopeOrEmpty(Get(q, "scope")));
    var app := FindByClientId(apps, clientId).value;
    var code := Authorize.IssueCode(q, session.userId, secret, issued);
    var f := CodeForm(q, code, app.clientSecret);
    Jwt.VerifySign(secret, claims, issued, Authorize.CodeTtl, t);
    Authorize.CodeClaimsRead(clientId, session.userId, redirectUri, Authorize.ScopeOrEmpty(Get(q, "scope")));
    Jwt.SignNonEmpty(secret, claims, issued, Authorize.CodeTtl);
    assert TokenEndpoint.FieldsPresent(f);
    assert TokenEndpoint.ClientAuthenticated(apps, f);
    if t < issued + Authorize.CodeTtl {
      assert TokenEndpoint.ClaimsMatch(claims, f);
      assert TokenEndpoint.CodeUser(f, users, secret, t) == Some(users[session.userId]);
    }
  }

  /**
   * The access token from a successful exchange reads the stored profile of the code's user
   * at any time within the hour after the exchange, and is refused afterwards.
   */
  lemma AccessTokenReadsProfile(f: TokenEndpoint.TokenForm, apps: seq<Application>, users: UserStore,
                                secret: string, now: nat, t: nat)
    requires UsersKeyed(users)
    requires TokenEndpoint.Exchange(f, apps, users, secret, now).Json?
    ensures var u := TokenEndpoint.CodeUser(f, users, secret, now).value;
            var header := Some(UserInfo.BearerPrefix + TokenEndpoint.Exchange(f, apps, users, secret, now).body.accessToken);
            UserInfo.UserInfoResponse(header, users, secret, t)
            == if t < now + TokenEndpoint.AccessTtl then Json(UserInfo.ProfileOf(u)) else JsonError("invalid_token", 401)
  {
    var u := TokenEndpoint.CodeUser(f, users, secret, now).value;
    var tok := TokenEndpoint.Exchange(f, apps, users, secret, now).body.accessToken;
    UserInfo.BearerTokenOfHeader(tok);
    TokenEndpoint.IssuedTokensVerify(f, apps, users, secret, now, t);
    TokenEndpoint.AccessClaimsSubject(u);
    assert u.id in users && users[u.id] == u;
  }
}

/**
 * POST /api/oauth/token (app/api/oauth/token/route.ts): the code-for-token exchange of
 * RFC 6749, section 4.1.3, answered as in section 5.1 (success) and 5.2 (errors). It reads
 * the application and user stores and changes nothing: the code is not marked as used.
 */
module TokenEndpoint {
  import opened Optional
  import opened Http
  import opened Entities
  import Jwt

  /** `expiresIn: "1h"`. */
  const AccessTtl: nat := 3600
  /** `expiresIn: "7d"`. */
  const RefreshTtl: nat := 7 * 24 * 3600

  /** The form fields of the request; absent fields are None. */
  datatype TokenForm = TokenForm(
    grantType: Option<string>,
    code: Option<string>,
    redirectUri: Option<string>,
    clientId: Option<string>,
    clientSecret: Option<string>)

  datatype UserSummary = UserSummary(id: string, email: string, name: string)

  /** The success body: `access_token`, `token_type`, `expires_in`, `refresh_token`, `user`. */
  datatype TokenBody = TokenBody(
    accessToken: string,
    tokenType: string,
    expiresIn: nat,
    refreshToken: string,
    user: UserSummary)

  /** Every field is present and non-empty. `grant_type` is not checked beyond that. */
  predicate FieldsPresent(f: TokenForm)
  {
    Truthy(f.grantType) && Truthy(f.code) && Truthy(f.redirectUri) && Truthy(f.clientId) && Truthy(f.clientSecret)
  }

  /** The client exists and the secret equals the stored one exactly. */
  predicate ClientAuthenticated(apps: seq<Application>, f: TokenForm)
    requires FieldsPresent(f)
  {
    match FindByClientId(apps, f.clientId.value)
    case None => false
    case Some(app) => app.clientSecret == f.clientSecret.value
  }

  /** The code's claims name this client and this redirect URI. */
  predicate ClaimsMatch(c: Jwt.Claims, f: TokenForm)
    requires FieldsPresent(f)
  {
    Jwt.Claim(c, "clientId") == Some(f.clientId.value) && Jwt.Claim(c, "redirectUri") == Some(f.redirectUri.value)
  }

  function AccessClaims(u: User): Jwt.Claims
  {
    [("sub", u.id), ("email", u.email), ("name", u.name)]
  }

  /** The access token's subject is the user's id. */
  lemma AccessClaimsSubject(u: User)
    ensures Jwt.Claim(AccessClaims(u), "sub") == Some(u.id)
  {
    var c1: Jwt.Claims := [("sub", u.id)];
    var c2 := c1 + [("email", u.email)];
    assert AccessClaims(u) == c2 + [("name", u.name)];
    assert c1 == [] + [("sub", u.id)];
    Jwt.ClaimSnoc([], "sub", u.id, "sub");
    Jwt.ClaimSnoc(c1, "email", u.email, "sub");
    Jwt.ClaimSnoc(c2, "name", u.name, "sub");
  }

  function RefreshClaims(u: User): Jwt.Claims
  {
    [("sub", u.id)]
  }

  /**
   * The user whose code this is: the code verifies, its claims match the request, and its
   * `userId` names a stored user. A code without `userId` makes the database query throw,
   * which the handler turns into `invalid_grant` like the other cases.
   */
  function CodeUser(f: TokenForm, users: UserStore, secret: string, now: nat): Option<User>
    requires FieldsPresent(f)
  {
    match Jwt.Verify(secret, f.code.value, now)
    case None => None
    case Some(c) =>
      if !ClaimsMatch(c, f) then None
      else
        match Jwt.Claim(c, "userId")
        case None => None
        case Some(userId) => FindUser(users, userId)
  }

  /** The outcome of one token request at time `now`. */
  function Exchange(f: TokenForm, apps: seq<Application>, users: UserStore, secret: string, now: nat): (r: Response<TokenBody>)
    ensures r.JsonError? || r.Json?
    // a missing or empty field, whichever it is
    ensures !FieldsPresent(f) <==> r == JsonError("invalid_request", 400)
    // bad client credentials: always 401, decided before the code is looked at
    ensures FieldsPresent(f) && !ClientAuthenticated(apps, f) <==> r == JsonError("invalid_client", 401)
    ensures r.JsonError? && r.error == "invalid_client" ==> r.status == 401
    // a code that does not verify (tampered or expired)
    ensures FieldsPresent(f) && ClientAuthenticated(apps, f) && Jwt.Verify(secret, f.code.value, now).None?
            ==> r == JsonError("invalid_grant", 400)
    // a verified code issued for another client or another redirect URI
    ensures FieldsPresent(f) && ClientAuthenticated(apps, f) && Jwt.Verify(secret, f.code.value, now).Some?
            && !ClaimsMatch(Jwt.Verify(secret, f.code.value, now).value, f)
            ==> r == JsonError("invalid_grant", 400)
    // a matching code whose user no longer exists
    ensures FieldsPresent(f) && ClientAuthenticated(apps, f) && Jwt.Verify(secret, f.code.value, now).Some?
            && Jwt.Claim(Jwt.Verify(secret, f.code.value, now).value, "userId").Some?
            && Jwt.Claim(Jwt.Verify(secret, f.code.value, now).value, "userId").value !in users
            ==> r == JsonError("invalid_grant", 400)
    // once the client is authenticated, every failure (including a code without a `userId` claim) is `invalid_grant`
    ensures FieldsPresent(f) && ClientAuthenticated(apps, f) && !r.Json? ==> r == JsonError("invalid_grant", 400)
    // success exactly when the code names a stored user, with the metadata and summary of that user
    ensures r.Json? <==> FieldsPresent(f) && ClientAuthenticated(apps, f) && CodeUser(f, users, secret, now).Some?
    ensures r.Json? ==>
              var u := CodeUser(f, users, secret, now).value;
              && r.body.tokenType == "Bearer"
              && r.body.expiresIn == 3600
              && r.body.user == UserSummary(u.id, u.email, u.name)
              && r.body.accessToken == Jwt.Sign(secret, AccessClaims(u), now, AccessTtl)
              && r.body.refreshToken == Jwt.Sign(secret, RefreshClaims(u), now, RefreshTtl)
  {
    if !FieldsPresent(f) then JsonError("invalid_request", 400)
    else if !ClientAuthenticated(apps, f) then JsonError("invalid_client", 401)
    else
      match CodeUser(f, users, secret, now)
      case None => JsonError("invalid_grant", 400)
      case Some(u) =>
        Json(TokenBody(
          Jwt.Sign(secret, AccessClaims(u), now, AccessTtl),
          "Bearer",
          3600,
          Jwt.Sign(secret, RefreshClaims(u), now, RefreshTtl),
          UserSummary(u.id, u.email, u.name)))
  }

  /**
   * The route handler: the request body is read as form data before the `try`, so a body
   * that is not form data (None) makes the handler throw uncaught.
   */
  function TokenResponse(form: Option<TokenForm>, apps: seq<Application>, users: UserStore, secret: string, now: nat): (r: Response<TokenBody>)
    ensures form.None? <==> r == Uncaught()
    ensures form.Some? ==> r == Exchange(form.value, apps, users, secret, now)
  {
    match form
    case None => Uncaught()
    case Some(f) => Exchange(f, apps, users, secret, now)
  }

  /**
   * Both issued tokens verify to their claims for exactly their lifetimes: the access token
   * for an hour, the refresh token for seven days.
   */
  lemma IssuedTokensVerify(f: TokenForm, apps: seq<Application>, users: UserStore, secret: string, now: nat, t: nat)
    requires Exchange(f, apps, users, secret, now).Json?
    ensures var r := Exchange(f, apps, users, secret, now);
            var u := CodeUser(f, users, secret, now).value;
            && Jwt.Verify(secret, r.body.accessToken, t) == (if t < now + AccessTtl then Some(AccessClaims(u)) else None)
            && Jwt.Verify(secret, r.body.refreshToken, t) == (if t < now + RefreshTtl then Some(RefreshClaims(u)) else None)
  {
    var u := CodeUser(f, users, secret, now).value;
    Jwt.VerifySign(secret, AccessClaims(u), now, AccessTtl, t);
    Jwt.VerifySign(secret, RefreshClaims(u), now, RefreshTtl, t);
  }

  /** Any non-empty `grant_type` is accepted alike: its value never changes the outcome. */
  lemma GrantTypeOnlyPresenceChecked(f: TokenForm, grantType: string, apps: seq<Application>, users: UserStore, secret: string, now: nat)
    requires grantType != "" && Truthy(f.grantType)
    ensures Exchange(f.(grantType := Some(grantType)), apps, users, secret, now) == Exchange(f, apps, users, secret, now)
  {
    var g := f.(grantType := Some(grantType));
    assert FieldsPresent(g) == FieldsPresent(f);
    if FieldsPresent(f) {
      assert ClientAuthenticated(apps, g) == ClientAuthenticated(apps, f);
      assert CodeUser(g, users, secret, now) == CodeUser(f, users, secret, now);
    }
  }
}

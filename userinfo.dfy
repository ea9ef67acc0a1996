/**
 * GET /api/oauth/userinfo (app/api/oauth/userinfo/route.ts): resolves a bearer token sent
 * in the `Authorization` header (RFC 6750, section 2.1) to the profile stored for its
 * subject. Every failure gives the same answer.
 */
module UserInfo {
  import opened Optional
  import opened Http
  import opened Entities
  import Jwt

  const BearerPrefix := "Bearer "

  /** The profile body: `id`, `email`, `name`, `image`. */
  datatype Profile = Profile(id: string, email: string, name: string, image: Option<string>)

  /** The token in an `Authorization` header: what follows an exact "Bearer " prefix. */
  function BearerToken(header: Option<string>): (tok: Option<string>)
    ensures tok.Some? <==> Truthy(header) && |header.value| >= 7 && header.value[..7] == BearerPrefix
    ensures tok.Some? ==> header.value == BearerPrefix + tok.value
  {
    if Truthy(header) && |header.value| >= |BearerPrefix| && header.value[..|BearerPrefix|] == BearerPrefix
    then Some(header.value[|BearerPrefix|..])
    else None
  }

  /** Whatever follows the prefix is the token examined, character for character. */
  lemma BearerTokenOfHeader(tok: string)
    ensures BearerToken(Some(BearerPrefix + tok)) == Some(tok)
  {
    assert (BearerPrefix + tok)[..|BearerPrefix|] == BearerPrefix;
    assert (BearerPrefix + tok)[|BearerPrefix|..] == tok;
  }

  /** The stored user the token's `sub` claim names, if the token verifies and the user exists. */
  function TokenUser(header: Option<string>, users: UserStore, secret: string, now: nat): Option<User>
  {
    match BearerToken(header)
    case None => None
    case Some(tok) =>
      match Jwt.Verify(secret, tok, now)
      case None => None
      case Some(c) =>
        match Jwt.Claim(c, "sub")
        case None => None   // the lookup with an undefined id throws and is caught
        case Some(sub) => FindUser(users, sub)
  }

  function ProfileOf(u: User): Profile
  {
    Profile(u.id, u.email, u.name, u.image)
  }

  /** The outcome of one userinfo request at time `now`. */
  function UserInfoResponse(header: Option<string>, users: UserStore, secret: string, now: nat): (r: Response<Profile>)
    ensures r.JsonError? || r.Json?
    // one error for every failure: a missing or malformed header, a bad or expired token, an unknown subject
    ensures r.JsonError? ==> r == JsonError("invalid_token", 401)
    ensures BearerToken(header).None? ==> r == JsonError("invalid_token", 401)
    ensures BearerToken(header).Some? && Jwt.Verify(secret, BearerToken(header).value, now).None? ==> r == JsonError("invalid_token", 401)
    ensures r.Json? <==> TokenUser(header, users, secret, now).Some?
    // the profile comes from the stored record
    ensures r.Json? ==>
              var c := Jwt.Verify(secret, BearerToken(header).value, now).value;
              && Jwt.Claim(c, "sub").Some?
              && Jwt.Claim(c, "sub").value in users
              && r.body == ProfileOf(users[Jwt.Claim(c, "sub").value])
  {
    match TokenUser(header, users, secret, now)
    case None => JsonError("invalid_token", 401)
    case Some(u) => Json(ProfileOf(u))
  }

  /**
   * The answer does not depend on why a token failed: a token signed under another secret
   * and an expired one are answered alike.
   */
  lemma FailuresIndistinguishable(claims: Jwt.Claims, claims2: Jwt.Claims, secret: string, other: string,
                                   iat: nat, ttl: nat, iat2: nat, ttl2: nat, now: nat, users: UserStore)
    requires other != secret
    requires iat2 + ttl2 <= now
    ensures UserInfoResponse(Some(BearerPrefix + Jwt.Sign(other, claims, iat, ttl)), users, secret, now)
         == UserInfoResponse(Some(BearerPrefix + Jwt.Sign(secret, claims2, iat2, ttl2)), users, secret, now)
    ensures UserInfoResponse(Some(BearerPrefix + Jwt.Sign(other, claims, iat, ttl)), users, secret, now)
         == JsonError("invalid_token", 401)
  {
    BearerTokenOfHeader(Jwt.Sign(other, claims, iat, ttl));
    BearerTokenOfHeader(Jwt.Sign(secret, claims2, iat2, ttl2));
    Jwt.VerifyRejectsOtherSecret(other, secret, claims, iat, ttl, now);
    Jwt.VerifySign(secret, claims2, iat2, ttl2, now);
  }
}

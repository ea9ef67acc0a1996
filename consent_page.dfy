/**
 * The consent page (app/consent/page.tsx). It reads the authorization request from its own
 * query, asks the public lookup which application is asking, shows what it will be able to
 * do, and sends the browser either back to the authorize endpoint with `consent=true`
 * (Allow) or back to the client with `error=access_denied` (Deny).
 */
module ConsentPage {
  import opened Optional
  import opened Http
  import opened Entities
  import PublicApplications
  import Authorize

  /** `useSession().status`. */
  datatype AuthStatus = StatusLoading | Authenticated | Unauthenticated

  /** What the page renders. */
  datatype Screen =
    | Spinner                                                       // "Loading..."
    | SendToLogin(to: Url)                                          // router.push to the login page
    | Failure(message: string)                                      // the error box
    | Prompt(applicationName: string, showsEmail: bool, showsProfile: bool)

  /** t occurs in s starting at position i. */
  predicate OccursAt(s: string, t: string, i: nat)
  {
    i + |t| <= |s| && s[i..i + |t|] == t
  }

  /** `s.includes(t)`: t occurs in s as a contiguous piece. */
  function Includes(s: string, t: string): (b: bool)
    ensures b <==> exists i: nat :: OccursAt(s, t, i)
    decreases |s|
  {
    if |t| > |s| then false
    else if s[..|t|] == t then assert OccursAt(s, t, 0); true
    else
      var b := Includes(s[1..], t);
      assert b ==> exists i: nat :: OccursAt(s, t, i) by {
        if b {
          var i: nat :| OccursAt(s[1..], t, i);
          assert s[i + 1..i + 1 + |t|] == s[1..][i..i + |t|];
          assert OccursAt(s, t, i + 1);
        }
      }
      assert (exists i: nat :: OccursAt(s, t, i)) ==> b by {
        if exists i: nat :: OccursAt(s, t, i) {
          var i: nat :| OccursAt(s, t, i);
          assert i != 0;
          assert s[1..][i - 1..i - 1 + |t|] == s[i..i + |t|];
          assert OccursAt(s[1..], t, i - 1);
        }
      }
      b
  }

  /** `scope?.includes(word)`: false when the request has no scope. */
  predicate ScopeMentions(scope: Option<string>, word: string)
  {
    scope.Some? && Includes(scope.value, word)
  }

  /** `redirectUri || "/"`: where a denial goes. */
  function DenyTarget(q: Query): string
  {
    var redirectUri := Get(q, "redirect_uri");
    if Truthy(redirectUri) then redirectUri.value else "/"
  }

  /**
   * A URL string resolved against the page's origin: an absolute URL stands for itself, and
   * anything else is taken as a path on the origin.
   */
  function Resolve(origin: string, target: string): string
  {
    if HasScheme(target) then target else origin + target
  }

  /** The authorization parameters the Allow button forwards, in the order it appends them. */
  const ForwardedKeys: seq<string> := ["client_id", "redirect_uri", "response_type", "state", "scope"]

  /** The pairs `if (x) append(key, x)` adds for each of `keys` in turn. */
  function Forward(q: Query, keys: seq<string>): Query
  {
    if keys == [] then [] else IfPresent(keys[0], Get(q, keys[0])) + Forward(q, keys[1..])
  }

  /** Only the listed keys are forwarded. */
  lemma {:induction false} ForwardOnlyKeys(q: Query, keys: seq<string>)
    ensures forall i :: 0 <= i < |Forward(q, keys)| ==> Forward(q, keys)[i].0 in keys
  {
    if keys != [] {
      ForwardOnlyKeys(q, keys[1..]);
      var head := IfPresent(keys[0], Get(q, keys[0]));
      forall i | 0 <= i < |Forward(q, keys)| ensures Forward(q, keys)[i].0 in keys {
        if i >= |head| {
          assert Forward(q, keys)[i] == Forward(q, keys[1..])[i - |head|];
        }
      }
    }
  }

  /** A forwarded key reads back as in the request when non-empty; any other key is absent. */
  lemma {:induction false} GetForward(q: Query, keys: seq<string>, key: string)
    ensures Get(Forward(q, keys), key) == if key in keys && Truthy(Get(q, key)) then Get(q, key) else None
  {
    if keys != [] {
      GetConcat(IfPresent(keys[0], Get(q, keys[0])), Forward(q, keys[1..]), key);
      GetForward(q, keys[1..], key);
    }
  }

  lemma ForwardCons(q: Query, k: string, ks: seq<string>)
    ensures Forward(q, [k] + ks) == IfPresent(k, Get(q, k)) + Forward(q, ks)
  {
    assert ([k] + ks)[1..] == ks;
  }

  /** `Forward` over five keys is the five appends the Allow handler makes, in order. */
  lemma ForwardUnrolled(q: Query, k1: string, k2: string, k3: string, k4: string, k5: string)
    ensures Forward(q, [k1, k2, k3, k4, k5])
         == IfPresent(k1, Get(q, k1)) + IfPresent(k2, Get(q, k2)) + IfPresent(k3, Get(q, k3))
            + IfPresent(k4, Get(q, k4)) + IfPresent(k5, Get(q, k5))
  {
    var a, b, c, d, e := IfPresent(k1, Get(q, k1)), IfPresent(k2, Get(q, k2)), IfPresent(k3, Get(q, k3)),
                         IfPresent(k4, Get(q, k4)), IfPresent(k5, Get(q, k5));
    ForwardOne(q, k5);
    ForwardCons(q, k4, [k5]);
    ForwardCons(q, k3, [k4] + [k5]);
    ForwardCons(q, k2, [k3] + ([k4] + [k5]));
    ForwardCons(q, k1, [k2] + ([k3] + ([k4] + [k5])));
    Display5(k1, k2, k3, k4, k5);
    Assoc5(a, b, c, d, e);
  }

  lemma Display5<T>(k1: T, k2: T, k3: T, k4: T, k5: T)
    ensures [k1, k2, k3, k4, k5] == [k1] + ([k2] + ([k3] + ([k4] + [k5])))
  {
  }

  lemma ForwardOne(q: Query, k: string)
    ensures Forward(q, [k]) == IfPresent(k, Get(q, k))
  {
    assert [k][1..] == [];
    assert IfPresent(k, Get(q, k)) + [] == IfPresent(k, Get(q, k));
  }

  lemma Assoc5<T>(a: seq<T>, b: seq<T>, c: seq<T>, d: seq<T>, e: seq<T>)
    ensures a + (b + (c + (d + e))) == a + b + c + d + e
  {
  }

  lemma AllowParams(q: Query)
    ensures var params := Forward(q, ForwardedKeys) + [("consent", "true")];
            && (forall key :: key in ForwardedKeys ==> Get(params, key) == (if Truthy(Get(q, key)) then Get(q, key) else None))
            && Get(params, "consent") == Some("true")
  {
    var params := Forward(q, ForwardedKeys) + [("consent", "true")];
    forall key | key in ForwardedKeys
      ensures Get(params, key) == if Truthy(Get(q, key)) then Get(q, key) else None
    {
      GetConcat(Forward(q, ForwardedKeys), [("consent", "true")], key);
      GetForward(q, ForwardedKeys, key);
    }
    assert "consent" !in ForwardedKeys;
    GetConcat(Forward(q, ForwardedKeys), [("consent", "true")], "consent");
    GetForward(q, ForwardedKeys, "consent");
  }

  /** The Allow target: the authorize endpoint with the request's own parameters and `consent=true`. */
  function AllowUrl(q: Query, origin: string): (u: Url)
    ensures u.base == origin + Authorize.AuthorizePath
    // each forwarded parameter arrives as it was when non-empty, and is left out otherwise
    ensures forall key :: key in ForwardedKeys ==> Get(u.params, key) == (if Truthy(Get(q, key)) then Get(q, key) else None)
    ensures Get(u.params, "consent") == Some("true")
    // the forwarded pairs, in the handler's order, and `consent=true` last
    ensures |u.params| > 0 && u.params[|u.params| - 1] == ("consent", "true")
    ensures u.params[..|u.params| - 1] == Forward(q, ForwardedKeys)
    // nothing else is sent
    ensures forall i :: 0 <= i < |u.params| ==> u.params[i].0 in ForwardedKeys + ["consent"]
  {
    var params := Forward(q, ForwardedKeys) + [("consent", "true")];
    AllowParams(q);
    ForwardOnlyKeys(q, ForwardedKeys);
    Url(origin + Authorize.AuthorizePath, params)
  }

  /** The authorize query Allow produces, key by key. */
  lemma AllowUrlParams(q: Query, origin: string)
    ensures var p := AllowUrl(q, origin).params;
            && Get(p, "client_id") == (if Truthy(Get(q, "client_id")) then Get(q, "client_id") else None)
            && Get(p, "redirect_uri") == (if Truthy(Get(q, "redirect_uri")) then Get(q, "redirect_uri") else None)
            && Get(p, "response_type") == (if Truthy(Get(q, "response_type")) then Get(q, "response_type") else None)
            && Get(p, "state") == (if Truthy(Get(q, "state")) then Get(q, "state") else None)
            && Get(p, "scope") == (if Truthy(Get(q, "scope")) then Get(q, "scope") else None)
            && Get(p, "consent") == Some("true")
  {
    var p := AllowUrl(q, origin).params;
    assert ForwardedKeys[0] == "client_id" && ForwardedKeys[1] == "redirect_uri" && ForwardedKeys[2] == "response_type";
    assert ForwardedKeys[3] == "state" && ForwardedKeys[4] == "scope";
    ForwardedKeyGet(p, q, "client_id");
    ForwardedKeyGet(p, q, "redirect_uri");
    ForwardedKeyGet(p, q, "response_type");
    ForwardedKeyGet(p, q, "state");
    ForwardedKeyGet(p, q, "scope");
  }

  lemma ForwardedKeyGet(p: Query, q: Query, key: string)
    requires key in ForwardedKeys
    requires forall k :: k in ForwardedKeys ==> Get(p, k) == (if Truthy(Get(q, k)) then Get(q, k) else None)
    ensures Get(p, key) == if Truthy(Get(q, key)) then Get(q, key) else None
  {
  }

  /**
   * The Deny target: `error=access_denied`, then the request's `state` when non-empty,
   * appended to the client's redirect URI or, without one, to the page's own origin.
   */
  function DenyUrl(q: Query, origin: string): (u: Url)
    ensures u.base == Resolve(origin, DenyTarget(q))
    ensures !Truthy(Get(q, "redirect_uri")) ==> u.base == origin + "/"
    ensures |u.params| > 0 && u.params[0] == ("error", "access_denied")
    ensures Get(u.params, "state") == if Truthy(Get(q, "state")) then Get(q, "state") else None
    // `state` is the only other pair, and it is sent exactly when non-empty
    ensures |u.params| == if Truthy(Get(q, "state")) then 2 else 1
  {
    Url(Resolve(origin, DenyTarget(q)), [("error", "access_denied")] + IfPresent("state", Get(q, "state")))
  }

  /**
   * Deny exactly as the handler is written: `new URL(redirectUri || "/")` has no base, so it
   * throws on anything that is not an absolute URL and the page goes nowhere (None).
   */
  function DenyNavigationAsWritten(q: Query): (nav: Option<Url>)
    ensures nav.Some? <==> HasScheme(DenyTarget(q))
  {
    var target := DenyTarget(q);
    if HasScheme(target) then Some(Url(target, [("error", "access_denied")] + IfPresent("state", Get(q, "state"))))
    else None
  }

  /** A request without `redirect_uri` cannot be denied: the fallback "/" is not an absolute URL. */
  lemma DenyWithoutRedirectUriGoesNowhere(q: Query, origin: string)
    requires !Truthy(Get(q, "redirect_uri"))
    ensures DenyNavigationAsWritten(q) == None
    ensures DenyUrl(q, origin).params[0] == ("error", "access_denied")
  {
    assert DenyTarget(q) == "/";
  }

  /** Where the handler as written does navigate, the corrected target is the same URL. */
  lemma DenyUrlAgreesWhereOriginalWorks(q: Query, origin: string)
    requires DenyNavigationAsWritten(q).Some?
    ensures DenyNavigationAsWritten(q).value == DenyUrl(q, origin)
  {
  }

  /** The component's state; `query` is the page's search parameters. */
  class ConsentPage {
    const query: Query
    var application: Option<PublicApplications.PublicApp>
    var loading: bool
    var error: string

    constructor (query: Query)
      ensures this.query == query && application.None? && loading && error == ""
    {
      this.query := query;
      application := None;
      loading := true;
      error := "";
    }

    /**
     * The effect that loads the application: without a client id it fails at once; with
     * one it asks the public lookup, whose answer is modelled by `PublicApplications.Lookup`
     * over the store `apps`. `reachable` is false when the `fetch` rejects or its body does
     * not parse, which the handler's `catch` treats like a failed status.
     */
    method FetchApplicationDetails(apps: seq<Application>, reachable: bool)
      modifies this
      ensures !loading
      ensures !Truthy(Get(query, "client_id")) ==> error == "Missing client ID" && application == old(application)
      ensures Truthy(Get(query, "client_id")) && !reachable
              ==> error == "Could not load application details" && application == old(application)
      ensures Truthy(Get(query, "client_id")) && (forall a :: a in apps ==> a.clientId != Get(query, "client_id").value)
              ==> error == "Could not load application details" && application == old(application)
      // a loaded application is the public view of the row registered under the requested client id
      ensures Truthy(Get(query, "client_id")) && reachable && (exists a :: a in apps && a.clientId == Get(query, "client_id").value)
              ==> error == old(error) && application.Some?
                  && exists a :: a in apps && a.clientId == Get(query, "client_id").value
                                 && application.value == PublicApplications.Project(a)
    {
      var clientId := Get(query, "client_id");
      if !Truthy(clientId) {
        error := "Missing client ID";
        loading := false;
        return;
      }
      if !reachable {
        error := "Could not load application details";
        loading := false;
        return;
      }
      var response := PublicApplications.Lookup([("clientId", clientId.value)], apps);
      if response.Json? {
        application := Some(response.body);
      } else {
        error := "Could not load application details";
      }
      loading := false;
    }

    /** What the page shows for the given session status. */
    function View(status: AuthStatus): (s: Screen)
      reads this
      ensures status == StatusLoading || loading <==> s == Spinner
      ensures s.SendToLogin? <==> status == Unauthenticated && !loading
      ensures s.SendToLogin? ==> s.to == Authorize.LoginRedirect("/consent?" + EncodeQuery(query))
      ensures s.Failure? ==> s.message != "" && (error != "" ==> s.message == error)
                                        && (error == "" ==> s.message == "Invalid application")
      // the prompt appears only for a signed-in user, once the application loaded without error
      ensures s.Prompt? <==> status == Authenticated && !loading && error == "" && application.Some?
      ensures s.Prompt? ==>
                && s.applicationName == application.value.name
                && (s.showsEmail <==> ScopeMentions(Get(query, "scope"), "email"))
                && (s.showsProfile <==> ScopeMentions(Get(query, "scope"), "profile"))
    {
      if status == StatusLoading || loading then Spinner
      else if status == Unauthenticated then SendToLogin(Authorize.LoginRedirect("/consent?" + EncodeQuery(query)))
      else if error != "" || application.None? then Failure(if error != "" then error else "Invalid application")
      else
        assert status == Authenticated;
        Prompt(application.value.name, ScopeMentions(Get(query, "scope"), "email"), ScopeMentions(Get(query, "scope"), "profile"))
    }

    /**
     * `handleConsent(allow)` as written, building its target by successive
     * `searchParams.append` calls; `origin` is `window.location.origin`. None is a handler
     * that throws before `router.push`: a denial whose target is not an absolute URL.
     */
    method HandleConsent(allow: bool, origin: string) returns (nav: Option<Url>)
      ensures allow ==> nav == Some(AllowUrl(query, origin))
      ensures !allow ==> nav == DenyNavigationAsWritten(query)
      // wherever the denial navigates, it goes to the corrected target
      ensures !allow && nav.Some? ==> nav.value == DenyUrl(query, origin)
    {
      var clientId := Get(query, "client_id");
      var redirectUri := Get(query, "redirect_uri");
      var responseType := Get(query, "response_type");
      var state := Get(query, "state");
      var scope := Get(query, "scope");
      if !allow {
        var target := if Truthy(redirectUri) then redirectUri.value else "/";
        if !HasScheme(target) {
          return None;
        }
        var errorUrl := new UrlBuilder(target);
        errorUrl.Append("error", "access_denied");
        assert errorUrl.params == [("error", "access_denied")];
        errorUrl.AppendIfPresent("state", state);
        assert target == DenyTarget(query);
        var u := errorUrl.Value();
        DenyUrlAgreesWhereOriginalWorks(query, origin);
        return Some(u);
      }
      var authorizeUrl := new UrlBuilder(origin + Authorize.AuthorizePath);
      authorizeUrl.AppendIfPresent("client_id", clientId);
      authorizeUrl.AppendIfPresent("redirect_uri", redirectUri);
      authorizeUrl.AppendIfPresent("response_type", responseType);
      authorizeUrl.AppendIfPresent("state", state);
      authorizeUrl.AppendIfPresent("scope", scope);
      ForwardUnrolled(query, "client_id", "redirect_uri", "response_type", "state", "scope");
      assert [] + IfPresent("client_id", clientId) == IfPresent("client_id", clientId);
      authorizeUrl.Append("consent", "true");
      var u := authorizeUrl.Value();
      return Some(u);
    }
  }

  /** The login page's return URL reads back as the consent page's own query. */
  lemma ConsentReturnUrlRecoversQuery(q: Query)
    ensures ("/consent?" + EncodeQuery(q))[..9] == "/consent?"
    ensures DecodeQuery(("/consent?" + EncodeQuery(q))[9..]) == Some(q)
  {
    assert ("/consent?" + EncodeQuery(q))[9..] == EncodeQuery(q);
    DecodeEncodeQuery(q);
  }
}

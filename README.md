# SSO server authorization core in Dafny

This project models the authorization-protocol core of a Next.js single-sign-on server.
The server implements the OAuth 2.0 authorization-code grant (RFC 6749, sections 4.1.1 to
4.1.3, 5.1 and 5.2) and reads bearer tokens from the `Authorization` header (RFC 6750,
section 2.1). The model covers:

- the route handlers: authorize, token, userinfo, the public application lookup, the
  application registry and the session registry;
- the client-side logic of the consent page, the application administration page and the
  dashboard.

Every handler is a chain of guards. It ends in a JSON error with a status, a plain-text
answer, a redirect, or a JSON body (`Http.Response`). The handlers that only compute an
answer are functions. The handlers that change a store are methods on classes:

- `AdminApplications.ApplicationTable` holds the application table;
- `Sessions.SessionTable` holds the session table.

The pages' component state is also held in classes:

- `ConsentPage.ConsentPage`;
- `AdminPage.AdminApplicationsPage`;
- `DashboardPage.Dashboard`.

URLs whose query grows by `searchParams.append` are built with `Http.UrlBuilder`.

Tokens come from an ideal codec (`Jwt`). A token is the rendering of a payload (claims,
issue time, expiry) under a secret. `Verify` accepts exactly the renderings under its own
secret whose expiry lies after the current time. Time is in whole seconds:

- codes live 600 seconds;
- access tokens live 3600 seconds;
- refresh tokens live 7 days.

Query strings are ordered key/value pairs. Their serialization (`searchParams.toString()`
followed by `encodeURIComponent`) is replaced by an injective encoding (netstrings). The
model proves that this encoding decodes back.

Modules, one per source file, plus shared ones:

- `Optional`, `Netstring`, `Http`, `Jwt` and `Entities` are shared;
- `Authorize`, `TokenEndpoint`, `UserInfo`, `PublicApplications`, `AdminApplications` and
  `Sessions` are the route handlers;
- `ConsentPage`, `AdminPage` and `DashboardPage` are the pages;
- `Flow` holds the end-to-end lemmas that tie the pieces together.

The model keeps these behaviours of the code as written:

- `grant_type` is only checked for presence;
- codes are never marked as used, so a code can be exchanged again within its ten minutes;
- "current session" compares a session's `id` with the caller's `sessionToken`;
- a registered redirect URI that is not an absolute URL makes the authorize handler throw,
  and the client gets a 500.

## Model

| member | source | states |
|---|---|---|
| Http.Get | app/api/oauth/authorize/route.ts:10-16 | `searchParams.get` is None exactly when no pair has the key. Otherwise it is the value of the first pair with that key. |
| Http.GetConcat | app/consent/page.tsx:75-83 | A lookup in a query built by appending finds the earlier part's pair first. |
| Http.DecodeEncodeQuery | app/api/oauth/authorize/route.ts:42-43 | The serialized query decodes back to the very pairs it was made from. |
| Netstring.UnframeFramePairs | app/api/oauth/authorize/route.ts:42-43 | Decoding an encoded pair list gives back the list. |
| Netstring.FrameUnframePairs | app/api/oauth/authorize/route.ts:42-43 | Every decodable text is the encoding of the list it decodes to. |
| Netstring.FramePairsInjective | app/api/oauth/authorize/route.ts:42-43 | Distinct queries have distinct encodings. |
| Http.UrlBuilder.Append | app/api/oauth/authorize/route.ts:49-51 | `searchParams.append` adds exactly one pair at the end and keeps the base. |
| Http.UrlBuilder.AppendIfPresent | app/api/oauth/authorize/route.ts:70-72 | `if (v) append(key, v)` adds the pair only for a non-empty value. |
| Jwt.Claim | app/api/oauth/token/route.ts:47-50 | A claim is None exactly when no pair has the key. Otherwise it is the value of the last such pair, as `JSON.parse` keeps it. |
| Jwt.ParseRender | app/api/oauth/token/route.ts:37-44 | A rendered token parses back to its secret and payload. |
| Jwt.RenderParse | app/api/oauth/token/route.ts:37-44 | Every parsable token is the rendering of what it parses to. |
| Jwt.SignNonEmpty | app/api/oauth/token/route.ts:16 | A signed token is never empty, so it passes the presence check. |
| Jwt.VerifySign | app/api/oauth/token/route.ts:37-44 | A token verifies to exactly its claims while `now < iat + ttl`, and fails afterwards. |
| Jwt.VerifyAcceptsExactlySigned | app/api/oauth/token/route.ts:37-44 | Verification gives claims c exactly when the token renders c under the verifier's secret and has not expired. |
| Jwt.VerifyRejectsOtherSecret | app/api/oauth/userinfo/route.ts:20-25 | A token signed under another secret never verifies. |
| Entities.FindByClientId | app/api/oauth/authorize/route.ts:27-29 | The lookup is None exactly when no row has that client id. A found row is in the table and has that client id. |
| Entities.FindByClientIdUnique | app/api/oauth/token/route.ts:24-26 | With unique client ids, the lookup returns the one row that has the id. |
| Authorize.CodeClaimsRead | app/api/oauth/authorize/route.ts:56-62 | The code's `clientId`, `userId`, `redirectUri` and `scope` claims read back as given. |
| Authorize.AuthorizeResponse | app/api/oauth/authorize/route.ts:19-74 | Guards in order: a bad parameter gives 400 `invalid_request`, iff. An unknown client or unregistered redirect URI gives 401 `unauthorized_client`, iff. No session gives the login redirect with the original query. Consent other than "true" gives `/consent` with every pair in order. A redirect to the client happens iff every guard passes. It carries `code` first, then `state` only if non-empty. A non-absolute redirect URI gives a 500. |
| Authorize.Authorize | app/api/oauth/authorize/route.ts:9-75 | The handler builds the consent URL with a loop that appends each pair, and the client URL by appends. Its outcome equals `AuthorizeResponse`. |
| Authorize.ConsentRedirect | app/api/oauth/authorize/route.ts:48-51 | The loop appends every pair of the request, in order, to `/consent`. |
| Authorize.ClientRedirect | app/api/oauth/authorize/route.ts:68-72 | The client URL is the redirect URI with `code` first, then `state` only when it is non-empty. |
| Authorize.ReturnUrlRecoversQuery | app/api/oauth/authorize/route.ts:42-43 | The login return URL is `/api/oauth/authorize?` followed by an encoding that reads back as the original query. |
| Authorize.IssuedCodeCarriesRequest | app/api/oauth/authorize/route.ts:56-65 | The issued code verifies for ten minutes to the client id, the session user, the redirect URI and the scope (or ""). Afterwards it fails. |
| Authorize.StateEchoed | app/api/oauth/authorize/route.ts:68-74 | The client gets back the request's `state` unchanged when it is non-empty, and no `state` otherwise. These are the appended parameters; a query the registered redirect URI carries itself is part of its opaque base. |
| TokenEndpoint.AccessClaimsSubject | app/api/oauth/token/route.ts:70-78 | The access token's `sub` claim is the user's id. |
| TokenEndpoint.Exchange | app/api/oauth/token/route.ts:16-103 | A missing or empty field gives 400 `invalid_request`, iff. Bad client credentials give 401 `invalid_client`, iff, before the code is looked at. An unverifiable code, a code for another client or redirect URI, or a code for a missing user gives 400 `invalid_grant`. Once the client is authenticated, every failure is 400 `invalid_grant`, including a code without a `userId` claim. Success happens iff the code names a stored user. The body is "Bearer", 3600, that user's summary, and tokens for `{sub, email, name}` (1h) and `{sub}` (7d). |
| TokenEndpoint.TokenResponse | app/api/oauth/token/route.ts:7-13 | A body that is not form data throws before the `try`, giving the uncaught 500, iff. Otherwise the answer is `Exchange` on the form's fields. |
| TokenEndpoint.IssuedTokensVerify | app/api/oauth/token/route.ts:69-85 | The access token verifies to its claims for one hour and the refresh token for seven days. After that they fail. |
| TokenEndpoint.GrantTypeOnlyPresenceChecked | app/api/oauth/token/route.ts:16 | Any non-empty `grant_type` gives the same outcome. |
| UserInfo.BearerToken | app/api/oauth/userinfo/route.ts:10-17 | A token is found iff the header is non-empty and starts with exactly "Bearer ". The token is the header without its first 7 characters. |
| UserInfo.BearerTokenOfHeader | app/api/oauth/userinfo/route.ts:17 | Whatever follows "Bearer " is the token examined. |
| UserInfo.UserInfoResponse | app/api/oauth/userinfo/route.ts:10-49 | Every failure is 401 `invalid_token`: missing or malformed header, bad or expired token, unknown subject. Success happens iff the subject is stored. The profile is taken from the stored record. |
| UserInfo.FailuresIndistinguishable | app/api/oauth/userinfo/route.ts:44-49 | A token under another secret (expired or not) and an expired token under the server's secret, with any claims, get the same answer: 401 `invalid_token`. |
| PublicApplications.Lookup | app/api/oauth/applications/route.ts:10-35 | A missing `clientId` gives 400, iff. An unknown one gives 404, iff. A stored client id is always found, and no error other than 400 and 404 occurs. A found application is the `{id, name, clientId, redirectUris}` projection of the row with exactly that client id. |
| PublicApplications.LookupIgnoresSecrets | app/api/oauth/applications/route.ts:18-26 | Changing any stored client secrets never changes an answer, so no secret leaks. |
| PublicApplications.FindIgnoresSecrets | app/api/oauth/applications/route.ts:18-26 | Whether a row is found, and its projection, do not depend on secrets. |
| AdminApplications.ToHex | app/api/admin/applications/route.ts:10 | Hex text is two lower-case hex digits per byte. |
| AdminApplications.FromHexToHex | app/api/admin/applications/route.ts:10 | The hex text determines the bytes, so distinct random bytes give distinct credentials. |
| AdminApplications.GenerateRandomString | app/api/admin/applications/route.ts:9-11 | `generateRandomString(n)` has 2n lower-case hex characters. |
| AdminApplications.RemoveByIdKeepsOthers | app/api/admin/applications/route.ts:102-104 | Removing by id keeps exactly the rows with other ids. |
| AdminApplications.RemoveByIdRemovesOne | app/api/admin/applications/route.ts:102-104 | With unique ids, deleting an id removes exactly its row and keeps the others in order. |
| AdminApplications.RemoveAtKeepsKeys | app/api/admin/applications/route.ts:102-104 | Removing a row keeps ids and client ids unique. |
| AdminApplications.NoneRemoved | app/api/admin/applications/route.ts:102-104 | Deleting an id no row has changes nothing. |
| AdminApplications.ApplicationTable.List | app/api/admin/applications/route.ts:13-25 | No session gives 401 "Unauthorized". Otherwise the answer is the whole table. |
| AdminApplications.ApplicationTable.Create | app/api/admin/applications/route.ts:35-77 | No session gives 401. A body that is not valid JSON, or is JSON `null`, gives 500. Input without a name or a non-empty URI array gives 400. A key collision gives 500. Otherwise exactly one row is appended and returned: the given name and URIs, a 32-character client id and a 64-character secret. Every failure leaves the table unchanged, and the keys stay unique. |
| AdminApplications.ApplicationTable.Delete | app/api/admin/applications/route.ts:80-113 | No session gives 401. A missing id gives 400 and a missing row gives 500, both leaving the table unchanged. Success removes exactly the row with that id and returns `{success: true}`. |
| Sessions.OwnedBy | app/api/user/sessions/route.ts:13-22 | A row is kept iff it belongs to the user. |
| Sessions.Entries | app/api/user/sessions/route.ts:26-32 | There is one entry per row, in order. |
| Sessions.ListSessions | app/api/user/sessions/route.ts:6-34 | No signed-in user gives 401, iff. Otherwise there is one entry per own session, with its `id`, its expiry as `lastActive`, and the fixed `device` and `ip` placeholders. `current` holds iff the id equals the caller's `sessionToken`. |
| Sessions.ListedAreOwn | app/api/user/sessions/route.ts:13-22 | Every listed entry is one of the caller's own sessions. |
| Sessions.RemoveAtKeepsIds | app/api/user/sessions/route.ts:61-66 | Removing a row keeps session ids unique. |
| Sessions.SessionTable.Revoke | app/api/user/sessions/route.ts:41-72 | No signed-in user gives 401. A body that is not valid JSON, or is JSON `null`, gives 500. A missing `sessionId` gives 400. The caller's `sessionToken` gives 400 "Cannot revoke current session". Otherwise the answer is 204 iff an own session has that id, and that one row is removed. Failures leave the table unchanged. Another user's session is never removed. |
| ConsentPage.Includes | app/consent/page.tsx:129-134 | `s.includes(t)` holds iff t occurs in s at some position. |
| ConsentPage.ForwardOnlyKeys | app/consent/page.tsx:76-80 | Only the listed keys are forwarded. |
| ConsentPage.GetForward | app/consent/page.tsx:76-80 | A forwarded key reads back as in the request when non-empty, and is absent otherwise. |
| ConsentPage.ForwardUnrolled | app/consent/page.tsx:76-80 | Forwarding five keys is the five conditional appends, in order. |
| ConsentPage.AllowParams | app/consent/page.tsx:76-83 | In the Allow query, each forwarded key reads as in the request, and `consent` is "true". |
| ConsentPage.AllowUrl | app/consent/page.tsx:73-85 | Allow targets the origin's `/api/oauth/authorize`. `client_id`, `redirect_uri`, `response_type`, `state` and `scope` arrive as in the request when non-empty, and are absent otherwise. `consent` is "true" and nothing else is sent. The parameters are the forwarded pairs in the handler's order, then `consent=true` last. |
| ConsentPage.AllowUrlParams | app/consent/page.tsx:76-83 | Key by key: `client_id`, `redirect_uri`, `response_type`, `state` and `scope` each read as in the request when non-empty and are absent otherwise. `consent` reads "true". |
| ConsentPage.DenyUrl | app/consent/page.tsx:63-68 | Deny goes to `redirect_uri`, or to the origin's "/" without one. `error=access_denied` comes first, then `state` only when non-empty, and nothing else. |
| ConsentPage.DenyNavigationAsWritten | app/consent/page.tsx:63 | As written, Deny navigates iff `redirect_uri || "/"` is an absolute URL. |
| ConsentPage.DenyWithoutRedirectUriGoesNowhere | app/consent/page.tsx:63 | Without `redirect_uri`, the handler as written goes nowhere, while `DenyUrl` still sends `error=access_denied`. |
| ConsentPage.DenyUrlAgreesWhereOriginalWorks | app/consent/page.tsx:63-68 | Wherever the handler as written navigates, it goes to `DenyUrl`. |
| ConsentPage.ConsentPage.FetchApplicationDetails | app/consent/page.tsx:28-58 | A missing client id gives "Missing client ID", with no lookup. An unknown one, or a fetch that rejects or whose body does not parse, gives "Could not load application details". Otherwise a found one loads the public view of the row with that client id. Loading ends in every case. |
| ConsentPage.ConsentPage.View | app/consent/page.tsx:88-134 | The spinner shows while loading. An unauthenticated user goes to the login page with `/consent?` plus the query. An error shows the message, or "Invalid application". The prompt shows iff signed in, loaded and error-free. The email and profile lines show iff `scope` contains "email" and "profile". |
| ConsentPage.ConsentPage.HandleConsent | app/consent/page.tsx:60-86 | Allow navigates to `AllowUrl`. Deny is `DenyNavigationAsWritten`: it navigates only when `redirectUri \|\| "/"` is an absolute URL, and then to `DenyUrl`. Otherwise `new URL` throws and nothing happens. |
| ConsentPage.ConsentReturnUrlRecoversQuery | app/consent/page.tsx:92-96 | The return URL is `/consent?` followed by an encoding that reads back as the page's query. |
| AdminPage.Split | app/admin/applications/page.tsx:59-60 | `split(",")` gives at least one piece, and no piece contains a comma. |
| AdminPage.JoinSplit | app/admin/applications/page.tsx:59-60 | Joining the pieces with commas gives back the text. |
| AdminPage.SplitAround | app/admin/applications/page.tsx:59-60 | The pieces of `a,b` are the pieces of a followed by those of b. |
| AdminPage.TrimStart | app/admin/applications/page.tsx:61 | Only leading white space is removed, and the result starts with a non-space. |
| AdminPage.TrimStartSuffix | app/admin/applications/page.tsx:61 | What is kept after removing leading white space is a suffix of the text. |
| AdminPage.TrimEnd | app/admin/applications/page.tsx:61 | Only trailing white space is removed, and the result ends with a non-space. |
| AdminPage.TrimEndPrefix | app/admin/applications/page.tsx:61 | What is kept after removing trailing white space is a prefix of the text. |
| AdminPage.Trim | app/admin/applications/page.tsx:61 | `trim()` is a contiguous part of the text with only white space around it, and has no white space at either end. |
| AdminPage.TrimNonEmpty | app/admin/applications/page.tsx:61-62 | Trimmed non-empty pieces are never more than the pieces. |
| AdminPage.TrimNonEmptyClean | app/admin/applications/page.tsx:61-62 | From comma-free pieces, every URI is non-empty, comma-free and trimmed. |
| AdminPage.TrimNonEmptyConcat | app/admin/applications/page.tsx:61-62 | The map and filter work piece by piece, so order is kept. |
| AdminPage.ParseRedirectUris | app/admin/applications/page.tsx:59-62 | Every parsed URI is non-empty, contains no comma, and has no white space at either end. |
| AdminPage.ParseRedirectUrisSplits | app/admin/applications/page.tsx:59-62 | The URIs of `a,b` are those of a followed by those of b. |
| AdminPage.ParseSingleUri | app/admin/applications/page.tsx:59-62 | A comma-free text gives its trimmed self, or nothing when blank. |
| AdminPage.SplitWithoutComma | app/admin/applications/page.tsx:59-60 | A comma-free text is one piece. |
| AdminPage.AdminApplicationsPage.FetchApplications | app/admin/applications/page.tsx:33-53 | A successful fetch replaces the list. A failed one sets "Failed to load applications". Loading ends. |
| AdminPage.AdminApplicationsPage.HandleCreateApp | app/admin/applications/page.tsx:55-91 | An empty name or no parsed URI sends nothing, iff, and sets "Name and at least one redirect URI are required". The request carries the name and the parsed URIs, which the registry's validation accepts. A created app is appended at the end and the form is cleared. A failure keeps the list and sets "Failed to create application". |
| DashboardPage.WithoutSession | app/dashboard/page.tsx:64 | An entry is kept iff its id differs from the revoked one, so none with that id remains. |
| DashboardPage.WithoutSessionSplits | app/dashboard/page.tsx:64 | The filter works piece by piece, so the other entries keep their order. |
| DashboardPage.WithoutAbsentSession | app/dashboard/page.tsx:64 | A list without the revoked id is unchanged. |
| DashboardPage.Dashboard.FetchSessions | app/dashboard/page.tsx:27-47 | A successful fetch replaces the list. A failed one sets "Failed to load sessions". Loading ends. |
| DashboardPage.Dashboard.HandleRevokeSession | app/dashboard/page.tsx:49-69 | The request body is exactly `{sessionId}`. Success filters that id out. Failure keeps the list and sets "Failed to revoke session". |
| DashboardPage.RevokeOfferedMatchesServerGuard | app/dashboard/page.tsx:136-143 | For the entries the API lists, the page offers a revoke iff the API's current-session guard would let it through. |
| DashboardPage.PageMatchesServerAfterRevoke | app/dashboard/page.tsx:63-64 | After the API removes an own session, the filtered list equals what a fresh GET returns. |
| DashboardPage.EntriesAfterRemoval | app/dashboard/page.tsx:63-64 | The listed entries after removing row k are the old entries without row k's id. |
| Flow.SignInResumesRequest | app/api/oauth/authorize/route.ts:39-53 | Without a session the request goes to login, with a return URL that reads back as the query. With a session it goes to consent with every pair. |
| Flow.AllowCompletesRequest | app/consent/page.tsx:73-85 | The Allow URL passes every authorize guard. It earns the code and state the original request names. |
| Flow.DenyReturnsToClient | app/consent/page.tsx:63-68 | For a registered request, Deny returns to the client's redirect URI with `error=access_denied` and the state (RFC 6749, section 4.1.2.1). |
| Flow.CodeExchange | app/api/oauth/token/route.ts:36-97 | A code issued at time i, with the client's secret, is exchanged for its user's tokens at any time before i + 600, as often as presented. From then on it gives `invalid_grant`. |
| Flow.AccessTokenReadsProfile | app/api/oauth/userinfo/route.ts:17-43 | The access token from an exchange reads its user's stored profile for an hour, and gets `invalid_token` afterwards. |

## Left out

- Cryptography: the JWT signature is the signing secret itself, an ideal MAC tag. The fallback secret "your-jwt-secret" is not modelled; the secret is a parameter.
- `crypto.randomBytes` and the database's generated ids and timestamps are parameters of the operations that use them.
- Percent-encoding (`encodeURIComponent`, `URLSearchParams.toString`) is replaced by an injective netstring encoding. The consent page interpolates `clientId` into its fetch URL unencoded; the model passes the client id through unchanged.
- `Http.HasScheme` approximates WHATWG URL parsing: it only checks for a leading scheme.
- `ConsentPage.Resolve` resolves a relative target by appending it to the origin. That is exact for paths that start with "/".
- Database failures other than key collisions and deletes of missing rows are left out:
  - the 500 from the public lookup (app/api/oauth/applications/route.ts:36-42);
  - the 500 from the registry GET (app/api/admin/applications/route.ts:26-32);
  - the 500 from the sessions GET (app/api/user/sessions/route.ts:35-38);
  - an uncaught failure of the token route's application lookup.
- Stores are sequences in table order rather than maps. That order is the order `findMany` returns.
- JSON bodies are typed. A `name`, `redirectUris` element, `id` or `sessionId` that is not a string is not modelled. Nullable `name` and `email` columns are plain strings.
- next-auth: a session is an optional (user id, session token) pair. A session object without `user` counts as no session.
- The React runtime is reduced to the state fields the handlers change: hooks, `router.push`, the throw inside `redirect()`, the JSX markup and `Date` formatting. A fetch is its decoded answer, or None (on the consent page, `reachable` false) when the request rejects, its body does not parse, or its status is not ok.
- Authorize.ConsentRedirect: the consent URL's base is the path `/consent`. The endpoint's own origin (`request.nextUrl.origin`) is not part of the model of the authorize endpoint.
- The pages' own redirect to `/login` for unauthenticated users (app/dashboard/page.tsx:23-25, app/admin/applications/page.tsx:29-31) is left out.
- Flow.CodeExchange requires the client's stored secret to be non-empty. An empty stored secret could never pass the token route's presence check; the registry only generates 64-character secrets.

## Findings

| source | as written | input that shows it | evidently intended | confidence | as-written member | corrected member |
|---|---|---|---|---|---|---|
| app/consent/page.tsx:63 | `new URL(redirectUri \|\| "/")` is called without a base, so the fallback "/" always throws and Deny does nothing | the consent page opened with `client_id=x` and no `redirect_uri`, then Deny | send the user to "/" on the site's own origin with `error=access_denied` | not executed; high that the fallback is dead, medium that a root redirect was meant | ConsentPage.DenyWithoutRedirectUriGoesNowhere | ConsentPage.DenyUrl |

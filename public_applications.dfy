/**
 * GET /api/oauth/applications (app/api/oauth/applications/route.ts): the public lookup the
 * consent page uses to show which application asks for access. It reads the store and
 * answers with a projection that leaves the client secret out.
 */
module PublicApplications {
  import opened Optional
  import opened Http
  import opened Entities

  /** The selected columns: `id`, `name`, `clientId`, `redirectUris`. */
  datatype PublicApp = PublicApp(id: string, name: string, clientId: string, redirectUris: seq<string>)

  function Project(a: Application): PublicApp
  {
    PublicApp(a.id, a.name, a.clientId, a.redirectUris)
  }

  /** The outcome of one lookup. */
  function Lookup(q: Query, apps: seq<Application>): (r: Response<PublicApp>)
    ensures r.JsonError? || r.Json?
    ensures !Truthy(Get(q, "clientId")) <==> r == JsonError("Client ID is required", 400)
    ensures Truthy(Get(q, "clientId")) && (forall i :: 0 <= i < |apps| ==> apps[i].clientId != Get(q, "clientId").value)
            <==> r == JsonError("Application not found", 404)
    // a found application is the projection of the row with exactly that client id
    ensures r.Json? ==> exists a :: a in apps && a.clientId == Get(q, "clientId").value && r.body == Project(a)
    // no other error: a stored client id is always found
    ensures r.JsonError? ==> r.status == 400 || r.status == 404
    ensures Truthy(Get(q, "clientId")) && (exists i :: 0 <= i < |apps| && apps[i].clientId == Get(q, "clientId").value) ==> r.Json?
  {
    var clientId := Get(q, "clientId");
    if !Truthy(clientId) then JsonError("Client ID is required", 400)
    else
      match FindByClientId(apps, clientId.value)
      case None => JsonError("Application not found", 404)
      case Some(a) => Json(Project(a))
  }

  /** Two stores that differ at most in client secrets. */
  ghost predicate SameButSecrets(apps: seq<Application>, apps': seq<Application>)
  {
    |apps| == |apps'| && forall i :: 0 <= i < |apps| ==> apps'[i] == apps[i].(clientSecret := apps'[i].clientSecret)
  }

  /**
   * The lookup never reveals a secret: changing any stored secrets leaves every answer as
   * it was.
   */
  lemma {:induction false} LookupIgnoresSecrets(q: Query, apps: seq<Application>, apps': seq<Application>)
    requires SameButSecrets(apps, apps')
    ensures Lookup(q, apps) == Lookup(q, apps')
  {
    if Truthy(Get(q, "clientId")) {
      FindIgnoresSecrets(Get(q, "clientId").value, apps, apps');
    }
  }

  lemma {:induction false} FindIgnoresSecrets(clientId: string, apps: seq<Application>, apps': seq<Application>)
    requires SameButSecrets(apps, apps')
    ensures FindByClientId(apps, clientId).None? == FindByClientId(apps', clientId).None?
    ensures FindByClientId(apps, clientId).Some? ==> Project(FindByClientId(apps, clientId).value) == Project(FindByClientId(apps', clientId).value)
    decreases |apps|
  {
    if apps != [] && apps[0].clientId != clientId {
      assert SameButSecrets(apps[1..], apps'[1..]) by {
        forall i | 0 <= i < |apps[1..]| ensures apps'[1..][i] == apps[1..][i].(clientSecret := apps'[1..][i].clientSecret) {
          assert apps'[1..][i] == apps'[i + 1];
        }
      }
      FindIgnoresSecrets(clientId, apps[1..], apps'[1..]);
    }
  }
}

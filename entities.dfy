/**
 * The stored records the core reads and writes (the Prisma models `Application`, `User`
 * and `Session`) and the lookups the handlers make on them. Timestamps are whole seconds.
 */
module Entities {
  import opened Optional

  /** A registered client application. */
  datatype Application = Application(
    id: string,
    name: string,
    clientId: string,
    clientSecret: string,
    redirectUris: seq<string>,
    createdAt: nat,
    updatedAt: nat)

  /** A user account, as far as the core reads it. */
  datatype User = User(id: string, email: string, name: string, image: Option<string>)

  /** A login session row. */
  datatype SessionRecord = SessionRecord(id: string, sessionToken: string, userId: string, expires: nat)

  /** The user table, keyed by user id. */
  type UserStore = map<string, User>

  /** Every user is stored under its own id. */
  ghost predicate UsersKeyed(users: UserStore)
  {
    forall id :: id in users ==> users[id].id == id
  }

  /**
   * `prisma.application.findUnique({ where: { clientId } })`: the (first) row with that
   * client id, if any.
   */
  function FindByClientId(apps: seq<Application>, clientId: string): (r: Option<Application>)
    ensures r.None? <==> forall i :: 0 <= i < |apps| ==> apps[i].clientId != clientId
    ensures r.Some? ==> r.value in apps && r.value.clientId == clientId
  {
    if apps == [] then None
    else if apps[0].clientId == clientId then Some(apps[0])
    else
      var r := FindByClientId(apps[1..], clientId);
      assert forall i :: 1 <= i < |apps| ==> apps[i] == apps[1..][i - 1];
      r
  }

  /** `prisma.user.findUnique({ where: { id } })`. */
  function FindUser(users: UserStore, id: string): Option<User>
  {
    if id in users then Some(users[id]) else None
  }

  /** Identifiers of the rows are pairwise distinct (a primary or unique key). */
  ghost predicate DistinctIds(apps: seq<Application>)
  {
    forall i, j :: 0 <= i < j < |apps| ==> apps[i].id != apps[j].id
  }

  ghost predicate DistinctClientIds(apps: seq<Application>)
  {
    forall i, j :: 0 <= i < j < |apps| ==> apps[i].clientId != apps[j].clientId
  }

  /** With unique client ids, the lookup finds the one row that has it. */
  lemma FindByClientIdUnique(apps: seq<Application>, i: nat)
    requires DistinctClientIds(apps)
    requires i < |apps|
    ensures FindByClientId(apps, apps[i].clientId) == Some(apps[i])
  {
    var r := FindByClientId(apps, apps[i].clientId);
    var k :| 0 <= k < |apps| && apps[k] == r.value;
    assert k == i;
  }

  /** Removing the row at a position k > 0 keeps the first row in front of the rest's removal. */
  lemma RemoveAtCons<T>(rows: seq<T>, k: nat)
    requires 0 < k < |rows|
    ensures rows == [rows[0]] + rows[1..]
    ensures rows[..k] + rows[k + 1..] == [rows[0]] + (rows[1..][..k - 1] + rows[1..][k..])
  {
  }
}

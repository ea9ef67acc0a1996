/**
 * /api/user/sessions (app/api/user/sessions/route.ts): a signed-in user's login sessions.
 * GET lists the caller's sessions and marks the current one; DELETE removes one of the
 * caller's sessions, refusing the current one. "Current" compares a session's `id` with the
 * caller's `sessionToken`, as the handlers do.
 */
module Sessions {
  import opened Optional
  import opened Http
  import opened Entities

  const ServerError := PlainText("Internal Server Error", 500)

  /** One entry of the GET answer. `lastActive` is the session's expiry time. */
  datatype SessionEntry = SessionEntry(id: string, device: string, lastActive: nat, ip: string, current: bool)

  /** The body of a DELETE. */
  datatype RevokeBody = RevokeBody(sessionId: Option<string>)

  /** `session?.user?.id` is truthy. */
  predicate SignedIn(session: Option<SessionInfo>)
  {
    session.Some? && session.value.userId != ""
  }

  /** `prisma.session.findMany({ where: { userId } })`: the user's rows, in table order. */
  function OwnedBy(rows: seq<SessionRecord>, userId: string): (r: seq<SessionRecord>)
    ensures forall s :: s in r <==> s in rows && s.userId == userId
    ensures |r| <= |rows|
  {
    if rows == [] then []
    else if rows[0].userId == userId then [rows[0]] + OwnedBy(rows[1..], userId)
    else OwnedBy(rows[1..], userId)
  }

  function Entry(s: SessionRecord, currentToken: Option<string>): SessionEntry
  {
    SessionEntry(s.id, "Device Info Not Available", s.expires, "IP Not Available", currentToken == Some(s.id))
  }

  /** The entries for a user's rows, in the same order. */
  function Entries(owned: seq<SessionRecord>, currentToken: Option<string>): (r: seq<SessionEntry>)
    ensures |r| == |owned|
    ensures forall i :: 0 <= i < |owned| ==> r[i] == Entry(owned[i], currentToken)
  {
    if owned == [] then [] else [Entry(owned[0], currentToken)] + Entries(owned[1..], currentToken)
  }

  /** GET. */
  function ListSessions(rows: seq<SessionRecord>, session: Option<SessionInfo>): (r: Response<seq<SessionEntry>>)
    ensures !SignedIn(session) <==> r == PlainText("Unauthorized", 401)
    ensures SignedIn(session) ==>
              var owned := OwnedBy(rows, session.value.userId);
              && r.Json?
              && |r.body| == |owned|
              && forall i :: 0 <= i < |owned| ==>
                   && r.body[i].id == owned[i].id
                   && r.body[i].lastActive == owned[i].expires
                   && r.body[i].device == "Device Info Not Available"
                   && r.body[i].ip == "IP Not Available"
                   && (r.body[i].current <==> session.value.sessionToken == Some(owned[i].id))
  {
    if !SignedIn(session) then PlainText("Unauthorized", 401)
    else
      Json(Entries(OwnedBy(rows, session.value.userId), session.value.sessionToken))
  }

  /** Every listed entry is one of the caller's own sessions. */
  lemma ListedAreOwn(rows: seq<SessionRecord>, session: Option<SessionInfo>, e: SessionEntry)
    requires SignedIn(session)
    requires e in ListSessions(rows, session).body
    ensures exists s :: s in rows && s.userId == session.value.userId && s.id == e.id && s.expires == e.lastActive
  {
    var body := ListSessions(rows, session).body;
    var i :| 0 <= i < |body| && body[i] == e;
    var owned := OwnedBy(rows, session.value.userId);
    assert owned[i] in owned;
  }

  ghost predicate DistinctSessionIds(rows: seq<SessionRecord>)
  {
    forall i, j :: 0 <= i < j < |rows| ==> rows[i].id != rows[j].id
  }

  lemma RemoveAtKeepsIds(rows: seq<SessionRecord>, k: nat)
    requires DistinctSessionIds(rows) && k < |rows|
    ensures DistinctSessionIds(rows[..k] + rows[k + 1..])
  {
    var s := rows[..k] + rows[k + 1..];
    assert forall i :: 0 <= i < |s| ==> s[i] == rows[if i < k then i else i + 1];
  }

  /** The session table. */
  class SessionTable {
    var rows: seq<SessionRecord>

    /** `id` is the primary key. */
    ghost predicate Valid()
      reads this
    {
      DistinctSessionIds(rows)
    }

    constructor (rows: seq<SessionRecord>)
      requires DistinctSessionIds(rows)
      ensures Valid() && this.rows == rows
    {
      this.rows := rows;
    }

    /** DELETE. `body` is None when the request body is not valid JSON, or is JSON `null`. */
    method Revoke(session: Option<SessionInfo>, body: Option<RevokeBody>) returns (r: Response<()>)
      requires Valid()
      modifies this
      ensures Valid()
      ensures !SignedIn(session) ==> r == PlainText("Unauthorized", 401)
      ensures SignedIn(session) && body.None? ==> r == ServerError
      ensures SignedIn(session) && body.Some? && !Truthy(body.value.sessionId) ==> r == PlainText("Session ID is required", 400)
      // the caller's current session is refused
      ensures SignedIn(session) && body.Some? && Truthy(body.value.sessionId) && body.value.sessionId == session.value.sessionToken
              ==> r == PlainText("Cannot revoke current session", 400)
      // only a session of the caller's own can go; any other id fails
      ensures SignedIn(session) && body.Some? && Truthy(body.value.sessionId) && body.value.sessionId != session.value.sessionToken
              ==> if exists s :: s in old(rows) && s.id == body.value.sessionId.value && s.userId == session.value.userId
                  then r == NoContent
                  else r == ServerError
      ensures r == NoContent ==>
                exists k :: 0 <= k < |old(rows)| && old(rows)[k].id == body.value.sessionId.value
                            && old(rows)[k].userId == session.value.userId
                            && rows == old(rows)[..k] + old(rows)[k + 1..]
      ensures r != NoContent ==> rows == old(rows)
      // another user's session is never removed
      ensures SignedIn(session) ==> forall s :: s in old(rows) && s.userId != session.value.userId ==> s in rows
    {
      if !SignedIn(session) {
        return PlainText("Unauthorized", 401);
      }
      if body.None? {
        return ServerError;
      }
      var sessionId := body.value.sessionId;
      if !Truthy(sessionId) {
        return PlainText("Session ID is required", 400);
      }
      if sessionId == session.value.sessionToken {
        return PlainText("Cannot revoke current session", 400);
      }
      if forall s :: s in rows ==> s.id != sessionId.value || s.userId != session.value.userId {
        return ServerError;
      }
      var k :| 0 <= k < |rows| && rows[k].id == sessionId.value && rows[k].userId == session.value.userId;
      RemoveAtKeepsIds(rows, k);
      ghost var before := rows;
      rows := rows[..k] + rows[k + 1..];
      assert forall s :: s in before && s != before[k] ==> s in rows by {
        forall s | s in before && s != before[k] ensures s in rows {
          var j :| 0 <= j < |before| && before[j] == s;
          if j < k { assert rows[j] == s; } else { assert rows[j - 1] == s; }
        }
      }
      return NoContent;
    }
  }
}

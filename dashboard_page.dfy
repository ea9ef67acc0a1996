/**
 * The dashboard's session list (app/dashboard/page.tsx): the page keeps the entries the
 * session API listed, offers a revoke button on every entry that is not the current
 * session, and after a successful revoke drops the revoked entry from its list.
 */
module DashboardPage {
  import opened Optional
  import opened Http
  import opened Sessions

  /** The button is shown only for entries that are not current. */
  predicate RevokeOffered(e: SessionEntry)
  {
    !e.current
  }

  /** `activeSessions.filter(s => s.id !== sessionId)`. */
  function WithoutSession(entries: seq<SessionEntry>, sessionId: string): (r: seq<SessionEntry>)
    ensures forall e :: e in r <==> e in entries && e.id != sessionId
    ensures |r| <= |entries|
  {
    if entries == [] then []
    else if entries[0].id == sessionId then WithoutSession(entries[1..], sessionId)
    else [entries[0]] + WithoutSession(entries[1..], sessionId)
  }

  /**
   * The filter works piece by piece: filtering a concatenation concatenates the filtered
   * pieces, so the kept entries stay in their original order.
   */
  lemma {:induction false} WithoutSessionSplits(a: seq<SessionEntry>, b: seq<SessionEntry>, sessionId: string)
    ensures WithoutSession(a + b, sessionId) == WithoutSession(a, sessionId) + WithoutSession(b, sessionId)
  {
    if a != [] {
      assert (a + b)[0] == a[0] && (a + b)[1..] == a[1..] + b;
      WithoutSessionSplits(a[1..], b, sessionId);
      if a[0].id != sessionId {
        calc {
          WithoutSession(a + b, sessionId);
          [a[0]] + WithoutSession(a[1..] + b, sessionId);
          [a[0]] + (WithoutSession(a[1..], sessionId) + WithoutSession(b, sessionId));
          ([a[0]] + WithoutSession(a[1..], sessionId)) + WithoutSession(b, sessionId);
        }
      }
    } else {
      assert a + b == b;
    }
  }

  /** An entry list in which the revoked id does not occur is left exactly as it was. */
  lemma {:induction false} WithoutAbsentSession(entries: seq<SessionEntry>, sessionId: string)
    requires forall i :: 0 <= i < |entries| ==> entries[i].id != sessionId
    ensures WithoutSession(entries, sessionId) == entries
  {
    if entries != [] {
      WithoutAbsentSession(entries[1..], sessionId);
    }
  }

  /** The page's component state. */
  class Dashboard {
    var activeSessions: seq<SessionEntry>
    var loading: bool
    var error: string

    /** The initial state: no entries, loading, no error. */
    constructor ()
      ensures activeSessions == [] && loading && error == ""
    {
      activeSessions := [];
      loading := true;
      error := "";
    }

    /**
     * `fetchSessions()` once the user is authenticated. `listed` is the decoded list when the
     * API answered with a success status, None when it did not.
     */
    method FetchSessions(listed: Option<seq<SessionEntry>>)
      modifies this
      ensures !loading
      ensures listed.Some? ==> activeSessions == listed.value && error == old(error)
      ensures listed.None? ==> activeSessions == old(activeSessions) && error == "Failed to load sessions"
    {
      if listed.Some? {
        activeSessions := listed.value;
      } else {
        error := "Failed to load sessions";
      }
      loading := false;
    }

    /**
     * `handleRevokeSession(sessionId)`. The request it sends carries just the chosen id;
     * `responseOk` is whether the API answered with a success status.
     */
    method HandleRevokeSession(sessionId: string, responseOk: bool) returns (request: RevokeBody)
      modifies this
      ensures request == RevokeBody(Some(sessionId))
      ensures loading == old(loading)
      ensures responseOk ==> activeSessions == WithoutSession(old(activeSessions), sessionId) && error == old(error)
      ensures !responseOk ==> activeSessions == old(activeSessions) && error == "Failed to revoke session"
    {
      request := RevokeBody(Some(sessionId));
      if !responseOk {
        error := "Failed to revoke session";
        return;
      }
      activeSessions := WithoutSession(activeSessions, sessionId);
    }
  }

  /**
   * For the entries the session API lists, the page offers a revoke exactly when the API's
   * current-session guard would let the request through.
   */
  lemma RevokeOfferedMatchesServerGuard(rows: seq<Entities.SessionRecord>, session: Option<SessionInfo>, i: nat)
    requires SignedIn(session)
    requires i < |ListSessions(rows, session).body|
    ensures var e := ListSessions(rows, session).body[i];
            RevokeOffered(e) <==> Some(e.id) != session.value.sessionToken
  {
  }

  /**
   * After the API revokes one of the caller's sessions, the list the page keeps by filtering
   * is exactly the list a fresh GET would return.
   */
  lemma PageMatchesServerAfterRevoke(rows: seq<Entities.SessionRecord>, session: Option<SessionInfo>, k: nat)
    requires SignedIn(session) && DistinctSessionIds(rows)
    requires k < |rows| && rows[k].userId == session.value.userId
    ensures ListSessions(rows[..k] + rows[k + 1..], session).body
         == WithoutSession(ListSessions(rows, session).body, rows[k].id)
  {
    EntriesAfterRemoval(rows, session.value.userId, session.value.sessionToken, k);
  }

  lemma {:induction false} EntriesAfterRemoval(rows: seq<Entities.SessionRecord>, userId: string, tok: Option<string>, k: nat)
    requires DistinctSessionIds(rows)
    requires k < |rows| && rows[k].userId == userId
    ensures Entries(OwnedBy(rows[..k] + rows[k + 1..], userId), tok)
         == WithoutSession(Entries(OwnedBy(rows, userId), tok), rows[k].id)
  {
    if k == 0 {
      RemoveHead(rows, userId, tok);
    } else {
      var rest := rows[1..];
      assert DistinctSessionIds(rest) by {
        forall i, j | 0 <= i < j < |rest| ensures rest[i].id != rest[j].id {
          assert rest[i] == rows[i + 1] && rest[j] == rows[j + 1];
        }
      }
      EntriesAfterRemoval(rest, userId, tok, k - 1);
      assert rest[k - 1] == rows[k];
      Entities.RemoveAtCons(rows, k);
      KeepHead(rows[0], rest, rest[..k - 1] + rest[k..], userId, tok, rows[k].id);
    }
  }

  /** Step case: a first row that is kept stays in front, and the removal happens in the rest. */
  lemma KeepHead(r0: Entities.SessionRecord, rest: seq<Entities.SessionRecord>, shorter: seq<Entities.SessionRecord>,
                 userId: string, tok: Option<string>, id: string)
    requires r0.id != id
    requires Entries(OwnedBy(shorter, userId), tok) == WithoutSession(Entries(OwnedBy(rest, userId), tok), id)
    ensures Entries(OwnedBy([r0] + shorter, userId), tok) == WithoutSession(Entries(OwnedBy([r0] + rest, userId), tok), id)
  {
    OwnedByCons(r0, shorter, userId);
    OwnedByCons(r0, rest, userId);
    if r0.userId == userId {
      var e := Entry(r0, tok);
      EntriesCons(r0, OwnedBy(shorter, userId), tok);
      EntriesCons(r0, OwnedBy(rest, userId), tok);
      WithoutSessionCons(e, Entries(OwnedBy(rest, userId), tok), id);
    }
  }

  /** Base case: removing the first row removes its entry, and no later entry shares its id. */
  lemma RemoveHead(rows: seq<Entities.SessionRecord>, userId: string, tok: Option<string>)
    requires DistinctSessionIds(rows) && |rows| > 0 && rows[0].userId == userId
    ensures Entries(OwnedBy(rows[..0] + rows[1..], userId), tok)
         == WithoutSession(Entries(OwnedBy(rows, userId), tok), rows[0].id)
  {
    var rest := rows[1..];
    assert rows[..0] + rows[1..] == rest;
    assert rows == [rows[0]] + rest;
    var later := Entries(OwnedBy(rest, userId), tok);
    forall i | 0 <= i < |later| ensures later[i].id != rows[0].id {
      var s := OwnedBy(rest, userId)[i];
      assert s in rest;
      var j :| 0 <= j < |rest| && rest[j] == s;
      assert rows[j + 1] == s;
    }
    WithoutAbsentSession(later, rows[0].id);
    OwnedByCons(rows[0], rest, userId);
    EntriesCons(rows[0], OwnedBy(rest, userId), tok);
    WithoutSessionCons(Entry(rows[0], tok), later, rows[0].id);
  }

  lemma OwnedByCons(s: Entities.SessionRecord, rows: seq<Entities.SessionRecord>, userId: string)
    ensures OwnedBy([s] + rows, userId) == if s.userId == userId then [s] + OwnedBy(rows, userId) else OwnedBy(rows, userId)
  {
    assert ([s] + rows)[1..] == rows;
  }

  lemma EntriesCons(s: Entities.SessionRecord, owned: seq<Entities.SessionRecord>, tok: Option<string>)
    ensures Entries([s] + owned, tok) == [Entry(s, tok)] + Entries(owned, tok)
  {
    assert ([s] + owned)[1..] == owned;
  }

  lemma WithoutSessionCons(e: SessionEntry, entries: seq<SessionEntry>, sessionId: string)
    ensures WithoutSession([e] + entries, sessionId)
         == if e.id == sessionId then WithoutSession(entries, sessionId) else [e] + WithoutSession(entries, sessionId)
  {
    assert ([e] + entries)[1..] == entries;
  }
}

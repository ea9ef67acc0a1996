/**
 * /api/admin/applications (app/api/admin/applications/route.ts): the administrative
 * registry of client applications. GET lists the table, POST validates its input,
 * generates hex credentials and inserts a row, DELETE removes a row by id. Every handler
 * first requires a signed-in user.
 */
module AdminApplications {
  import opened Optional
  import opened Http
  import opened Entities

  newtype byte = x: int | 0 <= x < 256

  predicate IsLowerHex(c: char) { '0' <= c <= '9' || 'a' <= c <= 'f' }

  function HexDigit(d: int): (c: char)
    requires 0 <= d < 16
    ensures IsLowerHex(c)
  {
    if d < 10 then ('0' as int + d) as char else ('a' as int + d - 10) as char
  }

  function HexValue(c: char): (d: int)
    requires IsLowerHex(c)
    ensures 0 <= d < 16 && HexDigit(d) == c
  {
    if c <= '9' then c as int - '0' as int else c as int - 'a' as int + 10
  }

  /** `Buffer.toString('hex')`: two lower-case hex digits per byte, high nibble first. */
  function ToHex(bytes: seq<byte>): (r: string)
    ensures |r| == 2 * |bytes|
    ensures forall i :: 0 <= i < |r| ==> IsLowerHex(r[i])
  {
    if bytes == [] then ""
    else [HexDigit(bytes[0] as int / 16), HexDigit(bytes[0] as int % 16)] + ToHex(bytes[1..])
  }

  function FromHex(s: string): seq<byte>
    requires |s| % 2 == 0
    requires forall i :: 0 <= i < |s| ==> IsLowerHex(s[i])
  {
    if s == [] then [] else [(HexValue(s[0]) * 16 + HexValue(s[1])) as byte] + FromHex(s[2..])
  }

  /** The hex text determines the bytes, so distinct random bytes give distinct credentials. */
  lemma {:induction false} FromHexToHex(bytes: seq<byte>)
    ensures FromHex(ToHex(bytes)) == bytes
  {
    if bytes != [] {
      var s := ToHex(bytes);
      assert s[2..] == ToHex(bytes[1..]);
      FromHexToHex(bytes[1..]);
      assert bytes == [bytes[0]] + bytes[1..];
    }
  }

  /**
   * `generateRandomString(length)`: `crypto.randomBytes(length).toString('hex')`. The random
   * source is outside the model; `entropy` is the `length` bytes it returned.
   */
  function GenerateRandomString(length: nat, entropy: seq<byte>): (r: string)
    requires |entropy| == length
    ensures |r| == 2 * length
    ensures forall i :: 0 <= i < |r| ==> IsLowerHex(r[i])
  {
    ToHex(entropy)
  }

  /** The JSON body of a POST; `redirectUris` is None when it is missing or not an array. */
  datatype CreateBody = CreateBody(name: Option<string>, redirectUris: Option<seq<string>>)

  /** The JSON body of a DELETE. */
  datatype DeleteBody = DeleteBody(id: Option<string>)

  datatype DeleteResult = DeleteResult(success: bool)

  /** `name` is truthy and `redirectUris` is a non-empty array. */
  predicate ValidCreateInput(b: CreateBody)
  {
    Truthy(b.name) && b.redirectUris.Some? && |b.redirectUris.value| > 0
  }

  /** The table without the rows that have the given id, the others in their order. */
  function RemoveById(rows: seq<Application>, id: string): seq<Application>
  {
    if rows == [] then []
    else if rows[0].id == id then RemoveById(rows[1..], id)
    else [rows[0]] + RemoveById(rows[1..], id)
  }

  /** Removing by id keeps exactly the rows with other ids. */
  lemma {:induction false} RemoveByIdKeepsOthers(rows: seq<Application>, id: string)
    ensures forall a :: a in RemoveById(rows, id) <==> a in rows && a.id != id
  {
    if rows != [] {
      RemoveByIdKeepsOthers(rows[1..], id);
      assert rows == [rows[0]] + rows[1..];
    }
  }

  /** With unique ids, deleting the row at k leaves every other row, in order. */
  lemma {:induction false} RemoveByIdRemovesOne(rows: seq<Application>, k: nat)
    requires DistinctIds(rows) && k < |rows|
    ensures RemoveById(rows, rows[k].id) == rows[..k] + rows[k + 1..]
  {
    DistinctIdsTail(rows);
    if k == 0 {
      NoneRemoved(rows[1..], rows[0].id);
      assert rows[..0] + rows[1..] == rows[1..];
    } else {
      assert rows[0].id != rows[k].id;
      assert rows[1..][k - 1] == rows[k];
      RemoveByIdRemovesOne(rows[1..], k - 1);
      KeepHead(rows, k);
    }
  }

  /** One step of the induction above: a head row with another id is kept. */
  lemma KeepHead(rows: seq<Application>, k: nat)
    requires 0 < k < |rows| && rows[0].id != rows[k].id
    requires RemoveById(rows[1..], rows[k].id) == rows[1..][..k - 1] + rows[1..][k..]
    ensures RemoveById(rows, rows[k].id) == rows[..k] + rows[k + 1..]
  {
    RemoveAtCons(rows, k);
  }

  lemma DistinctIdsTail(rows: seq<Application>)
    requires DistinctIds(rows) && |rows| > 0
    ensures DistinctIds(rows[1..])
    ensures forall a :: a in rows[1..] ==> a.id != rows[0].id
  {
    forall a | a in rows[1..] ensures a.id != rows[0].id {
      var j :| 0 <= j < |rows[1..]| && rows[1..][j] == a;
      assert rows[j + 1] == a;
    }
  }

  /** Removing one row keeps both keys unique. */
  lemma RemoveAtKeepsKeys(rows: seq<Application>, k: nat)
    requires DistinctIds(rows) && DistinctClientIds(rows) && k < |rows|
    ensures DistinctIds(rows[..k] + rows[k + 1..]) && DistinctClientIds(rows[..k] + rows[k + 1..])
  {
    var s := rows[..k] + rows[k + 1..];
    assert forall i :: 0 <= i < |s| ==> s[i] == rows[if i < k then i else i + 1];
  }

  lemma {:induction false} NoneRemoved(rows: seq<Application>, id: string)
    requires forall a :: a in rows ==> a.id != id
    ensures RemoveById(rows, id) == rows
  {
    if rows != [] {
      NoneRemoved(rows[1..], id);
    }
  }

  /** The application table. */
  class ApplicationTable {
    var rows: seq<Application>

    /** `id` is the primary key and `clientId` a unique column. */
    ghost predicate Valid()
      reads this
    {
      DistinctIds(rows) && DistinctClientIds(rows)
    }

    constructor ()
      ensures Valid() && rows == []
    {
      rows := [];
    }

    /** GET: every application, for a signed-in user. */
    method List(session: Option<SessionInfo>) returns (r: Response<seq<Application>>)
      ensures session.None? ==> r == JsonError("Unauthorized", 401)
      ensures session.Some? ==> r == Json(rows)
    {
      if session.None? {
        return JsonError("Unauthorized", 401);
      }
      return Json(rows);
    }

    /**
     * POST. `body` is None when the request body is not valid JSON, or is JSON `null`. `newId` is the id the
     * database assigns, `now` the creation time, and `idBytes`, `secretBytes` the outputs of
     * `crypto.randomBytes(16)` and `crypto.randomBytes(32)`.
     */
    method Create(session: Option<SessionInfo>, body: Option<CreateBody>, newId: string,
                  idBytes: seq<byte>, secretBytes: seq<byte>, now: nat) returns (r: Response<Application>)
      requires Valid()
      requires |idBytes| == 16 && |secretBytes| == 32
      modifies this
      ensures Valid()
      ensures session.None? ==> r == JsonError("Unauthorized", 401)
      ensures session.Some? && body.None? ==> r == JsonError("Failed to create application", 500)
      ensures session.Some? && body.Some? && !ValidCreateInput(body.value)
              ==> r == JsonError("Invalid input. Name and redirectUris are required", 400)
      // a key collision in the store surfaces as a server error
      ensures session.Some? && body.Some? && ValidCreateInput(body.value)
              && (exists a :: a in old(rows) && (a.id == newId || a.clientId == GenerateRandomString(16, idBytes)))
              ==> r == JsonError("Failed to create application", 500)
      ensures session.Some? && body.Some? && ValidCreateInput(body.value)
              && (forall a :: a in old(rows) ==> a.id != newId && a.clientId != GenerateRandomString(16, idBytes))
              ==> r.Json?
      ensures r.Json? ==>
                && r.body == Application(newId, body.value.name.value, GenerateRandomString(16, idBytes),
                                         GenerateRandomString(32, secretBytes), body.value.redirectUris.value, now, now)
                && |r.body.clientId| == 32 && |r.body.clientSecret| == 64
                && rows == old(rows) + [r.body]
      ensures !r.Json? ==> rows == old(rows)
    {
      if session.None? {
        return JsonError("Unauthorized", 401);
      }
      if body.None? {
        return JsonError("Failed to create application", 500);
      }
      var input := body.value;
      if !Truthy(input.name) || input.redirectUris.None? || |input.redirectUris.value| == 0 {
        return JsonError("Invalid input. Name and redirectUris are required", 400);
      }
      var clientId := GenerateRandomString(16, idBytes);
      var clientSecret := GenerateRandomString(32, secretBytes);
      if exists a :: a in rows && (a.id == newId || a.clientId == clientId) {
        return JsonError("Failed to create application", 500);
      }
      var application := Application(newId, input.name.value, clientId, clientSecret, input.redirectUris.value, now, now);
      rows := rows + [application];
      return Json(application);
    }

    /** DELETE. `body` is None when the request body is not valid JSON, or is JSON `null`. */
    method Delete(session: Option<SessionInfo>, body: Option<DeleteBody>) returns (r: Response<DeleteResult>)
      requires Valid()
      modifies this
      ensures Valid()
      ensures session.None? ==> r == JsonError("Unauthorized", 401)
      ensures session.Some? && body.None? ==> r == JsonError("Failed to delete application", 500)
      ensures session.Some? && body.Some? && !Truthy(body.value.id) ==> r == JsonError("Application ID is required", 400)
      // deleting an id that is not stored surfaces as a server error
      ensures session.Some? && body.Some? && Truthy(body.value.id) && (forall a :: a in old(rows) ==> a.id != body.value.id.value)
              ==> r == JsonError("Failed to delete application", 500)
      ensures session.Some? && body.Some? && Truthy(body.value.id) && (exists a :: a in old(rows) && a.id == body.value.id.value)
              ==> r.Json?
      ensures r.Json? ==>
                && r.body == DeleteResult(true)
                && exists k :: 0 <= k < |old(rows)| && old(rows)[k].id == body.value.id.value
                                && rows == old(rows)[..k] + old(rows)[k + 1..]
      ensures !r.Json? ==> rows == old(rows)
    {
      if session.None? {
        return JsonError("Unauthorized", 401);
      }
      if body.None? {
        return JsonError("Failed to delete application", 500);
      }
      var id := body.value.id;
      if !Truthy(id) {
        return JsonError("Application ID is required", 400);
      }
      if forall a :: a in rows ==> a.id != id.value {
        return JsonError("Failed to delete application", 500);
      }
      var k :| 0 <= k < |rows| && rows[k].id == id.value;
      RemoveByIdRemovesOne(rows, k);
      RemoveAtKeepsKeys(rows, k);
      rows := RemoveById(rows, id.value);
      return Json(DeleteResult(true));
    }
  }
}

/**
 * What every route handler and page works with: query strings as ordered key/value
 * pairs, URLs whose query is grown by `searchParams.append`, and the three kinds of
 * outcome a handler ends in (an error, a redirect, a body).
 */
module Http {
  import opened Optional
  import Netstring

  /** A query string (`URLSearchParams`) as the ordered list of its pairs. */
  type Query = seq<(string, string)>

  /** `searchParams.get(key)`: the value of the first pair with that key, if any. */
  function Get(q: Query, key: string): (r: Option<string>)
    ensures r.None? <==> forall i :: 0 <= i < |q| ==> q[i].0 != key
    ensures r.Some? ==> exists i :: 0 <= i < |q| && q[i] == (key, r.value) && forall j :: 0 <= j < i ==> q[j].0 != key
  {
    if q == [] then None
    else if q[0].0 == key then Some(q[0].1)
    else
      var r := Get(q[1..], key);
      assert r.Some? ==> exists i :: 1 <= i < |q| && q[i] == (key, r.value) && forall j :: 0 <= j < i ==> q[j].0 != key by {
        if r.Some? {
          var i :| 0 <= i < |q[1..]| && q[1..][i] == (key, r.value) && forall j :: 0 <= j < i ==> q[1..][j].0 != key;
          assert q[i + 1] == (key, r.value);
          assert forall j :: 0 <= j < i + 1 ==> q[j].0 != key by {
            forall j | 0 <= j < i + 1 ensures q[j].0 != key {
              if j > 0 { assert q[j] == q[1..][j - 1]; }
            }
          }
        }
      }
      r
  }

  /** A lookup in a joined query finds the first part's pair when it has one, else the second's. */
  lemma {:induction false} GetConcat(a: Query, b: Query, key: string)
    ensures Get(a + b, key) == if Get(a, key).Some? then Get(a, key) else Get(b, key)
  {
    if a == [] {
      assert a + b == b;
    } else {
      assert (a + b)[0] == a[0] && (a + b)[1..] == a[1..] + b;
      GetConcat(a[1..], b, key);
    }
  }

  /** JavaScript truthiness of a value read from a query, form or header: present and not "". */
  predicate Truthy(v: Option<string>) { v.Some? && v.value != "" }

  /** The pair `(key, value)` when the value is truthy, else nothing: the `if (x) append(key, x)` idiom. */
  function IfPresent(key: string, v: Option<string>): Query
  {
    if Truthy(v) then [(key, v.value)] else []
  }

  /**
   * `searchParams.toString()`, with the percent-encoding of keys and values replaced by an
   * injective stand-in (the netstring encoding of the pairs).
   */
  function EncodeQuery(q: Query): string
  {
    Netstring.FramePairs(q)
  }

  function DecodeQuery(s: string): Option<Query>
  {
    Netstring.UnframePairs(s)
  }

  /** A serialized query reads back as the very pairs it was made from. */
  lemma DecodeEncodeQuery(q: Query)
    ensures DecodeQuery(EncodeQuery(q)) == Some(q)
  {
    Netstring.UnframeFramePairs(q);
  }

  predicate IsAsciiAlpha(c: char) { 'a' <= c <= 'z' || 'A' <= c <= 'Z' }

  predicate IsSchemeChar(c: char) { IsAsciiAlpha(c) || '0' <= c <= '9' || c == '+' || c == '-' || c == '.' }

  /**
   * Whether `new URL(s)`, given no base, accepts s: it must start with a scheme (a letter,
   * then letters, digits, '+', '-' or '.') followed by ':'. A path such as "/" is rejected
   * with a TypeError.
   */
  predicate HasScheme(s: string)
  {
    exists i :: 0 < i < |s| && s[i] == ':' && IsAsciiAlpha(s[0]) && forall j :: 0 < j < i ==> IsSchemeChar(s[j])
  }

  /** A URL: an opaque base (origin, path and anything already in it) and the pairs appended to it. */
  datatype Url = Url(base: string, params: Query)

  /** A `URL` object whose query grows in place through `searchParams.append`. */
  class UrlBuilder {
    var base: string
    var params: Query

    constructor (base: string)
      ensures this.base == base && params == []
    {
      this.base := base;
      params := [];
    }

    method Append(key: string, value: string)
      modifies this
      ensures base == old(base)
      ensures params == old(params) + [(key, value)]
    {
      params := params + [(key, value)];
    }

    /** `if (v) searchParams.append(key, v)`. */
    method AppendIfPresent(key: string, v: Option<string>)
      modifies this
      ensures base == old(base)
      ensures params == old(params) + IfPresent(key, v)
    {
      if Truthy(v) {
        Append(key, v.value);
      } else {
        assert params + [] == params;
      }
    }

    function Value(): Url
      reads this
    {
      Url(base, params)
    }
  }

  /** How a route handler ends. */
  datatype Response<B> =
    | JsonError(error: string, status: nat)   // NextResponse.json({ error }, { status })
    | PlainText(text: string, status: nat)    // new NextResponse(text, { status })
    | NoContent                               // new NextResponse(null, { status: 204 })
    | Redirect(to: Url)                       // redirect(...) from next/navigation
    | Json(body: B)                           // NextResponse.json(body), status 200

  /** What Next.js answers when a handler throws and nothing catches it. */
  function Uncaught<B>(): Response<B>
  {
    PlainText("Internal Server Error", 500)
  }

  /** The caller's next-auth session as `getServerSession` reports it. */
  datatype SessionInfo = SessionInfo(userId: string, sessionToken: Option<string>)
}

/**
 * The token codec every endpoint signs and verifies with (jsonwebtoken's `sign` and
 * `verify` with one shared secret). It is modelled as an ideal message authentication
 * code: a token is the rendering of a payload under a secret, and verification accepts a
 * string exactly when it is such a rendering under the verifier's secret whose expiry
 * lies in the future. Time is in whole seconds.
 */
module Jwt {
  import opened Optional
  import Netstring

  /** The claims of a token payload, in the order they were given. */
  type Claims = seq<(string, string)>

  /**
   * Reading property `key` of a decoded payload. `JSON.parse` keeps the last of
   * duplicated keys, so the last pair with that key wins.
   */
  function Claim(c: Claims, key: string): (r: Option<string>)
    ensures r.None? <==> forall i :: 0 <= i < |c| ==> c[i].0 != key
    ensures r.Some? ==> exists i :: 0 <= i < |c| && c[i] == (key, r.value) && forall j :: i < j < |c| ==> c[j].0 != key
    decreases |c|
  {
    if c == [] then None
    else if c[|c| - 1].0 == key then Some(c[|c| - 1].1)
    else
      var r := Claim(c[..|c| - 1], key);
      ClaimStep(c, key, r);
      r
  }

  /** The contract of Claim carries over from all but the last pair when the last has another key. */
  lemma ClaimStep(c: Claims, key: string, r: Option<string>)
    requires |c| > 0 && c[|c| - 1].0 != key
    requires var p := c[..|c| - 1];
             && (r.None? <==> forall i :: 0 <= i < |p| ==> p[i].0 != key)
             && (r.Some? ==> exists i :: 0 <= i < |p| && p[i] == (key, r.value) && forall j :: i < j < |p| ==> p[j].0 != key)
    ensures r.None? <==> forall i :: 0 <= i < |c| ==> c[i].0 != key
    ensures r.Some? ==> exists i :: 0 <= i < |c| && c[i] == (key, r.value) && forall j :: i < j < |c| ==> c[j].0 != key
  {
    var p := c[..|c| - 1];
    assert forall i :: 0 <= i < |p| ==> p[i] == c[i];
    if r.Some? {
      var i :| 0 <= i < |p| && p[i] == (key, r.value) && forall j :: i < j < |p| ==> p[j].0 != key;
      assert c[i] == (key, r.value);
    }
  }

  /** Adding a claim at the end decides that key and leaves the others as they were. */
  lemma ClaimSnoc(c: Claims, k: string, v: string, key: string)
    ensures Claim(c + [(k, v)], key) == if key == k then Some(v) else Claim(c, key)
  {
    if key != k {
      assert (c + [(k, v)])[..|c|] == c;
    }
  }

  /** A signed payload: its claims, the issue time `iat` and the expiry `exp`. */
  datatype Payload = Payload(claims: Claims, iat: nat, exp: nat)

  /**
   * The token string for payload p under `secret`. The signature part is the secret
   * itself, standing for an unforgeable tag: only the holder of the secret produces it.
   */
  function Render(secret: string, p: Payload): string
  {
    Netstring.Frame(secret) + Netstring.FrameNat(p.iat) + Netstring.FrameNat(p.exp) + Netstring.FramePairs(p.claims)
  }

  /** Splits a token string into the secret it was signed with and its payload. */
  function Parse(tok: string): Option<(string, Payload)>
  {
    match Netstring.Unframe(tok)
    case None => None
    case Some((secret, w1)) =>
      match Netstring.UnframeNat(w1)
      case None => None
      case Some((iat, w2)) =>
        match Netstring.UnframeNat(w2)
        case None => None
        case Some((exp, w3)) =>
          match Netstring.UnframePairs(w3)
          case None => None
          case Some(claims) => Some((secret, Payload(claims, iat, exp)))
  }

  /** A rendering is its four netstring fields, one after the other. */
  lemma RenderFields(secret: string, p: Payload)
    ensures Render(secret, p)
         == Netstring.Frame(secret) + (Netstring.FrameNat(p.iat) + (Netstring.FrameNat(p.exp) + Netstring.FramePairs(p.claims)))
  {
  }

  lemma ParseRender(secret: string, p: Payload)
    ensures Parse(Render(secret, p)) == Some((secret, p))
  {
    var b := Netstring.FrameNat(p.iat);
    var c := Netstring.FrameNat(p.exp);
    var d := Netstring.FramePairs(p.claims);
    RenderFields(secret, p);
    Netstring.UnframeFrame(secret, b + (c + d));
    Netstring.UnframeFrameNat(p.iat, c + d);
    Netstring.UnframeFrameNat(p.exp, d);
    Netstring.UnframeFramePairs(p.claims);
  }

  lemma RenderParse(tok: string)
    requires Parse(tok).Some?
    ensures tok == Render(Parse(tok).value.0, Parse(tok).value.1)
  {
    var u1 := Netstring.Unframe(tok).value;
    var u2 := Netstring.UnframeNat(u1.1).value;
    var u3 := Netstring.UnframeNat(u2.1).value;
    var claims := Netstring.UnframePairs(u3.1).value;
    var p := Payload(claims, u2.0, u3.0);
    assert Parse(tok) == Some((u1.0, p));
    Netstring.FrameUnframe(tok);
    Netstring.FrameUnframeNat(u1.1);
    Netstring.FrameUnframeNat(u2.1);
    Netstring.FrameUnframePairs(u3.1);
    RenderFields(u1.0, p);
    Nest(tok, Netstring.Frame(u1.0), u1.1, Netstring.FrameNat(u2.0), u2.1, Netstring.FrameNat(u3.0), u3.1);
  }

  /** Substituting three nested splits of a string into one another. */
  lemma Nest(t: string, a: string, w1: string, b: string, w2: string, c: string, w3: string)
    requires t == a + w1 && w1 == b + w2 && w2 == c + w3
    ensures t == a + (b + (c + w3))
  {
  }

  /** `jwt.sign(claims, secret, { expiresIn: ttl })` at time `now`: iat is now, exp is now + ttl. */
  function Sign(secret: string, claims: Claims, now: nat, ttl: nat): string
  {
    Render(secret, Payload(claims, now, now + ttl))
  }

  /** A token is never the empty string. */
  lemma SignNonEmpty(secret: string, claims: Claims, now: nat, ttl: nat)
    ensures Sign(secret, claims, now, ttl) != ""
  {
    assert |Netstring.Frame(secret)| > 0;
  }

  /**
   * `jwt.verify(tok, secret)` at time `now`: the claims when tok carries this secret's
   * signature and `now < exp`; otherwise nothing. A tampered token and an expired one give
   * the same answer.
   */
  function Verify(secret: string, tok: string, now: nat): Option<Claims>
  {
    match Parse(tok)
    case None => None
    case Some((k, p)) => if k == secret && now < p.exp then Some(p.claims) else None
  }

  /** A token verifies, within its lifetime, to exactly the claims it was signed with. */
  lemma VerifySign(secret: string, claims: Claims, iat: nat, ttl: nat, now: nat)
    ensures Verify(secret, Sign(secret, claims, iat, ttl), now) == if now < iat + ttl then Some(claims) else None
  {
    ParseRender(secret, Payload(claims, iat, iat + ttl));
  }

  /** Verification accepts exactly the unexpired tokens signed with its own secret. */
  lemma VerifyAcceptsExactlySigned(secret: string, tok: string, now: nat, claims: Claims)
    ensures Verify(secret, tok, now) == Some(claims) <==>
            exists iat: nat, exp: nat :: tok == Render(secret, Payload(claims, iat, exp)) && now < exp
  {
    if Verify(secret, tok, now) == Some(claims) {
      var p := VerifiedIsRendered(secret, tok, now);
      assert tok == Render(secret, Payload(claims, p.iat, p.exp));
    }
    forall iat: nat, exp: nat | tok == Render(secret, Payload(claims, iat, exp)) && now < exp
      ensures Verify(secret, tok, now) == Some(claims)
    {
      RenderedVerifies(secret, Payload(claims, iat, exp), now);
    }
  }

  /** A rendering under the verifier's secret verifies to its claims until its expiry. */
  lemma RenderedVerifies(secret: string, p: Payload, now: nat)
    ensures Verify(secret, Render(secret, p), now) == if now < p.exp then Some(p.claims) else None
  {
    ParseRender(secret, p);
  }

  /** A token that verifies is the rendering, under the verifier's secret, of an unexpired payload with its claims. */
  lemma VerifiedIsRendered(secret: string, tok: string, now: nat) returns (p: Payload)
    requires Verify(secret, tok, now).Some?
    ensures tok == Render(secret, p) && p.claims == Verify(secret, tok, now).value && now < p.exp
  {
    RenderParse(tok);
    p := Parse(tok).value.1;
  }

  /** A token signed under one secret never verifies under another. */
  lemma VerifyRejectsOtherSecret(secret: string, other: string, claims: Claims, iat: nat, ttl: nat, now: nat)
    requires other != secret
    ensures Verify(other, Sign(secret, claims, iat, ttl), now).None?
  {
    ParseRender(secret, Payload(claims, iat, iat + ttl));
  }
}

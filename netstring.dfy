/**
 * An injective text encoding used wherever the server turns structured data into one string:
 * the payload of a signed token and a serialized query string. Each field is a netstring,
 * `<decimal length>:<bytes>,`, with the length written without leading zeros. Only the
 * facts that the encoding can be read back, and that a string which reads back is exactly
 * the encoding of what it read, matter to the rest of the model.
 */
module Netstring {
  import opened Optional

  predicate IsDigit(c: char) { '0' <= c <= '9' }

  predicate AllDigits(s: string) { forall i :: 0 <= i < |s| ==> IsDigit(s[i]) }

  /** A decimal numeral as written by the encoder: digits only, no leading zero unless it is "0". */
  predicate Canonical(s: string) { |s| > 0 && AllDigits(s) && (s[0] == '0' ==> |s| == 1) }

  function DigitChar(d: nat): (c: char)
    requires d < 10
    ensures IsDigit(c)
  {
    ('0' as int + d) as char
  }

  function DigitValue(c: char): (d: nat)
    requires IsDigit(c)
    ensures d < 10 && DigitChar(d) == c
  {
    c as int - '0' as int
  }

  /** The decimal numeral of n, most significant digit first. */
  function Decimal(n: nat): (r: string)
    ensures Canonical(r)
    decreases n
  {
    if n < 10 then [DigitChar(n)] else Decimal(n / 10) + [DigitChar(n % 10)]
  }

  /** The number a string of digits denotes. */
  function DecimalValue(s: string): nat
    requires AllDigits(s)
    decreases |s|
  {
    if s == [] then 0 else DecimalValue(s[..|s| - 1]) * 10 + DigitValue(s[|s| - 1])
  }

  lemma {:induction false} DecimalRoundTrip(n: nat)
    ensures DecimalValue(Decimal(n)) == n
    decreases n
  {
    if n >= 10 {
      var r := Decimal(n);
      assert r[..|r| - 1] == Decimal(n / 10);
      DecimalRoundTrip(n / 10);
    }
  }

  lemma {:induction false} LeadingDigitPositive(s: string)
    requires |s| > 0 && AllDigits(s) && s[0] != '0'
    ensures DecimalValue(s) > 0
    decreases |s|
  {
    if |s| > 1 {
      LeadingDigitPositive(s[..|s| - 1]);
    }
  }

  /** A canonical numeral is the encoder's own output for the number it denotes. */
  lemma {:induction false} CanonicalIsDecimal(s: string)
    requires Canonical(s)
    ensures Decimal(DecimalValue(s)) == s
    decreases |s|
  {
    if |s| > 1 {
      var p := s[..|s| - 1];
      var d := DigitValue(s[|s| - 1]);
      LeadingDigitPositive(p);
      CanonicalIsDecimal(p);
      var q := DecimalValue(p);
      assert DecimalValue(s) == q * 10 + d;
      SplitDigit(q, d);
      assert Decimal(q * 10 + d) == Decimal(q) + [DigitChar(d)];
      assert s == p + [s[|s| - 1]];
    }
  }

  lemma SplitDigit(q: nat, d: nat)
    requires 0 < q && d < 10
    ensures (q * 10 + d) / 10 == q && (q * 10 + d) % 10 == d && q * 10 + d >= 10
  {
  }

  /** `len:s,` */
  function Frame(s: string): string
  {
    Decimal(|s|) + ":" + s + ","
  }

  /** Length of the run of digits at the front of w. */
  function DigitRun(w: string): (k: nat)
    ensures k <= |w|
    ensures AllDigits(w[..k])
    ensures k < |w| ==> !IsDigit(w[k])
    decreases |w|
  {
    if w == [] || !IsDigit(w[0]) then 0
    else
      var k := 1 + DigitRun(w[1..]);
      assert w[..k] == [w[0]] + w[1..][..k - 1];
      k
  }

  lemma {:induction false} DigitRunOfNumeral(d: string, x: string)
    requires AllDigits(d)
    requires x == [] || !IsDigit(x[0])
    ensures DigitRun(d + x) == |d|
    decreases |d|
  {
    if d != [] {
      assert (d + x)[1..] == d[1..] + x;
      DigitRunOfNumeral(d[1..], x);
    }
  }

  /** Reads one netstring from the front of w: its contents and the text after it. */
  function Unframe(w: string): (r: Option<(string, string)>)
    ensures r.Some? ==> |r.value.1| < |w|
  {
    var k := DigitRun(w);
    if !Canonical(w[..k]) || k == |w| || w[k] != ':' then None
    else
      var n := DecimalValue(w[..k]);
      if k + 1 + n >= |w| || w[k + 1 + n] != ',' then None
      else Some((w[k + 1 .. k + 1 + n], w[k + 2 + n ..]))
  }

  lemma UnframeFrame(s: string, rest: string)
    ensures Unframe(Frame(s) + rest) == Some((s, rest))
  {
    var d := Decimal(|s|);
    var w := Frame(s) + rest;
    assert w == d + (":" + s + "," + rest);
    DigitRunOfNumeral(d, ":" + s + "," + rest);
    assert w[..|d|] == d;
    DecimalRoundTrip(|s|);
    assert w[|d| + 1 .. |d| + 1 + |s|] == s;
    assert w[|d| + 2 + |s| ..] == rest;
  }

  /** Whatever Unframe accepts is exactly a framed string followed by the rest. */
  lemma FrameUnframe(w: string)
    requires Unframe(w).Some?
    ensures w == Frame(Unframe(w).value.0) + Unframe(w).value.1
  {
    var k := DigitRun(w);
    var n := DecimalValue(w[..k]);
    CanonicalIsDecimal(w[..k]);
    var s := w[k + 1 .. k + 1 + n];
    assert w == w[..k] + [w[k]] + s + [w[k + 1 + n]] + w[k + 2 + n ..];
  }

  /** A natural number as a netstring holding its decimal numeral. */
  function FrameNat(n: nat): string
  {
    Frame(Decimal(n))
  }

  function UnframeNat(w: string): (r: Option<(nat, string)>)
    ensures r.Some? ==> |r.value.1| < |w|
  {
    match Unframe(w)
    case None => None
    case Some((d, rest)) => if Canonical(d) then Some((DecimalValue(d), rest)) else None
  }

  lemma UnframeFrameNat(n: nat, rest: string)
    ensures UnframeNat(FrameNat(n) + rest) == Some((n, rest))
  {
    UnframeFrame(Decimal(n), rest);
    DecimalRoundTrip(n);
  }

  lemma FrameUnframeNat(w: string)
    requires UnframeNat(w).Some?
    ensures w == FrameNat(UnframeNat(w).value.0) + UnframeNat(w).value.1
  {
    FrameUnframe(w);
    CanonicalIsDecimal(Unframe(w).value.0);
  }

  /** A list of string pairs, each pair as two consecutive netstrings. */
  function FramePairs(ps: seq<(string, string)>): string
  {
    if ps == [] then "" else Frame(ps[0].0) + Frame(ps[0].1) + FramePairs(ps[1..])
  }

  function UnframePairs(w: string): Option<seq<(string, string)>>
    decreases |w|
  {
    if w == [] then Some([])
    else
      match Unframe(w)
      case None => None
      case Some((k, w1)) =>
        match Unframe(w1)
        case None => None
        case Some((v, w2)) =>
          match UnframePairs(w2)
          case None => None
          case Some(ps) => Some([(k, v)] + ps)
  }

  lemma {:induction false} UnframeFramePairs(ps: seq<(string, string)>)
    ensures UnframePairs(FramePairs(ps)) == Some(ps)
  {
    if ps != [] {
      var tail := FramePairs(ps[1..]);
      assert FramePairs(ps) == Frame(ps[0].0) + (Frame(ps[0].1) + tail);
      UnframeFrame(ps[0].0, Frame(ps[0].1) + tail);
      UnframeFrame(ps[0].1, tail);
      UnframeFramePairs(ps[1..]);
      assert ps == [(ps[0].0, ps[0].1)] + ps[1..];
    }
  }

  lemma {:induction false} FrameUnframePairs(w: string)
    requires UnframePairs(w).Some?
    ensures w == FramePairs(UnframePairs(w).value)
    decreases |w|
  {
    if w != [] {
      var (k, w1) := Unframe(w).value;
      var (v, w2) := Unframe(w1).value;
      FrameUnframe(w);
      FrameUnframe(w1);
      FrameUnframePairs(w2);
      var ps := UnframePairs(w).value;
      assert ps[0] == (k, v) && ps[1..] == UnframePairs(w2).value;
    }
  }

  /** The pair encoding never maps two different lists to one string. */
  lemma FramePairsInjective(ps: seq<(string, string)>, qs: seq<(string, string)>)
    requires FramePairs(ps) == FramePairs(qs)
    ensures ps == qs
  {
    UnframeFramePairs(ps);
    UnframeFramePairs(qs);
  }
}

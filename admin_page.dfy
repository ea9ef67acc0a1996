/**
 * The application administration page (app/admin/applications/page.tsx): the form that
 * registers a client application. The redirect URIs are typed as one comma-separated text,
 * which the page splits, trims and filters before sending them to the registry.
 */
module AdminPage {
  import opened Optional
  import opened Entities
  import AdminApplications

  /**
   * The characters `String.prototype.trim` removes: the ECMAScript white space and line
   * terminators (tab, vertical tab, form feed, space, no-break space, the byte order mark,
   * the other space separators, line feed, carriage return, line and paragraph separators).
   */
  predicate IsSpace(c: char)
  {
    var n := c as int;
    n == 0x09 || n == 0x0A || n == 0x0B || n == 0x0C || n == 0x0D || n == 0x20 || n == 0xA0
    || n == 0x1680 || 0x2000 <= n <= 0x200A || n == 0x2028 || n == 0x2029 || n == 0x202F
    || n == 0x205F || n == 0x3000 || n == 0xFEFF
  }

  /** `s.split(",")`: the pieces between commas, in order; a text without commas is one piece. */
  function Split(s: string): (pieces: seq<string>)
    ensures |pieces| >= 1
    ensures forall i :: 0 <= i < |pieces| ==> ',' !in pieces[i]
  {
    if s == [] then [""]
    else if s[0] == ',' then [""] + Split(s[1..])
    else
      var rest := Split(s[1..]);
      [[s[0]] + rest[0]] + rest[1..]
  }

  /** `pieces.join(",")`. */
  function Join(pieces: seq<string>): string
    requires |pieces| >= 1
  {
    if |pieces| == 1 then pieces[0] else pieces[0] + "," + Join(pieces[1..])
  }

  /** Joining the pieces gives back the text: splitting loses nothing but the commas. */
  lemma {:induction false} JoinSplit(s: string)
    ensures Join(Split(s)) == s
  {
    if s != [] {
      JoinSplit(s[1..]);
      var rest := Split(s[1..]);
      if s[0] == ',' {
        assert ([""] + rest)[1..] == rest;
      } else {
        var pieces := [[s[0]] + rest[0]] + rest[1..];
        if |rest| > 1 {
          assert pieces[1..] == rest[1..];
          assert Join(rest) == rest[0] + "," + Join(rest[1..]);
        }
        assert s == [s[0]] + s[1..];
      }
    }
  }

  /** A text followed by a comma and more text splits into the pieces of each part. */
  lemma {:induction false} SplitAround(a: string, b: string)
    ensures Split(a + "," + b) == Split(a) + Split(b)
  {
    if a == [] {
      assert a + "," + b == [','] + b;
      assert ([','] + b)[1..] == b;
    } else {
      assert (a + "," + b)[1..] == a[1..] + "," + b;
      SplitAround(a[1..], b);
    }
  }

  /** The text after leading white space. */
  function TrimStart(s: string): (r: string)
    ensures |r| <= |s|
    ensures forall i :: 0 <= i < |s| - |r| ==> IsSpace(s[i])
    ensures r == [] || !IsSpace(r[0])
  {
    if s != [] && IsSpace(s[0]) then TrimStart(s[1..]) else s
  }

  /** What TrimStart keeps is a suffix of its input. */
  lemma {:induction false} TrimStartSuffix(s: string)
    ensures TrimStart(s) == s[|s| - |TrimStart(s)|..]
  {
    if s != [] && IsSpace(s[0]) {
      TrimStartSuffix(s[1..]);
    }
  }

  /** The text before trailing white space. */
  function TrimEnd(s: string): (r: string)
    ensures |r| <= |s|
    ensures forall i :: |r| <= i < |s| ==> IsSpace(s[i])
    ensures r == [] || !IsSpace(r[|r| - 1])
  {
    if s != [] && IsSpace(s[|s| - 1]) then TrimEnd(s[..|s| - 1]) else s
  }

  /** What TrimEnd keeps is a prefix of its input. */
  lemma {:induction false} TrimEndPrefix(s: string)
    ensures TrimEnd(s) == s[..|TrimEnd(s)|]
  {
    if s != [] && IsSpace(s[|s| - 1]) {
      TrimEndPrefix(s[..|s| - 1]);
    }
  }

  /** r is s with only white space removed before position i and after r. */
  ghost predicate TrimmedAt(s: string, r: string, i: nat)
  {
    && i + |r| <= |s| && r == s[i..i + |r|]
    && (forall j :: 0 <= j < i ==> IsSpace(s[j]))
    && (forall j :: i + |r| <= j < |s| ==> IsSpace(s[j]))
  }

  /** `s.trim()`: the text with white space removed at both ends and kept inside. */
  function Trim(s: string): (r: string)
    ensures exists i: nat :: TrimmedAt(s, r, i)
    ensures r == [] || (!IsSpace(r[0]) && !IsSpace(r[|r| - 1]))
    ensures forall c :: c in r ==> c in s
  {
    var r := TrimStart(TrimEnd(s));
    var i := TrimBothEnds(s, r);
    r
  }

  /** The text between leading and trailing white space sits at position `i` of s. */
  function TrimBothEnds(s: string, r: string): (i: nat)
    requires r == TrimStart(TrimEnd(s))
    ensures TrimmedAt(s, r, i)
    ensures r == [] || (!IsSpace(r[0]) && !IsSpace(r[|r| - 1]))
    ensures forall c :: c in r ==> c in s
  {
    var e := TrimEnd(s);
    TrimEndPrefix(s);
    TrimStartSuffix(e);
    var i := |e| - |r|;
    assert r == s[i..i + |r|];
    assert forall j :: 0 <= j < i ==> s[j] == e[j];
    assert r != [] ==> r[|r| - 1] == e[|e| - 1];
    i
  }

  /** A redirect URI as the page sends it: non-empty, no comma, no white space at either end. */
  predicate Clean(uri: string)
  {
    uri != "" && ',' !in uri && !IsSpace(uri[0]) && !IsSpace(uri[|uri| - 1])
  }

  /** No piece holds a comma, as after `split(",")`. */
  predicate CommaFree(pieces: seq<string>)
  {
    forall j :: 0 <= j < |pieces| ==> ',' !in pieces[j]
  }

  /** The trimmed, non-empty pieces, in order: `.map(uri => uri.trim()).filter(uri => uri)`. */
  function TrimNonEmpty(pieces: seq<string>): (uris: seq<string>)
    ensures |uris| <= |pieces|
  {
    if pieces == [] then []
    else
      var t := Trim(pieces[0]);
      var rest := TrimNonEmpty(pieces[1..]);
      if t == "" then rest
      else
        [t] + rest
  }

  /** From comma-free pieces every URI is clean. */
  lemma {:induction false} TrimNonEmptyClean(pieces: seq<string>)
    requires CommaFree(pieces)
    ensures forall i :: 0 <= i < |TrimNonEmpty(pieces)| ==> Clean(TrimNonEmpty(pieces)[i])
  {
    if pieces != [] {
      CommaFreeTail(pieces);
      TrimNonEmptyClean(pieces[1..]);
      var t := Trim(pieces[0]);
      if t != "" {
        TrimClean(pieces[0]);
        CleanCons(t, TrimNonEmpty(pieces[1..]));
      }
    }
  }

  lemma CommaFreeTail(pieces: seq<string>)
    requires |pieces| > 0
    ensures CommaFree(pieces) ==> ',' !in pieces[0] && CommaFree(pieces[1..])
  {
    if CommaFree(pieces) {
      forall j | 0 <= j < |pieces[1..]| ensures ',' !in pieces[1..][j] {
        assert pieces[1..][j] == pieces[j + 1];
      }
    }
  }

  /** A comma-free text trims to a clean URI unless it is blank. */
  lemma TrimClean(p: string)
    requires Trim(p) != ""
    ensures ',' !in p ==> Clean(Trim(p))
  {
  }

  lemma CleanCons(t: string, rest: seq<string>)
    requires forall i :: 0 <= i < |rest| ==> Clean(rest[i])
    ensures Clean(t) ==> forall i :: 0 <= i < |[t] + rest| ==> Clean(([t] + rest)[i])
  {
    if Clean(t) {
      forall i | 0 <= i < |[t] + rest| ensures Clean(([t] + rest)[i]) {
        if i > 0 { assert ([t] + rest)[i] == rest[i - 1]; }
      }
    }
  }

  lemma {:induction false} TrimNonEmptyConcat(a: seq<string>, b: seq<string>)
    ensures TrimNonEmpty(a + b) == TrimNonEmpty(a) + TrimNonEmpty(b)
  {
    if a == [] {
      assert a + b == b;
    } else {
      assert (a + b)[0] == a[0] && (a + b)[1..] == a[1..] + b;
      TrimNonEmptyConcat(a[1..], b);
    }
  }

  /** The redirect URIs the form's text stands for. */
  function ParseRedirectUris(text: string): (uris: seq<string>)
    // every URI is non-empty, holds no comma and has no white space at either end
    ensures forall i :: 0 <= i < |uris| ==> Clean(uris[i])
  {
    TrimNonEmptyClean(Split(text));
    TrimNonEmpty(Split(text))
  }

  /**
   * The list is read part by part: the URIs of `a,b` are those of `a` followed by those of
   * `b`, so input order is kept and no URI spans a comma.
   */
  lemma ParseRedirectUrisSplits(a: string, b: string)
    ensures ParseRedirectUris(a + "," + b) == ParseRedirectUris(a) + ParseRedirectUris(b)
  {
    SplitAround(a, b);
    TrimNonEmptyConcat(Split(a), Split(b));
  }

  /** A text without commas stands for its trimmed self, or for nothing when it is blank. */
  lemma ParseSingleUri(text: string)
    requires ',' !in text
    ensures ParseRedirectUris(text) == if Trim(text) == "" then [] else [Trim(text)]
  {
    SplitWithoutComma(text);
    assert [text][1..] == [];
  }

  lemma {:induction false} SplitWithoutComma(s: string)
    requires ',' !in s
    ensures Split(s) == [s]
  {
    if s != [] {
      SplitWithoutComma(s[1..]);
      assert s == [s[0]] + s[1..];
    }
  }

  /** The page's component state. */
  class AdminApplicationsPage {
    var applications: seq<Application>
    var loading: bool
    var error: string
    var name: string             // newApp.name
    var redirectUrisText: string // newApp.redirectUris

    /** The initial state: nothing listed, loading, no error, an empty form. */
    constructor ()
      ensures applications == [] && loading && error == "" && name == "" && redirectUrisText == ""
    {
      applications := [];
      loading := true;
      error := "";
      name := "";
      redirectUrisText := "";
    }

    /**
     * `fetchApplications()` once the user is authenticated. `listed` is the decoded list when
     * the registry answered with a success status, None when it did not.
     */
    method FetchApplications(listed: Option<seq<Application>>)
      modifies this
      ensures !loading && name == old(name) && redirectUrisText == old(redirectUrisText)
      ensures listed.Some? ==> applications == listed.value && error == old(error)
      ensures listed.None? ==> applications == old(applications) && error == "Failed to load applications"
    {
      if listed.Some? {
        applications := listed.value;
      } else {
        error := "Failed to load applications";
      }
      loading := false;
    }

    /**
     * `handleCreateApp`. `sent` is the request body posted to the registry, None when the
     * form is refused before any request; `response` is the created application the registry
     * answered with, None when it answered with an error status.
     */
    method HandleCreateApp(response: Option<Application>) returns (sent: Option<AdminApplications.CreateBody>)
      modifies this
      ensures loading == old(loading)
      // an incomplete form sends nothing
      ensures old(name) == "" || ParseRedirectUris(old(redirectUrisText)) == [] <==> sent.None?
      ensures sent.None? ==>
                && error == "Name and at least one redirect URI are required"
                && applications == old(applications) && name == old(name) && redirectUrisText == old(redirectUrisText)
      // what is sent is the name and the parsed URIs, which the registry's own validation accepts
      ensures sent.Some? ==>
                && sent.value == AdminApplications.CreateBody(Some(old(name)), Some(ParseRedirectUris(old(redirectUrisText))))
                && AdminApplications.ValidCreateInput(sent.value)
      // a created application goes at the end and the form is cleared
      ensures sent.Some? && response.Some? ==>
                && applications == old(applications) + [response.value]
                && name == "" && redirectUrisText == "" && error == old(error)
      ensures sent.Some? && response.None? ==>
                && applications == old(applications) && error == "Failed to create application"
                && name == old(name) && redirectUrisText == old(redirectUrisText)
    {
      var redirectUris := ParseRedirectUris(redirectUrisText);
      if name == "" || |redirectUris| == 0 {
        error := "Name and at least one redirect URI are required";
        return None;
      }
      sent := Some(AdminApplications.CreateBody(Some(name), Some(redirectUris)));
      if response.None? {
        error := "Failed to create application";
        return;
      }
      applications := applications + [response.value];
      name := "";
      redirectUrisText := "";
    }
  }
}

/** URL building: the base URL without its trailing slashes, followed by the path,
    optionally with every `/vN/` segment replaced by a version override. */
module Urls {
  import opened Outcomes

  /** `str.rstrip("/")`. */
  function StripTrailingSlashes(s: string): (r: string)
    ensures r <= s
    ensures forall i :: |r| <= i < |s| ==> s[i] == '/'
    ensures r == [] || r[|r| - 1] != '/'
    decreases |s|
  {
    if s != [] && s[|s| - 1] == '/' then StripTrailingSlashes(s[..|s| - 1]) else s
  }

  /** The character class `[0-9]` of Python's `re` on a `str` pattern. */
  predicate IsDigit(c: char)
  {
    '0' <= c <= '9'
  }

  predicate IsVersionLetter(c: char)
  {
    c == 'v' || c == 'V'
  }

  /** `t` is a whole match of the pattern `/[vV][0-9]+/`. */
  predicate IsVersionSegment(t: string)
  {
    && |t| >= 4
    && t[0] == '/'
    && IsVersionLetter(t[1])
    && (forall i :: 2 <= i < |t| - 1 ==> IsDigit(t[i]))
    && t[|t| - 1] == '/'
  }

  /** A version override such as "v1": "/" + m + "/" is itself a version segment. */
  predicate IsVersionToken(m: string)
  {
    && |m| >= 2
    && IsVersionLetter(m[0])
    && forall i :: 1 <= i < |m| ==> IsDigit(m[i])
  }

  /** Index just past the run of digits that starts at `i`. */
  function DigitsEnd(s: string, i: nat): (k: nat)
    requires i <= |s|
    ensures i <= k <= |s|
    ensures forall j :: i <= j < k ==> IsDigit(s[j])
    ensures k == |s| || !IsDigit(s[k])
    decreases |s| - i
  {
    if i < |s| && IsDigit(s[i]) then DigitsEnd(s, i + 1) else i
  }

  /** The length of the match of `/[vV][0-9]+/` at the start of `s`, if the regular
      expression engine finds one there. The greedy digit run must be followed by `/`;
      backtracking into the run cannot help, as digits are not slashes. The match is
      the one prefix of `s` that is a version segment. */
  function VersionMatch(s: string): (r: Option<nat>)
    ensures r.Some? ==> r.value <= |s|
    ensures forall n {:trigger IsVersionSegment(s[..n])} :: 0 <= n <= |s| ==> (IsVersionSegment(s[..n]) <==> r == Some(n))
  {
    if |s| >= 2 && s[0] == '/' && IsVersionLetter(s[1]) then
      var k := DigitsEnd(s, 2);
      if k > 2 && k < |s| && s[k] == '/' then
        assert IsVersionSegment(s[..k + 1]);
        Some(k + 1)
      else
        None
    else
      None
  }

  /** No position of `s` starts a version segment. */
  predicate NoSegments(s: string)
    decreases |s|
  {
    s == [] || (VersionMatch(s).None? && NoSegments(s[1..]))
  }

  /** `re.sub(r'\/[vV][0-9]+\/', "/" + m + "/", s)`: scanning left to right, each
      non-overlapping match is replaced and every other character is copied. Only
      the empty string rewrites to the empty string, and as every match starts
      with a slash, a string that does not keeps its first character. */
  function Rewrite(s: string, m: string): (r: string)
    ensures r == [] <==> s == []
    ensures s != [] && s[0] != '/' ==> r[0] == s[0]
    decreases |s|
  {
    if s == [] then []
    else match VersionMatch(s)
      case Some(n) => "/" + m + "/" + Rewrite(s[n..], m)
      case None => [s[0]] + Rewrite(s[1..], m)
  }

  /** A string in which no segment starts comes back as it is. */
  lemma {:induction false} NoSegmentsUnchanged(s: string, m: string)
    ensures NoSegments(s) ==> Rewrite(s, m) == s
    decreases |s|
  {
    if s != [] && NoSegments(s) {
      NoSegmentsUnchanged(s[1..], m);
      assert [s[0]] + s[1..] == s;
    }
  }

  /** `to_url`: the base (already stripped by the constructor) followed by the path,
      with every version segment replaced when an override is given. Without an
      override the URL is exactly base and path; an override changes nothing in a
      URL without version segments, and overriding the result again with the same
      token changes nothing more. */
  function ToUrl(base: string, path: string, version: Option<string>): (url: string)
    ensures version.None? ==> url == base + path
    ensures version.Some? && NoSegments(base + path) ==> url == base + path
    ensures version.Some? && IsVersionToken(version.value) ==> Rewrite(url, version.value) == url
  {
    if version.None? then base + path
    else
      NoSegmentsUnchanged(base + path, version.value);
      OverrideTwice(base + path, version.value);
      Rewrite(base + path, version.value)
  }

  lemma OverrideTwice(s: string, m: string)
    ensures IsVersionToken(m) ==> Rewrite(Rewrite(s, m), m) == Rewrite(s, m)
  {
    if IsVersionToken(m) {
      RewriteTwice(s, m, m);
    }
  }

  /** The scanning loop of the regular expression engine, over an index into `s`. */
  method RewriteScan(s: string, m: string) returns (r: string)
    ensures r == Rewrite(s, m)
  {
    r := [];
    var i := 0;
    while i < |s|
      invariant 0 <= i <= |s|
      invariant r + Rewrite(s[i..], m) == Rewrite(s, m)
      decreases |s| - i
    {
      var step := VersionMatch(s[i..]);
      var piece := if step.Some? then "/" + m + "/" else [s[i]];
      var next := if step.Some? then i + step.value else i + 1;
      assert i < next <= |s| && Rewrite(s[i..], m) == piece + Rewrite(s[next..], m) by {
        if step.Some? {
          RewriteAtMatch(s, i, m, step.value);
        } else {
          RewriteAtCopy(s, i, m);
        }
      }
      AppendAssoc(r, piece, Rewrite(s[next..], m));
      r, i := r + piece, next;
    }
  }

  lemma AppendAssoc(a: string, b: string, c: string)
    ensures a + b + c == a + (b + c)
  {
  }

  /** A step of the scan at a match: the segment is replaced and the scan goes on
      after it. */
  lemma RewriteAtMatch(s: string, i: nat, m: string, n: nat)
    requires i < |s| && VersionMatch(s[i..]) == Some(n)
    ensures 0 < n && i + n <= |s|
    ensures Rewrite(s[i..], m) == "/" + m + "/" + Rewrite(s[i + n..], m)
  {
    var rest := s[i..];
    assert IsVersionSegment(rest[..n]);
    assert rest[n..] == s[i + n..];
  }

  /** A step of the scan elsewhere: the character is copied. */
  lemma RewriteAtCopy(s: string, i: nat, m: string)
    requires i < |s| && VersionMatch(s[i..]).None?
    ensures Rewrite(s[i..], m) == [s[i]] + Rewrite(s[i + 1..], m)
  {
    var rest := s[i..];
    assert rest[1..] == s[i + 1..];
  }

  /** A URL without any version segment is left as it is by an override. */
  lemma {:induction false} RewriteWithoutSegments(s: string, m: string)
    requires forall i :: 0 <= i <= |s| ==> VersionMatch(s[i..]).None?
    ensures Rewrite(s, m) == s
    decreases |s|
  {
    if s != [] {
      assert VersionMatch(s[0..]).None?;
      assert s[0..] == s;
      forall i | 0 <= i <= |s[1..]|
        ensures VersionMatch(s[1..][i..]).None?
      {
        assert s[1..][i..] == s[i + 1..];
        assert VersionMatch(s[i + 1..]).None?;
      }
      RewriteWithoutSegments(s[1..], m);
    }
  }

  /** Up to its first slash, a rewritten string is the original one, and where the
      original has its first slash the rewritten one has a slash too. */
  lemma {:induction false} RewriteKeepsTextBeforeSlash(t: string, m: string, p: nat)
    requires p <= |Rewrite(t, m)|
    requires forall k :: 0 <= k < p ==> Rewrite(t, m)[k] != '/'
    ensures p <= |t| && t[..p] == Rewrite(t, m)[..p]
    ensures p < |Rewrite(t, m)| && Rewrite(t, m)[p] == '/' ==> p < |t| && t[p] == '/'
    decreases |t|
  {
    var y := Rewrite(t, m);
    if t == [] {
    } else {
      match VersionMatch(t)
      case Some(n) =>
        assert y[0] == '/';
        assert p == 0;
        assert IsVersionSegment(t[..n]);
      case None =>
        var y' := Rewrite(t[1..], m);
        assert y == [t[0]] + y';
        if p > 0 {
          forall k | 0 <= k < p - 1
            ensures y'[k] != '/'
          {
            assert y'[k] == y[k + 1];
          }
          RewriteKeepsTextBeforeSlash(t[1..], m, p - 1);
          assert t[..p] == [t[0]] + t[1..][..p - 1];
          assert y[..p] == [t[0]] + y'[..p - 1];
          if p < |y| && y[p] == '/' {
            assert y'[p - 1] == y[p];
          }
        }
    }
  }

  /** A version segment at the start of a rewrite of `s`, where `s` has no match at
      its start, is already a version segment at the start of `s`. */
  lemma SegmentOfRewriteIsOriginal(s: string, m: string, n: nat)
    requires s != [] && VersionMatch(s).None?
    requires n <= |Rewrite(s, m)| && IsVersionSegment(Rewrite(s, m)[..n])
    ensures n <= |s| && IsVersionSegment(s[..n])
  {
    var x := Rewrite(s, m);
    var y := Rewrite(s[1..], m);
    assert x == [s[0]] + y;
    var seg := x[..n];
    assert seg[0] == '/' && IsVersionLetter(seg[1]);
    forall k | 0 <= k < n - 2
      ensures y[k] != '/'
    {
      assert y[k] == seg[k + 1];
      if k > 0 {
        assert IsDigit(seg[k + 1]);
      }
    }
    assert y[n - 2] == seg[n - 1] == '/';
    RewriteKeepsTextBeforeSlash(s[1..], m, n - 2);
    assert s[..n] == [s[0]] + s[1..][..n - 2] + [s[1..][n - 2]];
    assert seg == [s[0]] + y[..n - 2] + [y[n - 2]];
  }

  /** Where the original string has no match at its start, a rewrite of it has none
      either. */
  lemma NoMatchSurvivesRewrite(s: string, m: string)
    requires s != [] && VersionMatch(s).None?
    ensures VersionMatch(Rewrite(s, m)).None?
  {
    var x := Rewrite(s, m);
    if VersionMatch(x).Some? {
      var n := VersionMatch(x).value;
      assert IsVersionSegment(x[..n]);
      SegmentOfRewriteIsOriginal(s, m, n);
      assert false;
    }
  }

  /** A segment built from a version token is matched in full. */
  lemma TokenSegmentMatches(m: string, t: string)
    requires IsVersionToken(m)
    ensures VersionMatch("/" + m + "/" + t) == Some(|m| + 2)
  {
    var u := "/" + m + "/" + t;
    assert u[..|m| + 2] == "/" + m + "/";
    assert IsVersionSegment(u[..|m| + 2]);
  }

  /** Overriding the version of an already overridden URL is the same as overriding
      the original URL once: the last override wins, and overriding twice with the
      same version changes nothing more. */
  lemma {:induction false} RewriteTwice(s: string, m: string, m2: string)
    requires IsVersionToken(m)
    ensures Rewrite(Rewrite(s, m), m2) == Rewrite(s, m2)
    decreases |s|
  {
    if s != [] {
      match VersionMatch(s)
      case Some(n) =>
        var t := Rewrite(s[n..], m);
        var seg := "/" + m + "/";
        TokenSegmentMatches(m, t);
        assert (seg + t)[|m| + 2..] == t;
        RewriteTwice(s[n..], m, m2);
      case None =>
        var y := Rewrite(s[1..], m);
        NoMatchSurvivesRewrite(s, m);
        assert Rewrite(s, m) == [s[0]] + y;
        assert ([s[0]] + y)[1..] == y;
        RewriteTwice(s[1..], m, m2);
    }
  }

  /** The private clients' base ends in "/v2" (no trailing slash once stripped): the
      segment is only completed by the path's leading slash, and the override still
      replaces it. */
  lemma OverrideSpansBaseAndPath()
    ensures ToUrl("/api/v2", "/x", Some("v1")) == "/api/v1/x"
  {
    var url := "/api/v2" + "/x";
    assert url == "/api/v2/x";
    assert VersionMatch("x") == None;
    assert Rewrite("x", "v1") == "x";
    assert VersionMatch("/x") == None;
    assert Rewrite("/x", "v1") == "/x";
    assert VersionMatch("/v2/x") == Some(4);
    assert "/v2/x"[4..] == "x";
    assert Rewrite("/v2/x", "v1") == "/v1/x";
    assert VersionMatch("i/v2/x") == None;
    assert Rewrite("i/v2/x", "v1") == "i/v1/x";
    assert VersionMatch("pi/v2/x") == None;
    assert Rewrite("pi/v2/x", "v1") == "pi/v1/x";
    assert VersionMatch("api/v2/x") == None;
    assert Rewrite("api/v2/x", "v1") == "api/v1/x";
    assert VersionMatch(url) == None;
  }
}

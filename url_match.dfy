/**
 The URL matcher of the content script (`matchesUrl`). Every character of a
 pattern except `*` is escaped, `*` becomes the regular expression `.*`, and
 the result is anchored at both ends. A literal character therefore matches
 only itself, and `*` matches any run of characters that `.` accepts: every
 character except the line terminators. A URL taken from `location.href` is
 a serialised URL and never holds a line terminator, so for real addresses
 `*` stands for any string.
 */
module UrlMatch {
  import opened Js

  /** The anchored regular expression built from `p` accepts all of `s`. */
  predicate GlobMatch(p: string, s: string)
    decreases |p| + |s|
  {
    if p == [] then s == []
    else if p[0] == '*' then
      GlobMatch(p[1..], s) || (s != [] && !IsLineTerminator(s[0]) && GlobMatch(p, s[1..]))
    else
      s != [] && s[0] == p[0] && GlobMatch(p[1..], s[1..])
  }

  /** `matchesUrl(urlPatterns)` against the page address `url`: some pattern matches. */
  predicate MatchesUrl(url: string, patterns: seq<string>) {
    patterns != [] && (GlobMatch(patterns[0], url) || MatchesUrl(url, patterns[1..]))
  }

  // ---------------------------------------------------------------------------
  // An independent definition: a URL is an instance of a pattern when it is the
  // pattern with each `*` replaced by a filler string.
  // ---------------------------------------------------------------------------

  function Stars(p: string): nat {
    if p == [] then 0 else (if p[0] == '*' then 1 else 0) + Stars(p[1..])
  }

  /** `p` with its `*`s replaced, left to right, by the strings of `fill`. */
  function Expand(p: string, fill: seq<string>): string
    requires |fill| == Stars(p)
  {
    if p == [] then []
    else if p[0] == '*' then fill[0] + Expand(p[1..], fill[1..])
    else [p[0]] + Expand(p[1..], fill)
  }

  /** A filler that `.*` can match: no line terminator. */
  predicate DotMatches(w: string) {
    forall i :: 0 <= i < |w| ==> !IsLineTerminator(w[i])
  }

  predicate IsInstance(p: string, fill: seq<string>, s: string) {
    && |fill| == Stars(p)
    && (forall k :: 0 <= k < |fill| ==> DotMatches(fill[k]))
    && Expand(p, fill) == s
  }

  /** The fillers a successful match chose: one per `*`. */
  ghost function Witness(p: string, s: string): (fill: seq<string>)
    requires GlobMatch(p, s)
    ensures IsInstance(p, fill, s)
    decreases |p| + |s|
  {
    if p == [] then []
    else if p[0] == '*' then
      if GlobMatch(p[1..], s) then [""] + Witness(p[1..], s)
      else
        var w := Witness(p, s[1..]);
        WidenFirst(p, w, s);
        [[s[0]] + w[0]] + w[1..]
    else Witness(p[1..], s[1..])
  }

  /** Growing the first filler by the URL's first character keeps an instance. */
  lemma WidenFirst(p: string, w: seq<string>, s: string)
    requires p != [] && p[0] == '*' && s != [] && !IsLineTerminator(s[0])
    requires IsInstance(p, w, s[1..])
    ensures IsInstance(p, [[s[0]] + w[0]] + w[1..], s)
  {
    var w' := [[s[0]] + w[0]] + w[1..];
    assert w'[0] == [s[0]] + w[0] && w'[1..] == w[1..];
    assert DotMatches(w[0]);
    assert DotMatches(w'[0]) by {
      forall i | 0 <= i < |w'[0]| ensures !IsLineTerminator(w'[0][i]) {
        if i > 0 { assert w'[0][i] == w[0][i - 1]; }
      }
    }
    assert forall k :: 1 <= k < |w'| ==> w'[k] == w[k];
  }

  /** Every instance of a pattern is matched by it. */
  lemma {:induction false} InstanceMatches(p: string, fill: seq<string>, s: string)
    requires IsInstance(p, fill, s)
    ensures GlobMatch(p, s)
    decreases |p| + |s|
  {
    if p == [] {
    } else if p[0] == '*' {
      if fill[0] == "" {
        assert Expand(p, fill) == Expand(p[1..], fill[1..]);
        InstanceMatches(p[1..], fill[1..], s);
      } else {
        var fill2 := [fill[0][1..]] + fill[1..];
        assert fill2[1..] == fill[1..];
        assert s == [fill[0][0]] + Expand(p, fill2);
        assert DotMatches(fill[0]) && !IsLineTerminator(s[0]);
        assert IsInstance(p, fill2, s[1..]) by {
          assert DotMatches(fill2[0]) by {
            assert DotMatches(fill[0]);
          }
          assert forall k :: 1 <= k < |fill2| ==> fill2[k] == fill[k];
        }
        InstanceMatches(p, fill2, s[1..]);
      }
    } else {
      InstanceMatches(p[1..], fill, s[1..]);
    }
  }

  /** A pattern matches exactly its instances: `*` is any `.`-matchable string
      and every other character, regex metacharacters included, is itself. */
  lemma GlobMatchIff(p: string, s: string)
    ensures GlobMatch(p, s) <==> exists fill :: IsInstance(p, fill, s)
  {
    if GlobMatch(p, s) {
      var w := Witness(p, s);
      assert IsInstance(p, w, s);
    }
    if exists fill :: IsInstance(p, fill, s) {
      var fill :| IsInstance(p, fill, s);
      InstanceMatches(p, fill, s);
    }
  }

  /** `matchesUrl` is the disjunction over its patterns; no pattern, no match. */
  lemma {:induction false} MatchesUrlIff(url: string, patterns: seq<string>)
    ensures MatchesUrl(url, patterns) <==> exists j :: 0 <= j < |patterns| && GlobMatch(patterns[j], url)
    decreases |patterns|
  {
    if patterns != [] {
      MatchesUrlIff(url, patterns[1..]);
      if exists j :: 0 <= j < |patterns| && GlobMatch(patterns[j], url) {
        var j :| 0 <= j < |patterns| && GlobMatch(patterns[j], url);
        if j > 0 {
          assert patterns[1..][j - 1] == patterns[j];
        }
      }
      if MatchesUrl(url, patterns[1..]) {
        var j :| 0 <= j < |patterns[1..]| && GlobMatch(patterns[1..][j], url);
        assert GlobMatch(patterns[j + 1], url);
      }
    }
  }

  /** The order of the patterns is irrelevant. */
  lemma MatchesUrlOrderFree(url: string, ps: seq<string>, qs: seq<string>)
    requires forall x :: x in ps <==> x in qs
    ensures MatchesUrl(url, ps) == MatchesUrl(url, qs)
  {
    MatchesUrlIff(url, ps);
    MatchesUrlIff(url, qs);
    if MatchesUrl(url, ps) {
      var j :| 0 <= j < |ps| && GlobMatch(ps[j], url);
      assert ps[j] in qs;
      var j2 :| 0 <= j2 < |qs| && qs[j2] == ps[j];
    }
    if MatchesUrl(url, qs) {
      var j :| 0 <= j < |qs| && GlobMatch(qs[j], url);
      assert qs[j] in ps;
      var j2 :| 0 <= j2 < |ps| && ps[j2] == qs[j];
    }
  }

  /** A pattern without `*` matches exactly one URL, itself. */
  lemma {:induction false} LiteralPattern(p: string, s: string)
    requires '*' !in p
    ensures GlobMatch(p, s) <==> s == p
    decreases |p|
  {
    if p != [] {
      assert p[0] != '*';
      assert '*' !in p[1..];
      if s != [] {
        LiteralPattern(p[1..], s[1..]);
      }
      if s != [] && s == p {
        assert s[1..] == p[1..];
      }
      if s != [] && s[0] == p[0] && s[1..] == p[1..] {
        assert s == [s[0]] + s[1..];
        assert p == [p[0]] + p[1..];
      }
    }
  }

  /** A lone `*` matches every string without a line terminator and nothing else. */
  lemma {:induction false} StarMatches(s: string)
    ensures GlobMatch("*", s) <==> DotMatches(s)
    decreases |s|
  {
    assert "*"[1..] == "";
    if s != [] {
      StarMatches(s[1..]);
      assert DotMatches(s) <==> !IsLineTerminator(s[0]) && DotMatches(s[1..]) by {
        if !IsLineTerminator(s[0]) && DotMatches(s[1..]) {
          forall i | 0 <= i < |s| ensures !IsLineTerminator(s[i]) {
            if i > 0 { assert s[i] == s[1..][i - 1]; }
          }
        }
        if DotMatches(s) {
          forall i | 0 <= i < |s[1..]| ensures !IsLineTerminator(s[1..][i]) {
            assert s[1..][i] == s[i + 1];
          }
        }
      }
    }
  }

  /** `prefix*` with a `*`-free prefix matches exactly the URLs that start with
      the prefix (and continue without a line terminator). */
  lemma {:induction false} PrefixPattern(q: string, s: string)
    requires '*' !in q
    ensures GlobMatch(q + "*", s) <==> StartsWith(s, q) && DotMatches(s[|q|..])
    decreases |q|
  {
    if q == [] {
      assert q + "*" == "*";
      StarMatches(s);
    } else {
      var p := q + "*";
      assert p[0] == q[0] && p[0] != '*';
      assert p[1..] == q[1..] + "*";
      assert '*' !in q[1..];
      if s != [] {
        PrefixPattern(q[1..], s[1..]);
        if |q| <= |s| {
          assert s[1..][|q| - 1..] == s[|q|..];
          assert s[..|q|] == [s[0]] + s[1..][..|q| - 1];
          assert q == [q[0]] + q[1..];
        }
      }
    }
  }

  /** `q*` accepts `q` followed by any run without a line terminator. */
  lemma PrefixAccepts(q: string, rest: string)
    requires '*' !in q && DotMatches(rest)
    ensures GlobMatch(q + "*", q + rest)
  {
    PrefixPattern(q, q + rest);
    assert (q + rest)[..|q|] == q;
    assert (q + rest)[|q|..] == rest;
  }

  /** `q*` rejects a URL that differs from `q` at some position of `q`. */
  lemma PrefixRejects(q: string, s: string, i: nat)
    requires '*' !in q && i < |q| && i < |s| && s[i] != q[i]
    ensures !GlobMatch(q + "*", s)
  {
    PrefixPattern(q, s);
    if |q| <= |s| {
      assert s[..|q|][i] == s[i];
    }
  }

  lemma GitHubPrefixFacts()
    ensures '*' !in "https://github.com/" && "https://github.com/" + "*" == "https://github.com/*"
    ensures "https://github.com/" + "acme/repo/pull/5" == "https://github.com/acme/repo/pull/5"
    ensures "https://github.com/"[11] == 'h'
  {
  }

  lemma PullPathIsDotFree()
    ensures DotMatches("acme/repo/pull/5")
  {
  }

  lemma GitLabPrefixFacts()
    ensures '*' !in "https://gitlab.com/" && "https://gitlab.com/" + "*" == "https://gitlab.com/*"
    ensures "https://gitlab.com/"[11] == 'l'
  {
  }

  /** A literal fact about the scenario address, kept apart so that the solver
      does not unfold the whole string inside GitLabPatternRejects. */
  lemma PullUrlAt11()
    ensures "https://github.com/acme/repo/pull/5"[11] == 'h'
  {
  }

  /** The trigger pattern for GitHub pages accepts the address of a pull request. */
  lemma GitHubPatternAccepts()
    ensures MatchesUrl("https://github.com/acme/repo/pull/5", ["https://github.com/*"])
  {
    GitHubPrefixFacts();
    PullPathIsDotFree();
    PrefixAccepts("https://github.com/", "acme/repo/pull/5");
  }

  /** The same pattern rejects an address on another host. */
  lemma GitLabPatternRejects()
    ensures !MatchesUrl("https://github.com/acme/repo/pull/5", ["https://gitlab.com/*"])
  {
    GitLabPrefixFacts();
    PullUrlAt11();
    PrefixRejects("https://gitlab.com/", "https://github.com/acme/repo/pull/5", 11);
    assert ["https://gitlab.com/*"][1..] == [];
  }

  /** Regular-expression metacharacters in a pattern are literal: `.`, `?` and
      `+` match only themselves. */
  lemma MetacharactersAreLiteral()
    ensures !GlobMatch("a.b", "axb") && GlobMatch("a.b", "a.b")
    ensures !GlobMatch("a?", "") && !GlobMatch("a+", "aa")
  {
    LiteralPattern("a.b", "axb");
    LiteralPattern("a.b", "a.b");
    LiteralPattern("a?", "");
    LiteralPattern("a+", "aa");
  }
}

/**
 The case-insensitive needle matcher of the content script: `matchesText`,
 `findTextOnPage`, and the per-element test inside `setupButtonClickTrigger`
 that looks at an element's trimmed visible text, its `aria-label` and its
 `title`.
 */
module TextMatch {
  import opened Js

  /** `patterns.some(p => hay.includes(p.toLowerCase()))`. */
  predicate AnyIncluded(hay: string, patterns: seq<string>) {
    patterns != [] && (Includes(hay, Lower(patterns[0])) || AnyIncluded(hay, patterns[1..]))
  }

  /** `matchesText(text, patterns)`: `patterns` absent or empty gives false. */
  predicate MatchesText(text: string, patterns: Option<seq<string>>) {
    patterns.Some? && |patterns.value| > 0 && AnyIncluded(Trim(Lower(text)), patterns.value)
  }

  /** `findTextOnPage(patterns)`: the body's `innerText || textContent || ''`. */
  predicate FindTextOnPage(innerText: Option<string>, textContent: Option<string>, patterns: Option<seq<string>>) {
    MatchesText(FirstNonEmpty(innerText, textContent), patterns)
  }

  /** One needle against the three strings of an element: the text comes in trimmed,
      the attribute values as they are. */
  predicate NeedleOnElement(text: string, ariaLabel: string, title: string, needle: string) {
    var lower := Lower(needle);
    Includes(Lower(text), lower) || Includes(Lower(ariaLabel), lower) || Includes(Lower(title), lower)
  }

  /** `detection.textMatch.some(...)` over the element's three strings. */
  predicate AnyNeedleOnElement(text: string, ariaLabel: string, title: string, needles: seq<string>) {
    needles != [] && (NeedleOnElement(text, ariaLabel, title, needles[0]) || AnyNeedleOnElement(text, ariaLabel, title, needles[1..]))
  }

  // ---------------------------------------------------------------------------
  // Properties
  // ---------------------------------------------------------------------------

  lemma {:induction false} AnyIncludedIff(hay: string, patterns: seq<string>)
    ensures AnyIncluded(hay, patterns) <==> exists j :: 0 <= j < |patterns| && Includes(hay, Lower(patterns[j]))
    decreases |patterns|
  {
    if patterns != [] {
      AnyIncludedIff(hay, patterns[1..]);
      if exists j :: 0 <= j < |patterns| && Includes(hay, Lower(patterns[j])) {
        var j :| 0 <= j < |patterns| && Includes(hay, Lower(patterns[j]));
        if j > 0 {
          assert patterns[1..][j - 1] == patterns[j];
        }
      }
      if AnyIncluded(hay, patterns[1..]) {
        var j :| 0 <= j < |patterns[1..]| && Includes(hay, Lower(patterns[1..][j]));
        assert patterns[1..][j] == patterns[j + 1];
      }
    }
  }

  /** `matchesText` is false without needles, and otherwise true exactly when the
      lower-cased, trimmed text contains the lower-cased form of some needle. */
  lemma MatchesTextIff(text: string, patterns: Option<seq<string>>)
    ensures patterns.None? || patterns == Some([]) ==> !MatchesText(text, patterns)
    ensures patterns.Some? ==>
      (MatchesText(text, patterns) <==>
        exists j :: 0 <= j < |patterns.value| && Includes(Trim(Lower(text)), Lower(patterns.value[j])))
  {
    if patterns.Some? {
      AnyIncludedIff(Trim(Lower(text)), patterns.value);
    }
  }

  /** The order (and repetition) of the needles does not matter. */
  lemma MatchesTextOrderFree(text: string, ps: seq<string>, qs: seq<string>)
    requires forall x :: x in ps <==> x in qs
    ensures MatchesText(text, Some(ps)) == MatchesText(text, Some(qs))
  {
    var hay := Trim(Lower(text));
    AnyIncludedIff(hay, ps);
    AnyIncludedIff(hay, qs);
    if AnyIncluded(hay, ps) {
      var j :| 0 <= j < |ps| && Includes(hay, Lower(ps[j]));
      assert ps[j] in qs;
      var j2 :| 0 <= j2 < |qs| && qs[j2] == ps[j];
    }
    if AnyIncluded(hay, qs) {
      var j :| 0 <= j < |qs| && Includes(hay, Lower(qs[j]));
      assert qs[j] in ps;
      var j2 :| 0 <= j2 < |ps| && ps[j2] == qs[j];
    }
  }

  /** Needles that agree up to ASCII case give the same answer. */
  lemma {:induction false} MatchesTextNeedleCase(text: string, ps: seq<string>, qs: seq<string>)
    requires |ps| == |qs|
    requires forall j :: 0 <= j < |ps| ==> Lower(ps[j]) == Lower(qs[j])
    ensures MatchesText(text, Some(ps)) == MatchesText(text, Some(qs))
  {
    var hay := Trim(Lower(text));
    AnyIncludedIff(hay, ps);
    AnyIncludedIff(hay, qs);
  }

  /** Texts that agree up to ASCII case give the same answer. */
  lemma MatchesTextTextCase(text: string, patterns: Option<seq<string>>)
    ensures MatchesText(Lower(text), patterns) == MatchesText(text, patterns)
  {
    LowerIdempotent(text);
  }

  /** White space around the page text is irrelevant. */
  lemma MatchesTextIgnoresPadding(text: string, patterns: Option<seq<string>>)
    ensures MatchesText(Trim(text), patterns) == MatchesText(text, patterns)
  {
    var t := Trim(text);
    assert Trim(Lower(t)) == Trim(Lower(text)) by {
      TrimLowerCommute(t);
      TrimIdempotent(text);
      TrimLowerCommute(text);
    }
  }

  /** An empty needle matches any text. */
  lemma EmptyNeedleMatches(text: string, ps: seq<string>)
    requires "" in ps
    ensures MatchesText(text, Some(ps))
  {
    var j :| 0 <= j < |ps| && ps[j] == "";
    assert Lower("") == "";
    IncludesEmpty(Trim(Lower(text)));
    AnyIncludedIff(Trim(Lower(text)), ps);
  }

  lemma {:induction false} AnyNeedleOnElementIff(text: string, ariaLabel: string, title: string, needles: seq<string>)
    ensures AnyNeedleOnElement(text, ariaLabel, title, needles) <==>
      exists j :: 0 <= j < |needles| && NeedleOnElement(text, ariaLabel, title, needles[j])
    decreases |needles|
  {
    if needles != [] {
      AnyNeedleOnElementIff(text, ariaLabel, title, needles[1..]);
      if exists j :: 0 <= j < |needles| && NeedleOnElement(text, ariaLabel, title, needles[j]) {
        var j :| 0 <= j < |needles| && NeedleOnElement(text, ariaLabel, title, needles[j]);
        if j > 0 {
          assert needles[1..][j - 1] == needles[j];
        }
      }
      if AnyNeedleOnElement(text, ariaLabel, title, needles[1..]) {
        var j :| 0 <= j < |needles[1..]| && NeedleOnElement(text, ariaLabel, title, needles[1..][j]);
        assert needles[1..][j] == needles[j + 1];
      }
    }
  }

  /** `findTextOnPage` reads the body's `innerText` when it is non-empty, and
      otherwise its `textContent`, absent counting as empty. */
  lemma FindTextOnPageSource(innerText: Option<string>, textContent: Option<string>, patterns: Option<seq<string>>)
    ensures innerText.Some? && innerText.value != "" ==>
      FindTextOnPage(innerText, textContent, patterns) == MatchesText(innerText.value, patterns)
    ensures (innerText.None? || innerText.value == "") ==>
      FindTextOnPage(innerText, textContent, patterns) == MatchesText(textContent.GetOr(""), patterns)
  {
  }

  /** The element test is `matchesText` on the visible text, or an untrimmed,
      case-insensitive containment in the `aria-label` or the `title`. */
  lemma ElementTestDecomposes(text: string, ariaLabel: string, title: string, needles: seq<string>)
    ensures AnyNeedleOnElement(Trim(text), ariaLabel, title, needles) <==>
      || MatchesText(text, Some(needles))
      || AnyIncluded(Lower(ariaLabel), needles)
      || AnyIncluded(Lower(title), needles)
  {
    TrimLowerCommute(text);
    AnyNeedleOnElementIff(Trim(text), ariaLabel, title, needles);
    AnyIncludedIff(Trim(Lower(text)), needles);
    AnyIncludedIff(Lower(ariaLabel), needles);
    AnyIncludedIff(Lower(title), needles);
  }

  lemma SpaceTrimmed(x: string)
    requires x != [] && !IsWhiteSpace(x[0]) && !IsWhiteSpace(x[|x| - 1])
    ensures Trim(" " + x) == x
  {
    assert (" " + x)[1..] == x;
    assert TrimStart(" " + x) == TrimStart(x);
    TrimKeeps(x);
  }

  lemma TrimmedTextMisses(x: string)
    requires x != [] && !IsWhiteSpace(x[0]) && !IsWhiteSpace(x[|x| - 1])
    ensures !AnyNeedleOnElement(Trim(" " + x), "", "", [" " + x])
  {
    var n := " " + x;
    SpaceTrimmed(x);
    LongNeedleAbsent(Lower(x), Lower(n));
    LongNeedleAbsent(Lower(""), Lower(n));
    assert [n][1..] == [];
  }

  lemma LabelKeepsPadding(x: string)
    ensures AnyNeedleOnElement(Trim(""), " " + x, "", [" " + x])
  {
    IncludesItself(Lower(" " + x));
  }

  /** Only the visible text is trimmed: a needle with a leading space is found in
      an `aria-label` that has it, but not in visible text that has it. */
  lemma OnlyTextIsTrimmed(x: string)
    requires x != [] && !IsWhiteSpace(x[0]) && !IsWhiteSpace(x[|x| - 1])
    ensures !AnyNeedleOnElement(Trim(" " + x), "", "", [" " + x])
    ensures AnyNeedleOnElement(Trim(""), " " + x, "", [" " + x])
  {
    TrimmedTextMisses(x);
    LabelKeepsPadding(x);
  }
}

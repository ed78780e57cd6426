/**
 The two triggers the content script ships, on concrete pages: both are
 active on a GitHub pull request and neither elsewhere; the conflicts message
 shows one red banner however many times the observer fires; a merge button
 is wired once and reports the merged banner when clicked.
 */
module Scenarios {
  import opened Js
  import opened UrlMatch
  import opened TextMatch
  import opened Banner
  import opened Triggers
  import opened Dispatch

  const PullUrl := "https://github.com/acme/repo/pull/5"
  const OtherUrl := "https://gitlab.com/acme/repo"
  /** The needle of the conflicts trigger. */
  const ConflictNeedle := "This branch has conflicts that must be resolved"
  /** A page whose visible text holds the conflicts message on its second line. */
  const ConflictPage := "Merge blocked\n" + ConflictNeedle
  const Blank := Session([], {}, [], None)

  /** A button whose visible text is one of the merge needles. */
  const ConfirmButton := Element("button", None, false, {}, Some("Confirm merge"), None, None, None, {}, [])

  lemma IncludedAfter(a: string, n: string)
    ensures Includes(a + n, n)
  {
    IncludesIff(a + n, n);
    assert (a + n)[|a|..|a| + |n|] == n;
    assert OccursAt(a + n, n, |a|);
  }

  lemma MergedIdIsMarkerSafe()
    ensures MarkerSafeId("github-pr-merged")
  {
  }

  lemma ConflictsIdIsMarkerSafe()
    ensures MarkerSafeId("github-conflicts-detected")
  {
  }

  /** Both shipped ids make marker attribute names that `setAttribute` accepts
      unchanged, so the at-most-one-listener guarantee applies to them. */
  lemma RegistryIsMarkerSafe()
    ensures MarkerSafe(Registry)
  {
    MergedIdIsMarkerSafe();
    ConflictsIdIsMarkerSafe();
  }

  /** Both triggers are active on a pull request page. */
  lemma BothActiveOnPullRequest()
    ensures ActiveTriggers(Registry, PullUrl) == Registry
  {
    GitHubPatternAccepts();
    assert Registry[1..][1..] == [];
  }

  /** A literal fact about the other address, kept apart so that the solver
      does not unfold the whole string where NoneActiveElsewhere uses it. */
  lemma OtherUrlAt11()
    ensures OtherUrl[11] == 'l'
  {
  }

  /** Neither is active on another host, so the script does not even observe the page. */
  lemma NoneActiveElsewhere()
    ensures ActiveTriggers(Registry, OtherUrl) == []
  {
    GitHubPrefixFacts();
    OtherUrlAt11();
    PrefixRejects("https://github.com/", OtherUrl, 11);
    assert !MatchesUrl(OtherUrl, ["https://github.com/*"]) by {
      assert ["https://github.com/*"][1..] == [];
    }
    assert Registry[1..][1..] == [];
  }

  lemma TrimKeepsJoin(prefix: string, needle: string)
    requires prefix != [] && !IsWhiteSpace(prefix[0])
    requires needle != [] && !IsWhiteSpace(needle[|needle| - 1])
    ensures Trim(prefix + needle) == prefix + needle
  {
    var page := prefix + needle;
    assert page[0] == prefix[0];
    assert page[|page| - 1] == needle[|needle| - 1];
    TrimKeeps(page);
  }

  /** A needle that ends the page text, after a line that starts with a
      non-space, is found. */
  lemma FoundAfterPrefix(prefix: string, needle: string)
    requires prefix != [] && !IsWhiteSpace(prefix[0])
    requires needle != [] && !IsWhiteSpace(needle[|needle| - 1])
    ensures MatchesText(prefix + needle, Some([needle]))
  {
    TrimKeepsJoin(prefix, needle);
    TrimLowerCommute(prefix + needle);
    LowerAppend(prefix, needle);
    IncludedAfter(Lower(prefix), Lower(needle));
  }

  lemma ConflictPageMatches()
    ensures MatchesText(ConflictPage, Some([ConflictNeedle]))
  {
    assert "Merge blocked\n"[0] == 'M';
    FoundAfterPrefix("Merge blocked\n", ConflictNeedle);
  }

  /** One of the needles is the (already trimmed) text itself. */
  lemma NeedleIsText(text: string, aria: string, title: string, needles: seq<string>, j: nat)
    requires j < |needles| && needles[j] == text
    ensures AnyNeedleOnElement(text, aria, title, needles)
  {
    IncludesItself(Lower(text));
    AnyNeedleOnElementIff(text, aria, title, needles);
  }

  /** A text shorter than every needle matches none of them. */
  lemma ShortTextMatchesNothing(text: string, needles: seq<string>)
    requires forall j :: 0 <= j < |needles| ==> |needles[j]| > |text|
    ensures !MatchesText(text, Some(needles))
  {
    MatchesTextIff(text, Some(needles));
    forall j | 0 <= j < |needles| ensures !Includes(Trim(Lower(text)), Lower(needles[j])) {
      LongNeedleAbsent(Trim(Lower(text)), Lower(needles[j]));
    }
  }

  /** The merge needles, in order. */
  const MergeNeedles := ["Merge pull request", "Confirm merge", "Squash and merge", "Rebase and merge"]

  lemma RegistryShape()
    ensures |Registry| == 2
    ensures Registry[0] == Trigger("github-pr-merged", ["https://github.com/*"], Some("enemy-felled"),
                                   Some(Detection(ButtonClick, Some(MergeNeedles), None, false)), "PR MERGED")
    ensures Registry[1] == Trigger("github-conflicts-detected", ["https://github.com/*"], Some("you-died"),
                                   Some(Detection(TextAppears, Some([ConflictNeedle]), None, false)), "CONFLICTS")
  {
  }

  /** A run of the registry is the merge trigger's step followed by the conflicts trigger's. */
  lemma RegistryRun(s: Session, env: Env)
    ensures Run(Registry, s, env) == TextStep(Registry[1], 1, ButtonStep(Registry[0], 0, s, env), env)
  {
    RegistryShape();
    assert RunFrom(Registry, 1, s, env) == ButtonStep(Registry[0], 0, s, env);
  }

  lemma ButtonStepOnEmptyPage(t: Trigger, k: nat, s: Session, env: Env)
    requires s.elements == []
    ensures ButtonStep(t, k, s, env) == s
  {
    if t.detection.Some? && t.detection.value.textMatch.Some? && |t.detection.value.textMatch.value| > 0 {
      assert WireAll(t, t.detection.value.textMatch.value, CheckPasses(t.detection.value, k, env), []) == [];
    }
  }

  /** On an empty session a firing `text_appears` trigger leaves exactly its
      latch and its one banner. */
  lemma TextFiresOnBlank(t: Trigger, k: nat, env: Env)
    requires t.detection.Some? && t.detection.value.textMatch.Some? && |t.detection.value.textMatch.value| > 0
    requires MatchesText(env.pageText, t.detection.value.textMatch)
    ensures TextStep(t, k, Blank, env) == Session([], {k}, [MakeBanner(t.bannerText, t.bannerStyle, env.prefs)], Some(0))
  {
    TextStepEffect(t, k, Blank, env);
  }

  lemma ConflictBannerIsRed(prefs: Prefs)
    ensures MakeBanner(Registry[1].bannerText, Registry[1].bannerStyle, prefs) ==
            BannerView("CONFLICTS", "banner-red", Truthy(prefs.soundEnabled))
  {
    RegistryShape();
    FixedStylesIgnorePreference(prefs.bannerColor, prefs.bannerColor);
  }

  /** The conflicts message shows the failure banner once, red whatever the
      colour preference, and sets the latch of the second trigger. */
  lemma ConflictsPageShowsOneBanner(prefs: Prefs)
    ensures Run(Registry, Blank, Env(ConflictPage, {}, {}, prefs)) ==
            Session([], {1}, [BannerView("CONFLICTS", "banner-red", Truthy(prefs.soundEnabled))], Some(0))
  {
    var env := Env(ConflictPage, {}, {}, prefs);
    RegistryRun(Blank, env);
    ButtonStepOnEmptyPage(Registry[0], 0, Blank, env);
    ConflictPageMatches();
    RegistryShape();
    TextFiresOnBlank(Registry[1], 1, env);
    ConflictBannerIsRed(prefs);
  }

  /** However many times the observer fires on that page, the banner is shown once. */
  lemma ConflictsBannerShownOnce(prefs: Prefs, n: nat)
    requires n >= 1
    ensures RunTimes(Registry, Blank, Env(ConflictPage, {}, {}, prefs), n) ==
            Session([], {1}, [BannerView("CONFLICTS", "banner-red", Truthy(prefs.soundEnabled))], Some(0))
  {
    RunTimesIsOneRun(Registry, Blank, Env(ConflictPage, {}, {}, prefs), n);
    ConflictsPageShowsOneBanner(prefs);
  }

  lemma ConfirmTrimmed()
    ensures Trim("Confirm merge") == "Confirm merge"
  {
    TrimKeeps("Confirm merge");
  }

  /** An element whose visible text is one of the needles, already trimmed, matches. */
  lemma OwnTextMatches(e: Element, needles: seq<string>, j: nat)
    requires j < |needles| && e.innerText == Some(needles[j]) && needles[j] != "" && Trim(needles[j]) == needles[j]
    ensures ElementMatches(e, needles)
  {
    NeedleIsText(needles[j], e.ariaLabel.GetOr(""), e.title.GetOr(""), needles, j);
  }

  lemma ConfirmButtonMatches()
    ensures ElementMatches(ConfirmButton, MergeNeedles)
  {
    assert MergeNeedles[1] == "Confirm merge" && ConfirmButton.innerText == Some(MergeNeedles[1]);
    assert Trim(MergeNeedles[1]) == MergeNeedles[1] by {
      ConfirmTrimmed();
    }
    OwnTextMatches(ConfirmButton, MergeNeedles, 1);
  }

  lemma ConfirmTextIsNoConflict()
    ensures !MatchesText("Confirm merge", Some([ConflictNeedle]))
  {
    ShortTextMatchesNothing("Confirm merge", [ConflictNeedle]);
  }

  /** On a page holding one matching, unmarked candidate the button step wires it. */
  lemma ButtonWiresSingle(t: Trigger, k: nat, e: Element, env: Env)
    requires t.detection.Some? && t.detection.value.textMatch.Some? && |t.detection.value.textMatch.value| > 0
    requires IsClickCandidate(e) && ClickMarker(t.id) !in e.markers
    requires ElementMatches(e, t.detection.value.textMatch.value) && CheckPasses(t.detection.value, k, env)
    ensures ButtonStep(t, k, Blank.(elements := [e]), env) ==
            Blank.(elements := [e.(markers := e.markers + {ClickMarker(t.id)},
                                   listeners := e.listeners + [ClickListener(t.id, t.bannerText, t.bannerStyle)])])
  {
    var d := t.detection.value;
    assert WireAll(t, d.textMatch.value, CheckPasses(d, k, env), [e]) == [WireOne(t, d.textMatch.value, CheckPasses(d, k, env), e)];
  }

  /** On a page with a "Confirm merge" button the merge trigger marks the button
      and attaches one listener carrying the merged banner; nothing is shown yet. */
  lemma MergeButtonIsWired(prefs: Prefs)
    ensures Run(Registry, Blank.(elements := [ConfirmButton]), Env("Confirm merge", {}, {}, prefs)) ==
            Blank.(elements := [ConfirmButton.(markers := {ClickMarker("github-pr-merged")},
                                               listeners := [ClickListener("github-pr-merged", "PR MERGED", Some("enemy-felled"))])])
  {
    var env := Env("Confirm merge", {}, {}, prefs);
    var s := Blank.(elements := [ConfirmButton]);
    var wired := ConfirmButton.(markers := {ClickMarker("github-pr-merged")},
                                listeners := [ClickListener("github-pr-merged", "PR MERGED", Some("enemy-felled"))]);
    var s1 := ButtonStep(Registry[0], 0, s, env);
    assert s1 == Blank.(elements := [wired]) by {
      RegistryShape();
      ConfirmButtonMatches();
      ButtonWiresSingle(Registry[0], 0, ConfirmButton, env);
      assert ConfirmButton.markers + {ClickMarker(Registry[0].id)} == {ClickMarker("github-pr-merged")};
      assert ConfirmButton.listeners + [ClickListener(Registry[0].id, Registry[0].bannerText, Registry[0].bannerStyle)] ==
             [ClickListener("github-pr-merged", "PR MERGED", Some("enemy-felled"))];
    }
    assert TextStep(Registry[1], 1, s1, env) == s1 by {
      RegistryShape();
      ConfirmTextIsNoConflict();
      TextStepEffect(Registry[1], 1, s1, env);
    }
    RegistryRun(s, env);
  }

  /** Clicking that button asks, half a second later, for the merged banner in
      the user's colour with the sound on. */
  lemma MergedBannerUnderDefaults()
    ensures MakeBanner("PR MERGED", Some("enemy-felled"), DefaultPrefs) == BannerView("PR MERGED", "banner-yellow", true)
  {
  }

  /** A `div[onclick]` around the button matches the merge trigger too, since its
      text is the button's, so both end up wired. One click on the button bubbles
      to the wrapper and starts two timers for the merged banner. */
  lemma NestedClickQueuesTwo()
    ensures var l := ClickListener("github-pr-merged", "PR MERGED", Some("enemy-felled"));
            var button := ConfirmButton.(markers := {ClickMarker("github-pr-merged")}, listeners := [l]);
            var wrapper := button.(tag := "div", hasOnclick := true);
            PathListeners([button, wrapper], [0, 1]) == [l, l] &&
            ListenerCount(PathListeners([button, wrapper], [0, 1]), "github-pr-merged") == 2
  {
    var l := ClickListener("github-pr-merged", "PR MERGED", Some("enemy-felled"));
    var button := ConfirmButton.(markers := {ClickMarker("github-pr-merged")}, listeners := [l]);
    var wrapper := button.(tag := "div", hasOnclick := true);
    assert [0, 1][1..] == [1];
    TargetOnlyPath([button, wrapper], 1);
    assert [l, l][..1] == [l];
    assert ListenerCount([l], "github-pr-merged") == 1 by { assert [l][..0] == []; }
  }
}

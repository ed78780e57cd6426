/**
 What one or several `processTriggers` runs guarantee: the exact effect of
 `element_appears` (one banner per newly seen element, invalid selectors
 skipped), at most one click listener per element and trigger, the one-shot
 `text_appears` latch, and that a run on an unchanged page changes nothing
 more than the first run did.
 */
module Dispatch {
  import opened Js
  import opened UrlMatch
  import opened TextMatch
  import opened Banner
  import opened Triggers

  // ---------------------------------------------------------------------------
  // Counting and repetition
  // ---------------------------------------------------------------------------

  lemma {:induction false} RepeatLength(b: BannerView, n: nat)
    ensures |Repeat(b, n)| == n
    ensures forall i :: 0 <= i < n ==> Repeat(b, n)[i] == b
  {
    if n > 0 { RepeatLength(b, n - 1); }
  }

  lemma {:induction false} RepeatAdd(b: BannerView, n1: nat, n2: nat)
    ensures Repeat(b, n1) + Repeat(b, n2) == Repeat(b, n1 + n2)
  {
    if n2 > 0 {
      RepeatAdd(b, n1, n2 - 1);
      assert Repeat(b, n1) + (Repeat(b, n2 - 1) + [b]) == (Repeat(b, n1) + Repeat(b, n2 - 1)) + [b];
    }
  }

  lemma ShowTimesAdd(s: Session, b: BannerView, n1: nat, n2: nat)
    ensures ShowTimes(ShowTimes(s, b, n1), b, n2) == ShowTimes(s, b, n1 + n2)
  {
    RepeatAdd(b, n1, n2);
    RepeatLength(b, n1);
    assert s.shown + Repeat(b, n1) + Repeat(b, n2) == s.shown + (Repeat(b, n1) + Repeat(b, n2));
  }

  lemma {:induction false} CountTrueNone(bs: seq<bool>)
    requires forall i :: 0 <= i < |bs| ==> !bs[i]
    ensures CountTrue(bs) == 0
  {
    if bs != [] { CountTrueNone(bs[..|bs| - 1]); }
  }

  /** Counting a disjoint union of two flag sequences adds the counts. */
  lemma {:induction false} CountTrueSum(a: seq<bool>, b: seq<bool>, c: seq<bool>)
    requires |a| == |b| == |c|
    requires forall i :: 0 <= i < |c| ==> c[i] == (a[i] || b[i]) && !(a[i] && b[i])
    ensures CountTrue(c) == CountTrue(a) + CountTrue(b)
  {
    if c != [] {
      var n := |c| - 1;
      CountTrueSum(a[..n], b[..n], c[..n]);
    }
  }

  // ---------------------------------------------------------------------------
  // Active triggers
  // ---------------------------------------------------------------------------

  /** `filter` keeps the registry's order and repetitions: a one-trigger
      registry keeps its trigger exactly when it matches, and the filter of a
      concatenation is the concatenation of the filters. */
  lemma {:induction false} ActiveTriggersFilter(a: seq<Trigger>, b: seq<Trigger>, url: string)
    ensures ActiveTriggers(a + b, url) == ActiveTriggers(a, url) + ActiveTriggers(b, url)
    ensures |a| == 1 ==> ActiveTriggers(a, url) == if MatchesUrl(url, a[0].urls) then a else []
  {
    if a == [] {
      assert a + b == b;
    } else {
      assert (a + b)[0] == a[0];
      assert (a + b)[1..] == a[1..] + b;
      ActiveTriggersFilter(a[1..], b, url);
      if |a| == 1 {
        assert a[1..] == [];
      }
    }
  }

  // ---------------------------------------------------------------------------
  // The banner slot
  // ---------------------------------------------------------------------------

  /** After `showBanner` exactly one banner is on the page, the new one; every
      earlier banner stays in the log and is no longer in the slot. */
  lemma ShowLeavesOnlyNewBanner(s: Session, b: BannerView)
    ensures var r := Show(s, b);
      && SlotValid(r)
      && r.current.Some? && r.shown[r.current.value] == b
      && r.shown[..|s.shown|] == s.shown
      && (forall j :: 0 <= j < |s.shown| ==> r.current != Some(j))
      && r.elements == s.elements && r.latched == s.latched
  {
    assert (s.shown + [b])[..|s.shown|] == s.shown;
  }

  // ---------------------------------------------------------------------------
  // element_appears in closed form
  // ---------------------------------------------------------------------------

  /** Some valid selector among the first `j` matches the element. */
  ghost predicate HitBy(sels: seq<string>, j: nat, invalid: set<string>, e: Element)
    requires j <= |sels|
  {
    exists m :: 0 <= m < j && sels[m] !in invalid && sels[m] in e.selectors
  }

  ghost function MarkHit(marker: string, sels: seq<string>, j: nat, invalid: set<string>, es: seq<Element>): (r: seq<Element>)
    requires j <= |sels|
    ensures |r| == |es|
  {
    seq(|es|, i requires 0 <= i < |es| =>
      if HitBy(sels, j, invalid, es[i]) then es[i].(markers := es[i].markers + {marker}) else es[i])
  }

  /** The elements that were not marked and that some valid selector matches. */
  ghost function FreshFlags(marker: string, sels: seq<string>, j: nat, invalid: set<string>, es: seq<Element>): (r: seq<bool>)
    requires j <= |sels|
    ensures |r| == |es|
  {
    seq(|es|, i requires 0 <= i < |es| => marker !in es[i].markers && HitBy(sels, j, invalid, es[i]))
  }

  ghost function SweepClosed(marker: string, sels: seq<string>, j: nat, s: Session, b: BannerView, invalid: set<string>): Session
    requires j <= |sels|
  {
    ShowTimes(s.(elements := MarkHit(marker, sels, j, invalid, s.elements)), b,
              CountTrue(FreshFlags(marker, sels, j, invalid, s.elements)))
  }

  lemma HitByStep(sels: seq<string>, j: nat, invalid: set<string>, e: Element)
    requires j < |sels|
    ensures HitBy(sels, j + 1, invalid, e) <==>
            HitBy(sels, j, invalid, e) || (sels[j] !in invalid && sels[j] in e.selectors)
  {
    if HitBy(sels, j + 1, invalid, e) && !(sels[j] !in invalid && sels[j] in e.selectors) {
      var m :| 0 <= m < j + 1 && sels[m] !in invalid && sels[m] in e.selectors;
      assert m < j;
    }
  }

  /** A valid selector marks what the earlier ones left unmarked. */
  lemma MarkAllStep(marker: string, sels: seq<string>, k: nat, invalid: set<string>, es: seq<Element>)
    requires k < |sels| && sels[k] !in invalid
    ensures MarkAll(marker, sels[k], MarkHit(marker, sels, k, invalid, es)) == MarkHit(marker, sels, k + 1, invalid, es)
  {
    var sel := sels[k];
    var marked := MarkHit(marker, sels, k, invalid, es);
    forall i | 0 <= i < |es|
      ensures MarkAll(marker, sel, marked)[i] == MarkHit(marker, sels, k + 1, invalid, es)[i]
    {
      var e := es[i];
      HitByStep(sels, k, invalid, e);
      if !HitBy(sels, k, invalid, e) && sel in e.selectors && marker in e.markers {
        assert e.markers + {marker} == e.markers;
      }
    }
  }

  /** The elements a valid selector newly marks are the fresh ones it adds. */
  lemma FreshStep(marker: string, sels: seq<string>, k: nat, invalid: set<string>, es: seq<Element>)
    requires k < |sels| && sels[k] !in invalid
    ensures CountTrue(FreshFlags(marker, sels, k + 1, invalid, es)) ==
            CountTrue(FreshFlags(marker, sels, k, invalid, es)) +
            CountTrue(UnseenFlags(marker, sels[k], MarkHit(marker, sels, k, invalid, es)))
  {
    var a := FreshFlags(marker, sels, k, invalid, es);
    var c := FreshFlags(marker, sels, k + 1, invalid, es);
    var u := UnseenFlags(marker, sels[k], MarkHit(marker, sels, k, invalid, es));
    forall i | 0 <= i < |es| ensures c[i] == (a[i] || u[i]) && !(a[i] && u[i]) {
      HitByStep(sels, k, invalid, es[i]);
    }
    CountTrueSum(a, u, c);
  }

  /** An invalid selector changes nothing. */
  lemma InvalidStep(marker: string, sels: seq<string>, k: nat, invalid: set<string>, es: seq<Element>)
    requires k < |sels| && sels[k] in invalid
    ensures MarkHit(marker, sels, k + 1, invalid, es) == MarkHit(marker, sels, k, invalid, es)
    ensures FreshFlags(marker, sels, k + 1, invalid, es) == FreshFlags(marker, sels, k, invalid, es)
  {
    forall i | 0 <= i < |es| ensures HitBy(sels, k + 1, invalid, es[i]) == HitBy(sels, k, invalid, es[i]) {
      HitByStep(sels, k, invalid, es[i]);
    }
  }

  lemma {:induction false} SweepFromClosed(marker: string, sels: seq<string>, j: nat, s: Session, b: BannerView, invalid: set<string>)
    requires j <= |sels|
    ensures SweepFrom(marker, sels, j, s, b, invalid) == SweepClosed(marker, sels, j, s, b, invalid)
  {
    var es := s.elements;
    if j == 0 {
      assert MarkHit(marker, sels, 0, invalid, es) == es;
      CountTrueNone(FreshFlags(marker, sels, 0, invalid, es));
    } else {
      var k := j - 1;
      SweepFromClosed(marker, sels, k, s, b, invalid);
      if sels[k] in invalid {
        InvalidStep(marker, sels, k, invalid, es);
      } else {
        var n1 := CountTrue(FreshFlags(marker, sels, k, invalid, es));
        var n2 := CountTrue(UnseenFlags(marker, sels[k], MarkHit(marker, sels, k, invalid, es)));
        MarkAllStep(marker, sels, k, invalid, es);
        FreshStep(marker, sels, k, invalid, es);
        ShowTimesAdd(s.(elements := MarkHit(marker, sels, j, invalid, es)), b, n1, n2);
      }
    }
  }

  /** `checkElementAppearsTrigger`: every element that a valid selector matches
      ends up marked, nothing else about any element changes, and exactly one
      banner is shown for each element that was unmarked and is matched by a
      valid selector, however many selectors match it. */
  lemma ElementStepEffect(t: Trigger, s: Session, env: Env)
    requires t.detection.Some? && t.detection.value.selectors.Some?
    ensures var sels := t.detection.value.selectors.value;
            var marker := SeenMarker(t.id);
            var r := ElementStep(t, s, env);
            var n := CountTrue(FreshFlags(marker, sels, |sels|, env.invalid, s.elements));
      && |r.elements| == |s.elements|
      && (forall i :: 0 <= i < |s.elements| ==>
            r.elements[i] == if HitBy(sels, |sels|, env.invalid, s.elements[i])
                             then s.elements[i].(markers := s.elements[i].markers + {marker})
                             else s.elements[i])
      && r.shown == s.shown + Repeat(MakeBanner(t.bannerText, t.bannerStyle, env.prefs), n)
      && r.latched == s.latched
      && r.current == (if n == 0 then s.current else Some(|r.shown| - 1))
  {
    var sels := t.detection.value.selectors.value;
    var b := MakeBanner(t.bannerText, t.bannerStyle, env.prefs);
    SweepFromClosed(SeenMarker(t.id), sels, |sels|, s, b, env.invalid);
    RepeatLength(b, CountTrue(FreshFlags(SeenMarker(t.id), sels, |sels|, env.invalid, s.elements)));
  }

  /** Elements that were already marked produce no banner: on a page where every
      matched element carries the marker the step changes nothing. */
  lemma ElementStepSkipsMarked(t: Trigger, s: Session, env: Env)
    requires t.detection.Some? && t.detection.value.selectors.Some?
    requires forall i :: 0 <= i < |s.elements| ==> SeenMarker(t.id) in s.elements[i].markers
    ensures ElementStep(t, s, env) == s
  {
    var sels := t.detection.value.selectors.value;
    var marker := SeenMarker(t.id);
    ElementStepEffect(t, s, env);
    CountTrueNone(FreshFlags(marker, sels, |sels|, env.invalid, s.elements));
    var r := ElementStep(t, s, env);
    forall i | 0 <= i < |s.elements| ensures r.elements[i] == s.elements[i] {
      assert s.elements[i].markers + {marker} == s.elements[i].markers;
    }
    assert r.elements == s.elements;
  }

  /** An invalid selector is skipped without affecting the others: dropping it
      from the list gives the same result. */
  lemma InvalidSelectorIsSkipped(t: Trigger, s: Session, env: Env, m: nat)
    requires t.detection.Some? && t.detection.value.selectors.Some?
    requires m < |t.detection.value.selectors.value|
    requires t.detection.value.selectors.value[m] in env.invalid
    ensures var sels := t.detection.value.selectors.value;
            var t' := t.(detection := Some(t.detection.value.(selectors := Some(sels[..m] + sels[m + 1..]))));
      ElementStep(t', s, env) == ElementStep(t, s, env)
  {
    var sels := t.detection.value.selectors.value;
    var sels' := sels[..m] + sels[m + 1..];
    var t' := t.(detection := Some(t.detection.value.(selectors := Some(sels'))));
    var marker := SeenMarker(t.id);
    forall e: Element ensures HitBy(sels, |sels|, env.invalid, e) == HitBy(sels', |sels'|, env.invalid, e) {
      if HitBy(sels, |sels|, env.invalid, e) {
        var q :| 0 <= q < |sels| && sels[q] !in env.invalid && sels[q] in e.selectors;
        if q < m { assert sels'[q] == sels[q]; } else { assert q > m && sels'[q - 1] == sels[q]; }
      }
      if HitBy(sels', |sels'|, env.invalid, e) {
        var q :| 0 <= q < |sels'| && sels'[q] !in env.invalid && sels'[q] in e.selectors;
        if q < m { assert sels'[q] == sels[q]; } else { assert sels'[q] == sels[q + 1]; }
      }
    }
    SweepFromClosed(marker, sels, |sels|, s, MakeBanner(t.bannerText, t.bannerStyle, env.prefs), env.invalid);
    SweepFromClosed(marker, sels', |sels'|, s, MakeBanner(t.bannerText, t.bannerStyle, env.prefs), env.invalid);
    assert MarkHit(marker, sels, |sels|, env.invalid, s.elements) == MarkHit(marker, sels', |sels'|, env.invalid, s.elements);
    assert FreshFlags(marker, sels, |sels|, env.invalid, s.elements) == FreshFlags(marker, sels', |sels'|, env.invalid, s.elements);
  }

  // ---------------------------------------------------------------------------
  // The slot holds the latest banner throughout a run
  // ---------------------------------------------------------------------------

  lemma ShowTimesKeepsSlotValid(s: Session, b: BannerView, n: nat)
    requires SlotValid(s)
    ensures SlotValid(ShowTimes(s, b, n)) && ShowTimes(s, b, n).shown[..|s.shown|] == s.shown
  {
    RepeatLength(b, n);
  }

  lemma {:induction false} SweepFromKeepsSlotValid(marker: string, sels: seq<string>, j: nat, s: Session, b: BannerView, invalid: set<string>)
    requires j <= |sels| && SlotValid(s)
    ensures SlotValid(SweepFrom(marker, sels, j, s, b, invalid))
  {
    if j > 0 {
      var p := SweepFrom(marker, sels, j - 1, s, b, invalid);
      SweepFromKeepsSlotValid(marker, sels, j - 1, s, b, invalid);
      if sels[j - 1] !in invalid {
        ShowTimesKeepsSlotValid(p.(elements := MarkAll(marker, sels[j - 1], p.elements)), b,
                                CountTrue(UnseenFlags(marker, sels[j - 1], p.elements)));
      }
    }
  }

  lemma StepKeepsSlotValid(active: seq<Trigger>, k: nat, s: Session, env: Env)
    requires k < |active| && SlotValid(s)
    ensures SlotValid(RunTrigger(active, k, s, env))
  {
    var t := active[k];
    if t.detection.Some? && t.detection.value.kind == ElementAppears && t.detection.value.selectors.Some? {
      var sels := t.detection.value.selectors.value;
      SweepFromKeepsSlotValid(SeenMarker(t.id), sels, |sels|, s, MakeBanner(t.bannerText, t.bannerStyle, env.prefs), env.invalid);
    }
  }

  lemma {:induction false} RunFromKeepsSlotValid(active: seq<Trigger>, n: nat, s: Session, env: Env)
    requires n <= |active| && SlotValid(s)
    ensures SlotValid(RunFrom(active, n, s, env))
  {
    if n > 0 {
      RunFromKeepsSlotValid(active, n - 1, s, env);
      StepKeepsSlotValid(active, n - 1, RunFrom(active, n - 1, s, env), env);
    }
  }

  /** Whatever a run shows, the slot afterwards holds the last banner shown, if any. */
  lemma RunKeepsSlotValid(active: seq<Trigger>, s: Session, env: Env)
    requires SlotValid(s)
    ensures SlotValid(Run(active, s, env))
  {
    RunFromKeepsSlotValid(active, |active|, s, env);
  }

  // ---------------------------------------------------------------------------
  // The element test of button_click
  // ---------------------------------------------------------------------------

  /** An element matches exactly when some needle, lower-cased, is in the lower-cased
      trimmed `innerText || textContent`, `aria-label` or `title`. */
  lemma ElementMatchesIff(e: Element, needles: seq<string>)
    ensures ElementMatches(e, needles) <==>
      exists j :: 0 <= j < |needles| &&
        NeedleOnElement(Trim(FirstNonEmpty(e.innerText, e.textContent)), e.ariaLabel.GetOr(""), e.title.GetOr(""), needles[j])
  {
    AnyNeedleOnElementIff(Trim(FirstNonEmpty(e.innerText, e.textContent)), e.ariaLabel.GetOr(""), e.title.GetOr(""), needles);
  }

  // ---------------------------------------------------------------------------
  // button_click: a listener is wired at most once per element and trigger
  // ---------------------------------------------------------------------------

  function ListenerCount(ls: seq<Listener>, id: string): nat {
    if ls == [] then 0 else ListenerCount(ls[..|ls| - 1], id) + (if ls[|ls| - 1].triggerId == id then 1 else 0)
  }

  /** An element carries a listener for a trigger only if it carries that
      trigger's marker, and then only one. */
  ghost predicate WiredOnce(e: Element) {
    forall id :: ListenerCount(e.listeners, id) <= (if ClickMarker(id) in e.markers then 1 else 0)
  }

  ghost predicate AllWiredOnce(s: Session) {
    forall i :: 0 <= i < |s.elements| ==> WiredOnce(s.elements[i])
  }

  lemma WireOneKeepsWiredOnce(t: Trigger, needles: seq<string>, ok: bool, e: Element)
    requires WiredOnce(e)
    ensures WiredOnce(WireOne(t, needles, ok, e))
  {
    var e' := WireOne(t, needles, ok, e);
    if e' != e {
      var l := ClickListener(t.id, t.bannerText, t.bannerStyle);
      assert (e.listeners + [l])[..|e.listeners|] == e.listeners;
      forall id ensures ListenerCount(e'.listeners, id) <= (if ClickMarker(id) in e'.markers then 1 else 0) {
        assert ListenerCount(e'.listeners, id) == ListenerCount(e.listeners, id) + (if t.id == id then 1 else 0);
      }
    }
  }

  lemma {:induction false} ListenerCountPositive(ls: seq<Listener>, a: nat)
    requires a < |ls|
    ensures ListenerCount(ls, ls[a].triggerId) >= 1
  {
    if a < |ls| - 1 {
      ListenerCountPositive(ls[..|ls| - 1], a);
    }
  }

  lemma {:induction false} ListenerCountTwo(ls: seq<Listener>, a: nat, b: nat)
    requires a < b < |ls| && ls[a].triggerId == ls[b].triggerId
    ensures ListenerCount(ls, ls[a].triggerId) >= 2
  {
    var init := ls[..|ls| - 1];
    if b == |ls| - 1 {
      ListenerCountPositive(init, a);
    } else {
      ListenerCountTwo(init, a, b);
    }
  }

  /** On an element wired at most once, no two listeners belong to the same
      trigger: a click shows each trigger's banner at most once. */
  lemma WiredOnceDistinct(e: Element)
    requires WiredOnce(e)
    ensures forall a, b :: 0 <= a < b < |e.listeners| ==> e.listeners[a].triggerId != e.listeners[b].triggerId
  {
    forall a, b | 0 <= a < b < |e.listeners| ensures e.listeners[a].triggerId != e.listeners[b].triggerId {
      if e.listeners[a].triggerId == e.listeners[b].triggerId {
        ListenerCountTwo(e.listeners, a, b);
      }
    }
  }

  // ---------------------------------------------------------------------------
  // A click and its propagation path
  // ---------------------------------------------------------------------------

  /** The listeners one click runs, in the order the event reaches them: the
      target first, then each ancestor it bubbles through. `path` lists those
      elements by index. */
  function PathListeners(elements: seq<Element>, path: seq<nat>): (r: seq<Listener>)
    requires forall k :: 0 <= k < |path| ==> path[k] < |elements|
    decreases |path|
  {
    if path == [] then [] else elements[path[0]].listeners + PathListeners(elements, path[1..])
  }

  /** How many elements on the path carry the click marker of trigger `id`. */
  function MarkedOnPath(elements: seq<Element>, path: seq<nat>, id: string): nat
    requires forall k :: 0 <= k < |path| ==> path[k] < |elements|
    decreases |path|
  {
    if path == [] then 0
    else (if ClickMarker(id) in elements[path[0]].markers then 1 else 0) + MarkedOnPath(elements, path[1..], id)
  }

  lemma {:induction false} ListenerCountAppend(a: seq<Listener>, b: seq<Listener>, id: string)
    ensures ListenerCount(a + b, id) == ListenerCount(a, id) + ListenerCount(b, id)
    decreases |b|
  {
    if b != [] {
      assert (a + b)[..|a + b| - 1] == a + b[..|b| - 1];
      ListenerCountAppend(a, b[..|b| - 1], id);
    } else {
      assert a + b == a;
    }
  }

  /** A click on a single element runs exactly that element's listeners. */
  lemma TargetOnlyPath(elements: seq<Element>, i: nat)
    requires i < |elements|
    ensures PathListeners(elements, [i]) == elements[i].listeners
  {
    assert PathListeners(elements, [i]) == elements[i].listeners + PathListeners(elements, []);
  }

  /** Bubbling through `p` and then `q` runs `p`'s listeners, then `q`'s. */
  lemma {:induction false} PathListenersAppend(elements: seq<Element>, p: seq<nat>, q: seq<nat>)
    requires forall k :: 0 <= k < |p| ==> p[k] < |elements|
    requires forall k :: 0 <= k < |q| ==> q[k] < |elements|
    ensures PathListeners(elements, p + q) == PathListeners(elements, p) + PathListeners(elements, q)
    decreases |p|
  {
    if p == [] {
      assert p + q == q;
    } else {
      assert (p + q)[1..] == p[1..] + q;
      PathListenersAppend(elements, p[1..], q);
    }
  }

  /** On a page wired at most once, one click starts at most one timer per trigger
      and element on its path that carries the trigger's marker: a target and a
      wired ancestor both start one. */
  lemma {:induction false} PathListenerBound(s: Session, path: seq<nat>, id: string)
    requires forall k :: 0 <= k < |path| ==> path[k] < |s.elements|
    requires AllWiredOnce(s)
    ensures ListenerCount(PathListeners(s.elements, path), id) <= MarkedOnPath(s.elements, path, id)
    decreases |path|
  {
    if path != [] {
      var e := s.elements[path[0]];
      assert WiredOnce(e);
      ListenerCountAppend(e.listeners, PathListeners(s.elements, path[1..]), id);
      PathListenerBound(s, path[1..], id);
    }
  }

  /** `setupButtonClickTrigger` on one element: an element already marked is
      skipped; otherwise a marker and one listener are added exactly when it is a
      candidate, its text, `aria-label` or `title` matches and `additionalCheck`
      passes, and every other element is left as it was. */
  lemma ButtonStepEffect(t: Trigger, k: nat, s: Session, env: Env, i: nat)
    requires t.detection.Some? && t.detection.value.textMatch.Some? && |t.detection.value.textMatch.value| > 0
    requires i < |s.elements|
    ensures var d := t.detection.value;
            var e := s.elements[i];
            var e' := ButtonStep(t, k, s, env).elements[i];
      && (e' != e <==> IsClickCandidate(e) && ClickMarker(t.id) !in e.markers &&
                       ElementMatches(e, d.textMatch.value) && CheckPasses(d, k, env))
      && (e' != e ==> e' == e.(markers := e.markers + {ClickMarker(t.id)},
                               listeners := e.listeners + [ClickListener(t.id, t.bannerText, t.bannerStyle)]))
  {
    var e := s.elements[i];
    var e' := ButtonStep(t, k, s, env).elements[i];
    if IsClickCandidate(e) && ClickMarker(t.id) !in e.markers &&
       ElementMatches(e, t.detection.value.textMatch.value) && CheckPasses(t.detection.value, k, env) {
      assert ClickMarker(t.id) in e'.markers;
    }
  }

  /** The `selectors` of a `button_click` trigger are never consulted. */
  lemma ButtonIgnoresSelectors(t: Trigger, k: nat, s: Session, env: Env, sels: Option<seq<string>>)
    requires t.detection.Some?
    ensures ButtonStep(t.(detection := Some(t.detection.value.(selectors := sels))), k, s, env) == ButtonStep(t, k, s, env)
  {
  }

  lemma StepKeepsWiredOnce(active: seq<Trigger>, k: nat, s: Session, env: Env)
    requires k < |active| && AllWiredOnce(s)
    ensures AllWiredOnce(RunTrigger(active, k, s, env))
  {
    var t := active[k];
    var r := RunTrigger(active, k, s, env);
    if t.detection.Some? {
      var d := t.detection.value;
      match d.kind {
        case ButtonClick =>
          if d.textMatch.Some? && |d.textMatch.value| > 0 {
            forall i | 0 <= i < |r.elements| ensures WiredOnce(r.elements[i]) {
              WireOneKeepsWiredOnce(t, d.textMatch.value, CheckPasses(d, k, env), s.elements[i]);
            }
          }
        case TextAppears =>
        case ElementAppears =>
          if d.selectors.Some? {
            ElementStepEffect(t, s, env);
            forall i | 0 <= i < |r.elements| ensures WiredOnce(r.elements[i]) {
              assert WiredOnce(s.elements[i]);
            }
          }
        case Unrecognized =>
      }
    }
  }

  lemma {:induction false} RunFromKeepsWiredOnce(active: seq<Trigger>, n: nat, s: Session, env: Env)
    requires n <= |active| && AllWiredOnce(s)
    ensures AllWiredOnce(RunFrom(active, n, s, env))
  {
    if n > 0 {
      RunFromKeepsWiredOnce(active, n - 1, s, env);
      StepKeepsWiredOnce(active, n - 1, RunFrom(active, n - 1, s, env), env);
    }
  }

  /** However often `processTriggers` runs, and whatever the page does in between
      short of stripping the markers, no element gets a second listener for the
      same trigger, as long as every trigger id makes a marker attribute name
      that `setAttribute` accepts as it is. */
  lemma RunKeepsWiredOnce(active: seq<Trigger>, s: Session, env: Env)
    requires MarkerSafe(active) && AllWiredOnce(s)
    ensures AllWiredOnce(Run(active, s, env))
  {
    RunFromKeepsWiredOnce(active, |active|, s, env);
  }

  // ---------------------------------------------------------------------------
  // text_appears: the one-shot latch
  // ---------------------------------------------------------------------------

  /** `checkTextAppearsTrigger`: a trigger with no `textMatch` never fires; a
      latched one never fires again; an unlatched one fires immediately, once,
      exactly when the page text matches, and the firing sets its latch. */
  lemma TextStepEffect(t: Trigger, k: nat, s: Session, env: Env)
    requires t.detection.Some?
    ensures var d := t.detection.value;
            var r := TextStep(t, k, s, env);
            var fires := d.textMatch.Some? && |d.textMatch.value| > 0 && k !in s.latched &&
                         MatchesText(env.pageText, d.textMatch);
      && r.elements == s.elements
      && (fires ==> r.latched == s.latched + {k} &&
                    r.shown == s.shown + [MakeBanner(t.bannerText, t.bannerStyle, env.prefs)] &&
                    r.current == Some(|s.shown|))
      && (!fires ==> r == s)
  {
  }

  /** A trigger with an empty or absent `textMatch` never fires, whatever the page says. */
  lemma EmptyTextMatchNeverFires(t: Trigger, k: nat, s: Session, env: Env)
    requires t.detection.Some?
    requires t.detection.value.textMatch.None? || t.detection.value.textMatch == Some([])
    ensures TextStep(t, k, s, env) == s
  {
  }

  lemma StepKeepsLatches(active: seq<Trigger>, k: nat, s: Session, env: Env)
    requires k < |active|
    ensures s.latched <= RunTrigger(active, k, s, env).latched
  {
    var t := active[k];
    if t.detection.Some? && t.detection.value.kind == ElementAppears && t.detection.value.selectors.Some? {
      ElementStepEffect(t, s, env);
    }
  }

  lemma {:induction false} RunFromKeepsLatches(active: seq<Trigger>, n: nat, s: Session, env: Env)
    requires n <= |active|
    ensures s.latched <= RunFrom(active, n, s, env).latched
  {
    if n > 0 {
      RunFromKeepsLatches(active, n - 1, s, env);
      StepKeepsLatches(active, n - 1, RunFrom(active, n - 1, s, env), env);
    }
  }

  /** The active list with trigger `k` switched off. */
  function Disabled(active: seq<Trigger>, k: nat): seq<Trigger>
    requires k < |active|
  {
    active[k := active[k].(detection := None)]
  }

  lemma {:induction false} LatchedRunFrom(active: seq<Trigger>, k: nat, n: nat, s: Session, env: Env)
    requires k < |active| && n <= |active|
    requires active[k].detection.Some? && active[k].detection.value.kind == TextAppears
    requires k in s.latched
    ensures RunFrom(active, n, s, env) == RunFrom(Disabled(active, k), n, s, env)
  {
    if n > 0 {
      LatchedRunFrom(active, k, n - 1, s, env);
      var prev := RunFrom(active, n - 1, s, env);
      if n - 1 == k {
        RunFromKeepsLatches(active, n - 1, s, env);
        assert k in prev.latched;
      }
    }
  }

  /** Once its latch is set, a `text_appears` trigger contributes nothing to any
      later run: the run is the same as with that trigger removed. */
  lemma LatchedTriggerIsInert(active: seq<Trigger>, k: nat, s: Session, env: Env)
    requires k < |active|
    requires active[k].detection.Some? && active[k].detection.value.kind == TextAppears
    requires k in s.latched
    ensures Run(active, s, env) == Run(Disabled(active, k), s, env)
  {
    LatchedRunFrom(active, k, |active|, s, env);
  }

  // ---------------------------------------------------------------------------
  // A run on an unchanged page changes nothing more
  // ---------------------------------------------------------------------------

  /** `e2` is `e1` with possibly more markers and listeners. */
  predicate Extends(e1: Element, e2: Element) {
    e2 == e1.(markers := e2.markers, listeners := e2.listeners) && e1.markers <= e2.markers
  }

  predicate Grows(s1: Session, s2: Session) {
    && |s2.elements| == |s1.elements|
    && (forall i :: 0 <= i < |s1.elements| ==> Extends(s1.elements[i], s2.elements[i]))
    && s1.latched <= s2.latched
  }

  /** Every candidate that matches (and passes the check) carries the marker. */
  ghost predicate ButtonSettled(t: Trigger, needles: seq<string>, ok: bool, es: seq<Element>) {
    forall i :: 0 <= i < |es| ==>
      (IsClickCandidate(es[i]) && ElementMatches(es[i], needles) && ok) ==> ClickMarker(t.id) in es[i].markers
  }

  /** Every element that a valid selector matches carries the marker. */
  ghost predicate ElementSettled(marker: string, sels: seq<string>, invalid: set<string>, es: seq<Element>) {
    forall i :: 0 <= i < |es| ==> HitBy(sels, |sels|, invalid, es[i]) ==> marker in es[i].markers
  }

  /** Trigger `k` has nothing left to do. */
  ghost predicate Settled(active: seq<Trigger>, k: nat, s: Session, env: Env)
    requires k < |active|
  {
    var t := active[k];
    match t.detection
    case None => true
    case Some(d) =>
      match d.kind
      case ButtonClick =>
        d.textMatch.None? || |d.textMatch.value| == 0 ||
        ButtonSettled(t, d.textMatch.value, CheckPasses(d, k, env), s.elements)
      case TextAppears =>
        d.textMatch.None? || |d.textMatch.value| == 0 || k in s.latched || !MatchesText(env.pageText, d.textMatch)
      case ElementAppears =>
        d.selectors.None? || ElementSettled(SeenMarker(t.id), d.selectors.value, env.invalid, s.elements)
      case Unrecognized => true
  }

  lemma StepGrows(active: seq<Trigger>, k: nat, s: Session, env: Env)
    requires k < |active|
    ensures Grows(s, RunTrigger(active, k, s, env))
  {
    var t := active[k];
    if t.detection.Some? && t.detection.value.kind == ElementAppears && t.detection.value.selectors.Some? {
      ElementStepEffect(t, s, env);
    }
  }

  lemma WireAllSettles(t: Trigger, needles: seq<string>, ok: bool, es: seq<Element>)
    ensures ButtonSettled(t, needles, ok, WireAll(t, needles, ok, es))
  {
    var r := WireAll(t, needles, ok, es);
    forall i | 0 <= i < |es|
      ensures (IsClickCandidate(r[i]) && ElementMatches(r[i], needles) && ok) ==> ClickMarker(t.id) in r[i].markers
    {
      var e := es[i];
      if IsClickCandidate(e) && ClickMarker(t.id) !in e.markers && ElementMatches(e, needles) && ok {
        assert ClickMarker(t.id) in r[i].markers;
      } else {
        assert r[i] == e;
      }
    }
  }

  lemma ElementStepSettles(t: Trigger, s: Session, env: Env)
    requires t.detection.Some? && t.detection.value.selectors.Some?
    ensures ElementSettled(SeenMarker(t.id), t.detection.value.selectors.value, env.invalid, ElementStep(t, s, env).elements)
  {
    var sels := t.detection.value.selectors.value;
    var r := ElementStep(t, s, env);
    ElementStepEffect(t, s, env);
    forall i | 0 <= i < |r.elements| && HitBy(sels, |sels|, env.invalid, r.elements[i])
      ensures SeenMarker(t.id) in r.elements[i].markers
    {
      var m :| 0 <= m < |sels| && sels[m] !in env.invalid && sels[m] in r.elements[i].selectors;
      assert r.elements[i].selectors == s.elements[i].selectors;
      assert HitBy(sels, |sels|, env.invalid, s.elements[i]);
    }
  }

  lemma StepSettles(active: seq<Trigger>, k: nat, s: Session, env: Env)
    requires k < |active|
    ensures Settled(active, k, RunTrigger(active, k, s, env), env)
  {
    var t := active[k];
    if t.detection.Some? {
      var d := t.detection.value;
      match d.kind {
        case ButtonClick =>
          if d.textMatch.Some? && |d.textMatch.value| > 0 {
            WireAllSettles(t, d.textMatch.value, CheckPasses(d, k, env), s.elements);
          }
        case TextAppears =>
        case ElementAppears =>
          if d.selectors.Some? {
            ElementStepSettles(t, s, env);
          }
        case Unrecognized =>
      }
    }
  }

  lemma SettledIsNoop(active: seq<Trigger>, k: nat, s: Session, env: Env)
    requires k < |active| && Settled(active, k, s, env)
    ensures RunTrigger(active, k, s, env) == s
  {
    var t := active[k];
    if t.detection.Some? {
      var d := t.detection.value;
      match d.kind {
        case ButtonClick =>
          if d.textMatch.Some? && |d.textMatch.value| > 0 {
            assert WireAll(t, d.textMatch.value, CheckPasses(d, k, env), s.elements) == s.elements;
          }
        case TextAppears =>
        case ElementAppears =>
          if d.selectors.Some? {
            var sels := d.selectors.value;
            var marker := SeenMarker(t.id);
            ElementStepEffect(t, s, env);
            CountTrueNone(FreshFlags(marker, sels, |sels|, env.invalid, s.elements));
            var r := ElementStep(t, s, env);
            forall i | 0 <= i < |s.elements| ensures r.elements[i] == s.elements[i] {
              if HitBy(sels, |sels|, env.invalid, s.elements[i]) {
                assert s.elements[i].markers + {marker} == s.elements[i].markers;
              }
            }
            assert r.elements == s.elements;
          }
        case Unrecognized =>
      }
    }
  }

  lemma SettledMonotone(active: seq<Trigger>, k: nat, s1: Session, s2: Session, env: Env)
    requires k < |active| && Settled(active, k, s1, env) && Grows(s1, s2)
    ensures Settled(active, k, s2, env)
  {
    var t := active[k];
    if t.detection.Some? && t.detection.value.kind == ElementAppears && t.detection.value.selectors.Some? {
      var sels := t.detection.value.selectors.value;
      forall i | 0 <= i < |s2.elements| && HitBy(sels, |sels|, env.invalid, s2.elements[i])
        ensures SeenMarker(t.id) in s2.elements[i].markers
      {
        assert s2.elements[i].selectors == s1.elements[i].selectors;
        var m :| 0 <= m < |sels| && sels[m] !in env.invalid && sels[m] in s2.elements[i].selectors;
        assert HitBy(sels, |sels|, env.invalid, s1.elements[i]);
      }
    }
    if t.detection.Some? && t.detection.value.kind == ButtonClick {
      forall i | 0 <= i < |s2.elements| ensures s2.elements[i] == s1.elements[i].(markers := s2.elements[i].markers, listeners := s2.elements[i].listeners) {
        assert Extends(s1.elements[i], s2.elements[i]);
      }
    }
  }

  lemma GrowsTransitive(s1: Session, s2: Session, s3: Session)
    requires Grows(s1, s2) && Grows(s2, s3)
    ensures Grows(s1, s3)
  {
    forall i | 0 <= i < |s1.elements| ensures Extends(s1.elements[i], s3.elements[i]) {
      assert Extends(s1.elements[i], s2.elements[i]);
      assert Extends(s2.elements[i], s3.elements[i]);
    }
  }

  lemma {:induction false} RunFromSettles(active: seq<Trigger>, n: nat, s: Session, env: Env)
    requires n <= |active|
    ensures Grows(s, RunFrom(active, n, s, env))
    ensures forall k :: 0 <= k < n ==> Settled(active, k, RunFrom(active, n, s, env), env)
  {
    if n > 0 {
      RunFromSettles(active, n - 1, s, env);
      var prev := RunFrom(active, n - 1, s, env);
      var next := RunTrigger(active, n - 1, prev, env);
      StepGrows(active, n - 1, prev, env);
      GrowsTransitive(s, prev, next);
      StepSettles(active, n - 1, prev, env);
      forall k | 0 <= k < n - 1 ensures Settled(active, k, next, env) {
        SettledMonotone(active, k, prev, next, env);
      }
    }
  }

  lemma {:induction false} SettledRunFromIsNoop(active: seq<Trigger>, n: nat, s: Session, env: Env)
    requires n <= |active|
    requires forall k :: 0 <= k < n ==> Settled(active, k, s, env)
    ensures RunFrom(active, n, s, env) == s
  {
    if n > 0 {
      SettledRunFromIsNoop(active, n - 1, s, env);
      SettledIsNoop(active, n - 1, s, env);
    }
  }

  /** `processTriggers` is idempotent: run again on a page that did not change,
      it wires no listener, sets no latch, marks no element and shows no banner. */
  lemma RunIdempotent(active: seq<Trigger>, s: Session, env: Env)
    ensures Run(active, Run(active, s, env), env) == Run(active, s, env)
  {
    RunFromSettles(active, |active|, s, env);
    SettledRunFromIsNoop(active, |active|, Run(active, s, env), env);
  }

  /** `n` further observer callbacks on an unchanged page. */
  function RunTimes(active: seq<Trigger>, s: Session, env: Env, n: nat): Session {
    if n == 0 then s else Run(active, RunTimes(active, s, env, n - 1), env)
  }

  lemma {:induction false} RunTimesIsOneRun(active: seq<Trigger>, s: Session, env: Env, n: nat)
    requires n >= 1
    ensures RunTimes(active, s, env, n) == Run(active, s, env)
  {
    if n > 1 {
      RunTimesIsOneRun(active, s, env, n - 1);
      RunIdempotent(active, s, env);
    }
  }
}

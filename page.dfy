/**
 The content script running in one tab, as an object: the page's elements and
 body text, the active triggers and their latches, the banner slot and the log
 of banners shown, the click timers still pending, and the two cached
 preferences. Each handler is a method that changes these fields step by step
 and is proved to do what the pure step function of the same name says.
 */
module Page {
  import opened Js
  import opened TextMatch
  import opened Banner
  import opened Triggers
  import opened Dispatch

  /** The session after a selector has visited the first `i` elements. */
  function SweepPrefix(marker: string, sel: string, s: Session, b: BannerView, i: nat): Session
    requires i <= |s.elements|
  {
    ShowTimes(s.(elements := MarkAll(marker, sel, s.elements[..i]) + s.elements[i..]), b,
              CountTrue(UnseenFlags(marker, sel, s.elements[..i])))
  }

  lemma SweepPrefixStep(marker: string, sel: string, s: Session, b: BannerView, i: nat)
    requires i < |s.elements|
    ensures var p := SweepPrefix(marker, sel, s, b, i);
            var e := s.elements[i];
      && p.elements[i] == e
      && SweepPrefix(marker, sel, s, b, i + 1) ==
         if Unseen(marker, sel, e) then Show(p.(elements := p.elements[i := e.(markers := e.markers + {marker})]), b)
         else p
  {
    var es := s.elements;
    var n := CountTrue(UnseenFlags(marker, sel, es[..i]));
    assert MarkAll(marker, sel, es[..i + 1]) == MarkAll(marker, sel, es[..i]) + [MarkIfUnseen(marker, sel, es[i])];
    assert UnseenFlags(marker, sel, es[..i + 1]) == UnseenFlags(marker, sel, es[..i]) + [Unseen(marker, sel, es[i])];
    assert (UnseenFlags(marker, sel, es[..i]) + [Unseen(marker, sel, es[i])])[..i] == UnseenFlags(marker, sel, es[..i]);
    assert MarkAll(marker, sel, es[..i + 1]) + es[i + 1..] ==
           (MarkAll(marker, sel, es[..i]) + es[i..])[i := MarkIfUnseen(marker, sel, es[i])];
    RepeatLength(b, n);
  }

  lemma SweepPrefixAll(marker: string, sel: string, s: Session, b: BannerView)
    ensures SweepPrefix(marker, sel, s, b, |s.elements|) == SweepOne(marker, sel, s, b, {})
  {
    assert s.elements[..|s.elements|] == s.elements;
    assert s.elements[|s.elements|..] == [];
  }

  /** Only `button_click` consults the `additionalCheck` results. */
  lemma IgnoresPassing(t: Trigger, k: nat, s: Session, env: Env, passing: set<nat>)
    ensures TextStep(t, k, s, env) == TextStep(t, k, s, env.(passing := passing))
    ensures ElementStep(t, s, env) == ElementStep(t, s, env.(passing := passing))
  {
  }

  class Page {
    /** `TRIGGERS.filter(t => matchesUrl(t.urls))`, fixed when the script starts. */
    const active: seq<Trigger>
    /** The selector strings `querySelectorAll` rejects. */
    const invalid: set<string>

    var elements: seq<Element>
    var bodyInnerText: Option<string>
    var bodyTextContent: Option<string>
    /** Indices into `active` of the `text_appears` triggers whose `_triggered` flag is set. */
    var latched: set<nat>
    var shown: seq<BannerView>
    var current: Option<nat>
    /** The click listeners whose 500 ms timer has not fired yet, oldest first. */
    var pending: seq<Listener>
    var soundEnabled: JsValue
    var bannerColor: JsValue

    function State(): Session
      reads this
    {
      Session(elements, latched, shown, current)
    }

    function Preferences(): Prefs
      reads this
    {
      Prefs(soundEnabled, bannerColor)
    }

    /** `document.body.innerText || document.body.textContent || ''`. */
    function PageText(): string
      reads this
    {
      FirstNonEmpty(bodyInnerText, bodyTextContent)
    }

    function EnvFor(passing: set<nat>): Env
      reads this
    {
      Env(PageText(), passing, invalid, Preferences())
    }

    /** The class invariant: the banner slot holds the latest banner shown, if any. */
    predicate Valid()
      reads this
    {
      SlotValid(State())
    }

    /** The script observes the page only when some trigger is active. */
    predicate Observing()
      reads this
    {
      |active| > 0
    }

    /** `setupTriggerObservers` on a page that is ready: the preferences still
        hold their initial values (the storage read has not answered yet), and
        one `processTriggers` runs when some trigger is active. `passing` is
        the set of active triggers whose `additionalCheck` passes now. */
    constructor (registry: seq<Trigger>, url: string, invalid: set<string>, es: seq<Element>,
                 inner: Option<string>, text: Option<string>, passing: set<nat>)
      ensures active == ActiveTriggers(registry, url) && this.invalid == invalid
      ensures bodyInnerText == inner && bodyTextContent == text
      ensures Preferences() == DefaultPrefs && pending == []
      ensures Valid()
      ensures State() == if |active| > 0
                         then Run(active, Session(es, {}, [], None), Env(FirstNonEmpty(inner, text), passing, invalid, DefaultPrefs))
                         else Session(es, {}, [], None)
    {
      active := ActiveTriggers(registry, url);
      this.invalid := invalid;
      elements := es;
      bodyInnerText := inner;
      bodyTextContent := text;
      latched := {};
      shown := [];
      current := None;
      pending := [];
      soundEnabled := Bool(true);
      bannerColor := Str("yellow");
      new;
      if |active| > 0 {
        ProcessTriggers(passing);
      }
    }

    /** `showBanner(text, style)`: the banner on the page, if any, is removed and
        the new one, built under the current preferences, takes the slot. */
    method ShowBanner(text: string, style: Option<string>)
      modifies this`shown, this`current
      ensures State() == Show(old(State()), MakeBanner(text, style, Preferences()))
      ensures Valid()
    {
      var colorClass := "banner-";
      if style == Some("you-died") {
        colorClass := colorClass + "red";
      } else if style == Some("grace") {
        colorClass := colorClass + "blue";
      } else {
        colorClass := colorClass + ToStr(bannerColor);
      }
      current := Some(|shown|);
      shown := shown + [BannerView(text, colorClass, Truthy(soundEnabled))];
    }

    /** The removal timer of the banner at `serial` in the log fires: it removes
        that banner node, which is a no-op once a later banner has replaced it. */
    method ExpireBanner(serial: nat)
      requires Valid()
      modifies this`current
      ensures current == if old(current) == Some(serial) then None else old(current)
      ensures Valid()
    {
      if current == Some(serial) {
        current := None;
      }
    }

    /** The `forEach` callback of `setupButtonClickTrigger` on element `i`: an
        unmarked candidate whose text matches and whose check passes gets the
        listener and the marker. */
    method WireElement(i: nat, t: Trigger, needles: seq<string>, ok: bool)
      requires i < |elements|
      modifies this`elements
      ensures elements == old(elements)[i := WireOne(t, needles, ok, old(elements)[i])]
    {
      var e := elements[i];
      var marker := ClickMarker(t.id);
      if IsClickCandidate(e) && marker !in e.markers {
        var elementText := Trim(FirstNonEmpty(e.innerText, e.textContent));
        var hasMatch := AnyNeedleOnElement(elementText, e.ariaLabel.GetOr(""), e.title.GetOr(""), needles);
        if hasMatch && ok {
          elements := elements[i := e.(listeners := e.listeners + [ClickListener(t.id, t.bannerText, t.bannerStyle)],
                                       markers := e.markers + {marker})];
        }
      }
    }

    /** `setupButtonClickTrigger` for the active trigger at index `k`. */
    method SetupButtonClickTrigger(k: nat, passing: set<nat>)
      requires k < |active|
      modifies this`elements
      ensures State() == ButtonStep(active[k], k, old(State()), EnvFor(passing))
    {
      var t := active[k];
      if t.detection.None? || t.detection.value.textMatch.None? || |t.detection.value.textMatch.value| == 0 {
        return;
      }
      var d := t.detection.value;
      var needles := d.textMatch.value;
      var ok := !(d.hasCheck && k !in passing);
      assert ok == CheckPasses(d, k, EnvFor(passing));
      ghost var es0 := elements;
      for i := 0 to |elements|
        invariant |elements| == |es0|
        invariant forall j :: 0 <= j < i ==> elements[j] == WireOne(t, needles, ok, es0[j])
        invariant forall j :: i <= j < |es0| ==> elements[j] == es0[j]
      {
        WireElement(i, t, needles, ok);
      }
      assert elements == WireAll(t, needles, ok, es0);
    }

    /** `checkTextAppearsTrigger` for the active trigger at index `k`. */
    method CheckTextAppearsTrigger(k: nat)
      requires k < |active|
      modifies this`latched, this`shown, this`current
      ensures State() == TextStep(active[k], k, old(State()), EnvFor({}))
    {
      var t := active[k];
      if t.detection.None? || t.detection.value.textMatch.None? || |t.detection.value.textMatch.value| == 0 {
        return;
      }
      if k in latched {
        return;
      }
      if FindTextOnPage(bodyInnerText, bodyTextContent, t.detection.value.textMatch) {
        latched := latched + {k};
        ShowBanner(t.bannerText, t.bannerStyle);
      }
    }

    /** The inner `forEach` callback of `checkElementAppearsTrigger` on element
        `i`: an element the selector matches that lacks the marker gets it, and
        a banner. */
    method VisitElement(i: nat, marker: string, sel: string, text: string, style: Option<string>)
      requires i < |elements|
      modifies this`elements, this`shown, this`current
      ensures var s := old(State());
              var e := s.elements[i];
        State() == if Unseen(marker, sel, e)
                   then Show(s.(elements := s.elements[i := e.(markers := e.markers + {marker})]), MakeBanner(text, style, Preferences()))
                   else s
    {
      var e := elements[i];
      if sel in e.selectors && marker !in e.markers {
        elements := elements[i := e.(markers := e.markers + {marker})];
        ShowBanner(text, style);
      }
    }

    /** One selector of `checkElementAppearsTrigger`: each element it matches that
        lacks the marker gets it, and a banner. */
    method SweepSelector(marker: string, sel: string, text: string, style: Option<string>)
      requires sel !in invalid
      modifies this`elements, this`shown, this`current
      ensures State() == SweepOne(marker, sel, old(State()), MakeBanner(text, style, Preferences()), invalid)
    {
      ghost var s0 := State();
      ghost var b := MakeBanner(text, style, Preferences());
      var i := 0;
      while i < |elements|
        invariant 0 <= i <= |elements| == |s0.elements|
        invariant State() == SweepPrefix(marker, sel, s0, b, i)
      {
        SweepPrefixStep(marker, sel, s0, b, i);
        VisitElement(i, marker, sel, text, style);
        i := i + 1;
      }
      SweepPrefixAll(marker, sel, s0, b);
    }

    /** `checkElementAppearsTrigger` for the active trigger at index `k`: its
        selectors in order, an invalid one skipped. */
    method CheckElementAppearsTrigger(k: nat)
      requires k < |active|
      modifies this`elements, this`shown, this`current
      ensures State() == ElementStep(active[k], old(State()), EnvFor({}))
    {
      var t := active[k];
      if t.detection.None? || t.detection.value.selectors.None? {
        return;
      }
      var sels := t.detection.value.selectors.value;
      var marker := SeenMarker(t.id);
      ghost var s0 := State();
      ghost var b := MakeBanner(t.bannerText, t.bannerStyle, Preferences());
      for j := 0 to |sels|
        invariant State() == SweepFrom(marker, sels, j, s0, b, invalid)
      {
        if sels[j] !in invalid {
          SweepSelector(marker, sels[j], t.bannerText, t.bannerStyle);
        }
      }
    }

    /** The `switch` on `detection.type` for the active trigger at index `k`. */
    method RunTriggerAt(k: nat, passing: set<nat>)
      requires k < |active|
      modifies this`elements, this`latched, this`shown, this`current
      ensures State() == RunTrigger(active, k, old(State()), EnvFor(passing))
    {
      var t := active[k];
      if t.detection.Some? {
        match t.detection.value.kind {
          case ButtonClick =>
            SetupButtonClickTrigger(k, passing);
          case TextAppears =>
            CheckTextAppearsTrigger(k);
            IgnoresPassing(t, k, old(State()), EnvFor({}), passing);
          case ElementAppears =>
            CheckElementAppearsTrigger(k);
            IgnoresPassing(t, k, old(State()), EnvFor({}), passing);
          case Unrecognized =>
        }
      }
    }

    /** `processTriggers`: every active trigger, in order, through its handler. */
    method ProcessTriggers(passing: set<nat>)
      requires Valid()
      modifies this`elements, this`latched, this`shown, this`current
      ensures State() == Run(active, old(State()), EnvFor(passing))
      ensures Valid()
      ensures MarkerSafe(active) && AllWiredOnce(old(State())) ==> AllWiredOnce(State())
      ensures old(latched) <= latched
    {
      ghost var s0 := State();
      ghost var env := EnvFor(passing);
      for k := 0 to |active|
        invariant State() == RunFrom(active, k, s0, env)
        invariant env == EnvFor(passing)
      {
        RunTriggerAt(k, passing);
      }
      RunKeepsSlotValid(active, s0, env);
      if MarkerSafe(active) && AllWiredOnce(s0) {
        RunKeepsWiredOnce(active, s0, env);
      }
      RunFromKeepsLatches(active, |active|, s0, env);
    }

    /** The `MutationObserver` callback: the page now has these elements and this
        body text; when the script observes the page it runs `processTriggers`. */
    method OnMutation(es: seq<Element>, inner: Option<string>, text: Option<string>, passing: set<nat>)
      requires Valid()
      modifies this`elements, this`bodyInnerText, this`bodyTextContent, this`latched, this`shown, this`current
      ensures bodyInnerText == inner && bodyTextContent == text
      ensures Valid()
      ensures State() == if Observing() then Run(active, old(State()).(elements := es), EnvFor(passing))
                         else old(State()).(elements := es)
    {
      elements := es;
      bodyInnerText := inner;
      bodyTextContent := text;
      if Observing() {
        ProcessTriggers(passing);
      }
    }

    /** A click whose propagation path is `path`: the target, then the ancestors
        the event bubbles through. Each listener on the path starts a 500 ms
        timer, in that order; the `additionalCheck` is not asked again. */
    method Click(path: seq<nat>)
      requires forall k :: 0 <= k < |path| ==> path[k] < |elements|
      modifies this`pending
      ensures pending == old(pending) + PathListeners(elements, path)
      ensures AllWiredOnce(State()) ==>
        forall id :: ListenerCount(pending[|old(pending)|..], id) <= MarkedOnPath(elements, path, id)
    {
      pending := pending + PathListeners(elements, path);
      if AllWiredOnce(State()) {
        assert pending[|old(pending)|..] == PathListeners(elements, path);
        forall id ensures ListenerCount(pending[|old(pending)|..], id) <= MarkedOnPath(elements, path, id) {
          PathListenerBound(State(), path, id);
        }
      }
    }

    /** The oldest pending click timer fires and shows its banner under the
        preferences in force now. */
    method FireClickTimer()
      requires pending != []
      modifies this`pending, this`shown, this`current
      ensures Valid()
      ensures pending == old(pending)[1..]
      ensures State() == Show(old(State()), MakeBanner(old(pending)[0].text, old(pending)[0].style, Preferences()))
    {
      var l := pending[0];
      pending := pending[1..];
      ShowBanner(l.text, l.style);
    }

    /** `loadPreferences`; `read` is `None` when there is no synchronised storage
        or the read fails. */
    method LoadPreferences(read: Option<map<string, JsValue>>)
      modifies this`soundEnabled, this`bannerColor
      ensures Preferences() == Loaded(old(Preferences()), read)
    {
      if read.None? {
        return;
      }
      var res := read.value;
      soundEnabled := if "soundEnabled" in res && res["soundEnabled"] != Undefined then res["soundEnabled"] else Bool(true);
      bannerColor := if "bannerColor" in res && Truthy(res["bannerColor"]) then res["bannerColor"] else Str("yellow");
    }

    /** The storage `onChanged` listener. */
    method OnStorageChanged(changes: map<string, JsValue>)
      modifies this`soundEnabled, this`bannerColor
      ensures Preferences() == Changed(old(Preferences()), changes)
    {
      if "soundEnabled" in changes {
        soundEnabled := changes["soundEnabled"];
      }
      if "bannerColor" in changes {
        bannerColor := changes["bannerColor"];
      }
    }
  }
}

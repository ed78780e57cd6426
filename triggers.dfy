/**
 Trigger descriptors, the abstract DOM they are matched against, and the
 pure specification of one `processTriggers` run: each handler as a function
 from the page session before it to the session after it, and a run as the
 handlers of the active triggers applied in registry order.
 */
module Triggers {
  import opened Js
  import opened UrlMatch
  import opened TextMatch
  import opened Banner

  /** `detection.type`; any other string is ignored by the dispatch. */
  datatype Kind = ButtonClick | TextAppears | ElementAppears | Unrecognized

  /** `detection`; `hasCheck` says whether an `additionalCheck` function is present. */
  datatype Detection = Detection(
    kind: Kind,
    textMatch: Option<seq<string>>,
    selectors: Option<seq<string>>,
    hasCheck: bool)

  /** A trigger descriptor (its `name` is never read and is not kept). */
  datatype Trigger = Trigger(
    id: string,
    urls: seq<string>,
    bannerStyle: Option<string>,
    detection: Option<Detection>,
    bannerText: string)

  /** The click listener the script attaches: it captures the trigger. */
  datatype Listener = ClickListener(triggerId: string, text: string, style: Option<string>)

  /** An element of the page: what the selectors and the matcher look at, the
      marker attributes set on it, and the click listeners the script added. */
  datatype Element = Element(
    tag: string,
    role: Option<string>,
    hasOnclick: bool,
    selectors: set<string>,
    innerText: Option<string>,
    textContent: Option<string>,
    ariaLabel: Option<string>,
    title: Option<string>,
    markers: set<string>,
    listeners: seq<Listener>)

  /** The page state a run changes: the elements, the `_triggered` latches (by
      index into the active triggers), the log of banners shown, and the banner
      slot (the index in the log of the banner on the page, if any). */
  datatype Session = Session(
    elements: seq<Element>,
    latched: set<nat>,
    shown: seq<BannerView>,
    current: Option<nat>)

  /** What a run reads but does not change: the body's visible text, the active
      triggers whose `additionalCheck` currently passes, the selector strings the
      browser rejects, and the preferences. */
  datatype Env = Env(pageText: string, passing: set<nat>, invalid: set<string>, prefs: Prefs)

  /** The two triggers the content script defines. */
  const Registry: seq<Trigger> := [
    Trigger("github-pr-merged", ["https://github.com/*"], Some("enemy-felled"),
            Some(Detection(ButtonClick,
                           Some(["Merge pull request", "Confirm merge", "Squash and merge", "Rebase and merge"]),
                           None, false)),
            "PR MERGED"),
    Trigger("github-conflicts-detected", ["https://github.com/*"], Some("you-died"),
            Some(Detection(TextAppears, Some(["This branch has conflicts that must be resolved"]), None, false)),
            "CONFLICTS")
  ]

  /** `TRIGGERS.filter(t => matchesUrl(t.urls))`. */
  function ActiveTriggers(registry: seq<Trigger>, url: string): (r: seq<Trigger>)
    ensures |r| <= |registry|
    ensures forall t :: t in r <==> t in registry && MatchesUrl(url, t.urls)
  {
    if registry == [] then []
    else (if MatchesUrl(url, registry[0].urls) then [registry[0]] else []) + ActiveTriggers(registry[1..], url)
  }

  // ---------------------------------------------------------------------------
  // The banner slot
  // ---------------------------------------------------------------------------

  /** `showBanner`: the old banner goes, the new one is appended to the log and is
      the one on the page. */
  function Show(s: Session, b: BannerView): (r: Session) {
    s.(shown := s.shown + [b], current := Some(|s.shown|))
  }

  /** The slot only ever holds the latest banner. */
  predicate SlotValid(s: Session) {
    s.current.Some? ==> s.current.value + 1 == |s.shown|
  }

  // ---------------------------------------------------------------------------
  // button_click
  // ---------------------------------------------------------------------------

  /** Matches `button, [role="button"], a, div[onclick]`. */
  predicate IsClickCandidate(e: Element) {
    e.tag == "button" || e.role == Some("button") || e.tag == "a" || (e.tag == "div" && e.hasOnclick)
  }

  /** A trigger id whose marker attribute names are valid, already lower-case
      HTML attribute names: `setAttribute` neither throws on them nor folds two
      ids into one attribute. */
  predicate MarkerSafeId(id: string) {
    forall i :: 0 <= i < |id| ==> ('a' <= id[i] <= 'z') || ('0' <= id[i] <= '9') || id[i] == '-' || id[i] == '_'
  }

  predicate MarkerSafe(active: seq<Trigger>) {
    forall k :: 0 <= k < |active| ==> MarkerSafeId(active[k].id)
  }

  function ClickMarker(id: string): string {
    "data-elden-trigger-" + id
  }

  /** The element's trimmed visible text, `aria-label` and `title` against the needles. */
  predicate ElementMatches(e: Element, needles: seq<string>) {
    AnyNeedleOnElement(Trim(FirstNonEmpty(e.innerText, e.textContent)), e.ariaLabel.GetOr(""), e.title.GetOr(""), needles)
  }

  /** An absent `additionalCheck` passes; a present one is asked once, now. */
  predicate CheckPasses(d: Detection, k: nat, env: Env) {
    !d.hasCheck || k in env.passing
  }

  /** `setupButtonClickTrigger` on one element. */
  function WireOne(t: Trigger, needles: seq<string>, ok: bool, e: Element): (r: Element) {
    if IsClickCandidate(e) && ClickMarker(t.id) !in e.markers && ElementMatches(e, needles) && ok then
      e.(markers := e.markers + {ClickMarker(t.id)},
         listeners := e.listeners + [ClickListener(t.id, t.bannerText, t.bannerStyle)])
    else e
  }

  function WireAll(t: Trigger, needles: seq<string>, ok: bool, es: seq<Element>): (r: seq<Element>)
    ensures |r| == |es|
  {
    seq(|es|, i requires 0 <= i < |es| => WireOne(t, needles, ok, es[i]))
  }

  /** `setupButtonClickTrigger(trigger)`, the trigger at index `k` of the active list. */
  function ButtonStep(t: Trigger, k: nat, s: Session, env: Env): (r: Session) {
    match t.detection
    case None => s
    case Some(d) =>
      if d.textMatch.None? || |d.textMatch.value| == 0 then s
      else s.(elements := WireAll(t, d.textMatch.value, CheckPasses(d, k, env), s.elements))
  }

  // ---------------------------------------------------------------------------
  // text_appears
  // ---------------------------------------------------------------------------

  /** `checkTextAppearsTrigger(trigger)`. */
  function TextStep(t: Trigger, k: nat, s: Session, env: Env): (r: Session) {
    match t.detection
    case None => s
    case Some(d) =>
      if d.textMatch.None? || |d.textMatch.value| == 0 then s
      else if k in s.latched then s
      else if MatchesText(env.pageText, d.textMatch) then
        Show(s.(latched := s.latched + {k}), MakeBanner(t.bannerText, t.bannerStyle, env.prefs))
      else s
  }

  // ---------------------------------------------------------------------------
  // element_appears
  // ---------------------------------------------------------------------------

  function SeenMarker(id: string): string {
    "data-elden-triggered-" + id
  }

  predicate Unseen(marker: string, sel: string, e: Element) {
    sel in e.selectors && marker !in e.markers
  }

  function MarkIfUnseen(marker: string, sel: string, e: Element): Element {
    if Unseen(marker, sel, e) then e.(markers := e.markers + {marker}) else e
  }

  function MarkAll(marker: string, sel: string, es: seq<Element>): (r: seq<Element>)
    ensures |r| == |es|
  {
    seq(|es|, i requires 0 <= i < |es| => MarkIfUnseen(marker, sel, es[i]))
  }

  function UnseenFlags(marker: string, sel: string, es: seq<Element>): (r: seq<bool>)
    ensures |r| == |es|
  {
    seq(|es|, i requires 0 <= i < |es| => Unseen(marker, sel, es[i]))
  }

  function CountTrue(bs: seq<bool>): nat {
    if bs == [] then 0 else CountTrue(bs[..|bs| - 1]) + (if bs[|bs| - 1] then 1 else 0)
  }

  function Repeat(b: BannerView, n: nat): seq<BannerView> {
    if n == 0 then [] else Repeat(b, n - 1) + [b]
  }

  /** `n` calls of `showBanner` with the same banner. */
  function ShowTimes(s: Session, b: BannerView, n: nat): Session {
    s.(shown := s.shown + Repeat(b, n), current := if n == 0 then s.current else Some(|s.shown| + n - 1))
  }

  /** One selector: an invalid one throws before any element is visited; a valid one
      marks each unmarked element it matches and shows one banner for each. */
  function SweepOne(marker: string, sel: string, s: Session, b: BannerView, invalid: set<string>): Session {
    if sel in invalid then s
    else ShowTimes(s.(elements := MarkAll(marker, sel, s.elements)), b, CountTrue(UnseenFlags(marker, sel, s.elements)))
  }

  /** The first `j` selectors, in order. */
  function SweepFrom(marker: string, sels: seq<string>, j: nat, s: Session, b: BannerView, invalid: set<string>): Session
    requires j <= |sels|
  {
    if j == 0 then s else SweepOne(marker, sels[j - 1], SweepFrom(marker, sels, j - 1, s, b, invalid), b, invalid)
  }

  /** `checkElementAppearsTrigger(trigger)`. */
  function ElementStep(t: Trigger, s: Session, env: Env): (r: Session) {
    match t.detection
    case None => s
    case Some(d) =>
      if d.selectors.None? then s
      else SweepFrom(SeenMarker(t.id), d.selectors.value, |d.selectors.value|, s,
                     MakeBanner(t.bannerText, t.bannerStyle, env.prefs), env.invalid)
  }

  // ---------------------------------------------------------------------------
  // processTriggers
  // ---------------------------------------------------------------------------

  /** The dispatch on `detection.type` for the active trigger at index `k`. */
  function RunTrigger(active: seq<Trigger>, k: nat, s: Session, env: Env): (r: Session)
    requires k < |active|
  {
    match active[k].detection
    case None => s
    case Some(d) =>
      match d.kind
      case ButtonClick => ButtonStep(active[k], k, s, env)
      case TextAppears => TextStep(active[k], k, s, env)
      case ElementAppears => ElementStep(active[k], s, env)
      case Unrecognized => s
  }

  /** The first `n` active triggers, in order. */
  function RunFrom(active: seq<Trigger>, n: nat, s: Session, env: Env): Session
    requires n <= |active|
  {
    if n == 0 then s else RunTrigger(active, n - 1, RunFrom(active, n - 1, s, env), env)
  }

  /** One call of `processTriggers`. */
  function Run(active: seq<Trigger>, s: Session, env: Env): (r: Session) {
    RunFrom(active, |active|, s, env)
  }
}

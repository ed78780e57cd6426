# Elden banner: trigger matching and banner lifecycle

This is a Dafny model of the content script of the Elden banner browser
extension (`src/content.js`). The script watches GitHub pages and shows an
Elden Ring style banner when something happens. "PR MERGED" appears after a
merge button is clicked. "CONFLICTS" appears when the page says the branch
has conflicts. The model covers:

- **URL matching** (`UrlMatch`). A trigger is active on a page when one of its
  URL patterns matches the whole address. In a pattern, `*` stands for any run
  of characters other than line terminators (what a regular-expression `.`
  accepts), and every other character stands for itself. The matcher is
  a recursive glob function. It is proved equal to an independent "instance of
  the pattern" definition.
- **Text matching** (`TextMatch`, on the JavaScript built-ins in `Js`). This is
  the case-insensitive needle test on the page text and the per-element test
  on an element's trimmed visible text, its `aria-label` and its `title`.
- **Banner and preferences** (`Banner`):
  - the colour class and the sound flag of a banner;
  - the defaulting of the two stored preferences when they are read;
  - the update rule of the change listener.
- **The pure meaning of one `processTriggers` run** (`Triggers`). The page is a
  sequence of element records. Each handler is a function from the session
  before it to the session after it. A run applies the handlers of the active
  triggers in order.
- **What several runs guarantee** (`Dispatch`):
  - each newly seen element gives exactly one `element_appears` banner;
  - no element gets a second listener for the same `button_click` trigger;
  - once latched, a `text_appears` trigger is inert;
  - a run on an unchanged page changes nothing.
- **Concrete pages** (`Scenarios`) for the two triggers the script ships.
- **The script as an object** (`Page.Page`). Its fields are the elements, the
  latches, the banner slot and log, the pending click timers and the cached
  preferences. Each handler is a method that updates these fields (the
  element and selector sweeps with loops), and each is proved to compute its
  pure step function: `ShowBanner` computes `Show`, `SetupButtonClickTrigger`
  computes `ButtonStep`, `CheckTextAppearsTrigger` computes `TextStep`,
  `CheckElementAppearsTrigger` computes `ElementStep`, `RunTriggerAt` computes
  `RunTrigger`, `ProcessTriggers` computes `Run`, `LoadPreferences` computes
  `Loaded` and `OnStorageChanged` computes `Changed`. The class invariant
  `Valid` says the banner slot holds the latest banner shown.

Three behaviours of the code worth knowing:

- A click does not ask `additionalCheck` again. The check runs once, when the
  listener is attached (content.js:222); a click only schedules the banner
  (content.js:224-226).
- `button_click` never reads `selectors`. It always queries
  `button, [role="button"], a, div[onclick]` (content.js:199).
- The change listener copies `newValue` even when a key was removed
  (content.js:95-96), so a cached preference can become undefined. The
  colour class is then `banner-undefined` and no sound is requested
  (`Banner.RemovalLeavesUndefined`).

How the browser is abstracted:

- A CSS selector is opaque. Each element carries the set of selector strings
  it matches. The selector strings the browser rejects are a fixed set
  (`invalid`).
- `additionalCheck` is an oracle: the set of active-trigger indices whose
  check passes during the run.
- The page text is the body's `innerText` and `textContent`.
- The 500 ms click delay is a FIFO queue of pending listeners.
- The banner's removal timer is a call that names the banner it was started
  for.
- The storage read is an optional map (`None` when there is no synchronised
  storage or the read fails).
- Each `MutationObserver` callback is one more `processTriggers` call on the
  new element sequence.

## Model

| member | source | states |
|---|---|---|
| UrlMatch.GlobMatchIff | src/content.js:159-167 | `GlobMatch`, the anchored regular expression built from one pattern, accepts a URL exactly when the URL is the pattern with each `*` replaced by a string without line terminators (the characters a regular-expression `.` refuses) |
| UrlMatch.Witness | src/content.js:162-165 | a successful match yields one filler string per `*` that rebuilds the URL |
| UrlMatch.InstanceMatches | src/content.js:162-165 | every instance of a pattern is matched by it |
| UrlMatch.MatchesUrlIff | src/content.js:159-167 | `MatchesUrl`, the model of `matchesUrl`, holds exactly when some pattern's `GlobMatch` does, so an empty pattern list gives false |
| UrlMatch.MatchesUrlOrderFree | src/content.js:161 | the order and repetition of the patterns do not matter |
| UrlMatch.LiteralPattern | src/content.js:162-165 | a pattern without `*` matches exactly one URL, itself |
| UrlMatch.StarMatches | src/content.js:164 | a lone `*` matches every string without a line terminator, the empty one included |
| UrlMatch.PrefixPattern | src/content.js:162-165 | `q*` with a `*`-free `q` matches exactly the URLs that start with `q` |
| UrlMatch.PrefixAccepts | src/content.js:162-165 | `q*` accepts `q` followed by any run without a line terminator |
| UrlMatch.PrefixRejects | src/content.js:162-165 | `q*` rejects every URL that differs from `q` at some position of `q` |
| UrlMatch.GitHubPatternAccepts | src/content.js:18 | `https://github.com/*` accepts a pull-request address |
| UrlMatch.GitLabPatternRejects | src/content.js:162-165 | a pattern for another host rejects that address |
| UrlMatch.MetacharactersAreLiteral | src/content.js:163 | `.`, `?` and `+` in a pattern match only themselves |
| Js.FirstNonEmpty | src/content.js:182 | `a \|\| b \|\| ''` gives `a` when it is present and non-empty, and otherwise `b`, absent counting as empty |
| Js.TrimStart | src/content.js:174 | leading white space is dropped; what is left is a suffix that starts with a non-space |
| Js.TrimEnd | src/content.js:174 | trailing white space is dropped; what is left is a prefix that ends with a non-space |
| Js.Trim | src/content.js:208 | the result is a slice of the input with only white space before and after it, and it starts and ends with a non-space |
| Js.IncludesIff | src/content.js:175 | `includes` holds exactly when the needle occurs at some offset |
| Js.TrimLowerCommute | src/content.js:174 | trimming and ASCII lower-casing commute |
| Js.TrimIdempotent | src/content.js:174 | trimming twice is trimming once |
| Js.LowerIdempotent | src/content.js:174 | lower-casing twice is lower-casing once |
| TextMatch.MatchesTextIff | src/content.js:172-176 | `MatchesText`, the model of `matchesText`, is false for absent or empty needles and otherwise holds exactly when some lower-cased needle is in the lower-cased, trimmed text |
| TextMatch.AnyIncludedIff | src/content.js:175 | `some` over the needles is the existential over their indices |
| TextMatch.MatchesTextOrderFree | src/content.js:175 | the order and repetition of the needles do not matter |
| TextMatch.MatchesTextNeedleCase | src/content.js:175 | needles equal up to ASCII case give the same answer |
| TextMatch.MatchesTextTextCase | src/content.js:174 | texts equal up to ASCII case give the same answer |
| TextMatch.MatchesTextIgnoresPadding | src/content.js:174 | white space around the page text does not matter |
| TextMatch.EmptyNeedleMatches | src/content.js:175 | an empty needle matches every text |
| TextMatch.AnyNeedleOnElementIff | src/content.js:212-219 | `AnyNeedleOnElement` holds exactly when some lower-cased needle is in the lower-cased text, `aria-label` or `title` |
| TextMatch.ElementTestDecomposes | src/content.js:204-219 | the element test is `matchesText` on the visible text, or untrimmed containment in the `aria-label` or the `title` |
| TextMatch.OnlyTextIsTrimmed | src/content.js:204-210 | for every word, the needle made of a space and that word is found in an `aria-label` that has it but not in visible text that has it |
| Banner.FixedStylesIgnorePreference | src/content.js:117-124 | `ColorClass` gives `banner-red` for `you-died` and `banner-blue` for `grace` whatever the user's colour; Banner.OtherStylesFollowPreference covers the other styles |
| Banner.OtherStylesFollowPreference | src/content.js:123-124 | every other style, none included, gives `banner-` followed by the user's colour, and different colours give different classes |
| Banner.Loaded | src/content.js:76-88 | no storage or a failed read leaves the values alone; otherwise a defined stored sound flag (`null` included) and a truthy stored colour are kept, a missing or undefined flag becomes `true`, and a missing or falsy colour becomes `yellow` |
| Banner.EmptyStorageGivesDefaults | src/content.js:83-84 | empty storage yields sound on and colour `yellow` |
| Banner.StoredValuesAreKept | src/content.js:83-84 | a stored `false` turns the sound off and a stored colour is used |
| Banner.Changed | src/content.js:93-98 | each key the notification names takes its new value, undefined included, and every other key keeps its value |
| Banner.BlueAfterChange | src/content.js:95-96 | after the colour changes to blue, the next banner without a fixed style is blue |
| Banner.RemovalLeavesUndefined | src/content.js:95-96 | a notification that removes the keys leaves them undefined: no sound, class `banner-undefined` |
| Triggers.ActiveTriggers | src/content.js:274 | the active triggers are the registry's triggers whose patterns match the URL, and no more of them |
| Dispatch.ActiveTriggersFilter | src/content.js:274 | `ActiveTriggers` is an order-preserving filter: a one-trigger registry keeps its trigger exactly when it matches, and the filter of a concatenation is the concatenation of the filters |
| Dispatch.ShowLeavesOnlyNewBanner | src/content.js:111-135 | `Show`, the effect of `showBanner` on the page, appends the banner to the log, puts it alone in the slot, and changes nothing else |
| Dispatch.ElementStepEffect | src/content.js:250-267 | `ElementStep`, the model of `checkElementAppearsTrigger`: the marked elements are exactly the old ones plus those a valid selector matches, nothing else about an element changes, and one banner is shown per newly marked element however many selectors match it |
| Dispatch.SweepFromClosed | src/content.js:255-266 | `SweepOne` applied selector after selector equals the closed form: every element a valid selector matches ends up marked, with one banner per element that was unmarked |
| Dispatch.ElementStepSkipsMarked | src/content.js:258 | a page whose elements all carry the marker already is left unchanged, and no banner is shown |
| Dispatch.InvalidSelectorIsSkipped | src/content.js:256-265 | dropping an invalid selector from the list gives the same result |
| Dispatch.ButtonStepEffect | src/content.js:193-230 | `IsClickCandidate`, `WireOne` and `ButtonStep`, the model of `setupButtonClickTrigger`: an element changes exactly when it is an unmarked candidate whose text, `aria-label` or `title` matches and whose check passes; it then gains the marker and one listener |
| Dispatch.ButtonIgnoresSelectors | src/content.js:199 | the `selectors` of a `button_click` trigger are never consulted |
| Dispatch.WireOneKeepsWiredOnce | src/content.js:202-227 | wiring one element keeps at most one listener per trigger, and only with the marker |
| Dispatch.RunKeepsWiredOnce | src/content.js:278-294 | a whole run keeps that invariant on every element, for triggers whose ids give valid lower-case attribute names |
| Scenarios.RegistryIsMarkerSafe | src/content.js:16-34 | both shipped ids give such names |
| Dispatch.RunKeepsSlotValid | src/content.js:111-135 | after a whole run the slot still holds the latest banner shown, if any |
| Dispatch.WiredOnceDistinct | src/content.js:224-227 | on such an element no two listeners belong to the same trigger |
| Dispatch.TextStepEffect | src/content.js:235-245 | `TextStep`, the model of `checkTextAppearsTrigger`: absent needles or a set latch mean no change; otherwise the trigger fires exactly when the page text matches, sets its latch and shows one banner |
| Dispatch.EmptyTextMatchNeverFires | src/content.js:238 | a trigger with empty or absent needles never fires |
| Dispatch.RunFromKeepsLatches | src/content.js:242 | latches are never cleared |
| Dispatch.LatchedTriggerIsInert | src/content.js:239 | a run with a latched trigger is the same as a run with that trigger removed |
| Dispatch.StepSettles | src/content.js:278-294 | `RunTrigger`, the `switch` on the detection type, leaves its trigger with nothing left to do on that page |
| Dispatch.SettledIsNoop | src/content.js:202-258 | a trigger with nothing left to do changes nothing |
| Dispatch.SettledMonotone | src/content.js:202-258 | later handlers do not undo what an earlier one settled |
| Dispatch.RunFromSettles | src/content.js:279-293 | after a run every active trigger has nothing left to do |
| Dispatch.RunIdempotent | src/content.js:278-294 | `Run`, the model of `processTriggers`, changes nothing when run again on an unchanged page; Dispatch.RunFromSettles, RunKeepsWiredOnce and LatchedTriggerIsInert state the rest |
| Dispatch.RunTimesIsOneRun | src/content.js:297-301 | any number of observer callbacks on an unchanged page equal one run |
| Scenarios.BothActiveOnPullRequest | src/content.js:14-46 | both shipped triggers are active on a pull-request page |
| Scenarios.NoneActiveElsewhere | src/content.js:274-276 | neither is active on another host, so nothing is observed |
| Scenarios.ConflictsPageShowsOneBanner | src/content.js:33-45 | a page with the conflicts message gets one red `CONFLICTS` banner and the latch |
| Scenarios.ConflictsBannerShownOnce | src/content.js:235-245 | however often the observer fires on that page, the banner is shown once |
| Scenarios.MergeButtonIsWired | src/content.js:15-32 | a "Confirm merge" button gets the marker and one listener for the merged banner, and nothing is shown yet |
| Scenarios.MergedBannerUnderDefaults | src/content.js:111-124 | that listener's banner is `PR MERGED`, yellow, with sound under the initial preferences |
| TextMatch.FindTextOnPageSource | src/content.js:181-184 | `FindTextOnPage` tests the body's `innerText` when it is non-empty and its `textContent` otherwise, absent counting as empty |
| Dispatch.ElementMatchesIff | src/content.js:204-219 | `ElementMatches` holds exactly when some lower-cased needle is in the lower-cased trimmed `innerText \|\| textContent`, the `aria-label` or the `title` |
| Page.Page.constructor | src/content.js:273-301 | the active triggers are filtered once by URL; one run happens when some trigger is active, under the initial preferences; otherwise nothing is processed; `Valid` holds |
| Page.Page.ShowBanner | src/content.js:111-142 | the slot and the log change as `Show` says, with the banner built under the current preferences |
| Page.Page.ExpireBanner | src/content.js:145-149 | the removal timer clears the slot only if its banner is still there, keeping `Valid` |
| Page.Page.WireElement | src/content.js:202-228 | one element of the `forEach` becomes `WireOne` of it and the others are untouched |
| Page.Page.SetupButtonClickTrigger | src/content.js:193-230 | the element loop computes `ButtonStep` |
| Page.Page.CheckTextAppearsTrigger | src/content.js:235-245 | the handler computes `TextStep` |
| Page.Page.SweepSelector | src/content.js:257-262 | one selector's element loop computes `SweepOne` |
| Page.Page.VisitElement | src/content.js:258-261 | one element of that loop: an unseen element that carries the selector gets the marker and a banner, any other element leaves the state as it was |
| Page.Page.CheckElementAppearsTrigger | src/content.js:250-267 | the selector loop computes `ElementStep` |
| Page.Page.RunTriggerAt | src/content.js:280-292 | the `switch` on the detection type computes `RunTrigger` |
| Page.Page.ProcessTriggers | src/content.js:278-294 | the loop computes `Run`; it keeps `Valid`, keeps at most one listener per element and trigger when the ids are safe, and never clears a latch |
| Page.Page.OnMutation | src/content.js:297-298 | an observer callback on the new page runs `processTriggers` only when some trigger is active |
| Page.Page.Click | src/content.js:224-226 | a click queues the listeners of its target and of each ancestor it bubbles through, in that order, without asking `additionalCheck` again; on a page wired at most once it queues, per trigger, at most one timer for each element on the path that carries the trigger's marker |
| Dispatch.PathListenersAppend | src/content.js:224 | the listeners a click runs are those of the first part of its path followed by those of the rest |
| Dispatch.TargetOnlyPath | src/content.js:224 | a click that reaches only its target runs exactly the target's listeners |
| Dispatch.PathListenerBound | src/content.js:202-227 | on a page wired at most once, a click runs at most one listener per trigger and marked element on its path |
| Scenarios.NestedClickQueuesTwo | src/content.js:199-227 | a wired `div[onclick]` around the wired merge button makes one click start two timers for the merged banner |
| Page.Page.FireClickTimer | src/content.js:225 | the oldest pending timer shows its banner under the preferences in force when it fires |
| Page.Page.LoadPreferences | src/content.js:76-88 | the cached preferences become `Loaded` of the old ones |
| Page.Page.OnStorageChanged | src/content.js:93-98 | the cached preferences become `Changed` of the old ones |

## Left out

- Asset loading and font registration (content.js:59-67) are browser runtime calls with no logic to model.
- Sound playback (content.js:138-142) is an Audio API call. Only the "sound requested" flag of each banner is kept.
- The banner's entrance animation (content.js:145) is not modelled. The 3000 ms and 500 ms exit timers are reduced to `Page.Page.ExpireBanner`, which the caller invokes.
- The 500 ms click delay (content.js:225) is not real time. It is the FIFO `pending` queue, since timers with equal delays fire in the order they were set.
- The `MutationObserver` and `DOMContentLoaded` wiring (content.js:297-309) is browser callbacks. The observer is `Page.Page.OnMutation`, and the constructor is the start on a ready page.
- The asynchronous storage calls and the choice of the storage object (content.js:52-53, 76-98) are foreign. Only the defaulting and update rules are modelled.
- The `innerHTML` template (content.js:127-133) is fixed markup. The banner text is an opaque field.
- Lower-casing covers the ASCII letters only, unlike JavaScript's full Unicode `toLowerCase`.
- CSS selector matching is opaque. Each element lists the selectors it matches. This set cannot change when the script adds a marker, so selectors that test the marker attributes themselves are outside the model.
- A marker is present or absent. The script always writes the value `true`. A marker that the page sets to an empty string (which `getAttribute` reads as falsy) is not modelled.
- `additionalCheck` (content.js:222) is an oracle fixed for the whole run. The source calls it once per matching element, so a check whose answer changes during one run is not modelled.
- The banner node is not one of the page's elements. The marker queries never see it.
- The banner's text is not part of the page text. In the source `showBanner` appends the banner to `document.body` (content.js:127-135), so a later `text_appears` trigger in the same run, or in the run the banner's own insertion sets off, reads a `body.innerText` that includes it (content.js:182). A needle that occurs in a banner's text can fire there and does not fire in the model.
- Trigger ids are taken as valid, lower-case attribute names. HTML lower-cases attribute names in `setAttribute` and `getAttribute` and throws on an invalid name (content.js:202, 227, 258, 260). An id with a space would add the listener and then throw before the marker is set, so the next run would add a second listener, and ids differing only in case would share one marker. Dispatch.RunKeepsWiredOnce and Page.Page.ProcessTriggers state their at-most-one-listener guarantee only for ids that Triggers.MarkerSafeId accepts; both shipped ids do (Scenarios.RegistryIsMarkerSafe).
- The trigger `name` field is never read by the script and is not kept.
- src/popup.js is not part of this model. It defaults the sound to off (popup.js:15), while the content script defaults it to on (content.js:83). On Firefox it writes to local storage (popup.js:10), which `loadPreferences` does not read.
- src/triggers.js is not part of this model: the content script never loads it and defines its own triggers (content.js:14-46).
- Page.Page.Click: the listeners are kept as data (trigger, text, style), not as closures.
- Page.Page.Click: the propagation path is given by the caller, since the model keeps no parent links between elements. Capture-phase listeners and `stopPropagation` by the page are not modelled.

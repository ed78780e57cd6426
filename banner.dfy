/**
 What `showBanner` decides (the colour class, whether a sound is requested,
 the text) and the two cached user preferences behind it: their defaults
 when they are read from storage, and how a change notification updates them.
 */
module Banner {
  import opened Js

  /** The module-level `soundEnabled` and `bannerColor`, as JavaScript values. */
  datatype Prefs = Prefs(soundEnabled: JsValue, bannerColor: JsValue)

  /** The values the script starts with, before storage has answered. */
  const DefaultPrefs := Prefs(Bool(true), Str("yellow"))

  /** One banner as `showBanner` builds it. The text is kept opaque: the markup
      around it is fixed. */
  datatype BannerView = BannerView(text: string, colorClass: string, sound: bool)

  /** The colour class: the failure and grace styles have fixed colours, every
      other style (none included) takes the user's colour. */
  function ColorClass(style: Option<string>, bannerColor: JsValue): (r: string) {
    "banner-" + (if style == Some("you-died") then "red"
                 else if style == Some("grace") then "blue"
                 else ToStr(bannerColor))
  }

  /** The banner `showBanner(text, style)` shows under the current preferences;
      a sound is requested exactly when `soundEnabled` is truthy. */
  function MakeBanner(text: string, style: Option<string>, prefs: Prefs): (b: BannerView) {
    BannerView(text, ColorClass(style, prefs.bannerColor), Truthy(prefs.soundEnabled))
  }

  /** `loadPreferences`. `None` stands for every path that leaves the values as they
      were: no synchronised storage, or a failed read. A stored `soundEnabled` is
      kept unless it is undefined; a stored `bannerColor` only if it is truthy. */
  function Loaded(prefs: Prefs, read: Option<map<string, JsValue>>): (r: Prefs)
    ensures read.None? ==> r == prefs
    ensures read.Some? ==> r.soundEnabled != Undefined && Truthy(r.bannerColor)
    ensures read.Some? && ("soundEnabled" !in read.value || read.value["soundEnabled"] == Undefined) ==>
              r.soundEnabled == Bool(true)
    ensures read.Some? && "soundEnabled" in read.value && read.value["soundEnabled"] != Undefined ==>
              r.soundEnabled == read.value["soundEnabled"]
    ensures read.Some? && "bannerColor" in read.value && Truthy(read.value["bannerColor"]) ==>
              r.bannerColor == read.value["bannerColor"]
    ensures read.Some? && ("bannerColor" !in read.value || !Truthy(read.value["bannerColor"])) ==>
              r.bannerColor == Str("yellow")
  {
    match read
    case None => prefs
    case Some(res) =>
      var sound := if "soundEnabled" in res && res["soundEnabled"] != Undefined then res["soundEnabled"] else Bool(true);
      var color := if "bannerColor" in res && Truthy(res["bannerColor"]) then res["bannerColor"] else Str("yellow");
      Prefs(sound, color)
  }

  /** The `onChanged` listener: each key present in the notification is set to its
      new value (undefined when the key was removed); the others are left alone. */
  function Changed(prefs: Prefs, changes: map<string, JsValue>): (r: Prefs)
    ensures "soundEnabled" !in changes ==> r.soundEnabled == prefs.soundEnabled
    ensures "bannerColor" !in changes ==> r.bannerColor == prefs.bannerColor
    ensures "soundEnabled" in changes ==> r.soundEnabled == changes["soundEnabled"]
    ensures "bannerColor" in changes ==> r.bannerColor == changes["bannerColor"]
  {
    Prefs(if "soundEnabled" in changes then changes["soundEnabled"] else prefs.soundEnabled,
          if "bannerColor" in changes then changes["bannerColor"] else prefs.bannerColor)
  }

  // ---------------------------------------------------------------------------
  // Properties
  // ---------------------------------------------------------------------------

  /** The failure and grace styles ignore the user's colour. */
  lemma FixedStylesIgnorePreference(c1: JsValue, c2: JsValue)
    ensures ColorClass(Some("you-died"), c1) == ColorClass(Some("you-died"), c2) == "banner-red"
    ensures ColorClass(Some("grace"), c1) == ColorClass(Some("grace"), c2) == "banner-blue"
  {
  }

  /** Every other style shows the user's colour, and different colours give
      different classes. */
  lemma OtherStylesFollowPreference(style: Option<string>, c1: string, c2: string)
    requires style != Some("you-died") && style != Some("grace")
    ensures ColorClass(style, Str(c1)) == "banner-" + c1
    ensures ColorClass(style, Str(c1)) == ColorClass(style, Str(c2)) ==> c1 == c2
  {
    if ColorClass(style, Str(c1)) == ColorClass(style, Str(c2)) {
      assert c1 == ("banner-" + c1)[7..];
      assert c2 == ("banner-" + c2)[7..];
    }
  }

  /** Empty storage yields the defaults. */
  lemma EmptyStorageGivesDefaults(prefs: Prefs)
    ensures Loaded(prefs, Some(map[])) == DefaultPrefs
  {
  }

  /** Stored values come through: a stored `false` turns the sound off and a
      stored colour is used. */
  lemma StoredValuesAreKept(prefs: Prefs, color: string)
    requires color != ""
    ensures Loaded(prefs, Some(map["soundEnabled" := Bool(false), "bannerColor" := Str(color)]))
            == Prefs(Bool(false), Str(color))
  {
  }

  /** After a notification that the colour is now blue, a banner without a
      fixed style renders with the blue class; the sound setting is untouched. */
  lemma BlueAfterChange(prefs: Prefs, style: Option<string>)
    requires style != Some("you-died") && style != Some("grace")
    ensures var p := Changed(prefs, map["bannerColor" := Str("blue")]);
      MakeBanner("PR MERGED", style, p).colorClass == "banner-blue" && p.soundEnabled == prefs.soundEnabled
  {
  }

  /** A notification that removes a key sets the cached value to undefined: the
      defaults are applied only when preferences are loaded. */
  lemma RemovalLeavesUndefined(prefs: Prefs)
    ensures var p := Changed(prefs, map["soundEnabled" := Undefined, "bannerColor" := Undefined]);
      !MakeBanner("CONFLICTS", None, p).sound && MakeBanner("CONFLICTS", None, p).colorClass == "banner-undefined"
  {
  }
}

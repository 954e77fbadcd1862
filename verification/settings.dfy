/** The settings sanitiser (`sanitize_settings`) and option reader
    (`get_option`) of the admin settings page. The options array is a map from
    option keys to scalars; an absent key is one `isset()` reports false for. */
module Settings {
  import opened Wrappers
  import Php

  /** The options array as stored, or as posted by the settings form. */
  type Options = map<string, Php.Value>

  /** The library routines the sanitiser calls and whose code is not part of
      this model: PHP's `intval()` of a string, and `sanitize_text_field`. */
  datatype Host = Host(intval: string -> int, sanitizeText: Php.Value -> string)

  /** Every key the sanitiser can emit. */
  const SettingKeys: set<string> := {
    "search_page_url", "enable_auto_submit", "button_text", "button_color",
    "button_hover_color", "button_text_color", "filters_per_row", "panel_max_height"
  }

  const ButtonColorFallback: string := "#0073aa"
  const ButtonHoverColorFallback: string := "#005a87"
  const ButtonTextColorFallback: string := "#ffffff"

  /** `absint()`: the magnitude of the value's integer conversion. */
  function Absint(v: Php.Value, host: Host): (r: nat)
    ensures v.Int? ==> r == Php.Abs(v.i)
    ensures v.Str? ==> r == Php.Abs(host.intval(v.s))
  {
    match v
    case Int(i) => Php.Abs(i)
    case Str(s) => Php.Abs(host.intval(s))
  }

  predicate HexDigit(c: char) {
    ('0' <= c <= '9') || ('a' <= c <= 'f') || ('A' <= c <= 'F')
  }

  /** `#` followed by three or six hex digits and nothing else. */
  predicate HexBody(s: string) {
    && (|s| == 4 || |s| == 7)
    && s[0] == '#'
    && forall i :: 1 <= i < |s| ==> HexDigit(s[i])
  }

  /** A match of `^#([A-Fa-f0-9]{3}){1,2}$`. PHP's `$` also matches just
      before a final newline, so one trailing "\n" is accepted too. */
  predicate HexColor(s: string) {
    HexBody(s) || (|s| > 0 && s[|s| - 1] == '\n' && HexBody(s[..|s| - 1]))
  }

  /** `sanitize_hex_color`: "" for "", the colour itself when it matches,
      otherwise `null` (`None`). A non-string never starts with '#'. */
  function SanitizeHexColor(v: Php.Value): (r: Option<string>)
    ensures r.Some? <==> v.Str? && (v.s == "" || HexColor(v.s))
    ensures r.Some? ==> r.value == v.s
  {
    match v
    case Int(_) => None
    case Str(s) => if s == "" then Some("") else if HexColor(s) then Some(s) else None
  }

  /** `$color ? $color : fallback` after `sanitize_hex_color`. */
  function ColorOr(v: Php.Value, fallback: string): (r: string)
    ensures v.Str? && HexColor(v.s) ==> r == v.s
    ensures !(v.Str? && HexColor(v.s)) ==> r == fallback
  {
    var c := SanitizeHexColor(v);
    if c.Some? && Php.Truthy(Php.Str(c.value)) then c.value else fallback
  }

  /** The entry for `key` in the output, when `key` is in the input. */
  function SanitizeEntry(key: string, v: Php.Value, host: Host): Php.Value
  {
    if key == "search_page_url" then Php.Int(Absint(v, host))
    else if key == "button_text" then Php.Str(host.sanitizeText(v))
    else if key == "button_color" then Php.Str(ColorOr(v, ButtonColorFallback))
    else if key == "button_hover_color" then Php.Str(ColorOr(v, ButtonHoverColorFallback))
    else if key == "button_text_color" then Php.Str(ColorOr(v, ButtonTextColorFallback))
    else if key == "filters_per_row" then Php.Int(Php.Clamp(1, 6, Absint(v, host)))
    else Php.Int(Php.Clamp(300, 1200, Absint(v, host)))
  }

  /** `sanitize_settings`: `enable_auto_submit` is always written, 1 when it was
      posted and 0 otherwise; every other known key is written only when it was
      posted, and unknown keys are dropped. */
  function SanitizeSettings(input: Options, host: Host): (r: Options)
    ensures r.Keys == {"enable_auto_submit"} + (input.Keys * SettingKeys)
    ensures r["enable_auto_submit"] == Php.Int(if "enable_auto_submit" in input then 1 else 0)
    ensures "search_page_url" in input ==>
      r["search_page_url"] == Php.Int(Absint(input["search_page_url"], host))
    ensures "button_text" in input ==>
      r["button_text"] == Php.Str(host.sanitizeText(input["button_text"]))
    ensures "button_color" in input ==>
      r["button_color"] == Php.Str(ColorOr(input["button_color"], ButtonColorFallback))
    ensures "button_hover_color" in input ==>
      r["button_hover_color"] == Php.Str(ColorOr(input["button_hover_color"], ButtonHoverColorFallback))
    ensures "button_text_color" in input ==>
      r["button_text_color"] == Php.Str(ColorOr(input["button_text_color"], ButtonTextColorFallback))
    ensures "filters_per_row" in input ==>
      && r["filters_per_row"].Int?
      && 1 <= r["filters_per_row"].i <= 6
      && r["filters_per_row"].i == Php.Clamp(1, 6, Absint(input["filters_per_row"], host))
    ensures "panel_max_height" in input ==>
      && r["panel_max_height"].Int?
      && 300 <= r["panel_max_height"].i <= 1200
      && r["panel_max_height"].i == Php.Clamp(300, 1200, Absint(input["panel_max_height"], host))
  {
    var posted := set k | k in input.Keys && k in SettingKeys && k != "enable_auto_submit";
    var written := map k | k in posted :: SanitizeEntry(k, input[k], host);
    written["enable_auto_submit" := Php.Int(if "enable_auto_submit" in input then 1 else 0)]
  }

  /** `get_option($key, $default)`: the stored value when it is set. */
  function GetOption(options: Options, key: string, default: Php.Value): (r: Php.Value)
    ensures key in options ==> r == options[key]
    ensures key !in options ==> r == default
  {
    if key in options then options[key] else default
  }

  // ---------------------------------------------------------------------
  // Properties of the sanitiser

  /** Every fallback colour is itself a valid colour. */
  lemma FallbacksAreColors()
    ensures HexColor(ButtonColorFallback)
    ensures HexColor(ButtonHoverColorFallback)
    ensures HexColor(ButtonTextColorFallback)
  {
    assert HexBody(ButtonColorFallback);
    assert HexBody(ButtonHoverColorFallback);
    assert HexBody(ButtonTextColorFallback);
  }

  /** Every written colour is a valid hex colour, whatever was posted. */
  lemma SanitizedColorsValid(input: Options, host: Host, key: string)
    requires key in {"button_color", "button_hover_color", "button_text_color"}
    requires key in input
    ensures SanitizeSettings(input, host)[key].Str?
    ensures HexColor(SanitizeSettings(input, host)[key].s)
  {
    FallbacksAreColors();
  }

  /** Re-sanitising an output keeps every numeric setting and every colour
      exactly as it is: an in-range clamp input is left unchanged and a valid
      colour is kept. */
  lemma ResanitizeKeepsValues(input: Options, host: Host, key: string)
    requires key in {"search_page_url", "button_color", "button_hover_color",
                     "button_text_color", "filters_per_row", "panel_max_height"}
    requires key in input
    ensures var once := SanitizeSettings(input, host);
      SanitizeSettings(once, host)[key] == once[key]
  {
    var once := SanitizeSettings(input, host);
    assert key in once;
    FallbacksAreColors();
  }

  /** The sanitiser is not idempotent: a stored 0 for `enable_auto_submit` is
      still set, so sanitising the output again turns it into 1. */
  lemma AutoSubmitFlipsOnResanitize(input: Options, host: Host)
    ensures var once := SanitizeSettings(input, host);
      SanitizeSettings(once, host)["enable_auto_submit"] == Php.Int(1)
    ensures "enable_auto_submit" !in input ==>
      SanitizeSettings(input, host)["enable_auto_submit"] != SanitizeSettings(SanitizeSettings(input, host), host)["enable_auto_submit"]
  {
  }

  /** A clamped setting read back with `get_option` lies in its range when it
      was posted, and is the caller's default otherwise. */
  lemma StoredPanelHeightInRange(input: Options, host: Host, default: Php.Value)
    ensures var v := GetOption(SanitizeSettings(input, host), "panel_max_height", default);
      && ("panel_max_height" in input ==> v.Int? && 300 <= v.i <= 1200)
      && ("panel_max_height" !in input ==> v == default)
  {
  }
}

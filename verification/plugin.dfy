/** The option-default filling of the main plugin file: the configuration
    handed to the browser script (`enqueue_assets`) and the values written
    into the inline button and panel styles (`add_inline_styles`). */
module Plugin {
  import Php
  import Settings

  /** The settings the browser script receives, as far as they come from the
      stored options. */
  datatype ClientConfig = ClientConfig(
    autoSubmit: bool,
    buttonText: Php.Value,
    buttonColor: Php.Value,
    buttonHoverColor: Php.Value,
    buttonTextColor: Php.Value,
    panelMaxHeight: nat)

  /** The values the inline style sheet is built from. */
  datatype InlineStyles = InlineStyles(
    buttonColor: Php.Value,
    buttonHoverColor: Php.Value,
    buttonTextColor: Php.Value,
    panelMaxHeight: nat)

  /** `isset($settings[key]) ? $settings[key] : default`. */
  function Stored(settings: Settings.Options, key: string, default: Php.Value): (r: Php.Value)
    ensures key in settings ==> r == settings[key]
    ensures key !in settings ==> r == default
  {
    Settings.GetOption(settings, key, default)
  }

  /** The stored panel height through `absint`, or 600 when unset. */
  function PanelHeight(settings: Settings.Options, host: Settings.Host): (r: nat)
    ensures "panel_max_height" !in settings ==> r == 600
    ensures "panel_max_height" in settings ==> r == Settings.Absint(settings["panel_max_height"], host)
  {
    if "panel_max_height" in settings then Settings.Absint(settings["panel_max_height"], host) else 600
  }

  /** The configuration of `enqueue_assets`: the flag is `false` when unset
      and the stored value cast to bool otherwise; the other entries fall back
      to the button text "Rechercher", the three default colours and 600. */
  function Config(settings: Settings.Options, host: Settings.Host): (r: ClientConfig)
    ensures r.autoSubmit <==> "enable_auto_submit" in settings && Php.Truthy(settings["enable_auto_submit"])
    ensures r.buttonText == Stored(settings, "button_text", Php.Str("Rechercher"))
    ensures r.buttonColor == Stored(settings, "button_color", Php.Str("#0073aa"))
    ensures r.buttonHoverColor == Stored(settings, "button_hover_color", Php.Str("#005a87"))
    ensures r.buttonTextColor == Stored(settings, "button_text_color", Php.Str("#ffffff"))
    ensures r.panelMaxHeight == PanelHeight(settings, host)
  {
    ClientConfig(
      if "enable_auto_submit" in settings then Php.Truthy(settings["enable_auto_submit"]) else false,
      if "button_text" in settings then settings["button_text"] else Php.Str("Rechercher"),
      if "button_color" in settings then settings["button_color"] else Php.Str("#0073aa"),
      if "button_hover_color" in settings then settings["button_hover_color"] else Php.Str("#005a87"),
      if "button_text_color" in settings then settings["button_text_color"] else Php.Str("#ffffff"),
      PanelHeight(settings, host))
  }

  /** The values of `add_inline_styles`, which repeats the same defaults. */
  function Styles(settings: Settings.Options, host: Settings.Host): (r: InlineStyles)
    ensures r.buttonColor == Stored(settings, "button_color", Php.Str("#0073aa"))
    ensures r.buttonHoverColor == Stored(settings, "button_hover_color", Php.Str("#005a87"))
    ensures r.buttonTextColor == Stored(settings, "button_text_color", Php.Str("#ffffff"))
    ensures r.panelMaxHeight == PanelHeight(settings, host)
  {
    InlineStyles(
      if "button_color" in settings then settings["button_color"] else Php.Str("#0073aa"),
      if "button_hover_color" in settings then settings["button_hover_color"] else Php.Str("#005a87"),
      if "button_text_color" in settings then settings["button_text_color"] else Php.Str("#ffffff"),
      if "panel_max_height" in settings then Settings.Absint(settings["panel_max_height"], host) else 600)
  }

  /** The inline styles and the browser script see the same colours and
      the same panel height, whatever is stored. */
  lemma StylesMatchConfig(settings: Settings.Options, host: Settings.Host)
    ensures var c := Config(settings, host);
      Styles(settings, host) == InlineStyles(c.buttonColor, c.buttonHoverColor, c.buttonTextColor, c.panelMaxHeight)
  {
  }

  /** The colours used when nothing is stored are the very colours the
      settings sanitiser falls back to for an invalid posted colour. */
  lemma DefaultsMatchSanitizer(host: Settings.Host)
    ensures Config(map[], host).buttonColor == Php.Str(Settings.ButtonColorFallback)
    ensures Config(map[], host).buttonHoverColor == Php.Str(Settings.ButtonHoverColorFallback)
    ensures Config(map[], host).buttonTextColor == Php.Str(Settings.ButtonTextColorFallback)
    ensures Config(map[], host).panelMaxHeight == 600
    ensures !Config(map[], host).autoSubmit
  {
  }

  /** Reading back what the sanitiser stored: auto-submit is on exactly when
      it was posted, every colour is a valid hex colour, and the panel height
      lies in [300, 1200] when it was posted and is 600 otherwise. */
  lemma ConfigAfterSanitize(input: Settings.Options, host: Settings.Host)
    ensures var c := Config(Settings.SanitizeSettings(input, host), host);
      && (c.autoSubmit <==> "enable_auto_submit" in input)
      && c.buttonColor.Str? && Settings.HexColor(c.buttonColor.s)
      && c.buttonHoverColor.Str? && Settings.HexColor(c.buttonHoverColor.s)
      && c.buttonTextColor.Str? && Settings.HexColor(c.buttonTextColor.s)
      && ("panel_max_height" in input ==> 300 <= c.panelMaxHeight <= 1200)
      && ("panel_max_height" !in input ==> c.panelMaxHeight == 600)
  {
    var stored := Settings.SanitizeSettings(input, host);
    Settings.FallbacksAreColors();
    if "button_color" in input {
      Settings.SanitizedColorsValid(input, host, "button_color");
    }
    if "button_hover_color" in input {
      Settings.SanitizedColorsValid(input, host, "button_hover_color");
    }
    if "button_text_color" in input {
      Settings.SanitizedColorsValid(input, host, "button_text_color");
    }
  }
}

/** The `[malt_filters]` shortcode renderer, as far as it decides anything:
    its attribute defaults, the submit button's label, and the names and ids
    of the form fields it emits. */
module Shortcode {
  import Php
  import Settings
  import Query
  import Panels
  import Selection
  import Plugin

  /** `shortcode_atts(array('class' => ''), $atts)`: exactly the known
      attributes, each the supplied value or its default. */
  function Atts(atts: map<string, string>): (r: map<string, string>)
    ensures r.Keys == {"class"}
    ensures "class" in atts ==> r["class"] == atts["class"]
    ensures "class" !in atts ==> r["class"] == ""
  {
    map["class" := if "class" in atts then atts["class"] else ""]
  }

  /** The button label: the stored `button_text` through `esc_html` when it
      is set and not empty (so not "" and not "0"), otherwise "Rechercher". */
  function ButtonText(settings: Settings.Options, escHtml: Php.Value -> string): (r: string)
    ensures "button_text" in settings && !Php.Empty(settings["button_text"]) ==>
      r == escHtml(settings["button_text"])
    ensures !("button_text" in settings && !Php.Empty(settings["button_text"])) ==>
      r == "Rechercher"
  {
    if "button_text" in settings && !Php.Empty(settings["button_text"])
    then escHtml(settings["button_text"])
    else "Rechercher"
  }

  /** The label the shortcode prints and the `buttonText` the browser script
      receives agree except on a stored empty text: `isset` keeps a stored ""
      or "0" for the script, while `!empty` replaces it with "Rechercher" on
      the page. */
  lemma ButtonTextAgainstConfig(settings: Settings.Options, escHtml: Php.Value -> string, host: Settings.Host)
    ensures "button_text" !in settings ==>
      ButtonText(settings, escHtml) == "Rechercher" && Plugin.Config(settings, host).buttonText == Php.Str("Rechercher")
    ensures "button_text" in settings && !Php.Empty(settings["button_text"]) ==>
      ButtonText(settings, escHtml) == escHtml(Plugin.Config(settings, host).buttonText)
    ensures "button_text" in settings && Php.Empty(settings["button_text"]) ==>
      ButtonText(settings, escHtml) == "Rechercher" && Plugin.Config(settings, host).buttonText == settings["button_text"]
  {
  }

  /** One form field: the parameter name it submits and its element id. */
  datatype Field = Field(name: string, id: string)

  /** The form's fields in document order. */
  const FormFields: seq<Field> := [
    Field("type_projet", "malt-type-projet"),
    Field("reference", "malt-reference"),
    Field("location", "malt-location"),
    Field("type_lieu", "malt-type-lieu"),
    Field("architecture", "malt-architecture"),
    Field("decoration", "malt-decoration"),
    Field("pieces", "malt-pieces")
  ]

  function Names(fields: seq<Field>): (r: seq<string>)
    ensures |r| == |fields|
    ensures forall i :: 0 <= i < |fields| ==> r[i] == fields[i].name
  {
    if |fields| == 0 then [] else [fields[0].name] + Names(fields[1..])
  }

  /** The type_lieu field's id has its underscore turned into a dash. */
  lemma TypeLieuId(name: string)
    requires name == "type_lieu"
    ensures Selection.HiddenInputId(name) == "malt-type-lieu"
  {
    assert name == "type" + "_" + "lieu";
    Selection.FirstUnderscoreReplaced("type", "lieu");
  }

  /** The other facets' names have no underscore: their ids are `malt-`
      and the name. */
  lemma PlainFacetId(name: string, id: string)
    requires || (name == "architecture" && id == "malt-architecture")
             || (name == "decoration" && id == "malt-decoration")
             || (name == "pieces" && id == "malt-pieces")
    ensures Selection.HiddenInputId(name) == "malt-" + name == id
  {
    assert forall i :: 0 <= i < |name| ==> name[i] != '_';
  }

  lemma FormNames()
    ensures Names(FormFields) == Query.ParamNames
  {
    var names := Names(FormFields);
    assert |names| == |Query.ParamNames|;
    assert forall i :: 0 <= i < |names| ==> names[i] == Query.ParamNames[i];
  }

  /** A field's id is the one the browser script derives from its name. */
  predicate IdFollowsName(f: Field) {
    f.id == Selection.HiddenInputId(f.name)
  }

  /** The four panel facets' fields carry the ids the browser script
      derives from their names. */
  lemma FacetIds()
    ensures IdFollowsName(FormFields[3]) && IdFollowsName(FormFields[4])
    ensures IdFollowsName(FormFields[5]) && IdFollowsName(FormFields[6])
  {
    assert IdFollowsName(FormFields[3]) by {
      TypeLieuId(FormFields[3].name);
    }
    assert IdFollowsName(FormFields[4]) by {
      PlainFacetId(FormFields[4].name, FormFields[4].id);
    }
    assert IdFollowsName(FormFields[5]) by {
      PlainFacetId(FormFields[5].name, FormFields[5].id);
    }
    assert IdFollowsName(FormFields[6]) by {
      PlainFacetId(FormFields[6].name, FormFields[6].id);
    }
  }

  /** The form submits exactly the parameters the query builder reads, in
      the builder's order; the four panel facets' fields are the last four
      and carry the ids the browser script writes the selection into. */
  lemma FormMatchesBuilder()
    ensures Names(FormFields) == Query.ParamNames
    ensures forall i :: 3 <= i < |FormFields| ==> FormFields[i].name in Panels.PanelFilters
    ensures IdFollowsName(FormFields[3]) && IdFollowsName(FormFields[4])
    ensures IdFollowsName(FormFields[5]) && IdFollowsName(FormFields[6])
    ensures FormFields[6].id == Selection.PiecesInputId
  {
    FormNames();
    FacetIds();
  }

  /** Whatever else the URL carries, the search arguments depend only on the
      parameters the form submits. */
  lemma OnlyFormParamsMatter(args: Query.SearchArgs, get: map<string, Query.Param>, key: string, v: Query.Param, sanitize: Query.Sanitizer)
    requires key !in Names(FormFields)
    ensures Query.ExtendSearchArgs(args, Query.RequestOf(get[key := v]), sanitize)
         == Query.ExtendSearchArgs(args, Query.RequestOf(get), sanitize)
  {
    FormNames();
    Query.RequestReadsOnlyParamNames(get[key := v], get);
  }
}

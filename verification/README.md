# Malt Custom Houzez Filters: a verified model

Malt Custom Filters is a WordPress plugin for the Houzez real-estate theme.
It replaces the theme's search bar with a facet form: a project type, a
reference, a location, three single-choice facets (type de lieu, which is a
drill-down tree; architecture; décoration) and a multi-choice facet (pièces &
éléments). This project models the plugin's decision logic in Dafny and
proves properties of it:

- the search-condition builder that turns the request's facet parameters into
  `meta_query` clauses (`extend_search_args` for the theme's search arguments,
  `modify_property_query` for the property archive's main query), with PHP's
  `empty()`, `count()` and `relation` handling written out;
- the browser script's functional core: the static facet catalogue and its
  depth-first lookup, the panel state machine with its materialised
  drill-down levels, single-value selection, the multi-value `pieces` list,
  the checkbox dispatch, the comma splitting of `submitForm` and `escapeHtml`;
- the settings sanitiser and option reader;
- the two results-URL fallback chains, the shortcode's button label,
  attribute defaults and form fields, and the option defaults handed to the
  browser script and the inline styles;
- the registration schema and the guarded save rule of the property meta
  fields.

Library routines whose code is not part of the plugin are parameters of the
model: `sanitize_text_field`, PHP's `intval` (inside `absint`),
`get_permalink`, `home_url`, `esc_html`, `wp_verify_nonce` and
`current_user_can`. `sanitize_hex_color` is modelled concretely, as the
pattern `^#([A-Fa-f0-9]{3}){1,2}$`. That includes the way PHP's `$` also
matches just before one final newline.

Modules: `Wrappers` (Option), `Php` (empty/truthy/abs/clamp), `Query`
(query-hooks.php), `Catalog`, `Panels`, `Selection`, `JsString` and `Html`
(custom-filters.js), `Settings` (settings-page.php), `Plugin` and `Urls`
(malt-custom-houzez-filters.php, render-shortcode.php), `Shortcode`
(render-shortcode.php), `Meta` (register-fields.php).

### Behaviour of the condition builder worth knowing

- A single surviving `pieces[]` entry still gives a one-member OR group
  (`Query.SinglePieceIsOrGroup`): the group starts with `'relation' => 'OR'`,
  and that key counts towards the `count(...) > 1` test. Only a scalar
  `pieces` gives a bare clause.
- The emptiness tests of the single-valued parameters look at the raw request
  value. The clause stores the sanitised value, which may itself be empty.
  `pieces[]` entries are tested after sanitising. A scalar `pieces` is not
  tested again after sanitising.
- `relation => AND` is written when the combined array counts more than one
  element. A `relation` key already present in the existing `meta_query`
  counts too, and it is overwritten.

## Model

| member | source | states |
|---|---|---|
| Query.EqualsCondition | includes/query-hooks.php:37-43 | one equality clause exactly when the raw parameter is set and neither "" nor "0"; the clause carries the sanitised value |
| Query.LocationCondition | includes/query-hooks.php:53-60 | one LIKE clause on `property_address` exactly when `location` is non-empty |
| Query.PiecesClauses | includes/query-hooks.php:94-104 | a pieces clause with value x is present iff some entry sanitises to the non-empty x; the list is non-empty iff some entry survives sanitising |
| Query.PiecesClausesOne | includes/query-hooks.php:96-103 | one entry gives its `pieces` equality clause exactly when it sanitises to something other than "" or "0" |
| Query.PiecesClausesAppend | includes/query-hooks.php:96-104 | the clauses of consecutive entries are the clauses of each part in order, so every surviving entry gives its own clause, repeats included |
| Query.PiecesCondition | includes/query-hooks.php:90-116 | nothing when `pieces` is empty; a list gives one OR group iff some entry survives (the relation key makes count > 1 hold for one member); a scalar gives one bare clause |
| Query.FacetConditions | includes/query-hooks.php:37-87 | at most five conditions, all plain clauses, none on `pieces` |
| Query.SearchTerm | includes/query-hooks.php:46-50 | a search term exactly when `reference` is non-empty, equal to its sanitised value |
| Query.Merge | includes/query-hooks.php:118-124 | nothing is written for an empty array; otherwise existing entries first and unchanged, then the new ones; relation AND iff the count (relation key included) exceeds one |
| Query.ExtendSearchArgs | includes/query-hooks.php:33-126 | other arguments unchanged; `s` set only by a non-empty reference; meta_query left alone when there is nothing to write, else existing entries followed by the new conditions, AND when more than one element |
| Query.ModifyPropertyQuery | includes/query-hooks.php:134-143 | a no-op in admin, off the main query, or outside the property archive and search template |
| Query.NewConditionsOrdered | includes/query-hooks.php:34-116 | conditions appear in the order type_projet, location, type_lieu, architecture, decoration, pieces, each at most once |
| Query.EqualsParamCondition | includes/query-hooks.php:37-87 | each equality facet contributes exactly one clause (its key, its sanitised value) when non-empty and none otherwise, "0" included |
| Query.LocationParamCondition | includes/query-hooks.php:53-60 | exactly one `property_address` condition iff location is non-empty, and it is the LIKE clause with the sanitised value |
| Query.PiecesListCondition | includes/query-hooks.php:91-107 | the OR group of the surviving entries is present iff one entry survives sanitising; no bare pieces clause appears |
| Query.PiecesScalarCondition | includes/query-hooks.php:108-115 | a non-empty scalar pieces gives a last, top-level equality clause with the sanitised value |
| Query.ReferenceAddsNoCondition | includes/query-hooks.php:46-50 | changing `reference` changes neither the conditions nor the written meta_query |
| Query.ArchiveHookMatchesSearchFilter | includes/query-hooks.php:145-237 | once its guard holds, the archive hook leaves the query vars exactly as the search-args filter leaves the same arguments |
| Query.SinglePieceIsOrGroup | includes/query-hooks.php:94-106 | one `pieces[]` entry yields a one-member OR group and a meta_query of one element with no relation |
| Query.TwoFacetsJoinedByAnd | includes/query-hooks.php:119-123 | two facets give two clauses under relation AND, and a location of "0" adds nothing |
| Query.ScalarParam | includes/query-hooks.php:37-60 | a single-valued parameter is read under its name when sent once, and is absent otherwise |
| Query.PiecesParam | includes/query-hooks.php:90-92 | `pieces[]` arrives as a list and a plain `pieces` as a scalar |
| Query.RequestReadsOnlyParamNames | includes/query-hooks.php:33-116 | the builder reads `$_GET` under the seven parameter names only: two requests that agree on them build the same request |
| Catalog.FindIsFirstInPreorder | assets/js/custom-filters.js:498-509 | the depth-first lookup equals the first node of the pre-order listing that carries the name |
| Catalog.FindSpec | assets/js/custom-filters.js:498-509 | the lookup returns null iff no node of the tree has the name, and otherwise the first such node in pre-order |
| Catalog.FindStudio | assets/js/custom-filters.js:14-25 | "Studio" sits under Habitations, then Appartement, as a leaf, and the lookup finds it |
| Panels.CloseAllPanels | assets/js/custom-filters.js:448-453 | no filter is active afterwards; the drill-down lists are untouched |
| Panels.ResetTypeLieu | assets/js/custom-filters.js:458-462 | only the first list is active; the lists are otherwise unchanged and stay well formed |
| Panels.OpenPanel | assets/js/custom-filters.js:427-442 | a filter without a panel changes nothing; otherwise it becomes the active filter; for type_lieu the built lists are kept and only the first is active |
| Panels.TogglePanel | assets/js/custom-filters.js:415-422 | toggling the open filter closes every panel and keeps the lists; toggling another closes all and opens that one, resetting the type_lieu lists to the first and keeping them otherwise |
| Panels.FirstOpenShowsFirstList | assets/js/custom-filters.js:201-205 | on the freshly built panel, opening type_lieu shows exactly its first list, active |
| Panels.CurrentDepth | assets/js/custom-filters.js:469 | the depth of the first active list, or 1 when none is active |
| Panels.FindLevel | assets/js/custom-filters.js:479 | the first list built for that depth and escaped parent, and none iff no such list exists |
| Panels.NavigateToLevel | assets/js/custom-filters.js:467-492 | nothing changes for an unknown or childless parent; otherwise exactly one list is active, one level deeper, tagged with the escaped parent; an existing list is reused without adding one, else one list of the parent's children is appended |
| Panels.ReshowAfterReset | assets/js/custom-filters.js:481-485 | re-showing the depth-2 list after a reset restores the lists exactly |
| Panels.NavigateAfterReopenReuses | assets/js/custom-filters.js:467-492 | re-opening type_lieu and drilling into the same parent again gives the same state, with no second list built |
| Selection.ReplaceFirstUnderscore | assets/js/custom-filters.js:619 | same length, and a name without an underscore is unchanged |
| Selection.FirstUnderscoreReplaced | assets/js/custom-filters.js:619 | only the first underscore becomes a dash; everything after it, later underscores included, is kept |
| Selection.SelectValue | assets/js/custom-filters.js:617-633 | the facet's hidden field holds the value and no other field changes; that facet's trigger shows it and is marked has-value while every other trigger keeps its text and mark; every panel closes; submit iff auto-submit |
| Selection.SelectReplaces | assets/js/custom-filters.js:617-624 | a second selection replaces the first in the field and the label |
| Selection.IndexOf | assets/js/custom-filters.js:580 | -1 iff absent, otherwise the first position of the value |
| Selection.AddValue | assets/js/custom-filters.js:578-582 | the value is listed afterwards and is appended only when it was absent |
| Selection.RemoveValue | assets/js/custom-filters.js:584-588 | an absent value changes nothing; otherwise exactly its first occurrence is removed |
| Selection.AddKeepsNoDuplicates | assets/js/custom-filters.js:578-582 | checking never introduces a duplicate |
| Selection.RemoveKeepsNoDuplicates | assets/js/custom-filters.js:584-588 | unchecking keeps a duplicate-free list duplicate-free and removes the value entirely |
| Selection.AddThenRemove | assets/js/custom-filters.js:576-589 | checking then unchecking a value that was not listed restores the list |
| Selection.PiecesLabel | assets/js/custom-filters.js:597-607 | the label is empty iff the list is empty (or the lone empty value), and a single value is shown as itself |
| Selection.UpdatePiecesSelection | assets/js/custom-filters.js:572-612 | the hidden field is the comma-join of the updated list; the pieces label and has-value follow the list and no other trigger changes; submit iff auto-submit and the list is non-empty; panels untouched |
| Selection.CheckUncheckRestoresField | assets/js/custom-filters.js:572-593 | checking then unchecking a comma-free, unlisted value gives the hidden field back unchanged |
| Selection.OnPiecesCheckbox | assets/js/custom-filters.js:377-391 | an item with children never updates the selection, and when checked opens exactly the entries the submenu lookup finds, if any; an item without children updates the selection |
| Selection.SubmenuItems | assets/js/custom-filters.js:519-527 | a submenu iff some section has an item of that name with children; it is that of the last section holding one |
| Selection.SubmenuInSection | assets/js/custom-filters.js:520-526 | within a section: a submenu iff an item of that name has children, and then the children of the last such item |
| Selection.SubmenuOfUniqueItem | assets/js/custom-filters.js:519-527 | when one catalogue item alone carries the name and children, its children are shown |
| Selection.LeafCheckboxRoundTrip | assets/js/custom-filters.js:377-391 | checking then unchecking a leaf checkbox with a new, comma-free value gives the hidden field back |
| Selection.TrimAndDrop | assets/js/custom-filters.js:649-655 | a text is kept iff it is a piece's trimmed text and not empty; every kept text is trimmed and comma-free |
| Selection.TrimAndDropAppend | assets/js/custom-filters.js:650-655 | pieces are handled one by one in order: one piece gives its trimmed text unless empty, and consecutive parts give the concatenated results |
| Selection.SubmitPieces | assets/js/custom-filters.js:638-656 | an empty field adds no `pieces[]` inputs; otherwise a value is submitted iff it is the non-empty trimmed text of one comma-separated piece |
| Selection.SubmitFirstPiece | assets/js/custom-filters.js:649-655 | the first comma-separated piece's trimmed text (if any) comes first, followed by the inputs of the rest |
| Selection.SubmitRoundTrip | assets/js/custom-filters.js:642-655 | clean values joined into the field come back from submitForm unchanged |
| JsString.Split | assets/js/custom-filters.js:574 | at least one piece, none containing a comma |
| JsString.JoinSplit | assets/js/custom-filters.js:574-593 | joining the pieces of a split gives the text back |
| JsString.SplitJoin | assets/js/custom-filters.js:574-593 | splitting the join of a non-empty, comma-free list gives the list back |
| JsString.Trim | assets/js/custom-filters.js:651 | the result is the text with only white space removed before and after it: trimmed, an infix, empty iff the text is all white space, and a trimmed text is unchanged |
| JsString.TrimPinned | assets/js/custom-filters.js:651 | white space outside a trimmed middle part is exactly what trimming removes |
| JsString.TrimAround | assets/js/custom-filters.js:651 | padding a trimmed text with white space on either side trims back to the text |
| Html.Escape | assets/js/custom-filters.js:720-729 | no `< > " '` remains and the text never shrinks |
| Html.UnescapeEscape | assets/js/custom-filters.js:720-729 | decoding the escaped text gives the original back |
| Html.EscapeInjective | assets/js/custom-filters.js:720-729 | two texts escape equally iff they are equal, so a level's escaped tag identifies its parent |
| Html.EscapePlain | assets/js/custom-filters.js:720-729 | text without special characters is unchanged |
| Settings.SanitizeHexColor | includes/settings-page.php:688 | a result iff the value is "" or a hex colour, and then it is the value itself |
| Settings.ColorOr | includes/settings-page.php:687-700 | a valid hex colour is kept, anything else becomes the fallback |
| Settings.SanitizeSettings | includes/settings-page.php:670-713 | keys are enable_auto_submit plus the known posted keys; auto-submit is 1 iff posted else 0; absint, text, colour and clamp rules per key; filters_per_row in [1,6], panel_max_height in [300,1200] |
| Settings.GetOption | includes/settings-page.php:725-728 | the stored value when set, the default otherwise |
| Settings.FallbacksAreColors | includes/settings-page.php:689-699 | each fallback colour is itself a valid hex colour |
| Settings.SanitizedColorsValid | includes/settings-page.php:687-700 | every written colour is a valid hex colour, whatever was posted |
| Settings.ResanitizeKeepsValues | includes/settings-page.php:702-710 | re-sanitising an output keeps the page id, colours and in-range clamped values unchanged |
| Settings.AutoSubmitFlipsOnResanitize | includes/settings-page.php:677-681 | re-sanitising always gives auto-submit 1, so a stored 0 flips: the sanitiser is not idempotent |
| Settings.StoredPanelHeightInRange | includes/settings-page.php:707-710 | a posted panel height reads back in [300,1200]; an unposted one reads back as the caller's default |
| Plugin.PanelHeight | malt-custom-houzez-filters.php:129 | absint of the stored height, or 600 when unset |
| Plugin.Config | malt-custom-houzez-filters.php:124-129 | auto-submit is false when unset and the bool cast otherwise; stored text and colours or "Rechercher" and the three default colours |
| Plugin.Styles | malt-custom-houzez-filters.php:161-165 | the inline styles' colours and height with the same defaults |
| Plugin.StylesMatchConfig | malt-custom-houzez-filters.php:124-165 | the inline styles and the browser configuration always agree on colours and panel height |
| Plugin.DefaultsMatchSanitizer | malt-custom-houzez-filters.php:126-128 | with nothing stored, the colours are the sanitiser's fallbacks, the height is 600 and auto-submit is off |
| Plugin.ConfigAfterSanitize | malt-custom-houzez-filters.php:124-129 | after sanitising: auto-submit on iff posted, all colours valid, height in [300,1200] when posted and 600 otherwise |
| Urls.FirstUsable | includes/render-shortcode.php:139-153 | the index of the first source whose value is set and truthy, and none iff no source is |
| Urls.ResolveFirstUsable | includes/render-shortcode.php:136-162 | the walk returns the first usable source's URL, and the fallback iff none is usable |
| Urls.ResolvePrefix | includes/render-shortcode.php:139-159 | once a source in a prefix is usable, nothing after it is consulted |
| Urls.ShortcodeOrder | includes/render-shortcode.php:136-162 | settings page, search result page, properties page, archive link, then `home_url('/')`, the first that yields a value winning |
| Urls.PluginOrder | malt-custom-houzez-filters.php:186-207 | the same three sources, then `home_url('/properties/')` |
| Urls.ResolversAgree | malt-custom-houzez-filters.php:188-203 | when a shared source yields a value, both resolvers return the same URL |
| Urls.LaterSourcesIgnored | includes/render-shortcode.php:139-141 | with the settings page set, the later sources do not affect either URL |
| Urls.FallbacksDiffer | malt-custom-houzez-filters.php:206 | with no source set, the two resolvers send the form to different places |
| Shortcode.Atts | includes/render-shortcode.php:19-21 | exactly the `class` attribute, defaulting to "" |
| Shortcode.ButtonText | includes/render-shortcode.php:111-115 | the escaped stored text when it is set and not "" or "0", else "Rechercher" |
| Shortcode.ButtonTextAgainstConfig | includes/render-shortcode.php:111-115 | the printed label and the script's `buttonText` (malt-custom-houzez-filters.php line 125) agree when unset or non-empty; a stored "" or "0" reaches the script as is but prints "Rechercher" |
| Shortcode.Names | includes/render-shortcode.php:37-104 | the parameter names of the fields, in order |
| Shortcode.TypeLieuId | includes/render-shortcode.php:74 | the type_lieu field's id is the one the script derives from the facet name |
| Shortcode.PlainFacetId | includes/render-shortcode.php:84-104 | the architecture, decoration and pieces fields carry `malt-` and the name as id, which is the id the script derives from the name |
| Shortcode.FacetIds | includes/render-shortcode.php:68-104 | each of the four panel facets' hidden fields has the id the script derives from its name |
| Shortcode.FormMatchesBuilder | includes/render-shortcode.php:37-104 | the form submits exactly the builder's parameter names in its order, and the facets' hidden fields carry the ids the script writes to |
| Shortcode.OnlyFormParamsMatter | includes/render-shortcode.php:37-104 | changing any URL parameter the form does not submit leaves the built search arguments unchanged |
| Meta.SaveMetaFields | includes/register-fields.php:139-163 | nothing is written without a valid nonce, during an autosave or without edit rights; otherwise exactly the posted fields are written, sanitised, and every other key is kept |
| Meta.WriteStep | includes/register-fields.php:158-162 | one visit writes the visited field exactly when it was posted |
| Meta.RegisteredSchema | includes/register-fields.php:30-67 | the four registered keys are the saved fields and the panel facets, each a single REST-visible string with the text sanitiser |
| Meta.SaveTwice | includes/register-fields.php:156-162 | saving the same request twice leaves the meta as saving it once |

## Left out

- HTML and CSS output is not modelled: the settings page, the help tabs, the meta box markup, the shortcode markup and the inline CSS text. The model keeps only the values those outputs carry.
- WordPress hook registration, the plugin singleton, script and style enqueueing and the `wp_localize_script` transport are not modelled. They are plumbing.
- DOM work is not modelled: jQuery selectors, animations, submenu positioning, the outside-click timer, and `loadFromURL`'s reading of the address bar. Panel state is a record, the form fields are a map, and the submenu is the entry list it would show.
- How PHP parses a request that carries both `pieces` and `pieces[]` is not modelled, and neither is how the database runs a `meta_query`. The request is one `Pieces` value and the result is the argument array.
- The position of the `relation` key inside the PHP array is not modelled. `meta_query` is an optional relation plus the numbered entries.
- An existing `meta_query` that is not an array is not modelled. `modify_property_query` replaces it with an empty array; the model always starts from the entries present.
- `extend_search_args` takes a `$request` argument it never reads, and the model does not take it either.
- The catalogue's tree does not distinguish an absent `children` from an empty one. The script tests truthiness, and the catalogue has no empty list.
- The bodies of the library routines are not modelled: `sanitize_text_field`, `intval`, `get_permalink`, `home_url`, `get_post_type_archive_link`, `esc_html`, `wp_verify_nonce` and `current_user_can` are parameters or inputs.
- Meta.SaveMetaFields: writes the value sanitised once. `update_post_meta` may apply the registered sanitise callback a second time inside the library, and that is not modelled.
- `__()` translation is not modelled. The default button text is the untranslated "Rechercher".
- Plugin.Config: the `searchPageUrl`, `ajaxUrl`, `nonce` and `pluginUrl` entries are not part of this record. The URL is `Urls.PluginSearchPageUrl`, and the others are site constants.
- Settings.Absint: integers are unbounded. PHP's `abs` of the smallest 64-bit integer (a posted "-9223372036854775808") gives a float, which the model does not represent.
- Query.ScalarParam: a single-valued parameter sent as a list (`type_lieu[]=x`) is read as absent. PHP counts a non-empty list as given, and `sanitize_text_field` turns it into "", so the code adds a clause with an empty value that the model does not produce.
- Html.Escape: the browser's decoding of attributes is modelled only for the five entities the function produces (`Html.Unescape`).
- Selection.PiecesLabel: the count label for two or more values is stated only as non-empty text, built from the decimal count and " items".

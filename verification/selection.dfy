/** Facet selection on the front end: single-select commits, the
    comma-separated multi-select list of `pieces`, the checkbox dispatch and
    the conversion of that list to `pieces[]` fields on submit. */
module Selection {
  import opened Wrappers
  import Catalog
  import Panels
  import JsString
  import Html

  /** The form state the handlers touch: hidden field values by element id,
      the value shown on each filter trigger, the filters marked `has-value`,
      and the panels. The form always renders every filter's hidden field, so
      a handler that writes a field the map lacks only adds the key that the
      page in fact always has. */
  datatype Ui = Ui(
    inputs: map<string, string>,
    display: map<string, string>,
    hasValue: set<string>,
    panels: Panels.PanelState)

  /** The state after a handler, and whether it submits the form. */
  datatype Step = Step(ui: Ui, submit: bool)

  /** `s.replace('_', '-')`: only the first underscore is replaced. */
  function ReplaceFirstUnderscore(s: string): (r: string)
    ensures |r| == |s|
    ensures '_' !in s ==> r == s
  {
    if |s| == 0 then ""
    else if s[0] == '_' then "-" + s[1..]
    else [s[0]] + ReplaceFirstUnderscore(s[1..])
  }

  /** The first underscore becomes a dash and everything after it, further
      underscores included, is kept. */
  lemma {:induction false} FirstUnderscoreReplaced(head: string, tail: string)
    requires '_' !in head
    ensures ReplaceFirstUnderscore(head + "_" + tail) == head + "-" + tail
    decreases |head|
  {
    if |head| == 0 {
      assert head + "_" + tail == "_" + tail;
    } else {
      assert (head + "_" + tail)[1..] == head[1..] + "_" + tail;
      FirstUnderscoreReplaced(head[1..], tail);
    }
  }

  /** The id of the hidden field that carries a filter's value. */
  function HiddenInputId(filter: string): string {
    "malt-" + ReplaceFirstUnderscore(filter)
  }

  const PiecesInputId := "malt-pieces"

  /** `selectValue(filter, value)`: the filter's hidden field holds `value`
      and nothing else, the trigger shows it, every panel closes, and the
      form is submitted exactly when auto-submit is on. */
  function SelectValue(ui: Ui, filter: string, value: string, autoSubmit: bool): (r: Step)
    ensures r.ui.inputs.Keys == ui.inputs.Keys + {HiddenInputId(filter)}
    ensures r.ui.inputs[HiddenInputId(filter)] == value
    ensures forall id :: id in ui.inputs && id != HiddenInputId(filter) ==> r.ui.inputs[id] == ui.inputs[id]
    ensures filter in r.ui.display && r.ui.display[filter] == value && filter in r.ui.hasValue
    ensures r.ui.display == ui.display[filter := value]
    ensures r.ui.hasValue == ui.hasValue + {filter}
    ensures r.ui.panels.activeFilter.None? && r.ui.panels.levels == ui.panels.levels
    ensures r.submit == autoSubmit
  {
    var ui' := Ui(
      ui.inputs[HiddenInputId(filter) := value],
      ui.display[filter := value],
      ui.hasValue + {filter},
      Panels.CloseAllPanels(ui.panels));
    Step(ui', autoSubmit)
  }

  /** Two selections in a row leave only the second value. */
  lemma SelectReplaces(ui: Ui, filter: string, v1: string, v2: string, autoSubmit: bool)
    ensures var r := SelectValue(SelectValue(ui, filter, v1, autoSubmit).ui, filter, v2, autoSubmit);
      r.ui.inputs[HiddenInputId(filter)] == v2 && r.ui.display[filter] == v2
  {
  }

  /** `currentValues`: the hidden field split on commas; an empty field is no values. */
  function CurrentValues(hidden: string): seq<string> {
    if hidden == "" then [] else JsString.Split(hidden)
  }

  function IndexOf(xs: seq<string>, v: string): (r: int)
    ensures -1 <= r < |xs|
    ensures r == -1 <==> v !in xs
    ensures r >= 0 ==> xs[r] == v && v !in xs[..r]
  {
    if |xs| == 0 then -1
    else if xs[0] == v then 0
    else
      var k := IndexOf(xs[1..], v);
      assert xs[1..][..if k >= 0 then k else 0] == xs[1..if k >= 0 then k + 1 else 1];
      if k == -1 then -1 else k + 1
  }

  /** Checking a value appends it unless it is already listed. */
  function AddValue(xs: seq<string>, v: string): (r: seq<string>)
    ensures v in r
    ensures v in xs ==> r == xs
    ensures v !in xs ==> r == xs + [v]
  {
    if IndexOf(xs, v) == -1 then xs + [v] else xs
  }

  /** Unchecking a value removes its first occurrence, if any. */
  function RemoveValue(xs: seq<string>, v: string): (r: seq<string>)
    ensures v !in xs ==> r == xs
    ensures v in xs ==> exists k :: 0 <= k < |xs| && xs[k] == v && v !in xs[..k] && r == xs[..k] + xs[k + 1..]
  {
    var k := IndexOf(xs, v);
    if k > -1 then xs[..k] + xs[k + 1..] else xs
  }

  predicate NoDuplicates(xs: seq<string>) {
    forall i, j :: 0 <= i < j < |xs| ==> xs[i] != xs[j]
  }

  /** Checking never introduces a duplicate. */
  lemma AddKeepsNoDuplicates(xs: seq<string>, v: string)
    requires NoDuplicates(xs)
    ensures NoDuplicates(AddValue(xs, v))
  {
  }

  /** Unchecking never creates a duplicate, and removes the only occurrence. */
  lemma RemoveKeepsNoDuplicates(xs: seq<string>, v: string)
    requires NoDuplicates(xs)
    ensures NoDuplicates(RemoveValue(xs, v))
    ensures v !in RemoveValue(xs, v)
  {
    if v in xs {
      var k := IndexOf(xs, v);
      var r := xs[..k] + xs[k + 1..];
      assert RemoveValue(xs, v) == r;
      forall i, j | 0 <= i < j < |r| ensures r[i] != r[j] {
        var i' := if i < k then i else i + 1;
        var j' := if j < k then j else j + 1;
        assert r[i] == xs[i'] && r[j] == xs[j'] && i' < j';
      }
      forall i | 0 <= i < |r| ensures r[i] != v {
        var i' := if i < k then i else i + 1;
        assert r[i] == xs[i'] && i' != k;
      }
    }
  }

  /** Checking then unchecking a value that was not listed restores the list. */
  lemma AddThenRemove(xs: seq<string>, v: string)
    requires v !in xs
    ensures RemoveValue(AddValue(xs, v), v) == xs
  {
    var ys := xs + [v];
    assert v !in ys[..|xs|] by { assert ys[..|xs|] == xs; }
    var k :| 0 <= k < |ys| && ys[k] == v && v !in ys[..k] && RemoveValue(ys, v) == ys[..k] + ys[k + 1..];
    assert ys[..k] == xs;
  }

  /** The text the `pieces` trigger shows for a list of values. */
  function PiecesLabel(xs: seq<string>): (r: string)
    ensures r == "" <==> |xs| == 0 || (|xs| == 1 && xs[0] == "")
    ensures |xs| == 1 ==> r == xs[0]
  {
    if |xs| == 0 then ""
    else if |xs| == 1 then xs[0]
    else NatToString(|xs|) + " items"
  }

  function DigitChar(d: nat): char
    requires d < 10
  {
    "0123456789"[d]
  }

  /** Decimal digits of a number, as JavaScript prints it. */
  function NatToString(n: nat): (r: string)
    ensures |r| >= 1
    decreases n
  {
    if n < 10 then [DigitChar(n)] else NatToString(n / 10) + [DigitChar(n % 10)]
  }

  /** The hidden `pieces` field's text, "" when the field is absent. */
  function PiecesField(ui: Ui): string {
    if PiecesInputId in ui.inputs then ui.inputs[PiecesInputId] else ""
  }

  /** The list after checking or unchecking `value`. */
  function UpdatedValues(ui: Ui, value: string, checked: bool): seq<string> {
    var before := CurrentValues(PiecesField(ui));
    if checked then AddValue(before, value) else RemoveValue(before, value)
  }

  /** `updatePiecesSelection(value, isChecked)`: the hidden `pieces` field is
      the joined list after adding or removing `value`; the trigger label and
      `has-value` follow the list; the form is submitted when auto-submit is
      on and the list is not empty. */
  function UpdatePiecesSelection(ui: Ui, value: string, checked: bool, autoSubmit: bool): (r: Step)
    ensures var after := UpdatedValues(ui, value, checked);
      && r.ui.inputs == ui.inputs[PiecesInputId := JsString.Join(after)]
      && "pieces" in r.ui.display && r.ui.display["pieces"] == PiecesLabel(after)
      && ("pieces" in r.ui.hasValue <==> |after| > 0)
      && r.submit == (autoSubmit && |after| > 0)
    ensures r.ui.display == ui.display["pieces" := PiecesLabel(UpdatedValues(ui, value, checked))]
    ensures r.ui.hasValue - {"pieces"} == ui.hasValue - {"pieces"}
    ensures r.ui.panels == ui.panels
  {
    var updated := UpdatedValues(ui, value, checked);
    var hasValue := if |updated| > 0 then ui.hasValue + {"pieces"} else ui.hasValue - {"pieces"};
    var ui' := Ui(
      ui.inputs[PiecesInputId := JsString.Join(updated)],
      ui.display["pieces" := PiecesLabel(updated)],
      hasValue,
      ui.panels);
    Step(ui', autoSubmit && |updated| > 0)
  }

  /** On the hidden field itself: checking then unchecking a comma-free value
      that is not yet listed gives the field back unchanged. */
  lemma CheckUncheckRestoresField(ui: Ui, value: string, autoSubmit: bool)
    requires ',' !in value
    requires value !in CurrentValues(PiecesField(ui))
    ensures var once := UpdatePiecesSelection(ui, value, true, autoSubmit).ui;
      var twice := UpdatePiecesSelection(once, value, false, autoSubmit).ui;
      twice.inputs[PiecesInputId] == PiecesField(ui)
  {
    var hidden := PiecesField(ui);
    var current := CurrentValues(hidden);
    var added := AddValue(current, value);
    var once := UpdatePiecesSelection(ui, value, true, autoSubmit).ui;
    assert once.inputs[PiecesInputId] == JsString.Join(added);
    assert forall i :: 0 <= i < |added| ==> ',' !in added[i];
    if JsString.Join(added) == "" {
      // the only list that joins to nothing here is the lone empty value
      assert added == [""] by {
        JsString.SplitJoin(added);
      }
      assert current == [] && hidden == "";
    } else {
      JsString.SplitJoin(added);
      assert CurrentValues(JsString.Join(added)) == added;
    }
    AddThenRemove(current, value);
    JsString.JoinSplit(hidden);
  }

  /** A multi-select item whose checkbox opens a submenu for `value`. */
  predicate Opens(item: Catalog.Node, value: string) {
    item.name == value && Catalog.HasChildren(item)
  }

  /** The submenu entries of the multi-select item named `value`: the scan
      overwrites on every match, so the last matching item with children wins. */
  function SubmenuItems(sections: seq<Catalog.Section>, value: string): (r: Option<seq<Catalog.Node>>)
    ensures r.Some? <==> exists i :: 0 <= i < |sections| && SubmenuInSection(sections[i].items, value).Some?
    ensures r.Some? ==> exists i :: (&& 0 <= i < |sections|
      && r == SubmenuInSection(sections[i].items, value)
      && forall k :: i < k < |sections| ==> SubmenuInSection(sections[k].items, value).None?)
  {
    if |sections| == 0 then None
    else
      var later := SubmenuItems(sections[1..], value);
      assert forall k :: 0 < k < |sections| ==> sections[1..][k - 1] == sections[k];
      if later.Some? then later else SubmenuInSection(sections[0].items, value)
  }

  /** Within one section: the children of the last item that opens a submenu. */
  function SubmenuInSection(items: seq<Catalog.Node>, value: string): (r: Option<seq<Catalog.Node>>)
    ensures r.Some? <==> exists j :: 0 <= j < |items| && Opens(items[j], value)
    ensures r.Some? ==> exists j :: (&& 0 <= j < |items| && Opens(items[j], value)
      && r.value == items[j].children
      && forall k :: j < k < |items| ==> !Opens(items[k], value))
  {
    if |items| == 0 then None
    else
      var later := SubmenuInSection(items[1..], value);
      assert forall k :: 0 < k < |items| ==> items[1..][k - 1] == items[k];
      if later.Some? then later
      else if Opens(items[0], value) then Some(items[0].children)
      else None
  }

  /** What a change of a `pieces` checkbox does. */
  datatype CheckboxEffect =
    | OpenSubmenu(entries: seq<Catalog.Node>)
    | Update(step: Step)
    | NoEffect

  /** The change handler of a `pieces` checkbox: an item with children only
      opens its submenu, and only when checked; an item without children
      updates the selection. */
  function OnPiecesCheckbox(ui: Ui, value: string, hasChildren: bool, checked: bool, autoSubmit: bool): (r: CheckboxEffect)
    ensures hasChildren ==> !r.Update?
    ensures hasChildren && !checked ==> r == NoEffect
    ensures hasChildren && checked ==>
      (r.OpenSubmenu? <==> SubmenuItems(Catalog.PiecesSections, value).Some?)
    ensures r.OpenSubmenu? ==> Some(r.entries) == SubmenuItems(Catalog.PiecesSections, value)
    ensures !hasChildren ==> r == Update(UpdatePiecesSelection(ui, value, checked, autoSubmit))
  {
    if hasChildren && checked then
      var entries := SubmenuItems(Catalog.PiecesSections, value);
      if entries.Some? then OpenSubmenu(entries.value) else NoEffect
    else if !hasChildren then
      Update(UpdatePiecesSelection(ui, value, checked, autoSubmit))
    else NoEffect
  }

  /** When exactly one item of the catalogue opens a submenu for `value`,
      checking it shows that item's children. */
  lemma SubmenuOfUniqueItem(sections: seq<Catalog.Section>, value: string, i: nat, j: nat)
    requires i < |sections| && j < |sections[i].items| && Opens(sections[i].items[j], value)
    requires forall i', j' ::
      (0 <= i' < |sections| && 0 <= j' < |sections[i'].items| && Opens(sections[i'].items[j'], value))
        ==> i' == i && j' == j
    ensures SubmenuItems(sections, value) == Some(sections[i].items[j].children)
  {
    assert SubmenuInSection(sections[i].items, value).Some?;
    var r := SubmenuItems(sections, value);
    var i' :| 0 <= i' < |sections| && r == SubmenuInSection(sections[i'].items, value)
      && forall k :: i' < k < |sections| ==> SubmenuInSection(sections[k].items, value).None?;
    var j' :| 0 <= j' < |sections[i'].items| && Opens(sections[i'].items[j'], value)
      && r.value == sections[i'].items[j'].children;
    assert i' == i && j' == j;
  }

  /** Checking and then unchecking a leaf checkbox whose value is new and
      comma-free leaves the hidden `pieces` field as it was. */
  lemma LeafCheckboxRoundTrip(ui: Ui, value: string, autoSubmit: bool)
    requires ',' !in value
    requires value !in CurrentValues(PiecesField(ui))
    ensures var on := OnPiecesCheckbox(ui, value, false, true, autoSubmit);
      && on.Update?
      && var off := OnPiecesCheckbox(on.step.ui, value, false, false, autoSubmit);
      && off.Update?
      && off.step.ui.inputs[PiecesInputId] == PiecesField(ui)
  {
    CheckUncheckRestoresField(ui, value, autoSubmit);
  }

  /** The `pieces[]` fields `submitForm` adds: the hidden field split on
      commas, each piece trimmed, empty pieces dropped. An empty field adds
      nothing and removes nothing. */
  function SubmitPieces(hidden: string): (r: Option<seq<string>>)
    ensures r.None? <==> hidden == ""
    ensures r.Some? ==> forall x :: x in r.value <==> x in TrimEach(JsString.Split(hidden)) && x != ""
    ensures r.Some? ==> forall i :: 0 <= i < |r.value| ==>
      r.value[i] != "" && ',' !in r.value[i] && JsString.Trimmed(r.value[i])
  {
    if hidden == "" then None else Some(TrimAndDrop(JsString.Split(hidden)))
  }

  /** Every piece trimmed. */
  function TrimEach(pieces: seq<string>): (r: seq<string>)
    ensures |r| == |pieces|
    ensures forall i :: 0 <= i < |r| ==> r[i] == JsString.Trim(pieces[i])
  {
    if |pieces| == 0 then [] else [JsString.Trim(pieces[0])] + TrimEach(pieces[1..])
  }

  /** The pieces trimmed, in order, without the ones that trim to nothing. */
  function TrimAndDrop(pieces: seq<string>): (r: seq<string>)
    requires forall i :: 0 <= i < |pieces| ==> ',' !in pieces[i]
    ensures |r| <= |pieces|
    ensures forall x :: x in r <==> x in TrimEach(pieces) && x != ""
    ensures forall i :: 0 <= i < |r| ==> r[i] != "" && ',' !in r[i] && JsString.Trimmed(r[i])
  {
    if |pieces| == 0 then []
    else
      var piece := JsString.Trim(pieces[0]);
      var rest := TrimAndDrop(pieces[1..]);
      assert TrimEach(pieces) == [piece] + TrimEach(pieces[1..]);
      if piece != "" then [piece] + rest else rest
  }

  /** Trimming and dropping works piece by piece: a single piece gives its
      trimmed text unless that is empty, and a concatenation gives the
      concatenation of the results, so order and repetitions are kept. */
  lemma {:induction false} TrimAndDropAppend(a: seq<string>, b: seq<string>)
    requires forall i :: 0 <= i < |a| ==> ',' !in a[i]
    requires forall i :: 0 <= i < |b| ==> ',' !in b[i]
    ensures |a| == 1 ==> TrimAndDrop(a) == (if JsString.Trim(a[0]) == "" then [] else [JsString.Trim(a[0])])
    ensures TrimAndDrop(a + b) == TrimAndDrop(a) + TrimAndDrop(b)
    decreases |a|
  {
    if |a| == 0 {
      assert a + b == b;
    } else {
      assert (a + b)[0] == a[0];
      assert (a + b)[1..] == a[1..] + b;
      TrimAndDropAppend(a[1..], b);
      if |a| == 1 {
        assert a[1..] == [];
      }
    }
  }

  /** `submitForm` reads the field piece by piece: the first piece's trimmed
      text (if any) comes first, then the fields of the rest. */
  lemma SubmitFirstPiece(first: string, rest: string)
    requires ',' !in first
    ensures SubmitPieces(first + "," + rest)
      == Some((if JsString.Trim(first) == "" then [] else [JsString.Trim(first)]) + TrimAndDrop(JsString.Split(rest)))
  {
    var tail := "," + rest;
    assert JsString.Split(tail) == [""] + JsString.Split(rest) by {
      assert tail[0] == ',' && tail[1..] == rest;
    }
    JsString.SplitPrefix(first, tail);
    assert first + "," + rest == first + tail;
    var st := JsString.Split(tail);
    assert JsString.Split(first + tail) == [first] + JsString.Split(rest) by {
      assert first + st[0] == first;
      assert st[1..] == JsString.Split(rest);
    }
    TrimAndDropAppend([first], JsString.Split(rest));
    assert first + "," + rest != "" by {
      assert |first + "," + rest| > 0;
    }
  }

  lemma {:induction false} TrimAndDropKeepsClean(pieces: seq<string>)
    requires forall i :: 0 <= i < |pieces| ==> pieces[i] != "" && ',' !in pieces[i] && JsString.Trimmed(pieces[i])
    ensures TrimAndDrop(pieces) == pieces
    decreases |pieces|
  {
    if |pieces| > 0 {
      TrimAndDropKeepsClean(pieces[1..]);
      assert pieces == [pieces[0]] + pieces[1..];
    }
  }

  /** A list of clean values (non-empty, trimmed, comma-free) survives the
      trip through the hidden field and `submitForm` unchanged. */
  lemma SubmitRoundTrip(values: seq<string>)
    requires |values| > 0
    requires forall i :: 0 <= i < |values| ==> values[i] != "" && ',' !in values[i] && JsString.Trimmed(values[i])
    ensures SubmitPieces(JsString.Join(values)) == Some(values)
  {
    JsString.SplitJoin(values);
    TrimAndDropKeepsClean(values);
  }
}

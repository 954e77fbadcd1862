/** The panel state machine of the facet front end: which filter's panel is
    open, and which materialised level of the `type_lieu` drill-down panel is
    showing. */
module Panels {
  import opened Wrappers
  import Catalog
  import Html

  /** The filters that have a panel built for them. */
  const PanelFilters: set<string> := {"type_lieu", "architecture", "decoration", "pieces"}

  /** One list of the drill-down panel: its depth (the first list is depth 1),
      the escaped parent value it was built for (none for the first list), its
      entries, and whether it carries the `active` class. */
  datatype Level = Level(depth: nat, parentTag: Option<string>, items: seq<Catalog.Node>, active: bool)

  datatype PanelState = PanelState(activeFilter: Option<string>, levels: seq<Level>)

  /** Levels in the order the panel holds them: the first list leads, every
      later list is below it and tagged with its parent, no two lists share a
      depth and a tag, and at most one is active. */
  predicate WellFormed(levels: seq<Level>) {
    && |levels| >= 1
    && levels[0].depth == 1 && levels[0].parentTag.None?
    && (forall i :: 1 <= i < |levels| ==> levels[i].depth >= 2 && levels[i].parentTag.Some?)
    && (forall i, j :: 0 <= i < j < |levels| ==>
          levels[i].depth != levels[j].depth || levels[i].parentTag != levels[j].parentTag)
    && (forall i, j :: 0 <= i < j < |levels| && levels[i].active ==> !levels[j].active)
  }

  /** Level `k` is the only active one. */
  predicate OnlyActive(levels: seq<Level>, k: nat) {
    k < |levels| && levels[k].active && forall i :: 0 <= i < |levels| && i != k ==> !levels[i].active
  }

  /** The state after the panels are built: nothing open, only the first list. */
  function Initial(): (s: PanelState)
    ensures s.activeFilter.None? && WellFormed(s.levels)
  {
    PanelState(None, [Level(1, None, Catalog.TypeLieuItems, false)])
  }

  /** `closeAllPanels`: no filter stays active; the drill-down lists are untouched. */
  function CloseAllPanels(s: PanelState): (r: PanelState)
    ensures r.activeFilter.None?
    ensures r.levels == s.levels
  {
    s.(activeFilter := None)
  }

  /** Sets the `active` class on exactly the levels `keep` selects. */
  function Activate(levels: seq<Level>, keep: Level -> bool): (r: seq<Level>)
    ensures |r| == |levels|
    ensures forall i :: 0 <= i < |r| ==> r[i] == levels[i].(active := keep(levels[i]))
  {
    if |levels| == 0 then []
    else [levels[0].(active := keep(levels[0]))] + Activate(levels[1..], keep)
  }

  /** `resetTypeLieuPanel`: only the first list is active. */
  function ResetTypeLieu(levels: seq<Level>): (r: seq<Level>)
    requires WellFormed(levels)
    ensures WellFormed(r) && OnlyActive(r, 0)
    ensures |r| == |levels|
    ensures forall i :: 0 <= i < |r| ==> r[i].(active := false) == levels[i].(active := false)
  {
    Activate(levels, (l: Level) => l.depth == 1)
  }

  /** `openPanel`: a filter with a panel becomes the active one, and opening
      `type_lieu` returns its drill-down to the first list. */
  function OpenPanel(s: PanelState, filter: string): (r: PanelState)
    requires WellFormed(s.levels)
    ensures WellFormed(r.levels)
    ensures filter !in PanelFilters ==> r == s
    ensures filter in PanelFilters ==> r.activeFilter == Some(filter)
    ensures filter == "type_lieu" ==> OnlyActive(r.levels, 0)
    ensures filter == "type_lieu" ==> r.levels == ResetTypeLieu(s.levels)
    ensures filter != "type_lieu" ==> r.levels == s.levels
  {
    if filter in PanelFilters then
      PanelState(Some(filter), if filter == "type_lieu" then ResetTypeLieu(s.levels) else s.levels)
    else s
  }

  /** `togglePanel`: clicking the open filter's trigger closes it; any other
      trigger closes everything and opens that filter's panel. */
  function TogglePanel(s: PanelState, filter: string): (r: PanelState)
    requires WellFormed(s.levels)
    ensures WellFormed(r.levels)
    ensures s.activeFilter == Some(filter) ==> r.activeFilter.None?
    ensures s.activeFilter != Some(filter) ==>
      r.activeFilter == (if filter in PanelFilters then Some(filter) else None)
    ensures s.activeFilter == Some(filter) ==> r.levels == s.levels
    ensures s.activeFilter != Some(filter) ==>
      r.levels == (if filter == "type_lieu" then ResetTypeLieu(s.levels) else s.levels)
  {
    if s.activeFilter == Some(filter) then CloseAllPanels(s)
    else OpenPanel(CloseAllPanels(s), filter)
  }

  /** Opening the type_lieu panel for the first time shows its first list,
      active, and nothing else. */
  lemma FirstOpenShowsFirstList()
    ensures TogglePanel(Initial(), "type_lieu")
      == PanelState(Some("type_lieu"), [Level(1, None, Catalog.TypeLieuItems, true)])
  {
    var levels := TogglePanel(Initial(), "type_lieu").levels;
    assert |levels| == 1 && levels[0].(active := false) == Level(1, None, Catalog.TypeLieuItems, false);
    assert levels[0].active;
  }

  /** The depth of the first active list; 1 when none is active. */
  function CurrentDepth(levels: seq<Level>): (d: nat)
    ensures d >= 1
    ensures (forall i :: 0 <= i < |levels| ==> !levels[i].active) ==> d == 1
    ensures forall i :: (0 <= i < |levels| && levels[i].active && levels[i].depth >= 1
              && forall j :: 0 <= j < i ==> !levels[j].active) ==> d == levels[i].depth
  {
    if |levels| == 0 then 1
    else if levels[0].active then (if levels[0].depth == 0 then 1 else levels[0].depth)
    else CurrentDepth(levels[1..])
  }

  /** The first list with the given depth and parent tag, if one was built. */
  function FindLevel(levels: seq<Level>, depth: nat, tag: string): (r: Option<nat>)
    ensures r.Some? ==> r.value < |levels| && levels[r.value].depth == depth
                        && levels[r.value].parentTag == Some(tag)
                        && forall i :: 0 <= i < r.value ==>
                             !(levels[i].depth == depth && levels[i].parentTag == Some(tag))
    ensures r.None? <==> forall i :: 0 <= i < |levels| ==>
                           !(levels[i].depth == depth && levels[i].parentTag == Some(tag))
  {
    if |levels| == 0 then None
    else if levels[0].depth == depth && levels[0].parentTag == Some(tag) then Some(0)
    else
      var r := FindLevel(levels[1..], depth, tag);
      if r.Some? then Some(r.value + 1) else None
  }

  /** The drill-down parent named `value` in the facet tree `tree` (the
      panel always passes `Catalog.TypeLieuItems`). */
  function Parent(tree: seq<Catalog.Node>, value: string): Option<Catalog.Node> {
    Catalog.Find(tree, value)
  }

  /** Whether clicking `value` can drill down: it names a node with children. */
  predicate CanDrillInto(tree: seq<Catalog.Node>, value: string) {
    Parent(tree, value).Some? && Catalog.HasChildren(Parent(tree, value).value)
  }

  /** Re-activates the already built list with the given depth and tag. */
  function ShowExisting(levels: seq<Level>, depth: nat, tag: string): (r: seq<Level>)
    requires WellFormed(levels) && FindLevel(levels, depth, tag).Some?
    ensures WellFormed(r) && OnlyActive(r, FindLevel(levels, depth, tag).value)
    ensures |r| == |levels|
    ensures forall i :: 0 <= i < |r| ==> r[i].(active := false) == levels[i].(active := false)
  {
    var r := Activate(levels, (l: Level) => l.depth == depth && l.parentTag == Some(tag));
    assert OnlyActive(r, FindLevel(levels, depth, tag).value);
    r
  }

  /** Deactivates every list and appends `built` as the active one. */
  function ShowNew(levels: seq<Level>, built: Level): (r: seq<Level>)
    requires WellFormed(levels) && built.active && built.depth >= 2 && built.parentTag.Some?
    requires FindLevel(levels, built.depth, built.parentTag.value).None?
    ensures WellFormed(r) && OnlyActive(r, |levels|)
    ensures |r| == |levels| + 1 && r[|levels|] == built
    ensures r[..|levels|] == Activate(levels, (l: Level) => false)
  {
    var r := Activate(levels, (l: Level) => false) + [built];
    assert r[..|levels|] == Activate(levels, (l: Level) => false);
    r
  }

  /** `navigateToLevel('type_lieu', parentValue)`: show the list of the
      parent's children one level below the current one, building it only
      the first time. */
  function NavigateToLevel(s: PanelState, tree: seq<Catalog.Node>, parentValue: string): (r: PanelState)
    requires WellFormed(s.levels)
    ensures WellFormed(r.levels)
    ensures r.activeFilter == s.activeFilter
    // no parent of that name, or a parent without children: nothing changes
    ensures !CanDrillInto(tree, parentValue) ==> r == s
    // otherwise exactly one list is active: the one a level deeper, tagged with the parent
    ensures CanDrillInto(tree, parentValue) ==>
      exists k: nat :: OnlyActive(r.levels, k)
        && r.levels[k].depth == CurrentDepth(s.levels) + 1
        && r.levels[k].parentTag == Some(Html.Escape(parentValue))
    // a list already built for that depth and parent is reused, nothing is added
    ensures (CanDrillInto(tree, parentValue)
      && FindLevel(s.levels, CurrentDepth(s.levels) + 1, Html.Escape(parentValue)).Some?) ==>
        |r.levels| == |s.levels|
        && forall i :: 0 <= i < |r.levels| ==> r.levels[i].(active := false) == s.levels[i].(active := false)
    // otherwise one list of the parent's children is appended
    ensures (CanDrillInto(tree, parentValue)
      && FindLevel(s.levels, CurrentDepth(s.levels) + 1, Html.Escape(parentValue)).None?) ==>
        |r.levels| == |s.levels| + 1
        && r.levels[..|s.levels|] == Activate(s.levels, (l: Level) => false)
        && r.levels[|s.levels|]
           == Level(CurrentDepth(s.levels) + 1, Some(Html.Escape(parentValue)), Parent(tree, parentValue).value.children, true)
  {
    var next := CurrentDepth(s.levels) + 1;
    var parent := Parent(tree, parentValue);
    if parent.None? || !Catalog.HasChildren(parent.value) then s
    else
      var tag := Html.Escape(parentValue);
      var existing := FindLevel(s.levels, next, tag);
      if existing.Some? then
        s.(levels := ShowExisting(s.levels, next, tag))
      else
        s.(levels := ShowNew(s.levels, Level(next, Some(tag), parent.value.children, true)))
  }

  /** In well-formed levels a depth and tag pick out at most one list. */
  lemma FindLevelUnique(levels: seq<Level>, k: nat, depth: nat, tag: string)
    requires WellFormed(levels)
    requires k < |levels| && levels[k].depth == depth && levels[k].parentTag == Some(tag)
    ensures FindLevel(levels, depth, tag) == Some(k)
  {
  }

  /** Resetting to the first list and then re-showing the list at depth 2
      that was active before restores the levels exactly. */
  lemma ReshowAfterReset(levels: seq<Level>, k: nat, tag: string)
    requires WellFormed(levels) && OnlyActive(levels, k)
    requires levels[k].depth == 2 && levels[k].parentTag == Some(tag)
    ensures FindLevel(ResetTypeLieu(levels), 2, tag) == Some(k)
    ensures ShowExisting(ResetTypeLieu(levels), 2, tag) == levels
  {
    var reset := ResetTypeLieu(levels);
    assert reset[k].(active := false) == levels[k].(active := false);
    FindLevelUnique(reset, k, 2, tag);
    var shown := ShowExisting(reset, 2, tag);
    forall i | 0 <= i < |levels|
      ensures shown[i] == levels[i]
    {
      assert shown[i].(active := false) == levels[i].(active := false);
      assert shown[i].active == (i == k) == levels[i].active;
    }
  }

  /** Re-opening the panel and drilling into the same parent again shows the
      list built the first time instead of building a second one. */
  lemma NavigateAfterReopenReuses(s: PanelState, tree: seq<Catalog.Node>, parentValue: string)
    requires WellFormed(s.levels)
    ensures var first := NavigateToLevel(OpenPanel(s, "type_lieu"), tree, parentValue);
      NavigateToLevel(OpenPanel(first, "type_lieu"), tree, parentValue) == first
  {
    var shown := OpenPanel(s, "type_lieu");
    var first := NavigateToLevel(shown, tree, parentValue);
    var again := OpenPanel(first, "type_lieu");
    assert CurrentDepth(again.levels) == 1 by {
      assert again.levels[0].active && again.levels[0].depth == 1;
    }
    if CanDrillInto(tree, parentValue) {
      assert CurrentDepth(shown.levels) == 1 by {
        assert shown.levels[0].active && shown.levels[0].depth == 1;
      }
      var tag := Html.Escape(parentValue);
      var k: nat :| OnlyActive(first.levels, k) && first.levels[k].depth == 2
                   && first.levels[k].parentTag == Some(tag);
      ReshowAfterReset(first.levels, k, tag);
    }
  }
}

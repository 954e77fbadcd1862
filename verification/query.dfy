/** The search-condition builder: turns the request's facet parameters into
    meta-query conditions spliced into the theme's search arguments
    (`extend_search_args`) and into the property archive's main query
    (`modify_property_query`). Both entry points share one builder. */
module Query {
  import opened Wrappers
  import Php

  datatype Compare = Equals | Like | OtherCompare(op: string)

  /** One meta-query entry: a clause, or a nested array with an optional
      `relation` key and its own entries. */
  datatype Condition =
    | Clause(key: string, value: string, compare: Compare)
    | Group(relation: Option<string>, members: seq<Condition>)

  /** A `meta_query` array: an optional `relation` key and the numbered entries. */
  datatype MetaQuery = MetaQuery(relation: Option<string>, entries: seq<Condition>)

  /** PHP's `count()` of a meta-query array: the `relation` key counts too. */
  function Count(m: MetaQuery): nat {
    |m.entries| + (if m.relation.Some? then 1 else 0)
  }

  /** `pieces` arrives either as a repeated `pieces[]` list or as one value. */
  datatype Pieces = PiecesList(values: seq<string>) | PiecesScalar(value: string)

  /** The request parameters the builder reads; `None` is an absent key. */
  datatype Request = Request(
    typeProjet: Option<string>,
    reference: Option<string>,
    location: Option<string>,
    typeLieu: Option<string>,
    architecture: Option<string>,
    decoration: Option<string>,
    pieces: Option<Pieces>)

  /** The request parameter names, in the order the builder visits them. */
  const ParamNames: seq<string> :=
    ["type_projet", "reference", "location", "type_lieu", "architecture", "decoration", "pieces"]

  /** One GET parameter as PHP parses it: a single value, or the list a
      repeated `name[]` key gives. */
  datatype Param = One(value: string) | Many(values: seq<string>)

  /** A single-valued parameter; a list under that name is read as absent. */
  function ScalarParam(get: map<string, Param>, name: string): (r: Option<string>)
    ensures r.Some? <==> name in get && get[name].One?
    ensures r.Some? ==> r.value == get[name].value
  {
    if name in get && get[name].One? then Some(get[name].value) else None
  }

  /** The `pieces` parameter: a list for `pieces[]`, a scalar otherwise. */
  function PiecesParam(get: map<string, Param>, name: string): (r: Option<Pieces>)
    ensures r.None? <==> name !in get
    ensures name in get && get[name].One? ==> r == Some(PiecesScalar(get[name].value))
    ensures name in get && get[name].Many? ==> r == Some(PiecesList(get[name].values))
  {
    if name !in get then None
    else match get[name]
      case One(v) => Some(PiecesScalar(v))
      case Many(vs) => Some(PiecesList(vs))
  }

  /** The request the builder reads out of `$_GET`, parameter by parameter,
      under the names in `ParamNames`. */
  function RequestOf(get: map<string, Param>): Request
  {
    Request(
      ScalarParam(get, ParamNames[0]),
      ScalarParam(get, ParamNames[1]),
      ScalarParam(get, ParamNames[2]),
      ScalarParam(get, ParamNames[3]),
      ScalarParam(get, ParamNames[4]),
      ScalarParam(get, ParamNames[5]),
      PiecesParam(get, ParamNames[6]))
  }

  /** The request depends on the parameters named in `ParamNames` only: two
      GET maps that agree on those names give the same request. */
  lemma RequestReadsOnlyParamNames(get1: map<string, Param>, get2: map<string, Param>)
    requires forall n :: n in ParamNames ==> (n in get1 <==> n in get2)
    requires forall n :: n in ParamNames && n in get1 ==> get1[n] == get2[n]
    ensures RequestOf(get1) == RequestOf(get2)
  {
    assert forall i :: 0 <= i < |ParamNames| ==> ParamNames[i] in ParamNames;
  }

  /** The text sanitiser applied to every request value. */
  type Sanitizer = string -> string

  /** `!empty($_GET[p])` for a scalar parameter. */
  predicate Given(p: Option<string>) {
    p.Some? && !Php.EmptyString(p.value)
  }

  /** `!empty($_GET['pieces'])`: a non-empty list, or a non-empty scalar. */
  predicate PiecesGiven(p: Option<Pieces>) {
    p.Some? &&
    match p.value
    case PiecesList(vs) => |vs| > 0
    case PiecesScalar(v) => !Php.EmptyString(v)
  }

  /** The four parameters matched by plain equality on a meta key of the same name. */
  const EqualsKeys: set<string> := {"type_projet", "type_lieu", "architecture", "decoration"}

  /** The request value of one of the equality parameters. */
  function EqualsParam(req: Request, key: string): Option<string>
    requires key in EqualsKeys
  {
    if key == "type_projet" then req.typeProjet
    else if key == "type_lieu" then req.typeLieu
    else if key == "architecture" then req.architecture
    else req.decoration
  }

  /** The equality clause of a given parameter, if any. The emptiness test is
      on the raw value; the clause carries the sanitised one. */
  function EqualsCondition(key: string, p: Option<string>, sanitize: Sanitizer): (r: seq<Condition>)
    ensures |r| <= 1
    ensures |r| == 1 <==> Given(p)
    ensures |r| == 1 ==> r[0] == Clause(key, sanitize(p.value), Equals)
  {
    if Given(p) then [Clause(key, sanitize(p.value), Equals)] else []
  }

  /** The address substring condition of `location`. */
  function LocationCondition(p: Option<string>, sanitize: Sanitizer): (r: seq<Condition>)
    ensures |r| <= 1
    ensures |r| == 1 <==> Given(p)
    ensures |r| == 1 ==> r[0] == Clause("property_address", sanitize(p.value), Like)
  {
    if Given(p) then [Clause("property_address", sanitize(p.value), Like)] else []
  }

  /** One `pieces` equality clause per entry that is non-empty once sanitised. */
  function PiecesClauses(values: seq<string>, sanitize: Sanitizer): (r: seq<Condition>)
    ensures |r| <= |values|
    ensures forall c :: c in r ==>
      c.Clause? && c.key == "pieces" && c.compare == Equals && !Php.EmptyString(c.value)
    ensures forall x :: Clause("pieces", x, Equals) in r <==>
      exists i :: 0 <= i < |values| && sanitize(values[i]) == x && !Php.EmptyString(x)
    ensures |r| > 0 <==> exists i :: 0 <= i < |values| && !Php.EmptyString(sanitize(values[i]))
  {
    if |values| == 0 then []
    else
      var piece := sanitize(values[0]);
      var rest := PiecesClauses(values[1..], sanitize);
      if !Php.EmptyString(piece) then [Clause("pieces", piece, Equals)] + rest else rest
  }

  /** A single entry gives its clause exactly when it sanitises to
      something non-empty. */
  lemma PiecesClausesOne(v: string, sanitize: Sanitizer)
    ensures PiecesClauses([v], sanitize)
      == (if Php.EmptyString(sanitize(v)) then [] else [Clause("pieces", sanitize(v), Equals)])
  {
    assert [v][1..] == [];
  }

  /** The clauses of a concatenation are the concatenation of the clauses:
      with `PiecesClausesOne`, one clause per surviving entry, in order. */
  lemma {:induction false} PiecesClausesAppend(a: seq<string>, b: seq<string>, sanitize: Sanitizer)
    ensures PiecesClauses(a + b, sanitize) == PiecesClauses(a, sanitize) + PiecesClauses(b, sanitize)
    decreases |a|
  {
    if |a| == 0 {
      assert a + b == b;
    } else {
      assert (a + b)[0] == a[0];
      assert (a + b)[1..] == a[1..] + b;
      PiecesClausesAppend(a[1..], b, sanitize);
    }
  }

  /** The `pieces` condition: a list becomes an OR group of its clauses, kept
      only when the group holds more than its `relation` key; a scalar becomes
      one top-level equality clause. */
  function PiecesCondition(p: Option<Pieces>, sanitize: Sanitizer): (r: seq<Condition>)
    ensures |r| <= 1
    ensures !PiecesGiven(p) ==> r == []
    ensures p.Some? && p.value.PiecesList? ==>
      (|r| == 1 <==> exists i :: 0 <= i < |p.value.values| && !Php.EmptyString(sanitize(p.value.values[i])))
    ensures p.Some? && p.value.PiecesList? && |r| == 1 ==>
      r[0] == Group(Some("OR"), PiecesClauses(p.value.values, sanitize))
    ensures p.Some? && p.value.PiecesScalar? && PiecesGiven(p) ==>
      r == [Clause("pieces", sanitize(p.value.value), Equals)]
  {
    if !PiecesGiven(p) then []
    else
      match p.value
      case PiecesList(vs) =>
        var group := MetaQuery(Some("OR"), PiecesClauses(vs, sanitize));
        if Count(group) > 1 then [Group(group.relation, group.entries)] else []
      case PiecesScalar(v) =>
        [Clause("pieces", sanitize(v), Equals)]
  }

  /** The single-valued facets' conditions, in the builder's fixed order. */
  function FacetConditions(req: Request, sanitize: Sanitizer): (r: seq<Condition>)
    ensures |r| <= 5
    ensures forall i :: 0 <= i < |r| ==> r[i].Clause? && r[i].key != "pieces"
  {
    EqualsCondition("type_projet", req.typeProjet, sanitize)
    + LocationCondition(req.location, sanitize)
    + EqualsCondition("type_lieu", req.typeLieu, sanitize)
    + EqualsCondition("architecture", req.architecture, sanitize)
    + EqualsCondition("decoration", req.decoration, sanitize)
  }

  /** The conditions the request adds: the facets', then the `pieces` one. */
  function NewConditions(req: Request, sanitize: Sanitizer): seq<Condition>
  {
    FacetConditions(req, sanitize) + PiecesCondition(req.pieces, sanitize)
  }

  /** The free-text term `reference` sets, if any. */
  function SearchTerm(req: Request, sanitize: Sanitizer): (r: Option<string>)
    ensures r.Some? <==> Given(req.reference)
    ensures r.Some? ==> r.value == sanitize(req.reference.value)
  {
    if Given(req.reference) then Some(sanitize(req.reference.value)) else None
  }

  /** The meta-query to write back after appending `added` to `existing`, or
      `None` when the combined array is empty and nothing is written. */
  function Merge(existing: Option<MetaQuery>, added: seq<Condition>): (r: Option<MetaQuery>)
    ensures var base := existing.GetOr(MetaQuery(None, []));
      && (r.None? <==> Count(base) + |added| == 0)
      && (r.Some? ==> r.value.entries == base.entries + added)
      && (r.Some? && Count(base) + |added| > 1 ==> r.value.relation == Some("AND"))
      && (r.Some? && Count(base) + |added| <= 1 ==> r.value.relation == base.relation)
  {
    var base := existing.GetOr(MetaQuery(None, []));
    var combined := MetaQuery(base.relation, base.entries + added);
    if Count(combined) == 0 then None
    else if Count(combined) > 1 then Some(combined.(relation := Some("AND")))
    else Some(combined)
  }

  /** The theme's search arguments, as far as the builder touches them. */
  datatype SearchArgs = SearchArgs(s: Option<string>, metaQuery: Option<MetaQuery>, others: map<string, string>)

  /** Applies a request to search arguments: the search term and the merged meta-query. */
  function Apply(args: SearchArgs, req: Request, sanitize: Sanitizer): SearchArgs
  {
    var term := SearchTerm(req, sanitize);
    var merged := Merge(args.metaQuery, NewConditions(req, sanitize));
    SearchArgs(
      if term.Some? then term else args.s,
      if merged.Some? then merged else args.metaQuery,
      args.others)
  }

  /** `extend_search_args`: existing conditions stay first and unchanged, the
      request's conditions follow, `relation` becomes AND once there is more
      than one element, `reference` only sets the search term, and nothing
      else of the arguments changes. */
  function ExtendSearchArgs(args: SearchArgs, req: Request, sanitize: Sanitizer): (r: SearchArgs)
    ensures r.others == args.others
    ensures Given(req.reference) ==> r.s == Some(sanitize(req.reference.value))
    ensures !Given(req.reference) ==> r.s == args.s
    ensures var base := args.metaQuery.GetOr(MetaQuery(None, []));
      Count(base) + |NewConditions(req, sanitize)| == 0 ==> r.metaQuery == args.metaQuery
    ensures var base := args.metaQuery.GetOr(MetaQuery(None, []));
      Count(base) + |NewConditions(req, sanitize)| > 0 ==>
        && r.metaQuery.Some?
        && r.metaQuery.value.entries == base.entries + NewConditions(req, sanitize)
        && (Count(base) + |NewConditions(req, sanitize)| > 1 ==> r.metaQuery.value.relation == Some("AND"))
        && (Count(base) + |NewConditions(req, sanitize)| <= 1 ==> r.metaQuery.value.relation == base.relation)
  {
    Apply(args, req, sanitize)
  }

  /** Where the archive hook runs. */
  datatype PageContext = PageContext(isAdmin: bool, isPropertyArchive: bool, isSearchTemplate: bool)

  /** The archive's main query: whether it is the main query, and its vars. */
  datatype WpQuery = WpQuery(isMainQuery: bool, vars: SearchArgs)

  /** The guard of `modify_property_query`: the front-end main query of the
      property archive or of the search template. */
  predicate ArchiveHookApplies(q: WpQuery, page: PageContext) {
    !page.isAdmin && q.isMainQuery && (page.isPropertyArchive || page.isSearchTemplate)
  }

  /** `modify_property_query`: when its guard holds, the same conditions and
      search term as `extend_search_args`; otherwise nothing changes. */
  function ModifyPropertyQuery(q: WpQuery, page: PageContext, req: Request, sanitize: Sanitizer): (r: WpQuery)
    ensures !ArchiveHookApplies(q, page) ==> r == q
    ensures r.isMainQuery == q.isMainQuery
  {
    if page.isAdmin || !q.isMainQuery then q
    else if !page.isPropertyArchive && !page.isSearchTemplate then q
    else q.(vars := Apply(q.vars, req, sanitize))
  }

  // ---------------------------------------------------------------------
  // Properties of the builder

  /** The parameter a condition stems from: a clause's key, a group's first member's. */
  function Tag(c: Condition): string {
    match c
    case Clause(key, _, _) => key
    case Group(_, members) => if |members| > 0 then Tag(members[0]) else ""
  }

  /** The builder's visiting order of the condition keys. */
  function Rank(key: string): nat {
    if key == "type_projet" then 0
    else if key == "property_address" then 1
    else if key == "type_lieu" then 2
    else if key == "architecture" then 3
    else if key == "decoration" then 4
    else if key == "pieces" then 5
    else 6
  }

  predicate Ordered(cs: seq<Condition>) {
    forall i, j :: 0 <= i < j < |cs| ==> Rank(Tag(cs[i])) < Rank(Tag(cs[j]))
  }

  predicate RankedBelow(cs: seq<Condition>, k: nat) {
    forall i :: 0 <= i < |cs| ==> Rank(Tag(cs[i])) < k
  }

  predicate AllTagged(cs: seq<Condition>, key: string) {
    forall i :: 0 <= i < |cs| ==> Tag(cs[i]) == key
  }

  lemma AppendInOrder(a: seq<Condition>, b: seq<Condition>, key: string)
    requires Ordered(a) && RankedBelow(a, Rank(key))
    requires |b| <= 1 && AllTagged(b, key)
    ensures Ordered(a + b) && RankedBelow(a + b, Rank(key) + 1)
  {
  }

  lemma PiecesTagged(p: Option<Pieces>, sanitize: Sanitizer)
    ensures AllTagged(PiecesCondition(p, sanitize), "pieces")
  {
    var r := PiecesCondition(p, sanitize);
    if |r| == 1 && p.value.PiecesList? {
      var members := PiecesClauses(p.value.values, sanitize);
      assert members[0] in members;
    }
  }

  lemma FacetsOrdered(req: Request, sanitize: Sanitizer)
    ensures Ordered(FacetConditions(req, sanitize))
    ensures RankedBelow(FacetConditions(req, sanitize), Rank("pieces"))
  {
    var c0 := EqualsCondition("type_projet", req.typeProjet, sanitize);
    var c1 := c0 + LocationCondition(req.location, sanitize);
    var c2 := c1 + EqualsCondition("type_lieu", req.typeLieu, sanitize);
    var c3 := c2 + EqualsCondition("architecture", req.architecture, sanitize);
    AppendInOrder([], c0, "type_projet");
    assert [] + c0 == c0;
    assert Ordered(c0) && RankedBelow(c0, Rank("type_projet") + 1);
    AppendInOrder(c0, LocationCondition(req.location, sanitize), "property_address");
    assert Ordered(c1) && RankedBelow(c1, Rank("property_address") + 1);
    AppendInOrder(c1, EqualsCondition("type_lieu", req.typeLieu, sanitize), "type_lieu");
    assert Ordered(c2) && RankedBelow(c2, Rank("type_lieu") + 1);
    AppendInOrder(c2, EqualsCondition("architecture", req.architecture, sanitize), "architecture");
    assert Ordered(c3) && RankedBelow(c3, Rank("architecture") + 1);
    AppendInOrder(c3, EqualsCondition("decoration", req.decoration, sanitize), "decoration");
  }

  /** The conditions come in the fixed order type_projet, location, type_lieu,
      architecture, decoration, pieces, each at most once. */
  lemma NewConditionsOrdered(req: Request, sanitize: Sanitizer)
    ensures Ordered(NewConditions(req, sanitize))
  {
    FacetsOrdered(req, sanitize);
    PiecesTagged(req.pieces, sanitize);
    AppendInOrder(FacetConditions(req, sanitize), PiecesCondition(req.pieces, sanitize), "pieces");
  }

  /** How many conditions stem from the parameter `key`. */
  function CountTag(cs: seq<Condition>, key: string): nat {
    if |cs| == 0 then 0 else (if Tag(cs[0]) == key then 1 else 0) + CountTag(cs[1..], key)
  }

  lemma {:induction false} CountTagAppend(a: seq<Condition>, b: seq<Condition>, key: string)
    ensures CountTag(a + b, key) == CountTag(a, key) + CountTag(b, key)
    decreases |a|
  {
    if |a| > 0 {
      assert (a + b)[1..] == a[1..] + b;
      CountTagAppend(a[1..], b, key);
    } else {
      assert a + b == b;
    }
  }

  lemma CountTagOne(cs: seq<Condition>, key: string)
    requires |cs| <= 1
    ensures CountTag(cs, key) == (if |cs| == 1 && Tag(cs[0]) == key then 1 else 0)
  {
    if |cs| == 1 {
      assert cs[1..] == [];
    }
  }

  lemma {:induction false} CountTagNone(cs: seq<Condition>, key: string)
    requires forall i :: 0 <= i < |cs| ==> Tag(cs[i]) != key
    ensures CountTag(cs, key) == 0
    decreases |cs|
  {
    if |cs| > 0 {
      CountTagNone(cs[1..], key);
    }
  }

  /** How many facet conditions stem from `key`: one per matching, given parameter. */
  lemma FacetCount(req: Request, sanitize: Sanitizer, key: string)
    ensures CountTag(FacetConditions(req, sanitize), key) ==
      (if key == "type_projet" && Given(req.typeProjet) then 1 else 0)
      + (if key == "property_address" && Given(req.location) then 1 else 0)
      + (if key == "type_lieu" && Given(req.typeLieu) then 1 else 0)
      + (if key == "architecture" && Given(req.architecture) then 1 else 0)
      + (if key == "decoration" && Given(req.decoration) then 1 else 0)
  {
    var e0 := EqualsCondition("type_projet", req.typeProjet, sanitize);
    var l := LocationCondition(req.location, sanitize);
    var e1 := EqualsCondition("type_lieu", req.typeLieu, sanitize);
    var e2 := EqualsCondition("architecture", req.architecture, sanitize);
    var e3 := EqualsCondition("decoration", req.decoration, sanitize);
    CountTagAppend(e0 + l + e1 + e2, e3, key);
    CountTagAppend(e0 + l + e1, e2, key);
    CountTagAppend(e0 + l, e1, key);
    CountTagAppend(e0, l, key);
    CountTagOne(e0, key);
    CountTagOne(l, key);
    CountTagOne(e1, key);
    CountTagOne(e2, key);
    CountTagOne(e3, key);
  }

  lemma FacetMember(req: Request, sanitize: Sanitizer, key: string)
    requires key in EqualsKeys && Given(EqualsParam(req, key))
    ensures Clause(key, sanitize(EqualsParam(req, key).value), Equals) in FacetConditions(req, sanitize)
  {
    var c := Clause(key, sanitize(EqualsParam(req, key).value), Equals);
    var e0 := EqualsCondition("type_projet", req.typeProjet, sanitize);
    var l := LocationCondition(req.location, sanitize);
    var e1 := EqualsCondition("type_lieu", req.typeLieu, sanitize);
    var e2 := EqualsCondition("architecture", req.architecture, sanitize);
    var e3 := EqualsCondition("decoration", req.decoration, sanitize);
    assert FacetConditions(req, sanitize) == e0 + l + e1 + e2 + e3;
    if key == "type_projet" { assert e0 == [c]; }
    else if key == "type_lieu" { assert e1 == [c]; }
    else if key == "architecture" { assert e2 == [c]; }
    else { assert e3 == [c]; }
  }

  /** Each of type_projet, type_lieu, architecture and decoration adds exactly
      one equality clause on its own key, with the sanitised value, when it is
      non-empty (so not "" and not "0"), and nothing otherwise. */
  lemma EqualsParamCondition(req: Request, sanitize: Sanitizer, key: string)
    requires key in EqualsKeys
    ensures CountTag(NewConditions(req, sanitize), key) == (if Given(EqualsParam(req, key)) then 1 else 0)
    ensures Given(EqualsParam(req, key)) ==>
      Clause(key, sanitize(EqualsParam(req, key).value), Equals) in NewConditions(req, sanitize)
  {
    var facets := FacetConditions(req, sanitize);
    var pc := PiecesCondition(req.pieces, sanitize);
    var given := Given(EqualsParam(req, key));
    assert NewConditions(req, sanitize) == facets + pc;
    CountTagAppend(facets, pc, key);
    PiecesTagged(req.pieces, sanitize);
    CountTagNone(pc, key);
    assert CountTag(facets, key) == (if given then 1 else 0) by {
      FacetCount(req, sanitize, key);
    }
    if given {
      FacetMember(req, sanitize, key);
    }
  }

  /** A non-empty location adds one substring clause on `property_address`. */
  lemma LocationParamCondition(req: Request, sanitize: Sanitizer)
    ensures CountTag(NewConditions(req, sanitize), "property_address") == (if Given(req.location) then 1 else 0)
    ensures Given(req.location) ==>
      Clause("property_address", sanitize(req.location.value), Like) in NewConditions(req, sanitize)
  {
    var key := "property_address";
    var facets := FacetConditions(req, sanitize);
    var pc := PiecesCondition(req.pieces, sanitize);
    CountTagAppend(facets, pc, key);
    PiecesTagged(req.pieces, sanitize);
    CountTagNone(pc, key);
    FacetCount(req, sanitize, key);
    if Given(req.location) {
      var e0 := EqualsCondition("type_projet", req.typeProjet, sanitize);
      var l := LocationCondition(req.location, sanitize);
      assert facets == e0 + l + EqualsCondition("type_lieu", req.typeLieu, sanitize)
        + EqualsCondition("architecture", req.architecture, sanitize)
        + EqualsCondition("decoration", req.decoration, sanitize);
      assert l[0] in facets;
    }
  }

  /** A `pieces[]` list yields one OR group, of one equality clause per entry
      still non-empty after sanitising, and it is added exactly when such an
      entry exists, even if there is only one; no bare `pieces` clause appears. */
  lemma PiecesListCondition(req: Request, sanitize: Sanitizer, values: seq<string>)
    requires req.pieces == Some(PiecesList(values))
    ensures (Group(Some("OR"), PiecesClauses(values, sanitize)) in NewConditions(req, sanitize))
        <==> exists i :: 0 <= i < |values| && !Php.EmptyString(sanitize(values[i]))
    ensures forall c :: c in NewConditions(req, sanitize) && c.Clause? ==> c.key != "pieces"
  {
    var facets := FacetConditions(req, sanitize);
    var pc := PiecesCondition(req.pieces, sanitize);
    var group := Group(Some("OR"), PiecesClauses(values, sanitize));
    assert group !in facets;
    assert forall c :: c in facets + pc <==> c in facets || c in pc;
  }

  /** A scalar `pieces` yields one top-level equality clause, last, with the
      sanitised value and no second emptiness test. */
  lemma PiecesScalarCondition(req: Request, sanitize: Sanitizer, value: string)
    requires req.pieces == Some(PiecesScalar(value)) && !Php.EmptyString(value)
    ensures NewConditions(req, sanitize)[|NewConditions(req, sanitize)| - 1]
      == Clause("pieces", sanitize(value), Equals)
    ensures forall c :: c in NewConditions(req, sanitize) ==> c.Clause?
  {
  }

  /** `reference` only sets the search term: the conditions and the written
      meta-query do not depend on it. */
  lemma ReferenceAddsNoCondition(args: SearchArgs, req: Request, sanitize: Sanitizer, other: Option<string>)
    ensures NewConditions(req.(reference := other), sanitize) == NewConditions(req, sanitize)
    ensures ExtendSearchArgs(args, req.(reference := other), sanitize).metaQuery
         == ExtendSearchArgs(args, req, sanitize).metaQuery
  {
  }

  /** Both entry points build the same conditions and term: once its guard
      holds, the archive hook leaves the query vars exactly as the search-args
      filter would leave the same arguments. */
  lemma ArchiveHookMatchesSearchFilter(q: WpQuery, page: PageContext, req: Request, sanitize: Sanitizer)
    requires ArchiveHookApplies(q, page)
    ensures ModifyPropertyQuery(q, page, req, sanitize).vars == ExtendSearchArgs(q.vars, req, sanitize)
  {
  }

  /** A sanitiser that keeps every value, for the worked examples below. */
  function Verbatim(s: string): string { s }

  /** One `pieces[]` entry still yields an OR group of one member, and the
      written meta-query then has a single element and no `relation`. */
  lemma SinglePieceIsOrGroup()
    ensures var req := Request(None, None, None, None, None, None, Some(PiecesList(["3"])));
      var args := SearchArgs(None, None, map[]);
      && NewConditions(req, Verbatim) == [Group(Some("OR"), [Clause("pieces", "3", Equals)])]
      && ExtendSearchArgs(args, req, Verbatim).metaQuery
         == Some(MetaQuery(None, [Group(Some("OR"), [Clause("pieces", "3", Equals)])]))
  {
    var req := Request(None, None, None, None, None, None, Some(PiecesList(["3"])));
    assert PiecesClauses(["3"], Verbatim) == [Clause("pieces", "3", Equals)];
  }

  /** Two facets give two clauses joined by AND; "0" counts as not given. */
  lemma TwoFacetsJoinedByAnd()
    ensures var req := Request(None, None, Some("0"), Some("Loft"), Some("Industriel"), None, None);
      var args := SearchArgs(None, None, map[]);
      ExtendSearchArgs(args, req, Verbatim).metaQuery
        == Some(MetaQuery(Some("AND"), [Clause("type_lieu", "Loft", Equals), Clause("architecture", "Industriel", Equals)]))
  {
    var req := Request(None, None, Some("0"), Some("Loft"), Some("Industriel"), None, None);
    assert "Loft" != "0" && "Industriel" != "0";
    assert FacetConditions(req, Verbatim)
      == [Clause("type_lieu", "Loft", Equals), Clause("architecture", "Industriel", Equals)];
    assert NewConditions(req, Verbatim) == FacetConditions(req, Verbatim) + [];
    var m := ExtendSearchArgs(SearchArgs(None, None, map[]), req, Verbatim).metaQuery;
    assert m.Some? && m.value.relation == Some("AND");
    assert m.value.entries == [] + NewConditions(req, Verbatim);
    assert m.value.entries == [Clause("type_lieu", "Loft", Equals), Clause("architecture", "Industriel", Equals)];
    assert m == Some(MetaQuery(Some("AND"), [Clause("type_lieu", "Loft", Equals), Clause("architecture", "Industriel", Equals)]));
  }
}

/** The two results-page URL resolvers: the shortcode's `get_search_url` and
    the plugin's `get_search_page_url`. Both walk a chain of sources and take
    the first one whose value is truthy; they share their first three sources
    and differ after them. */
module Urls {
  import opened Wrappers
  import Php

  /** One source of the chain: the value its test looks at (`None` for an
      unset option or a `false` return) and the URL it yields when chosen. */
  datatype Candidate = Candidate(value: Option<Php.Value>, url: string)

  /** `if ($value)` / `!empty($value)`: set and truthy. */
  predicate Usable(c: Candidate) {
    c.value.Some? && Php.Truthy(c.value.value)
  }

  /** The values the resolvers read from the site. */
  datatype Sources = Sources(
    settingsPage: Option<Php.Value>,     // the plugin option `search_page_url`
    searchResultPage: Option<Php.Value>, // the theme option `houzez_search_result_page`
    propertiesPage: Option<Php.Value>,   // the theme option `houzez_properties_page`
    archiveLink: Option<string>)         // `get_post_type_archive_link('property')`

  /** The site routines the resolvers call and whose code is not part of this
      model: `get_permalink` and `home_url`. */
  datatype Site = Site(permalink: Php.Value -> string, homeUrl: string -> string)

  /** The index of the first usable candidate, if any. */
  function FirstUsable(chain: seq<Candidate>): (r: Option<nat>)
    ensures r.Some? ==> r.value < |chain| && Usable(chain[r.value])
    ensures r.Some? ==> forall j :: 0 <= j < r.value ==> !Usable(chain[j])
    ensures r.None? <==> forall j :: 0 <= j < |chain| ==> !Usable(chain[j])
  {
    if |chain| == 0 then None
    else if Usable(chain[0]) then Some(0)
    else
      var rest := FirstUsable(chain[1..]);
      if rest.Some? then Some(rest.value + 1) else None
  }

  /** The chain walk as the resolvers write it: return the first usable
      source's URL, else the final fallback. */
  function Resolve(chain: seq<Candidate>, fallback: string): string
  {
    if |chain| == 0 then fallback
    else if Usable(chain[0]) then chain[0].url
    else Resolve(chain[1..], fallback)
  }

  /** The walk returns the URL of the first usable source, and the fallback
      exactly when no source is usable. */
  lemma {:induction false} ResolveFirstUsable(chain: seq<Candidate>, fallback: string)
    ensures FirstUsable(chain).Some? ==> Resolve(chain, fallback) == chain[FirstUsable(chain).value].url
    ensures FirstUsable(chain).None? ==> Resolve(chain, fallback) == fallback
  {
    if |chain| > 0 && !Usable(chain[0]) {
      ResolveFirstUsable(chain[1..], fallback);
    }
  }

  /** Once a source in `a` is usable, nothing after `a` is consulted. */
  lemma {:induction false} ResolvePrefix(a: seq<Candidate>, b: seq<Candidate>, f: string, g: string)
    requires FirstUsable(a).Some?
    ensures Resolve(a + b, f) == Resolve(a, g)
  {
    assert |a| > 0;
    if !Usable(a[0]) {
      assert (a + b)[1..] == a[1..] + b;
      ResolvePrefix(a[1..], b, f, g);
    }
  }

  /** The three sources both resolvers share, in their order. */
  function SharedChain(src: Sources, site: Site): (r: seq<Candidate>)
    ensures |r| == 3
  {
    [ Candidate(src.settingsPage, if src.settingsPage.Some? then site.permalink(src.settingsPage.value) else ""),
      Candidate(src.searchResultPage, if src.searchResultPage.Some? then site.permalink(src.searchResultPage.value) else ""),
      Candidate(src.propertiesPage, if src.propertiesPage.Some? then site.permalink(src.propertiesPage.value) else "") ]
  }

  /** The archive link as a source: `false` is `None`, a link is a string. */
  function ArchiveCandidate(src: Sources): Candidate {
    Candidate(if src.archiveLink.Some? then Some(Php.Str(src.archiveLink.value)) else None,
              src.archiveLink.GetOr(""))
  }

  /** The shortcode's `get_search_url`: the shared sources, then the property
      archive link, then `home_url('/')`. */
  function ShortcodeSearchUrl(src: Sources, site: Site): string {
    Resolve(SharedChain(src, site) + [ArchiveCandidate(src)], site.homeUrl("/"))
  }

  /** The plugin's `get_search_page_url`: the shared sources, then
      `home_url('/properties/')`. */
  function PluginSearchPageUrl(src: Sources, site: Site): string {
    Resolve(SharedChain(src, site), site.homeUrl("/properties/"))
  }

  /** `!empty()` / `if()` on an optional value. */
  predicate Set(v: Option<Php.Value>) {
    v.Some? && Php.Truthy(v.value)
  }

  /** A walk over three sources, case by case. */
  lemma ResolveThree(a: Candidate, b: Candidate, c: Candidate, fallback: string)
    ensures Resolve([a, b, c], fallback) ==
      if Usable(a) then a.url else if Usable(b) then b.url else if Usable(c) then c.url else fallback
  {
    assert [c][1..] == [];
    assert Resolve([c], fallback) == if Usable(c) then c.url else fallback;
    assert [b, c][1..] == [c];
    assert Resolve([b, c], fallback) == if Usable(b) then b.url else Resolve([c], fallback);
    assert [a, b, c][1..] == [b, c];
  }

  /** A walk over four sources, case by case. */
  lemma ResolveFour(a: Candidate, b: Candidate, c: Candidate, d: Candidate, fallback: string)
    ensures Resolve([a, b, c, d], fallback) ==
      if Usable(a) then a.url else if Usable(b) then b.url else if Usable(c) then c.url
      else if Usable(d) then d.url else fallback
  {
    assert [a, b, c, d][1..] == [b, c, d];
    ResolveThree(b, c, d, fallback);
  }

  /** The shortcode resolver's order: the first source that yields a value
      wins, and the home page is the last resort. */
  lemma ShortcodeOrder(src: Sources, site: Site)
    ensures Set(src.settingsPage) ==>
      ShortcodeSearchUrl(src, site) == site.permalink(src.settingsPage.value)
    ensures !Set(src.settingsPage) && Set(src.searchResultPage) ==>
      ShortcodeSearchUrl(src, site) == site.permalink(src.searchResultPage.value)
    ensures !Set(src.settingsPage) && !Set(src.searchResultPage) && Set(src.propertiesPage) ==>
      ShortcodeSearchUrl(src, site) == site.permalink(src.propertiesPage.value)
    ensures !Set(src.settingsPage) && !Set(src.searchResultPage) && !Set(src.propertiesPage) ==>
      ShortcodeSearchUrl(src, site) ==
        (if src.archiveLink.Some? && !Php.EmptyString(src.archiveLink.value)
         then src.archiveLink.value else site.homeUrl("/"))
  {
    var shared := SharedChain(src, site);
    var chain := shared + [ArchiveCandidate(src)];
    assert chain == [shared[0], shared[1], shared[2], ArchiveCandidate(src)];
    ResolveFour(shared[0], shared[1], shared[2], ArchiveCandidate(src), site.homeUrl("/"));
  }

  /** The plugin resolver's order: the same three sources, then
      `home_url('/properties/')`. */
  lemma PluginOrder(src: Sources, site: Site)
    ensures Set(src.settingsPage) ==>
      PluginSearchPageUrl(src, site) == site.permalink(src.settingsPage.value)
    ensures !Set(src.settingsPage) && Set(src.searchResultPage) ==>
      PluginSearchPageUrl(src, site) == site.permalink(src.searchResultPage.value)
    ensures !Set(src.settingsPage) && !Set(src.searchResultPage) && Set(src.propertiesPage) ==>
      PluginSearchPageUrl(src, site) == site.permalink(src.propertiesPage.value)
    ensures !Set(src.settingsPage) && !Set(src.searchResultPage) && !Set(src.propertiesPage) ==>
      PluginSearchPageUrl(src, site) == site.homeUrl("/properties/")
  {
    var shared := SharedChain(src, site);
    assert shared == [shared[0], shared[1], shared[2]];
    ResolveThree(shared[0], shared[1], shared[2], site.homeUrl("/properties/"));
  }

  /** When one of the shared sources yields a value, both resolvers return
      the same URL. */
  lemma ResolversAgree(src: Sources, site: Site)
    requires Set(src.settingsPage) || Set(src.searchResultPage) || Set(src.propertiesPage)
    ensures ShortcodeSearchUrl(src, site) == PluginSearchPageUrl(src, site)
  {
    var shared := SharedChain(src, site);
    assert Usable(shared[0]) || Usable(shared[1]) || Usable(shared[2]);
    ResolvePrefix(shared, [ArchiveCandidate(src)], site.homeUrl("/"), site.homeUrl("/properties/"));
  }

  /** Once the settings page is set, the theme options and the archive link
      are never consulted. */
  lemma LaterSourcesIgnored(src: Sources, site: Site, other: Sources)
    requires Set(src.settingsPage)
    requires other.settingsPage == src.settingsPage
    ensures ShortcodeSearchUrl(other, site) == ShortcodeSearchUrl(src, site)
    ensures PluginSearchPageUrl(other, site) == PluginSearchPageUrl(src, site)
  {
    ShortcodeOrder(src, site);
    ShortcodeOrder(other, site);
    PluginOrder(src, site);
    PluginOrder(other, site);
  }

  /** With none of the shared sources set and no archive link, the two
      resolvers send the form to different places whenever the site's home
      and `/properties/` URLs differ. */
  lemma FallbacksDiffer(site: Site)
    requires site.homeUrl("/") != site.homeUrl("/properties/")
    ensures var none := Sources(None, None, None, None);
      ShortcodeSearchUrl(none, site) != PluginSearchPageUrl(none, site)
  {
    ShortcodeOrder(Sources(None, None, None, None), site);
    PluginOrder(Sources(None, None, None, None), site);
  }
}

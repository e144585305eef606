/** The search-result panel (`SearchResults`): a loader while the search
    query is fetching, else the grid of found posts, else a "no results"
    message. */
module SearchResults {
  import opened Wrappers
  import opened Models

  /** The search query's data: a document list. */
  datatype SearchList = SearchList(documents: seq<Document>)

  datatype Shown = Loader | Grid(posts: seq<Document>) | NoResults

  /** The three-way choice. `searchedPosts` is `None` while the query has
      produced no data yet. */
  function Render(isSearchFetching: bool, searchedPosts: Option<SearchList>): (v: Shown)
    ensures v.Loader? <==> isSearchFetching
    ensures v.Grid? <==>
              !isSearchFetching && searchedPosts.Some? && |searchedPosts.value.documents| > 0
    ensures v.Grid? ==> v.posts == searchedPosts.value.documents
    ensures v.NoResults? <==>
              !isSearchFetching && (searchedPosts.None? || searchedPosts.value.documents == [])
  {
    if isSearchFetching then Loader
    else if searchedPosts.Some? && |searchedPosts.value.documents| > 0 then Grid(searchedPosts.value.documents)
    else NoResults
  }

  /** The grid never shows an empty list, and the fetching flag alone decides
      the loader: while fetching, the results present make no difference. */
  lemma GridIsNeverEmpty(isSearchFetching: bool, a: Option<SearchList>, b: Option<SearchList>)
    ensures Render(isSearchFetching, a).Grid? ==> |Render(isSearchFetching, a).posts| > 0
    ensures isSearchFetching ==> Render(isSearchFetching, a) == Render(isSearchFetching, b)
  {
  }
}

/** The explore page (`Explore`): the infinite post feed, the search box that
    replaces it with search results, and the sentinel whose visibility asks
    for the next page. */
module Explore {
  import opened Wrappers
  import opened Models
  import SearchResults

  /** One fetched page of the feed. */
  datatype Page = Page(documents: seq<Document>)

  /** The infinite query's data: its pages in fetch order. An entry may be
      `undefined`. */
  datatype Feed = Feed(pages: seq<Option<Page>>)

  /** Everything the page reads on one render. `searchValue` is the raw
      text in the box; `debouncedValue` is the text the search query was
      issued for; `searchedPosts` and `isSearchFetching` are that query's
      state, so they stand for whatever the query returned for
      `debouncedValue`. */
  datatype Inputs = Inputs(
    inView: bool,
    searchValue: string,
    debouncedValue: string,
    hasNextPage: bool,
    posts: Option<Feed>,
    searchedPosts: Option<SearchResults.SearchList>,
    isSearchFetching: bool)

  /** The body of the results area. */
  datatype Content =
    | SearchPanel(shown: SearchResults.Shown)
    | EndOfFeed
    | PageGrids(grids: seq<seq<Document>>)

  /** The rendered page: only a loader until feed data exists; then the
      results area and whether the sentinel element is mounted. */
  datatype Screen = LoaderOnly | Ready(content: Content, sentinel: bool)

  /** The dependencies of the next-page effect. */
  datatype EffectDeps = EffectDeps(inView: bool, searchValue: string)

  /** The effect runs after the first render and after every render whose
      dependencies differ from the previous render's; when it runs it asks
      for the next page iff the sentinel is in view and the box is empty.
      The effect is declared before the early return, so it runs whether or
      not feed data exists. */
  function RequestsNextPage(previous: Option<EffectDeps>, current: EffectDeps): (fetch: bool)
    ensures fetch ==> current.inView && current.searchValue == ""
    ensures fetch <==>
              (previous.None? || previous.value != current) && current.inView && current.searchValue == ""
  {
    var runs := previous.None? || previous.value != current;
    runs && current.inView && current.searchValue == ""
  }

  /** A page counts as empty only when it is present and holds no document:
      for a missing page `item?.documents.length === 0` is false. */
  predicate EmptyPage(p: Option<Page>) {
    p.Some? && |p.value.documents| == 0
  }

  /** `pages.every(...)` from the end-of-feed test. */
  function AllEmpty(pages: seq<Option<Page>>): (b: bool)
    ensures b <==> forall i :: 0 <= i < |pages| ==> EmptyPage(pages[i])
  {
    if |pages| == 0 then true
    else EmptyPage(pages[0]) && AllEmpty(pages[1..])
  }

  /** The documents a page grid shows: a missing page shows as empty. */
  function GridOf(p: Option<Page>): seq<Document> {
    match p
    case Some(page) => page.documents
    case None => []
  }

  /** The grids, one per page, in page order. */
  function Grids(pages: seq<Option<Page>>): (gs: seq<seq<Document>>)
    ensures |gs| == |pages|
    ensures forall i :: 0 <= i < |pages| ==> gs[i] == GridOf(pages[i])
  {
    if |pages| == 0 then []
    else [GridOf(pages[0])] + Grids(pages[1..])
  }

  /** The render. */
  function Render(inp: Inputs): (s: Screen)
    ensures s.LoaderOnly? <==> inp.posts.None?
    ensures s.Ready? ==> (s.content.SearchPanel? <==> inp.searchValue != "")
    ensures s.Ready? ==> (s.sentinel <==> inp.hasNextPage && inp.searchValue == "")
    ensures s.Ready? && s.content.SearchPanel? ==>
              s.content.shown == SearchResults.Render(inp.isSearchFetching, inp.searchedPosts)
    ensures s.Ready? ==>
              (s.content.EndOfFeed? <==>
                 inp.searchValue == "" &&
                 forall i :: 0 <= i < |inp.posts.value.pages| ==> EmptyPage(inp.posts.value.pages[i]))
    ensures s.Ready? && s.content.PageGrids? ==> s.content.grids == Grids(inp.posts.value.pages)
  {
    match inp.posts
    case None => LoaderOnly
    case Some(feed) =>
      var shouldShowSearchResults := inp.searchValue != "";
      var shouldShowPosts := !shouldShowSearchResults && AllEmpty(feed.pages);
      var content :=
        if shouldShowSearchResults then SearchPanel(SearchResults.Render(inp.isSearchFetching, inp.searchedPosts))
        else if shouldShowPosts then EndOfFeed
        else PageGrids(Grids(feed.pages));
      Ready(content, inp.hasNextPage && inp.searchValue == "")
  }

  /** All documents of a list of grids, in order. */
  function Flatten(gs: seq<seq<Document>>): seq<Document> {
    if |gs| == 0 then [] else gs[0] + Flatten(gs[1..])
  }

  /** A document sits in the flattened grids iff it sits in one of them. */
  lemma {:induction false} FlattenMembership(gs: seq<seq<Document>>, d: Document)
    ensures d in Flatten(gs) <==> exists i :: 0 <= i < |gs| && d in gs[i]
  {
    if |gs| > 0 {
      FlattenMembership(gs[1..], d);
      if d in Flatten(gs[1..]) {
        var i :| 0 <= i < |gs[1..]| && d in gs[1..][i];
        assert d in gs[i + 1];
      }
      if exists i :: 0 <= i < |gs| && d in gs[i] {
        var i :| 0 <= i < |gs| && d in gs[i];
        if i > 0 {
          assert d in gs[1..][i - 1];
        }
      }
    }
  }

  /** With no pages at all the end-of-feed message shows, unless searching. */
  lemma NoPagesIsEndOfFeed(inp: Inputs)
    requires inp.posts == Some(Feed([]))
    requires inp.searchValue == ""
    ensures Render(inp) == Ready(EndOfFeed, inp.hasNextPage)
  {
  }

  /** Outside a search, every fetched document is on screen: when some page
      holds a document, the grids are shown and that document is among them. */
  lemma FetchedDocumentsAreShown(inp: Inputs, i: nat, d: Document)
    requires inp.posts.Some? && inp.searchValue == ""
    requires i < |inp.posts.value.pages| && inp.posts.value.pages[i].Some?
    requires d in inp.posts.value.pages[i].value.documents
    ensures Render(inp).content.PageGrids?
    ensures d in Flatten(Render(inp).content.grids)
  {
    var gs := Grids(inp.posts.value.pages);
    assert !EmptyPage(inp.posts.value.pages[i]);
    assert d in gs[i];
    FlattenMembership(gs, d);
  }

  /** The raw box text, not the debounced one, decides between search and
      feed. The debounced text only selects the search query, whose data and
      fetching flag fill the search panel: renders that differ in the
      debounced text and that query's state show the same kind of content
      and the same sentinel, and outside a search they are equal. */
  lemma RawValueDecides(inp: Inputs, debounced: string, searched: Option<SearchResults.SearchList>, fetching: bool)
    ensures var other := inp.(debouncedValue := debounced, searchedPosts := searched, isSearchFetching := fetching);
            && (Render(other).LoaderOnly? <==> Render(inp).LoaderOnly?)
            && (Render(inp).Ready? ==>
                  && Render(other).content.SearchPanel? == Render(inp).content.SearchPanel?
                  && Render(other).content.EndOfFeed? == Render(inp).content.EndOfFeed?
                  && Render(other).content.PageGrids? == Render(inp).content.PageGrids?
                  && Render(other).sentinel == Render(inp).sentinel)
            && (inp.searchValue == "" ==> Render(other) == Render(inp))
  {
  }

  /** A search suspends pagination: no next-page request, no sentinel, and
      the search panel in place of the feed. */
  lemma SearchSuspendsPagination(inp: Inputs, previous: Option<EffectDeps>)
    requires inp.searchValue != ""
    ensures !RequestsNextPage(previous, EffectDeps(inp.inView, inp.searchValue))
    ensures Render(inp).Ready? ==> !Render(inp).sentinel && Render(inp).content.SearchPanel?
  {
  }

  /** Re-rendering with unchanged dependencies never asks for another page. */
  lemma SameDepsNoRequest(deps: EffectDeps)
    ensures !RequestsNextPage(Some(deps), deps)
  {
  }
}

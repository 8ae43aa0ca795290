/**
 * The news-list controller: search, infinite-scroll pagination and article
 * selection over one accumulated list of articles.
 *
 * Each input is a pure transition from the controller state to a `Step`:
 * the next state, the notifications sent to the screen (in order) and the
 * fetch it starts, if any. A fetch runs in two halves: `SearchNews` begins
 * it, and `Complete` applies its outcome once the network answers.
 */
module NewsVM {
  import opened Wrappers
  import opened Model
  import Api

  const DefaultQuery: string := "Apple"

  datatype State = State(
    articles: seq<Article>,
    currentPage: int,
    isLoading: bool,
    hasMorePages: bool,
    currentQuery: string
  )

  /** The notifications the controller sends to the screen. */
  datatype Event =
    | ShowLoading
    | HideLoading
    | UpdateArticles
    | ShowError(message: string)
    | NavigateToDetail(article: Article)

  /** What the network answers to a fetch. Every transport, status and
      decoding failure reaches the controller as one error with a
      message. */
  datatype FetchResult = Success(fetched: seq<Article>) | Failure(message: string)

  datatype Step = Step(state: State, events: seq<Event>, fetch: Option<Api.Router>)

  /** No change, no notification, no fetch. */
  function Ignore(s: State): (r: Step)
    ensures r.state == s && r.events == [] && r.fetch.None?
  {
    Step(s, [], None)
  }

  /** A freshly created controller. */
  function Initial(): (s: State)
    ensures s.articles == [] && s.currentPage == 1
    ensures !s.isLoading && s.hasMorePages
    ensures s.currentQuery == "Apple"
  {
    State([], 1, false, true, DefaultQuery)
  }

  /** `searchNews(query:)` up to the point where the fetch is handed to the
      network. While a fetch is pending it does nothing at all. Otherwise a
      new query starts over from an empty list at page 1, the same query
      continues where it was, and a fetch for the current query and page
      goes out. The more-pages flag is left as it was. */
  function SearchNews(s: State, query: string): (r: Step)
    ensures s.isLoading ==> r == Ignore(s)
    ensures !s.isLoading ==>
              && r.state.isLoading
              && r.state.currentQuery == query
              && r.state.hasMorePages == s.hasMorePages
              && r.fetch == Some(Api.News(query, r.state.currentPage))
              && r.events == []
    ensures !s.isLoading && query == s.currentQuery ==>
              r.state.articles == s.articles && r.state.currentPage == s.currentPage
    ensures !s.isLoading && query != s.currentQuery ==>
              r.state.articles == [] && r.state.currentPage == 1
  {
    if s.isLoading then Ignore(s)
    else
      var restarted := if query != s.currentQuery
                       then s.(currentPage := 1, articles := [], currentQuery := query)
                       else s;
      var next := restarted.(isLoading := true);
      Step(next, [], Some(Api.News(query, next.currentPage)))
  }

  /** The second half of a fetch: the network's answer is applied to the
      state as it is when the answer arrives. A page of results is appended
      and moves the page on; an empty page means there is nothing more. A
      failure only ends the loading and reports the message. */
  function Complete(s: State, result: FetchResult): (r: Step)
    ensures !r.state.isLoading && r.fetch.None?
    ensures r.state.currentQuery == s.currentQuery
    ensures result.Success? ==>
              && r.state.articles == s.articles + result.fetched
              && (r.state.hasMorePages <==> result.fetched != [])
              && r.state.currentPage == s.currentPage + 1
              && r.events == [HideLoading, UpdateArticles]
    ensures result.Failure? ==>
              && r.state == s.(isLoading := false)
              && r.events == [HideLoading, ShowError(result.message)]
  {
    match result
    case Success(fetched) =>
      var next := s.(articles := s.articles + fetched,
                     hasMorePages := |fetched| != 0,
                     currentPage := s.currentPage + 1,
                     isLoading := false);
      Step(next, [HideLoading, UpdateArticles], None)
    case Failure(message) =>
      Step(s.(isLoading := false), [HideLoading, ShowError(message)], None)
  }

  /** `loadMoreArticles()`: when nothing is pending and more pages are
      expected, shows the loading indicator and fetches the next page of the
      current query, keeping the list; otherwise does nothing. */
  function LoadMoreArticles(s: State): (r: Step)
    ensures s.isLoading || !s.hasMorePages ==> r == Ignore(s)
    ensures !s.isLoading && s.hasMorePages ==>
              && r.state == s.(isLoading := true)
              && r.events == [ShowLoading]
              && r.fetch == Some(Api.News(s.currentQuery, s.currentPage))
  {
    if s.isLoading || !s.hasMorePages then Ignore(s)
    else
      var search := SearchNews(s, s.currentQuery);
      Step(search.state, [ShowLoading] + search.events, search.fetch)
  }

  /** `fetchInitialNews()`: forgets the list and the page and goes back to
      the default query before searching for it. The reset happens before
      the pending-fetch guard, so while a fetch is pending the list is
      cleared although no new fetch starts. */
  function FetchInitialNews(s: State): (r: Step)
    ensures r.state.currentQuery == DefaultQuery && r.state.hasMorePages == s.hasMorePages
    ensures r.state.articles == [] && r.state.currentPage == 1
    ensures r.state.isLoading && r.events == []
    ensures s.isLoading <==> r.fetch.None?
    ensures !s.isLoading ==> r.fetch == Some(Api.News(DefaultQuery, 1))
  {
    var reset := s.(currentPage := 1, articles := [], currentQuery := DefaultQuery);
    SearchNews(reset, reset.currentQuery)
  }

  /** `selectedArticle(at:)`: opens the article at `index` when it is a
      position of the list; an index outside the list is dropped. */
  function SelectedArticle(s: State, index: int): (r: Step)
    ensures r.state == s && r.fetch.None?
    ensures r.events != [] <==> 0 <= index < |s.articles|
    ensures 0 <= index < |s.articles| ==> r.events == [NavigateToDetail(s.articles[index])]
  {
    if 0 <= index && index < |s.articles| then
      Step(s, [NavigateToDetail(s.articles[index])], None)
    else Ignore(s)
  }

  // ---------------------------------------------------------------------
  // Properties of whole fetch cycles

  /** Searching a new query while idle and getting its first page back
      leaves exactly that page on screen, with the second page next. */
  lemma NewQueryReplacesList(s: State, query: string, page: seq<Article>)
    requires !s.isLoading && query != s.currentQuery
    ensures var begin := SearchNews(s, query);
            var done := Complete(begin.state, Success(page));
            && begin.fetch == Some(Api.News(query, 1))
            && done.state.articles == page
            && done.state.currentPage == 2
            && done.state.currentQuery == query
            && done.state.hasMorePages == (page != [])
  {
  }

  /** Loading more while idle appends the next page to what is there and
      moves the page counter on by one. */
  lemma LoadMoreAppendsNextPage(s: State, page: seq<Article>)
    requires !s.isLoading && s.hasMorePages
    ensures var begin := LoadMoreArticles(s);
            var done := Complete(begin.state, Success(page));
            && begin.fetch == Some(Api.News(s.currentQuery, s.currentPage))
            && done.state == s.(articles := s.articles + page,
                                currentPage := s.currentPage + 1,
                                hasMorePages := page != [])
            && begin.events + done.events == [ShowLoading, HideLoading, UpdateArticles]
  {
  }

  /** A failed fetch for the same query leaves the state exactly as it was
      before the fetch began, so the user can simply try again. */
  lemma FailedRetryChangesNothing(s: State, message: string)
    requires !s.isLoading
    ensures var begin := SearchNews(s, s.currentQuery);
            var done := Complete(begin.state, Failure(message));
            done.state == s && done.events == [HideLoading, ShowError(message)]
  {
  }

  /** An empty page ends the pagination: further requests for more are
      ignored until a search succeeds with results. */
  lemma EmptyPageEndsPagination(s: State)
    ensures var done := Complete(s, Success([]));
            && done.state.articles == s.articles
            && LoadMoreArticles(done.state) == Ignore(done.state)
  {
  }

  /** A new query does not reset the more-pages flag: after an exhausted
      query, a new search that fails leaves loading more switched off for
      the new query. */
  lemma ExhaustedFlagSurvivesFailedSearch(s: State, query: string, message: string)
    requires !s.isLoading && !s.hasMorePages && query != s.currentQuery
    ensures var begin := SearchNews(s, query);
            var done := Complete(begin.state, Failure(message));
            && done.state.currentQuery == query
            && done.state.articles == []
            && LoadMoreArticles(done.state) == Ignore(done.state)
  {
  }

  /** Calling `fetchInitialNews()` while a fetch is pending wipes the list
      without fetching, and the pending answer then lands in the reset
      state: the list shows the old query's results under the default
      query, at page 2. */
  lemma FetchInitialWhileLoadingTakesStaleAnswer(s: State, page: seq<Article>)
    requires s.isLoading
    ensures var reset := FetchInitialNews(s);
            var done := Complete(reset.state, Success(page));
            && reset.fetch.None?
            && reset.state.articles == []
            && done.state.articles == page
            && done.state.currentQuery == DefaultQuery
            && done.state.currentPage == 2
  {
  }
}

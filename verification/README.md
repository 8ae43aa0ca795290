# News client core in Dafny

A Dafny model of the logic behind a news-browsing app. The app searches a
news aggregation service and shows the results in an infinitely scrolling list.
The model covers two parts:

- **The news-list controller (`NewsVM`).** It holds the accumulated article
  list, the current page, the current query, a loading flag and a
  "more pages" flag. It reacts to four inputs: the initial fetch, a search,
  a scroll near the bottom ("load more"), and a tap on a row. Each input is
  a pure transition. It returns the next state, the notifications for the
  screen (`showLoading`, `hideLoading`, `updateArticles`, `showError`,
  `navigateToDetail`) in order, and the fetch it starts, if any. An
  asynchronous fetch is split in two. `SearchNews` is the synchronous part
  up to the hand-off. `Complete` applies the network's answer to the state
  as it is when the answer arrives.
- **The request side (`API.swift`).** `Router.news` becomes a request:
  GET on `https://newsapi.org/v2/everything` with the parameters `q`,
  `page`, `pageSize` (always 15) and `apiKey`. The model also covers the
  `.env` credential parser, which returns the trimmed value of the first
  `API_KEY=value` line.

Modules, one per concern:

| file | module | contents |
|---|---|---|
| `wrappers.dfy` | `Wrappers` | `Option`, standing in for Swift optionals |
| `model.dfy` | `Model` | `Article` and `Source`, opaque records of optional strings |
| `text.dfy` | `Text` | Swift's `split(separator:)` (empty pieces omitted) and `trimmingCharacters(in: .whitespaces)` |
| `api.dfy` | `Api` | `Router`, request parameters, the `.env` parser |
| `newsvm.dfy` | `NewsVM` | controller state and transitions, properties of fetch cycles |
| `session.dfy` | `Session` | the controller driven by input sequences, with the network as an oracle |

The network is modelled as an oracle. In `Session`, the input
`Respond(result)` answers the pending fetch with any success or failure. An
answer can only arrive while a fetch is pending. The loading guard at the
top of `searchNews` and `loadMoreArticles` ensures that at most one fetch is
pending. `Session.Valid` states this, and `Session.RunKeepsValid` proves it
for every input sequence, so the model needs no concurrency.

The source has three behaviours that the model keeps as written:

- A query change does not reset `hasMorePages`. If the previous query was
  exhausted and the new search fails, "load more" stays off
  (`NewsVM.ExhaustedFlagSurvivesFailedSearch`).
- `fetchInitialNews` resets the list, the page and the query *before* the
  loading guard. Called while a fetch is pending, it wipes the list and
  starts nothing. The pending answer then lands under the default query
  (`NewsVM.FetchInitialWhileLoadingTakesStaleAnswer`). There is no
  cancellation, so a stale answer is always applied to the current state.
- `searchNews` does not reject an empty query. Only the screen does
  (NewsVC.swift:140), so the model accepts any query string.

Notifications and errors, as the code sends them:

- A successful fetch sends `hideLoading`, then `updateArticles`
  (NewsVM.swift:67-68). A failed one sends `hideLoading`, then
  `showError(message)` (NewsVM.swift:73-74).
- An out-of-range selection (NewsVM.swift:92-95) only prints. No
  notification is sent.
- Every network failure reaches the controller as one error with a
  message, so the model has a single `Failure(message)` case.

## Model

| member | source | states |
|---|---|---|
| NewsVM.Initial | News/News/Scenes/News/NewsVM.swift:21-25 | a new controller has an empty list, page 1, is not loading, expects more pages and has the query "Apple" |
| NewsVM.SearchNews | News/News/Scenes/News/NewsVM.swift:48-61 | while loading: no state change, no notification, no fetch. When idle: a different query resets the page to 1 and empties the list; the same query keeps both. Either way `hasMorePages` is untouched, the loading flag is set and a fetch goes out for (query, current page) |
| NewsVM.Complete | News/News/Scenes/News/NewsVM.swift:59-76 | success: the fetched page is appended to the old list (the old list stays a prefix), `hasMorePages` holds iff the page is non-empty, the page advances by one, loading ends, then hideLoading, updateArticles. Failure: only loading ends, then hideLoading, showError(message). The query is never changed |
| NewsVM.LoadMoreArticles | News/News/Scenes/News/NewsVM.swift:80-89 | while loading or with no more pages: no change, no notification, no fetch. Otherwise: showLoading, a fetch for the current query and page, and the list is kept |
| NewsVM.FetchInitialNews | News/News/Scenes/News/NewsVM.swift:41-46 | the list is always emptied and the page and query reset to 1 and "Apple". A fetch of ("Apple", 1) starts exactly when nothing was pending |
| NewsVM.SelectedArticle | News/News/Scenes/News/NewsVM.swift:91-100 | a notification is sent iff 0 <= index < count, and it is navigateToDetail with the article at that index. The state never changes |
| NewsVM.NewQueryReplacesList | News/News/Scenes/News/NewsVM.swift:51-68 | a new query searched while idle, followed by its first page, leaves exactly that page listed, with page 2 next |
| NewsVM.LoadMoreAppendsNextPage | News/News/Scenes/News/NewsVM.swift:59-89 | load more followed by a page appends that page to the list and advances the page by one. The notifications are showLoading, hideLoading, updateArticles |
| NewsVM.FailedRetryChangesNothing | News/News/Scenes/News/NewsVM.swift:48-75 | searching the same query again, followed by a failure, returns the state to exactly what it was |
| NewsVM.EmptyPageEndsPagination | News/News/Scenes/News/NewsVM.swift:63-84 | an empty page leaves the list as it was, and afterwards load more is ignored |
| NewsVM.ExhaustedFlagSurvivesFailedSearch | News/News/Scenes/News/NewsVM.swift:51-84 | after an exhausted query, a failed search for a new query leaves load more switched off |
| NewsVM.FetchInitialWhileLoadingTakesStaleAnswer | News/News/Scenes/News/NewsVM.swift:41-68 | an initial fetch while loading wipes the list and starts no fetch. The pending answer then becomes the list under the default query |
| Session.Apply | News/News/Scenes/News/NewsVM.swift:48-89 | every input only appends to the notification trace and issues at most one fetch. It issues one only when the controller was idle, and the controller is loading afterwards |
| Session.ApplyKeepsValid | News/News/Scenes/News/NewsVM.swift:49-81 | every input preserves the invariant: loading iff one fetch is pending, the pending fetch is the latest one issued, every other fetch has been answered, and the page is at least 1 |
| Session.RunKeepsValid | News/News/Scenes/News/NewsVM.swift:21-89 | every sequence of inputs preserves that invariant |
| Session.RunExtendsTrace | News/News/Scenes/News/NewsVM.swift:67-99 | over a run, earlier notifications are never retracted, and each input adds at most one fetch |
| Session.AtMostOneInFlight | News/News/Scenes/News/NewsVM.swift:49-81 | from a new controller, the fetches issued never exceed those answered by more than one, and none is outstanding once loading has ended |
| Session.BusyInputsAreIgnored | News/News/Scenes/News/NewsVM.swift:49-84 | while a fetch is pending, a search or a load more leaves the whole session unchanged |
| Session.PaginationScenario | News/News/Scenes/News/NewsVM.swift:41-89 | an initial fetch returning 15 articles, then load more returning 3, then load more returning 0, gives 18 articles, no more pages and page 4. The fetches were for pages 1, 2 and 3 of "Apple", and a further load more fetches nothing |
| Api.Parameters | News/News/Network/API.swift:35-43 | the parameters are exactly q, page, pageSize and apiKey. pageSize is 15. A missing credential is sent as "" |
| Api.BuildRequest | News/News/Network/API.swift:19-51 | every news request is a GET on https://newsapi.org/v2/everything with those four parameters |
| Api.RequestCarriesRoute | News/News/Network/API.swift:37-42 | the query and the page can be read back from the request's parameters |
| Api.RequestCarriesApiKey | News/News/Network/API.swift:41 | the apiKey parameter is the loaded credential, or "" when none was loaded |
| Api.RequestIsInjective | News/News/Network/API.swift:35-43 | two routes give the same request iff they are the same route |
| Api.NewsFirstPage | News/News/Network/API.swift:17 | `.news(query:)` without a page asks for page 1 |
| Api.MatchLine | News/News/Network/API.swift:87-89 | a value taken from a credential line has no surrounding whitespace |
| Api.FirstMatchWins | News/News/Network/API.swift:86-90 | the first credential line decides the result, whatever comes after it |
| Api.FoundKeyComesFromFirstMatch | News/News/Network/API.swift:86-90 | a found credential is the value of some credential line with no credential line before it, and it has no surrounding whitespace |
| Api.NoMatchIsNone | News/News/Network/API.swift:86-95 | the result is nil iff no line is a credential line |
| Api.LoadApiKey | News/News/Network/API.swift:76-96 | a missing or unreadable file gives nil. Otherwise the line-by-line scan with early return gives the same result as the first-match definition `FindKey`, which the lemmas above characterise. A returned key has no surrounding whitespace |
| Api.KeyValueLine | News/News/Network/API.swift:87-89 | a line `k=v` (k, v non-empty, no '=') whose key trims to API_KEY yields v trimmed |
| Api.PaddedKeyMatches | News/News/Network/API.swift:88-89 | whitespace around API_KEY is ignored when matching |
| Api.LineWithoutSeparator | News/News/Network/API.swift:87-88 | a line without '=' never matches |
| Api.EmptyValueIgnored | News/News/Network/API.swift:87-88 | `API_KEY=` splits into one piece and is skipped |
| Api.ThreePiecesIgnored | News/News/Network/API.swift:87-88 | `a=b=c` splits into three pieces and is skipped |
| Api.DoubledSeparatorCollapses | News/News/Network/API.swift:87-89 | `API_KEY==x` splits into two pieces and yields x |
| Api.FileOfLines | News/News/Network/API.swift:84-90 | a file made of non-empty lines joined by line feeds yields the first credential line among those lines |
| Text.TrimStartSpec | News/News/Network/API.swift:88-89 | trimming the start leaves the longest suffix that does not start with whitespace, and removes only whitespace |
| Text.TrimEndSpec | News/News/Network/API.swift:88-89 | trimming the end leaves the longest prefix that does not end with whitespace, and removes only whitespace |
| Text.Trim | News/News/Network/API.swift:88-89 | the result has no whitespace at either end |
| Text.TrimKeepsInfix | News/News/Network/API.swift:89 | the trimmed text is an infix of the input, with only whitespace on either side of it |
| Text.TrimRemovesPadding | News/News/Network/API.swift:88-89 | trimming whitespace-padded trimmed text gives back exactly that text |
| Text.TrimIdempotent | News/News/Network/API.swift:89 | trimming twice equals trimming once |
| Text.Split | News/News/Network/API.swift:84-87 | Swift's `split(separator:)`, which omits empty pieces: there are never more pieces than characters. SplitPieces, SplitKeepsOtherCharacters and SplitJoin state the rest |
| Api.Lines | News/News/Network/API.swift:84 | the file's lines are its pieces between line feeds with blank lines omitted: every line is non-empty and holds no line feed |
| Api.FindKey | News/News/Network/API.swift:86-95 | the value of the first credential line, or nil when there is none; a found value has no surrounding whitespace |
| Text.SplitPieces | News/News/Network/API.swift:84-87 | every piece is non-empty and free of the separator |
| Text.SplitAtSeparator | News/News/Network/API.swift:84-87 | splitting at a separator splits the two sides independently |
| Text.SplitJoin | News/News/Network/API.swift:84-87 | splitting inverts joining when no piece is empty or contains the separator |
| Text.SplitKeepsOtherCharacters | News/News/Network/API.swift:84-87 | the pieces, concatenated, are the input with the separators removed |

## Left out

- `NetworkManager.swift` and `Service.swift`, which do the HTTP call, the validation, the JSON decoding of `Response` and the continuation bridging. A fetch is an oracle answer: `Success(articles)` or `Failure(message)`. Every failure is wrapped into one error before it reaches the controller, so one failure case suffices. The message text is opaque.
- The read of the `.env` resource through `Bundle.main` and `String(contentsOfFile:)`. `Api.LoadApiKey` takes the file's text, or nothing when the file is missing or unreadable.
- `Api.BuildRequest` builds the URL by concatenating the base URL and the path, and gives the parameters as a map. Alamofire's `URLEncoding` and `URL` construction are foreign library behaviour.
- Text: Swift compares strings by extended grapheme cluster, and the model treats each Unicode scalar as one character. The two differ on a `"\r\n"` pair, which is a single Swift `Character` that is not `"\n"`, so in Swift a CRLF line ending does not split lines. They also differ on `=` followed by combining marks, and on a Prepend scalar such as U+0600 placed just before `=`: Unicode's grapheme rule GB9b fuses the two into one `Character`, so Swift does not split there.
- Api.MatchLine: compares the key with `API_KEY` character by character, with no Unicode normalisation. Swift's `==` at API.swift:88 compares strings up to canonical equivalence, so `API_\u{212A}EY=x` (U+212A KELVIN SIGN decomposes to `K`) yields `x` in Swift, while the model returns nil for that line.
- NewsVM.SearchNews: the model reads the page for the fetch at the begin step. The source reads `currentPage` when the `Task { }` created at NewsVM.swift:59 starts running (line 61). `NewsVM` is not actor-isolated, so that unstructured task need not run before the next input. A `fetchInitialNews` call landing between the two would make the source fetch page 1 instead.
- NewsVM.Complete: Swift's `Int` traps on overflow at `currentPage += 1`. The model's page is an unbounded integer.
- The `print` logging in `loadMoreArticles`, `selectedArticle` and the parser.
- The weak delegates, `MainActor` hops and `Task` scheduling. If the screen has gone, the delegate is nil and the notifications go nowhere. The model records every notification regardless.
- `DateFormatter.swift` depends on Foundation's date parsing and locale.
- The view controllers and views (including the scroll threshold that triggers load more), `SettingsVM`, `DetailVM` and image loading are presentation code with no logic to model.

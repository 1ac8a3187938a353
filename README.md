# Movie poster search: a verified model of the decision logic

This project models, in Dafny, the decision logic of a small web application that looks up
movies on TMDB (The Movie Database) by title and shows, previews and prints their posters.
Network replies, timers and the browser are not modelled: every reply a piece of code awaits
becomes a parameter, or an event method that the caller invokes in any order.

The modules follow the application's files:

| module | file | what it holds |
|---|---|---|
| `Text` | (JavaScript runtime) | `trim`, `split`, `join`, `String(n)` and `padStart` on `seq<char>` |
| `Uri` | (JavaScript runtime) | `encodeURIComponent` and `decodeURIComponent`, with UTF-8 escapes |
| `Types` | lib/types.ts, src/lib/tmdb-client.ts | the movie and poster records, JavaScript truthiness of strings |
| `SearchHook` | src/hooks/use-tmdb-search.ts | the search hook as a class: request ids, abort handles, the shared key check |
| `TmdbClient` | src/lib/tmdb-client.ts | image URLs, the preferred-poster choice and its cache, the search guard, URL building, API-key checks |
| `BatchSearch` | lib/tmdb.ts | server-side resolution of a title list: first hit per title, all-or-nothing failure |
| `MoviesRoute` | app/api/movies/route.ts | `GET /api/movies`: title splitting and the 200/400/500 choice |
| `MovieList` | src/components/movie-list.tsx | release-date formatting, the poster a card shows, the list's view priority |
| `PrintLayout` | components/print-posters-button.tsx | the A4 grid, the image sources, the footer count and the button's handlers |
| `PosterPreview` | components/poster-preview-dialog.tsx | neighbours, swipe and key gestures, the poster shown, the runtime label |
| `HomePage` | app/page.tsx | the older search page: its address, the effect that follows the address, duplicate suppression and replies applied in arrival order |

Where the application's design documentation and its code disagree, the model follows the
code:

- The design describes year hints in titles, candidate scoring, credit enrichment and
  per-title error containment. lib/tmdb.ts takes the first search hit of each title
  (`results[0]`), and a single failed request rejects the whole batch.
- The design prefers the best untagged (`null` language) poster over an English one. The
  code treats `null` and `en` alike: it takes the first of them after a stable sort by vote.

## Model

| member | source | states |
|---|---|---|
| SearchHook.Hook.constructor | src/hooks/use-tmdb-search.ts:20-28 | the hook starts with no movies, no error, not loading, key state unknown, request id 0 and no controller, and its invariant holds |
| SearchHook.Hook.ResultError | src/hooks/use-tmdb-search.ts:138-144 | a key known to be invalid always shows the key message, whatever the error state; otherwise the stored error is shown |
| SearchHook.Hook.Reset | src/hooks/use-tmdb-search.ts:71-79 | the live controller is aborted and dropped, the request id grows by one so that every reply in flight becomes stale, results are cleared and the key state is kept |
| SearchHook.Hook.Search | src/hooks/use-tmdb-search.ts:81-99 | a blank query is exactly a reset; any other query aborts the previous controller, takes the next id with a new controller and marks searched, loading, no error, and the ticket carries that id and the trimmed query |
| SearchHook.Hook.EnsureApiKeyValid | src/hooks/use-tmdb-search.ts:30-45 | a cached valid key passes at once; a caller arriving during a validation waits for that same validation; a missing or malformed key fails with the key error and no probe; otherwise one validation starts |
| SearchHook.Hook.SettleValidation | src/hooks/use-tmdb-search.ts:47-68 | the shared validation's answer, with a throw counted as invalid, becomes the cached key state; an invalid key records the key error; the validation is then no longer in flight |
| SearchHook.Hook.AbandonAfterInvalidKey | src/hooks/use-tmdb-search.ts:101-106 | a search whose key check failed ends loading without checking that it is still current; nothing else changes |
| SearchHook.Hook.CompleteSearch | src/hooks/use-tmdb-search.ts:108-115 | only the reply carrying the current id publishes its movies and ends loading; a superseded reply changes no state |
| SearchHook.Hook.FailSearch | src/hooks/use-tmdb-search.ts:116-132 | an abort is ignored except that loading ends if the search is current; any other failure of the current search clears the movies and shows the error's message, or the fixed message for a non-Error; a stale failure changes nothing |
| SearchHook.LatestSearchWins | src/hooks/use-tmdb-search.ts:90-115 | after two searches, the newer one's movies are shown and loading has ended whichever reply arrives first, and the older controller was aborted |
| SearchHook.ResetDiscardsInFlight | src/hooks/use-tmdb-search.ts:71-79 | a reset during a search leaves the page cleared even after that search's late reply or failure arrives |
| SearchHook.OverlappingSearchesShareValidation | src/hooks/use-tmdb-search.ts:35-37 | two searches started while the key is unknown start one probe between them, both wait for it, and its answer is cached |
| SearchHook.StaleKeyFailureEndsNewerLoading | src/hooks/use-tmdb-search.ts:103-106 | a superseded search whose key check fails ends the loading state of the newer search still waiting for its reply |
| TmdbClient.ImageUrl | src/lib/tmdb-client.ts:63-69 | no URL exactly for a missing or empty path; otherwise the image base, a slash, the size and the path, in that order |
| TmdbClient.InsertByVote | src/lib/tmdb-client.ts:88 | inserting a poster into a list keeps every poster and adds exactly that one |
| TmdbClient.InsertKeepsSorted | src/lib/tmdb-client.ts:88 | inserting into a list sorted by descending vote keeps it sorted |
| TmdbClient.SortByVote | src/lib/tmdb-client.ts:88 | the sort result is a permutation of the posters, in descending vote order with a missing vote counted as 0 |
| TmdbClient.FindFirst | src/lib/tmdb-client.ts:89 | `find` returns nothing exactly when no poster qualifies, and otherwise a qualifying poster with no qualifying poster before it |
| TmdbClient.FirstBestAbsent | src/lib/tmdb-client.ts:88-90 | the sort-free reference choice is absent exactly when no poster qualifies |
| TmdbClient.FirstBestIsFirstMaximal | src/lib/tmdb-client.ts:88-90 | the reference choice has the highest vote among qualifying posters and comes first among those with that vote, in the original order |
| TmdbClient.FindFirstInsert | src/lib/tmdb-client.ts:88-89 | searching a sorted list after one insertion equals one step of the reference choice, so ties go to the poster that was earlier |
| TmdbClient.FindFirstOfSorted | src/lib/tmdb-client.ts:88-89 | finding the first qualifying poster of the stably sorted list is the reference choice: the first of the best-voted qualifying posters in the original order |
| TmdbClient.HeadOfSorted | src/lib/tmdb-client.ts:90 | the head of the sorted list is the first poster with the highest vote |
| TmdbClient.PreferredPosterPath | src/lib/tmdb-client.ts:86-92 | the path is the best null-or-English poster's path if non-empty, else the best poster's path if non-empty, else none; never an empty string, and none for no posters |
| TmdbClient.PreferredLanguageWins | src/lib/tmdb-client.ts:89-92 | when a null-or-English poster exists and those all have paths, the chosen path is such a poster's path, however high another language's vote |
| TmdbClient.SearchMoviesPlan | src/lib/tmdb-client.ts:106-135 | off the client or for a blank query the empty first page without a request; otherwise a `/search/movie` request with the trimmed, non-empty query, the page, `zh-CN` and adult titles excluded |
| TmdbClient.NormalizePath | src/lib/tmdb-client.ts:183 | the result is a suffix of the path, does not start with a slash, and only slashes were removed in front of it |
| TmdbClient.SetParam | src/lib/tmdb-client.ts:192 | `searchParams.set` keeps every entry with another key and adds nothing but the key's entry |
| TmdbClient.RemoveKey | src/lib/tmdb-client.ts:192 | removing a key drops exactly the entries with that key |
| TmdbClient.ApplyParamsStep | src/lib/tmdb-client.ts:187-193 | one more parameter of the loop is set as a string, unless its value is null or undefined |
| TmdbClient.LookupRemoveKey | src/lib/tmdb-client.ts:192 | removing one key leaves every other key's value as it was |
| TmdbClient.LookupSetParam | src/lib/tmdb-client.ts:192 | after setting a key it reads the new value, and every other key reads what it read before |
| TmdbClient.LookupApplyParams | src/lib/tmdb-client.ts:187-193 | after the loop each key reads the last non-null value given for it, and a key no kept parameter names keeps its earlier value |
| TmdbClient.SetParamUnique | src/lib/tmdb-client.ts:192 | setting a parameter keeps the keys of the query unique |
| TmdbClient.RemoveKeyUnique | src/lib/tmdb-client.ts:192 | removing a key keeps the keys of the query unique |
| TmdbClient.ApplyParams | src/lib/tmdb-client.ts:187-193 | the whole loop keeps the keys of the query unique |
| TmdbClient.CreatedUrlQuery | src/lib/tmdb-client.ts:185-193 | every built query has unique keys, carries the API key unless a parameter overrides it, and gives each parameter its last non-null value |
| TmdbClient.GetApiKeyStatus | src/lib/tmdb-client.ts:258-269 | off the client both flags are false; the key is configured exactly when non-empty, well-formed exactly when at least 32 characters long and not starting with `eyJ`; well-formed implies configured |
| TmdbClient.KeyToTest | src/lib/tmdb-client.ts:235 | the explicit key when truthy, else the configured one |
| TmdbClient.ValidateApiKey | src/lib/tmdb-client.ts:230-256 | the key is valid exactly when running on the client, a key is available, and the probe answered 2xx with the id 550 |
| TmdbClient.Client.constructor | src/lib/tmdb-client.ts:55-61 | each setting is its environment value when truthy and its default otherwise; the poster cache starts empty |
| TmdbClient.Client.GetPreferredPoster | src/lib/tmdb-client.ts:71-84 | the part before the `await`: without key or off the client the answer is none; a cached entry, even a cached none, is the answer; otherwise the images request goes out; the cache is only read |
| TmdbClient.Client.SettlePreferredPoster | src/lib/tmdb-client.ts:81-103 | the part after the `await`: a reply body yields the preferred path and writes it, an abort yields nothing and writes nothing, another failure yields nothing and writes none; the write happens whatever the cache holds by then; other ids' entries are untouched |
| TmdbClient.OverlappingLookupsOverwrite | src/lib/tmdb-client.ts:76-103 | two overlapping lookups of one id both find it uncached and both request; a failure settling last overwrites the cached path with none |
| TmdbClient.SettledLookupIsCached | src/lib/tmdb-client.ts:76-103 | after a lookup settles with a body or a failure, the next lookup of that id is answered from the cache without a request; after an abort it requests again |
| TmdbClient.Client.EnsureApiKey | src/lib/tmdb-client.ts:198-204 | the key, or the "not configured" error exactly when the key is empty |
| TmdbClient.Client.CreateUrl | src/lib/tmdb-client.ts:182-196 | an empty key is the "not configured" error; otherwise the URL is the base plus a slash, the path without leading slashes, and the query with `api_key` set first and then each non-null parameter set in order |
| BatchSearch.Requests | lib/tmdb.ts:26-35 | one request per title, in order, each for exactly that title in `zh-CN` with adult titles excluded |
| BatchSearch.FirstHit | lib/tmdb.ts:37-43 | a title resolves to nothing exactly when its search has no results, and otherwise to the first result |
| BatchSearch.FirstFailure | lib/tmdb.ts:59 | there is a failed request exactly when some reply is a failure, and the index found is one |
| BatchSearch.SearchMovies | lib/tmdb.ts:24-65 | the batch is rejected exactly when some request failed, with that request's error; no titles resolve to no movies |
| BatchSearch.ResolvedIsFound | lib/tmdb.ts:59-60 | a resolved batch is exactly the first hits of the titles that found something, in title order, and has at most as many movies as titles |
| BatchSearch.FoundCount | lib/tmdb.ts:60 | the number of movies is the number of titles with a hit, at most the number of titles |
| BatchSearch.NonNull | lib/tmdb.ts:60 | filtering nulls never adds entries, and keeps exactly the movies that were present |
| BatchSearch.NonNullOfHits | lib/tmdb.ts:59-60 | filtering the nulls out of the per-title hits leaves the found movies in order |
| BatchSearch.FoundAppend | lib/tmdb.ts:26-60 | resolution is compositional: two title lists together resolve to the first list's movies followed by the second's |
| BatchSearch.AllFound | lib/tmdb.ts:37-60 | when every title has a hit, the batch is the first hits one for one, in title order |
| BatchSearch.FoundOfAllHits | lib/tmdb.ts:37-60 | with a hit for every title, the k-th movie is the k-th title's first hit |
| BatchSearch.NothingFound | lib/tmdb.ts:37-40 | a title without hits is dropped, not an error: a batch without failures and without hits resolves to no movies |
| BatchSearch.NoHits | lib/tmdb.ts:37-40 | replies without results count no hit |
| MoviesRoute.TrimAll | app/api/movies/route.ts:15 | trimming every piece keeps the number of pieces |
| MoviesRoute.TrimAllElements | app/api/movies/route.ts:15 | the k-th trimmed piece is the trim of the k-th piece |
| MoviesRoute.DropEmpty | app/api/movies/route.ts:16 | filtering empty strings never adds an element |
| MoviesRoute.DropEmptyElements | app/api/movies/route.ts:16 | everything the filter keeps is non-empty and came from the input |
| MoviesRoute.TrimKeepsCommaFree | app/api/movies/route.ts:14-15 | trimming a comma-free piece cannot produce a comma |
| MoviesRoute.SplitTitles | app/api/movies/route.ts:13-16 | every title is non-empty, comma-free and trimmed, and there is at most one per comma-separated piece (commas plus one) |
| MoviesRoute.SplitTitlesClean | app/api/movies/route.ts:13-16 | trimming and filtering comma-free pieces leaves only non-empty, comma-free, trimmed titles |
| MoviesRoute.TrimAllAppend | app/api/movies/route.ts:15 | trimming every piece commutes with concatenation |
| MoviesRoute.DropEmptyAppend | app/api/movies/route.ts:16 | the filter commutes with concatenation, so it keeps order |
| MoviesRoute.SplitTitlesAppend | app/api/movies/route.ts:13-16 | titles keep their input order: the titles of `a,b` are those of `a` followed by those of `b` |
| MoviesRoute.TrimAllOfTrimmed | app/api/movies/route.ts:15 | trimming already trimmed pieces changes nothing |
| MoviesRoute.DropEmptyOfNonEmpty | app/api/movies/route.ts:16 | the filter keeps a list without empty strings unchanged |
| MoviesRoute.SplitTitlesRoundTrip | app/api/movies/route.ts:13-16 | splitting the comma-join of non-empty, comma-free, trimmed titles gives them back |
| MoviesRoute.SplitTitlesIdempotent | app/api/movies/route.ts:13-16 | splitting the comma-join of the titles again yields the same titles |
| MoviesRoute.SplitPiecesFromInput | app/api/movies/route.ts:14 | every character of a split piece occurs in the input |
| MoviesRoute.NoTitlesInBlankInput | app/api/movies/route.ts:13-16 | a parameter made only of commas and white space names no title |
| MoviesRoute.PieceOfBlankInput | app/api/movies/route.ts:14-15 | a piece of such a parameter trims to the empty string |
| MoviesRoute.DropEmptyOfEmpties | app/api/movies/route.ts:16 | the filter drops a list of empty strings entirely |
| MoviesRoute.Get | app/api/movies/route.ts:4-31 | a missing or empty parameter answers 400 "No titles provided"; otherwise 500 "Failed to fetch movies" exactly when some title's request failed, and else 200 with the found movies unchanged, in title order |
| MoviesRoute.BlankTitlesAnswerEmpty | app/api/movies/route.ts:9-18 | a non-empty parameter of only commas and spaces is not a 400: it resolves no titles and answers 200 with an empty list |
| MovieList.ToNumber | src/components/movie-list.tsx:215-217 | a part reads as a number exactly when it is decimal digits after trimming; a blank part reads as 0 |
| MovieList.ToNumberOfDigits | src/components/movie-list.tsx:215-217 | a digit string reads as its decimal value |
| MovieList.ToNumberOfString | src/components/movie-list.tsx:223 | reading back `String(n)` gives `n` |
| MovieList.ToNumberOfPadded | src/components/movie-list.tsx:223 | `String(n)` padded to two digits is still digits and reads back as `n` |
| MovieList.SplitThree | src/components/movie-list.tsx:209 | three dash-free parts joined by dashes split back into those three |
| MovieList.DateNumbers | src/components/movie-list.tsx:209-221 | a date whose first three parts read as numbers has at least two dashes and five characters |
| MovieList.JoinLength | src/components/movie-list.tsx:209-213 | three non-empty parts joined with dashes are at least five characters long |
| MovieList.ShowDate | src/components/movie-list.tsx:223 | the displayed date has the displayed shape (month and day two digits, or longer without a leading zero) and reads back as the same year, month and day |
| MovieList.PaddedPartOfNumber | src/components/movie-list.tsx:223 | `padStart(2, '0')` of a number's decimal string is two digits, or longer without a leading zero |
| MovieList.PaddedPartReadBack | src/components/movie-list.tsx:223 | a padded month or day is exactly the padded decimal string of its own value |
| MovieList.ShownDateIsShowDate | src/components/movie-list.tsx:223 | every string of the displayed shape is the displayed date of the numbers it reads as |
| MovieList.ShownDateUnique | src/components/movie-list.tsx:223 | two displayed dates that read as the same year, month and day are the same string, so the shape and the numbers fix the output |
| MovieList.DatePartsReadBack | src/components/movie-list.tsx:223 | the year's string and the padded month and day, joined by dashes, split back into those three, have the displayed shape and read back as the numbers they came from |
| MovieList.NumbersOfParts | src/components/movie-list.tsx:209-221 | three non-empty numeric dash-free parts joined by dashes read as their three numbers |
| MovieList.FormatReleaseDate | src/components/movie-list.tsx:204-224 | a date is shown exactly when it is present, non-empty and its first three parts are non-empty numbers; a shown date has the displayed shape and stands for the same year, month and day, which by MovieList.ShownDateUnique leaves exactly one string |
| MovieList.FormatIdempotent | src/components/movie-list.tsx:209-223 | formatting a shown date again leaves it unchanged |
| MovieList.PadsMonthAndDay | src/components/movie-list.tsx:223 | a one-digit month and day gain a leading zero and the year is kept as written (so `2023-1-5` shows as `2023-01-05`) |
| MovieList.FormatOfNumbers | src/components/movie-list.tsx:204-223 | a date whose parts read as three numbers is shown as those numbers in the displayed form |
| MovieList.ReadsShortDate | src/components/movie-list.tsx:209-221 | a year with a one-digit month and day reads as the three digit values |
| MovieList.ShortDateString | src/components/movie-list.tsx:209 | the short date is the year, a dash, the month, a dash and the day |
| MovieList.ShowsShortDate | src/components/movie-list.tsx:223 | the displayed form of those values is the year, then the month and day each behind a zero |
| MovieList.ShowDateOf | src/components/movie-list.tsx:223 | the displayed date is assembled from the year string and the padded month and day |
| MovieList.PaddedDigit | src/components/movie-list.tsx:223 | a one-digit number is padded with one zero |
| MovieList.MissingPartShowsNothing | src/components/movie-list.tsx:209-213 | a date with fewer than two dashes (a year alone, or a year and month such as `2023-05`) shows nothing |
| MovieList.FallbackPosterUrl | src/components/movie-list.tsx:192-202 | the w500 poster when the movie has a poster path, else the w780 backdrop, and none exactly when it has neither |
| MovieList.MovieCard | src/components/movie-list.tsx:62-98 | a found preferred poster wins (its w500 image), otherwise the fallback; no poster exactly when there is no preferred poster, poster or backdrop; the backdrop is the w1280 image and the date is the formatted one |
| MovieList.Render | src/components/movie-list.tsx:16-55 | an invalid key outranks an error, which outranks the three-card skeleton, which outranks the empty notice; otherwise the grid shows every movie in order |
| MovieList.SettledResultsShown | src/components/movie-list.tsx:39-55 | with a usable key, no error and nothing loading, the list shows exactly the movies, or the empty notice when there are none |
| PrintLayout.PosterWidth | components/print-posters-button.tsx:49-51 | three posters, two gaps and two side margins fill the page width exactly |
| PrintLayout.PosterHeight | components/print-posters-button.tsx:52 | the poster keeps the 2:3 aspect ratio exactly |
| PrintLayout.PostersPerColumn | components/print-posters-button.tsx:55-58 | the number of rows is the most that fit between the top and bottom margins: that many fit and one more does not |
| PrintLayout.Capacity | components/print-posters-button.tsx:119 | a page holds three posters per row times the rows per column, which is 6 |
| PrintLayout.LayoutNumbers | components/print-posters-button.tsx:49-58 | the poster is 660 by 990 pixels and a page has 2 rows |
| PrintLayout.Cell | components/print-posters-button.tsx:83-90 | poster i sits in row i div 3 and column i mod 3, at the side or top margin plus that many times the poster size and gap, with the poster's size |
| PrintLayout.DrawnIffOnFirstPage | components/print-posters-button.tsx:87 | a poster is drawn exactly when its index is below the page's capacity |
| PrintLayout.DrawnInsideMargins | components/print-posters-button.tsx:89-101 | every drawn poster lies on the page, inside the side, top and bottom margins |
| PrintLayout.DrawnDisjoint | components/print-posters-button.tsx:89-101 | two different drawn posters never overlap |
| PrintLayout.PosterSource | components/print-posters-button.tsx:74-76 | the w500 image of the poster path when there is one, else the placeholder |
| PrintLayout.ProxiedSource | components/print-posters-button.tsx:67 | the proxy address followed by the encoded URL, which contains no `&`, `#` or `=`, so the URL stays one query parameter |
| PrintLayout.FooterCount | components/print-posters-button.tsx:116-120 | the footer count is the number of images or the page capacity, whichever is smaller |
| PrintLayout.DrawPosters | components/print-posters-button.tsx:82-108 | the drawing loop places exactly the first page-full of images, the k-th image in the k-th cell, in order |
| PrintLayout.GeneratePrintImage | components/print-posters-button.tsx:17-131 | no image without a drawing context or when an image fails to load; otherwise a page whose footer counts exactly the posters drawn, each loaded through the proxy from its movie's poster |
| PrintLayout.FooterCountsDrawn | components/print-posters-button.tsx:82-120 | the footer count equals the number of posters actually drawn |
| PrintLayout.PrintButton.constructor | components/print-posters-button.tsx:14-15 | no preview, dialog closed, no downloads |
| PrintLayout.PrintButton.HandlePrintClick | components/print-posters-button.tsx:133-139 | the preview opens with the image only when generation produced one; otherwise nothing changes |
| PrintLayout.PrintButton.HandleConfirmDownload | components/print-posters-button.tsx:141-149 | without a preview nothing happens; otherwise the preview is downloaded once under the fixed file name and the dialog closes |
| PrintLayout.Render | components/print-posters-button.tsx:151-170 | nothing exactly for an empty list; otherwise the dialog state and the number of movies |
| PrintLayout.PrintThenConfirm | components/print-posters-button.tsx:133-149 | a download happens only after a generated preview, and the dialog ends closed either way |
| PosterPreview.FindIndex | components/poster-preview-dialog.tsx:79 | the first position holding the id, or -1 exactly when no movie has it |
| PosterPreview.NavBounds | components/poster-preview-dialog.tsx:79-81 | a previous movie exists exactly when the index is positive, a next one when it is below the last position |
| PosterPreview.BoundsStayInList | components/poster-preview-dialog.tsx:79-81 | an offered neighbour always lies inside the list |
| PosterPreview.AbsentMovieBounds | components/poster-preview-dialog.tsx:79-81 | a movie missing from the list has no previous neighbour, but a next one whenever the list is non-empty |
| PosterPreview.SwipeTarget | components/poster-preview-dialog.tsx:43-51 | a leftward swipe longer than 50 goes to the next movie exactly when there is one, a rightward one to the previous movie exactly when there is one |
| PosterPreview.ShortSwipeStays | components/poster-preview-dialog.tsx:44-45 | a swipe of at most 50 pixels either way never navigates |
| PosterPreview.KeyEvent | components/poster-preview-dialog.tsx:57-68 | the left arrow goes back, the right arrow forward, Escape closes, exactly; any other key does nothing; there is no bounds check |
| PosterPreview.Preview.constructor | components/poster-preview-dialog.tsx:25-26 | no touch positions and no events |
| PosterPreview.Preview.TouchStart | components/poster-preview-dialog.tsx:31-34 | the end position is forgotten and the start recorded |
| PosterPreview.Preview.TouchMove | components/poster-preview-dialog.tsx:36-38 | the latest position is recorded as the end |
| PosterPreview.Preview.TouchEnd | components/poster-preview-dialog.tsx:40-55 | without both positions (0 counts as none) nothing happens and nothing is reset; otherwise the swipe's target, if any, is sent and both positions are cleared |
| PosterPreview.Preview.KeyDown | components/poster-preview-dialog.tsx:57-75 | while visible a mapped key sends its event; when hidden or for another key nothing is sent |
| PosterPreview.Swipe | components/poster-preview-dialog.tsx:31-55 | a complete swipe clears both positions and sends at most one step, towards an existing neighbour, only beyond the minimum distance |
| PosterPreview.TapKeepsStart | components/poster-preview-dialog.tsx:31-41 | a tap without a move leaves the start position in place and sends nothing |
| PosterPreview.PosterUrl | components/poster-preview-dialog.tsx:83-87 | the chosen best poster's full image, else the original-size image of the poster path, else the placeholder |
| PosterPreview.JsRemMinutes | components/poster-preview-dialog.tsx:102 | JavaScript's `%`: the remainder after truncating toward zero, with the sign of the minutes |
| PosterPreview.FormatRuntime | components/poster-preview-dialog.tsx:100-103 | a non-negative runtime is labelled with the decimal strings of its whole hours and its minutes past the hour; a negative one starts with a minus sign |
| PosterPreview.RuntimeSplits | components/poster-preview-dialog.tsx:100-104 | for a positive runtime the label is whole hours and fewer than sixty minutes that add back up to the runtime |
| PosterPreview.Render | components/poster-preview-dialog.tsx:77-145 | nothing unless visible with a current movie; otherwise its title, poster and neighbours, and a runtime label exactly when the runtime is positive |
| HomePage.Href | app/page.tsx:29-38 | the bare address is `/`; a shared one is `/?titles=` followed by text that decodes back to exactly the query |
| HomePage.RequestUrl | app/page.tsx:49-80 | every request goes to `/api/movies?titles=`; an encoded query decodes back to the query, a parameter from the address is written unchanged |
| HomePage.PlanSearch | app/page.tsx:24-41 | blank input clears the search; other input is taken trimmed (non-empty, no white space at its ends) and is a repeat exactly when it equals the trimmed current query |
| HomePage.Home.constructor | app/page.tsx:10-19 | the query starts as the address's `titles` parameter (or empty), the page counts as searched exactly when there is one, and the effect has not yet run |
| HomePage.Home.SyncFromUrl | app/page.tsx:71-99 | runs only when the parameter differs from the one it last ran with; with a non-empty parameter that does not decode, it stops with a `URIError` before setting anything; with one that decodes, the decoded text becomes the query, loading starts, the error clears and the parameter is fetched as it stands, with no duplicate check |
| HomePage.Home.HandleSearch | app/page.tsx:22-50 | blank input clears query and movies, marks not searched and returns to the bare address without a request; otherwise the address is rewritten first, and only a new query is stored, starts loading, clears the error and sends its encoded request |
| HomePage.Home.CompleteFetch | app/page.tsx:49-97 | results replace the movies; a non-2xx reply or a failure sets the fixed message and keeps the movies; loading ends either way, for whichever request answered |
| HomePage.EncodedRequestIsOneParameter | app/page.tsx:37-51 | an encoded query reaches the API as one `titles` parameter: nothing in it ends the parameter or the query |
| HomePage.NewSearchSendsTwoRequests | app/page.tsx:36-80 | a new search (without `%`) sends the handler's encoded request and then, because the address's parameter changed, the effect's request with the query as it stands |
| HomePage.MalformedPercentThrows | app/page.tsx:36-73 | a search for text with a `%` that starts no escape (such as `100%`) sends the encoded request, and then the effect throws decoding the parameter |
| HomePage.RepeatedSearchIsSuppressed | app/page.tsx:36-99 | searching again for the same titles with other surrounding spaces sends no further request: the handler sees the same query and the unchanged address does not rerun the effect |
| HomePage.LateReplyOverwrites | app/page.tsx:49-65 | two searches send four requests; when the older search answers last, its movies replace the newer search's |
| HomePage.ClearDuringRequest | app/page.tsx:25-31 | clearing the input during a request leaves loading on, and the late reply still fills the cleared page's movies |
| HomePage.OpenSharedAddress | app/page.tsx:10-80 | opening an address with a parameter that decodes marks the page searched from the first render and sends one request, with the parameter as it stands, and the decoded text as the query |
| Text.Trim | app/api/movies/route.ts:15 | `trim` leaves no white space at either end and never lengthens the string |
| Text.TrimIsSlice | app/api/movies/route.ts:15 | `trim` keeps a contiguous piece of the input and cuts off only white space |
| Text.TrimOfTrimmed | app/api/movies/route.ts:15 | a string without white space at its ends is its own trim |
| Text.TrimIdempotent | app/page.tsx:34-41 | trimming twice is trimming once |
| Text.BlankIff | app/page.tsx:25 | a string is blank after trimming exactly when all its characters are white space |
| Text.Split | app/api/movies/route.ts:14 | `split` yields at least one piece and no piece contains the separator |
| Text.SplitCount | app/api/movies/route.ts:14 | splitting yields one piece more than there are separators |
| Text.JoinSplit | app/api/movies/route.ts:14 | joining the pieces of a split with the separator gives back the input |
| Text.SplitCons | src/components/movie-list.tsx:209 | a separator-free piece followed by the separator splits off as one piece |
| Text.SplitJoin | app/api/movies/route.ts:14 | splitting the join of separator-free pieces gives back the pieces |
| Text.SplitAppend | app/api/movies/route.ts:14 | a separator splits the input into the pieces before it followed by the pieces after it |
| Text.SplitOfSeparatorFree | src/components/movie-list.tsx:209 | a string without the separator is one piece |
| Text.NatToString | src/components/movie-list.tsx:223 | `String(n)` is a non-empty digit string without a superfluous leading zero |
| Text.IntToString | components/poster-preview-dialog.tsx:103 | `String(n)` reads back as `n`, with a minus sign for a negative number |
| Text.DigitsOfNat | src/components/movie-list.tsx:223 | reading back `String(n)` gives `n` |
| Text.LeadingZero | src/components/movie-list.tsx:223 | a leading zero does not change a digit string's value |
| Text.NatToStringOfDigits | src/components/movie-list.tsx:223 | a digit string without a superfluous leading zero is `String` of its value |
| Text.PadStart2 | src/components/movie-list.tsx:223 | `padStart(2, '0')` keeps the string at the end, puts only zeros in front, and makes it at least two long |
| Uri.HexDigit | app/page.tsx:37 | an escape digit is an upper-case hex digit that reads back as its value |
| Uri.EncodeUriComponent | app/page.tsx:37 | the encoding is made only of unreserved characters, `%` and upper-case hex digits, and is never shorter than the input |
| Uri.DecodeUriComponent | app/page.tsx:73 | a decoded string is never longer than its input |
| Uri.DecodeEncode | app/page.tsx:37-73 | decoding an encoded string gives it back |
| Uri.DecodeEscapedChar | app/page.tsx:37-73 | the escapes of one character's UTF-8 bytes decode to that character |
| Uri.ContinuationsOfEscapes | app/page.tsx:73 | the escapes of continuation bytes are read back as those bytes |
| Uri.Utf8Decodes | app/page.tsx:37-73 | a character's UTF-8 encoding is a well-formed sequence of the right length that decodes to it |
| Uri.Utf8DecodeCanonical | app/page.tsx:73 | decoding accepts only the UTF-8 encoding of the character it returns, so there is no overlong form |
| Uri.DecodePlain | app/page.tsx:73 | a string without `%` decodes to itself |
| Uri.ContinuationsWellFormed | app/page.tsx:73 | every `%` among accepted continuation escapes starts an escape |
| Uri.MalformedEscapeRejected | app/page.tsx:73 | a `%` not followed by two hex digits makes decoding throw |
| Uri.EncodeUnreserved | app/page.tsx:37 | encoding leaves a string of unreserved characters unchanged |
| Uri.EncodedHasNoDelimiters | app/page.tsx:37 | the encoding contains no `&`, `=`, `#`, `?`, `/`, `,`, `+` or white space |

## Left out

- Network I/O. `fetch`, axios, the provider's HTTP API, the 30-second timeout and the local
  proxy of lib/tmdb.ts:7-22 are not modelled. Each reply is a parameter or an event method.
- `AbortController` signalling is not modelled. The hook records which controllers were
  aborted. How an aborted request settles is an event the caller chooses (`FailSearch` with
  `Aborted`).
- Promise timing is not modelled. Any interleaving of the hook's event methods is a run.
- The environment is a parameter: `typeof window` becomes `isClient`, and the environment
  variables are constructor parameters.
- SearchHook.Hook.EnsureApiKeyValid reads the current key state. The source's callback reads
  the `apiKeyValid` of the render that created it. A React stale closure can therefore start
  a second probe where the model reuses the known answer.
- HomePage.Home.HandleSearch compares with the current query, where the source's callback
  compares with the `searchTitles` of the render that created it (a stale closure). It
  requires that the effect has run for the current address: React runs a render's effects
  before the next input event. The effect is a separate step (`SyncFromUrl`), which the
  scenarios invoke after each address change.
- BatchSearch.SearchMovies rejects with the error of the first failed title in input order.
  `Promise.all` rejects with the failure that happens first in time, which the model cannot
  see. Which titles fail, and so the status, is modelled exactly.
- MovieList.ToNumber reads only decimal digit strings (after trimming, blank reads 0). It
  treats signs, decimal points, exponents, `0x` hexadecimal and `Infinity` as NaN, where
  JavaScript's `Number` reads them. MovieList.FormatReleaseDate therefore shows nothing for
  such dates. The source would show them (for example `+2023`, or `2023.0`).
- PosterPreview.FormatRuntime states only that a negative runtime's label starts with a
  minus sign; the dialog shows positive runtimes only.
- MovieList.ToNumber and Text.NatToString use unbounded integers. A JavaScript number is a
  double: digit strings above 2^53 lose precision, and `String(n)` switches to exponent form
  from 1e21. Such years, months and days are read and shown exactly by the model.
- TmdbClient.Client.CreateUrl keeps the base and the normalised path apart. Resolution by
  `new URL(path, base)` is not modelled: dot segments and a `?` or `#` inside the path.
- TmdbClient.GetApiKeyStatus and Uri.EncodeUriComponent work on strings modelled as
  sequences of Unicode scalar values, where a JavaScript string is a sequence of UTF-16 code
  units. `apiKey.length` counts a character outside the Basic Multilingual Plane twice, so a
  key of 16 such characters is well-formed in the source and malformed in the model. A lone
  surrogate cannot occur in a model string, so the `URIError` that `encodeURIComponent`
  throws on one (app/page.tsx:37, components/print-posters-button.tsx:67) is not modelled.
- MovieList.MovieCard gives only the settled card. The effects of `MovieItem` are not
  modelled, nor the abort of its poster lookup on unmount. Their outcome is the `preferred`
  parameter.
- Canvas drawing is not modelled: shadows, fonts, the title text, image pixels,
  `toDataURL`, the `alert` on failure and the click on the download link. The model keeps
  the layout arithmetic, the image sources and the resulting placements.
- The dialog's own `onOpenChange` (closing the print preview from the dialog) is not
  modelled. It is components/print-preview-dialog.tsx, which is not part of this model.
- The preview's prev/next buttons and backdrop click call the owner's callbacks directly,
  and are not modelled. `formatDate` (`toLocaleDateString`), genres and other display text
  are not modelled either.
- `router.replace` is modelled as the `url` field. A `Location` names the value that
  `searchParams.get('titles')` reads from an address. For the addresses the page writes, that
  value is the query: HomePage.Href shows that the written text decodes back to it. The form
  decoding of a typed address (`+` as a space, lenient escapes) is not modelled.
- HomePage.Home.SyncFromUrl records a `URIError` in `uriError`. What the framework then shows
  (its error screen) is not modelled.
- Floating point is not modelled: `vote_average` is a `real` that is only compared, and
  `toFixed` is left out. Touch positions are integers.
- `searchPerson`, `getMovieDetails`, `requestJson` and `isAbortError` of
  src/lib/tmdb-client.ts are not modelled. Their outcomes are the reply parameters:
  - a non-2xx reply is a failure;
  - an `AbortError` DOMException is an abort.
- components/movie-poster.tsx is not part of this model, because its positions come from
  `Math.random` and floating-point geometry.
- app/api/image-proxy/route.ts is not part of this model. It only passes requests through.
- Presentation-only files are not part of this model:
  - components/movie-results.tsx;
  - components/movie-search.tsx;
  - src/components/search-box.tsx;
  - the layouts and next.config.mjs.

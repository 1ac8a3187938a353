/** The search page (app/page.tsx): the state it keeps around one search, the address it
    shows, the requests it sends to `/api/movies` and how replies land in its state. */
module HomePage {
  import opened Types
  import Text
  import Uri

  const FetchErrorMessage: string := "获取电影海报失败。请重试。"
  const HomeUrl: string := "/"
  const ShareUrlPrefix: string := "/?titles="
  const MoviesApiPrefix: string := "/api/movies?titles="

  /** How a request to `/api/movies` ended: parsed results, a status other than 2xx, or a
      failure before any response (network error, unreadable body). */
  datatype FetchOutcome = Ok(results: seq<Movie>) | HttpError(status: int) | Failed

  /** An address of the page: the bare page, or the page sharing a query, named by the
      value `searchParams.get('titles')` reads from it. */
  datatype Location = Bare | Shared(titles: string)

  /** The text of an address the page writes; a shared query is percent-encoded, so the
      parameter read back from it is the query itself. */
  function Href(location: Location): (r: string)
    ensures location.Bare? ==> r == HomeUrl
    ensures location.Shared? ==>
              |r| >= |ShareUrlPrefix| && r[..|ShareUrlPrefix|] == ShareUrlPrefix
              && Uri.DecodeUriComponent(r[|ShareUrlPrefix|..]) == Some(location.titles)
  {
    match location
    case Bare => HomeUrl
    case Shared(titles) =>
      Uri.DecodeEncode(titles);
      assert (ShareUrlPrefix + Uri.EncodeUriComponent(titles))[|ShareUrlPrefix|..] == Uri.EncodeUriComponent(titles);
      ShareUrlPrefix + Uri.EncodeUriComponent(titles)
  }

  /** `searchParams.get('titles')` at an address. */
  function Param(location: Location): Option<string> {
    match location
    case Bare => None
    case Shared(titles) => Some(titles)
  }

  /** A request to `/api/movies`: either its `titles` parameter is a query the page
      percent-encodes, or a parameter taken from the address as it stands. */
  datatype Request = Encoded(titles: string) | Verbatim(parameter: string)

  /** The URL of a request: an encoded query decodes back to the query; a verbatim
      parameter is written into the URL unchanged. */
  function RequestUrl(request: Request): (r: string)
    ensures |r| >= |MoviesApiPrefix| && r[..|MoviesApiPrefix|] == MoviesApiPrefix
    ensures request.Encoded? ==> Uri.DecodeUriComponent(r[|MoviesApiPrefix|..]) == Some(request.titles)
    ensures request.Verbatim? ==> r[|MoviesApiPrefix|..] == request.parameter
  {
    match request
    case Encoded(titles) =>
      Uri.DecodeEncode(titles);
      assert (MoviesApiPrefix + Uri.EncodeUriComponent(titles))[|MoviesApiPrefix|..] == Uri.EncodeUriComponent(titles);
      MoviesApiPrefix + Uri.EncodeUriComponent(titles)
    case Verbatim(parameter) =>
      assert (MoviesApiPrefix + parameter)[|MoviesApiPrefix|..] == parameter;
      MoviesApiPrefix + parameter
  }

  /** What `handleSearch` does with an input, given the query the page holds. */
  datatype SearchPlan =
    | ClearSearch
    | SameQuery(trimmed: string)
    | NewQuery(trimmed: string)

  /** Blank input clears the search; any other input is taken trimmed, and is a new query
      exactly when it differs from the trimmed current query. */
  function PlanSearch(titles: string, current: string): (r: SearchPlan)
    ensures r.ClearSearch? <==> Text.IsBlank(titles)
    ensures r.SameQuery? <==> !Text.IsBlank(titles) && Text.Trim(titles) == Text.Trim(current)
    ensures !r.ClearSearch? ==> r.trimmed == Text.Trim(titles) && r.trimmed != []
  {
    var trimmed := Text.Trim(titles);
    if trimmed == [] then ClearSearch
    else if trimmed == Text.Trim(current) then SameQuery(trimmed)
    else NewQuery(trimmed)
  }

  class Home {
    var searchTitles: string
    var movies: seq<Movie>
    var isLoading: bool
    var error: Option<string>
    var hasSearched: bool
    /** The address in the browser's location bar. */
    var url: Location
    /** The requests sent to `/api/movies`, oldest first. */
    var requests: seq<Request>
    /** Whether the synchronising effect has run, and the `titles` parameter it last ran
        with: React runs it after the first render and after every render in which the
        parameter changed. */
    var effectRan: bool
    var lastParam: Option<string>
    /** The effect threw a `URIError` out of `decodeURIComponent`. */
    var uriError: bool

    /** The effect has run for the address as it is now. */
    predicate Synced()
      reads this
    {
      effectRan && lastParam == Param(url)
    }

    /** The page's first render at an address: the query starts as its `titles` parameter
        (or empty), and the page counts as searched exactly when there is one. */
    constructor(location: Location)
      ensures searchTitles == (if Truthy(Param(location)) then Param(location).value else [])
      ensures hasSearched <==> Truthy(Param(location))
      ensures movies == [] && !isLoading && error == None
      ensures url == location && requests == []
      ensures !effectRan && !uriError
    {
      searchTitles := if Truthy(Param(location)) then Param(location).value else [];
      movies := [];
      isLoading := false;
      error := None;
      hasSearched := Truthy(Param(location));
      url := location;
      requests := [];
      effectRan := false;
      lastParam := None;
      uriError := false;
    }

    /** The effect keyed on the `titles` parameter, which runs when the parameter differs
        from the one it last ran with (or on the first render). With a non-empty parameter
        it decodes it; a `URIError` stops it before anything is set; otherwise the decoded
        text becomes the query, loading starts, the error clears and the parameter is
        fetched as it stands, whatever the previous query was. */
    method SyncFromUrl()
      modifies this
      ensures Synced()
      ensures url == old(url) && movies == old(movies) && hasSearched == old(hasSearched)
      ensures var p := Param(url);
              if old(Synced()) || !Truthy(p) then
                searchTitles == old(searchTitles) && isLoading == old(isLoading) && error == old(error)
                && requests == old(requests) && uriError == old(uriError)
              else if Uri.DecodeUriComponent(p.value).None? then
                searchTitles == old(searchTitles) && isLoading == old(isLoading) && error == old(error)
                && requests == old(requests) && uriError
              else
                searchTitles == Uri.DecodeUriComponent(p.value).value && isLoading && error == None
                && requests == old(requests) + [Verbatim(p.value)] && uriError == old(uriError)
    {
      var p := Param(url);
      if !Synced() {
        if Truthy(p) {
          match Uri.DecodeUriComponent(p.value) {
            case None =>
              uriError := true;
            case Some(decoded) =>
              searchTitles := decoded;
              isLoading := true;
              error := None;
              requests := requests + [Verbatim(p.value)];
          }
        }
        effectRan := true;
        lastParam := p;
      }
    }

    /** `handleSearch(titles)` up to the request it sends, following `PlanSearch`: blank
        input clears the query and the movies, marks the page as not searched and returns
        to the bare address; otherwise the address is rewritten first, and only a new
        query is stored, marks the page loading and searched, clears the error and sends
        its request. The movies stay until a reply arrives. The page handles input only
        once the effects of its last render have run. */
    method HandleSearch(titles: string)
      requires Synced()
      modifies this
      ensures match PlanSearch(titles, old(searchTitles))
              case ClearSearch =>
                searchTitles == [] && movies == [] && !hasSearched && url == Bare
                && isLoading == old(isLoading) && error == old(error) && requests == old(requests)
              case SameQuery(trimmed) =>
                url == Shared(trimmed)
                && searchTitles == old(searchTitles) && movies == old(movies) && isLoading == old(isLoading)
                && error == old(error) && hasSearched == old(hasSearched) && requests == old(requests)
              case NewQuery(trimmed) =>
                url == Shared(trimmed) && searchTitles == trimmed
                && movies == old(movies) && isLoading && error == None && hasSearched
                && requests == old(requests) + [Encoded(trimmed)]
      ensures effectRan == old(effectRan) && lastParam == old(lastParam) && uriError == old(uriError)
    {
      var plan := PlanSearch(titles, searchTitles);
      if plan.ClearSearch? {
        searchTitles := [];
        movies := [];
        hasSearched := false;
        url := Bare;
      } else if plan.SameQuery? {
        url := Shared(plan.trimmed);
      } else {
        url := Shared(plan.trimmed);
        searchTitles := plan.trimmed;
        isLoading := true;
        error := None;
        hasSearched := true;
        requests := requests + [Encoded(plan.trimmed)];
      }
    }

    /** The end of a request, whichever request it was: results replace the movies, any
        failure sets the fixed message and keeps the movies; loading ends either way. */
    method CompleteFetch(outcome: FetchOutcome)
      modifies this
      ensures outcome.Ok? ==> movies == outcome.results && error == old(error)
      ensures !outcome.Ok? ==> movies == old(movies) && error == Some(FetchErrorMessage)
      ensures !isLoading
      ensures searchTitles == old(searchTitles) && hasSearched == old(hasSearched)
              && url == old(url) && requests == old(requests)
      ensures effectRan == old(effectRan) && lastParam == old(lastParam) && uriError == old(uriError)
    {
      match outcome {
        case Ok(results) =>
          movies := results;
        case _ =>
          error := Some(FetchErrorMessage);
      }
      isLoading := false;
    }
  }

  /** A query the page encodes reaches the API as one `titles` parameter: nothing in the
      encoded text can end the parameter or the query early. */
  lemma EncodedRequestIsOneParameter(titles: string)
    ensures var r := RequestUrl(Encoded(titles));
            |r| >= |MoviesApiPrefix| + |titles| && r[..|MoviesApiPrefix|] == MoviesApiPrefix
            && forall i :: |MoviesApiPrefix| <= i < |r| ==> r[i] != '&' && r[i] != '#'
  {
    var e := Uri.EncodeUriComponent(titles);
    Uri.EncodedHasNoDelimiters(titles);
    assert forall i :: |MoviesApiPrefix| <= i < |MoviesApiPrefix + e| ==> (MoviesApiPrefix + e)[i] == e[i - |MoviesApiPrefix|];
  }

  /** No character of the string is `%`. */
  predicate NoPercent(s: string) {
    forall i :: 0 <= i < |s| ==> s[i] != '%'
  }

  /** A new search from the bare page sends two requests: the handler's, with the query
      encoded, and then the effect's, because rewriting the address changed the `titles`
      parameter, with the query as it stands. */
  method NewSearchSendsTwoRequests(titles: string) returns (sent: seq<Request>, query: string, loading: bool)
    requires !Text.IsBlank(titles) && NoPercent(Text.Trim(titles))
    ensures sent == [Encoded(Text.Trim(titles)), Verbatim(Text.Trim(titles))]
    ensures query == Text.Trim(titles) && loading
  {
    var home := new Home(Bare);
    home.SyncFromUrl();
    home.HandleSearch(titles);
    Uri.DecodePlain(Text.Trim(titles));
    home.SyncFromUrl();
    sent, query, loading := home.requests, home.searchTitles, home.isLoading;
  }

  /** Searching for text with a `%` that starts no escape (such as `100%`) sends the
      encoded request, and then the effect throws a `URIError` decoding the parameter. */
  method MalformedPercentThrows(titles: string, i: nat) returns (sent: seq<Request>, threw: bool)
    requires !Text.IsBlank(titles)
    requires var t := Text.Trim(titles);
             i < |t| && t[i] == '%' && !(i + 2 < |t| && Uri.IsHex(t[i + 1]) && Uri.IsHex(t[i + 2]))
    ensures sent == [Encoded(Text.Trim(titles))]
    ensures threw
  {
    var home := new Home(Bare);
    home.SyncFromUrl();
    home.HandleSearch(titles);
    Uri.MalformedEscapeRejected(Text.Trim(titles), i);
    home.SyncFromUrl();
    sent, threw := home.requests, home.uriError;
  }

  /** Searching again for the same titles, with different surrounding white space, sends
      no further request: the address stays the same, so the effect does not run again. */
  method RepeatedSearchIsSuppressed(titles: string, padded: string, results: seq<Movie>)
    returns (sent: seq<Request>, shownUrl: Location, shown: seq<Movie>)
    requires !Text.IsBlank(titles) && NoPercent(Text.Trim(titles))
    requires Text.Trim(padded) == Text.Trim(titles)
    ensures sent == [Encoded(Text.Trim(titles)), Verbatim(Text.Trim(titles))]
    ensures shownUrl == Shared(Text.Trim(titles))
    ensures shown == results
  {
    var home := new Home(Bare);
    home.SyncFromUrl();
    home.HandleSearch(titles);
    Uri.DecodePlain(Text.Trim(titles));
    home.SyncFromUrl();
    home.CompleteFetch(Ok(results));
    home.CompleteFetch(Ok(results));
    Text.TrimIdempotent(titles);
    home.HandleSearch(padded);
    home.SyncFromUrl();
    sent, shownUrl, shown := home.requests, home.url, home.movies;
  }

  /** Replies are applied in the order they arrive: when the first of two searches answers
      last, its movies replace those of the newer search. */
  method LateReplyOverwrites(first: string, second: string, firstResults: seq<Movie>, secondResults: seq<Movie>)
    returns (sent: nat, shown: seq<Movie>, query: string, loading: bool)
    requires !Text.IsBlank(first) && NoPercent(Text.Trim(first))
    requires !Text.IsBlank(second) && NoPercent(Text.Trim(second))
    requires Text.Trim(first) != Text.Trim(second)
    ensures sent == 4
    ensures shown == firstResults
    ensures query == Text.Trim(second)
    ensures !loading
  {
    var home := new Home(Bare);
    home.SyncFromUrl();
    home.HandleSearch(first);
    Uri.DecodePlain(Text.Trim(first));
    home.SyncFromUrl();
    Text.TrimIdempotent(first);
    home.HandleSearch(second);
    Uri.DecodePlain(Text.Trim(second));
    home.SyncFromUrl();
    home.CompleteFetch(Ok(secondResults));
    home.CompleteFetch(Ok(secondResults));
    home.CompleteFetch(Ok(firstResults));
    sent, shown, query, loading := |home.requests|, home.movies, home.searchTitles, home.isLoading;
  }

  /** Clearing the input while a request is out neither stops the loading state nor the
      request: its reply still fills the movies of the cleared page. */
  method ClearDuringRequest(titles: string, blank: string, results: seq<Movie>)
    returns (loadingAfterClear: bool, searched: bool, shown: seq<Movie>)
    requires !Text.IsBlank(titles) && Text.IsBlank(blank)
    ensures loadingAfterClear && !searched
    ensures shown == results
  {
    var home := new Home(Bare);
    home.SyncFromUrl();
    home.HandleSearch(titles);
    home.SyncFromUrl();
    home.HandleSearch(blank);
    home.SyncFromUrl();
    loadingAfterClear := home.isLoading;
    home.CompleteFetch(Ok(results));
    searched, shown := home.hasSearched, home.movies;
  }

  /** Opening a shared address searches at once, even for a query equal to the stored one,
      and marks the page as searched from its first render; the query is the decoded
      parameter and the request carries the parameter as it stands. */
  method OpenSharedAddress(parameter: string)
    returns (searched: bool, loading: bool, sent: seq<Request>, query: string)
    requires parameter != [] && Uri.DecodeUriComponent(parameter).Some?
    ensures searched && loading
    ensures sent == [Verbatim(parameter)]
    ensures query == Uri.DecodeUriComponent(parameter).value
  {
    var home := new Home(Shared(parameter));
    home.SyncFromUrl();
    searched, loading, sent, query := home.hasSearched, home.isLoading, home.requests, home.searchTitles;
  }
}

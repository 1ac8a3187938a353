/** The search hook (src/hooks/use-tmdb-search.ts): one logical "current search" whose
    stale completions are discarded by comparing request ids, an abort handle per search, and
    a one-time API-key gate shared by overlapping callers.

    Every await of the source is split into the event that resumes it: `Search` runs up to
    the key check, `EnsureApiKeyValid` and `SettleValidation` are the key gate,
    `AbandonAfterInvalidKey` is the return after a failed gate, and `CompleteSearch` /
    `FailSearch` are the settlement of the search request carrying the id the search captured.
    Any interleaving of these events is a run of the hook. */
module SearchHook {
  import opened Types
  import Text
  import TmdbClient

  const ApiKeyErrorMessage: string := "TMDB API Key 配置无效，请检查设置。"
  const SearchErrorMessage: string := "TMDB 搜索失败，请稍后重试。"

  /** What a started search carries to its later steps: the request id it captured and the
      trimmed query it sends. */
  datatype Ticket = Ticket(id: nat, query: string)

  /** Result of `ensureApiKeyValid()` as seen at the call: already decided, or waiting for the
      one shared validation in flight. */
  datatype KeyGate = Decided(valid: bool) | AwaitValidation

  /** How the search request settled when it did not produce a response: an `AbortError`
      DOMException, another `Error` with its message, or a thrown non-`Error` value. */
  datatype SearchFailure = Aborted | ErrorWithMessage(message: string) | NonErrorThrown

  class Hook {
    var movies: seq<Movie>
    var isLoading: bool
    var error: Option<string>
    var apiKeyValid: Option<bool>
    var hasSearched: bool
    /** `validationPromiseRef.current !== null`. */
    var validationPending: bool
    /** `abortControllerRef.current`, named by the request id of the search that created it. */
    var controller: Option<nat>
    /** The controllers that have been aborted. */
    var aborted: set<nat>
    /** `requestIdRef.current`. */
    var requestId: nat

    /** The live controller belongs to the current request and was never aborted; every
        aborted controller belongs to an older request; loading implies a search happened;
        a validation is in flight only while the key is not known to be valid. */
    ghost predicate Valid()
      reads this
    {
      && (controller.Some? ==> controller.value == requestId)
      && (forall h :: h in aborted ==> h < requestId)
      && (isLoading ==> hasSearched)
      && (validationPending ==> apiKeyValid != Some(true))
    }

    constructor ()
      ensures Valid()
      ensures movies == [] && !isLoading && error.None? && apiKeyValid.None? && !hasSearched
      ensures !validationPending && controller.None? && aborted == {} && requestId == 0
    {
      movies, isLoading, error, apiKeyValid, hasSearched := [], false, None, None, false;
      validationPending, controller, aborted, requestId := false, None, {}, 0;
    }

    /** `resultError`: a key known to be invalid shows the key message, whatever the error state. */
    function ResultError(): (r: Option<string>)
      reads this
      ensures apiKeyValid == Some(false) ==> r == Some(ApiKeyErrorMessage)
      ensures apiKeyValid != Some(false) ==> r == error
    {
      if apiKeyValid == Some(false) then Some(ApiKeyErrorMessage) else error
    }

    /** `reset()`: aborts and drops the live controller, moves to a new request id so that
        every completion in flight is stale, and clears the results. The key state is kept. */
    method Reset()
      requires Valid()
      modifies this
      ensures Valid()
      ensures aborted == old(aborted) + (if old(controller).Some? then {old(controller).value} else {})
      ensures controller.None? && requestId == old(requestId) + 1
      ensures movies == [] && error.None? && !isLoading && !hasSearched
      ensures apiKeyValid == old(apiKeyValid) && validationPending == old(validationPending)
    {
      if controller.Some? {
        aborted := aborted + {controller.value};
      }
      controller := None;
      requestId := requestId + 1;
      movies, error, isLoading, hasSearched := [], None, false, false;
    }

    /** `search(rawQuery)` up to its first await. A query that is blank after trimming is
        exactly `reset()` and starts nothing. Any other query aborts the previous controller,
        takes the next request id with a new controller, and marks a search as started
        (searched, loading, no error) while the previous results stay on display. */
    method Search(rawQuery: string) returns (ticket: Option<Ticket>)
      requires Valid()
      modifies this
      ensures Valid()
      ensures requestId == old(requestId) + 1
      ensures aborted == old(aborted) + (if old(controller).Some? then {old(controller).value} else {})
      ensures apiKeyValid == old(apiKeyValid) && validationPending == old(validationPending)
      ensures Text.IsBlank(rawQuery) ==>
                ticket.None? && controller.None?
                && movies == [] && error.None? && !isLoading && !hasSearched
      ensures !Text.IsBlank(rawQuery) ==>
                ticket == Some(Ticket(requestId, Text.Trim(rawQuery))) && controller == Some(requestId)
                && movies == old(movies) && error.None? && isLoading && hasSearched
    {
      var nextQuery := Text.Trim(rawQuery);
      if nextQuery == [] {
        Reset();
        return None;
      }
      if controller.Some? {
        aborted := aborted + {controller.value};
      }
      var currentRequestId := requestId + 1;
      controller := Some(currentRequestId);
      requestId := currentRequestId;
      hasSearched, isLoading, error := true, true, None;
      ticket := Some(Ticket(currentRequestId, nextQuery));
    }

    /** `ensureApiKeyValid()`, given what `getApiKeyStatus()` reports. A key known to be valid
        passes at once. While a validation is in flight the caller waits for that same one.
        A key that is missing or badly formatted fails without any probe and records the key
        error. Otherwise a validation starts and the caller waits for it. */
    method EnsureApiKeyValid(status: TmdbClient.ApiKeyStatus) returns (gate: KeyGate)
      requires Valid()
      modifies this
      ensures Valid()
      ensures movies == old(movies) && isLoading == old(isLoading) && hasSearched == old(hasSearched)
      ensures controller == old(controller) && aborted == old(aborted) && requestId == old(requestId)
      ensures old(apiKeyValid) == Some(true) ==>
                gate == Decided(true) && apiKeyValid == old(apiKeyValid)
                && error == old(error) && validationPending == old(validationPending)
      ensures old(apiKeyValid) != Some(true) && old(validationPending) ==>
                gate == AwaitValidation && apiKeyValid == old(apiKeyValid)
                && error == old(error) && validationPending
      ensures old(apiKeyValid) != Some(true) && !old(validationPending) && !(status.isConfigured && status.isValidFormat) ==>
                gate == Decided(false) && apiKeyValid == Some(false)
                && error == Some(ApiKeyErrorMessage) && !validationPending
      ensures old(apiKeyValid) != Some(true) && !old(validationPending) && status.isConfigured && status.isValidFormat ==>
                gate == AwaitValidation && apiKeyValid == old(apiKeyValid)
                && error == old(error) && validationPending
      ensures gate == Decided(false) ==> ResultError() == Some(ApiKeyErrorMessage)
    {
      if apiKeyValid == Some(true) {
        return Decided(true);
      }
      if validationPending {
        return AwaitValidation;
      }
      if !status.isConfigured || !status.isValidFormat {
        apiKeyValid := Some(false);
        error := Some(ApiKeyErrorMessage);
        return Decided(false);
      }
      validationPending := true;
      gate := AwaitValidation;
    }

    /** The shared validation settles: with `validateApiKey()`'s answer, or with None when it
        threw. The answer becomes the cached key state (a throw counts as invalid), an invalid
        key records the key error, and the validation is no longer in flight. Every caller
        waiting on it gets `valid`. */
    method SettleValidation(outcome: Option<bool>) returns (valid: bool)
      requires Valid() && validationPending
      modifies this
      ensures Valid()
      ensures valid <==> outcome == Some(true)
      ensures apiKeyValid == Some(valid) && !validationPending
      ensures error == if valid then old(error) else Some(ApiKeyErrorMessage)
      ensures !valid ==> ResultError() == Some(ApiKeyErrorMessage)
      ensures movies == old(movies) && isLoading == old(isLoading) && hasSearched == old(hasSearched)
      ensures controller == old(controller) && aborted == old(aborted) && requestId == old(requestId)
    {
      valid := outcome == Some(true);
      apiKeyValid := Some(valid);
      if !valid {
        error := Some(ApiKeyErrorMessage);
      }
      validationPending := false;
    }

    /** A search whose key gate answered false stops: it clears `isLoading` without checking
        whether it is still the current request. */
    method AbandonAfterInvalidKey()
      requires Valid()
      modifies this
      ensures Valid()
      ensures !isLoading
      ensures movies == old(movies) && error == old(error) && hasSearched == old(hasSearched)
      ensures apiKeyValid == old(apiKeyValid) && validationPending == old(validationPending)
      ensures controller == old(controller) && aborted == old(aborted) && requestId == old(requestId)
    {
      isLoading := false;
    }

    /** The search request of the search with id `id` answered with `results`. Only the
        current request publishes them and stops loading; a superseded one changes nothing. */
    method CompleteSearch(id: nat, results: seq<Movie>)
      requires Valid()
      modifies this
      ensures Valid()
      ensures id == old(requestId) ==> movies == results && !isLoading
      ensures id != old(requestId) ==> movies == old(movies) && isLoading == old(isLoading)
      ensures error == old(error) && hasSearched == old(hasSearched)
      ensures apiKeyValid == old(apiKeyValid) && validationPending == old(validationPending)
      ensures controller == old(controller) && aborted == old(aborted) && requestId == old(requestId)
    {
      if requestId == id {
        movies := results;
        // the `finally` of the current search
        isLoading := false;
      }
    }

    /** The search request of the search with id `id` failed. An abort is ignored, though the
        `finally` still ends loading if that search is current. Any other failure of the
        current request clears the results and shows the error's message (the fixed search
        message for a thrown non-Error); a superseded one changes nothing. */
    method FailSearch(id: nat, failure: SearchFailure)
      requires Valid()
      modifies this
      ensures Valid()
      ensures failure.Aborted? ==>
                movies == old(movies) && error == old(error)
                && isLoading == (old(isLoading) && id != old(requestId))
      ensures !failure.Aborted? && id == old(requestId) ==>
                movies == [] && !isLoading
                && error == Some(if failure.ErrorWithMessage? then failure.message else SearchErrorMessage)
      ensures !failure.Aborted? && id != old(requestId) ==>
                movies == old(movies) && error == old(error) && isLoading == old(isLoading)
      ensures old(apiKeyValid) == Some(false) ==> ResultError() == Some(ApiKeyErrorMessage)
      ensures hasSearched == old(hasSearched)
      ensures apiKeyValid == old(apiKeyValid) && validationPending == old(validationPending)
      ensures controller == old(controller) && aborted == old(aborted) && requestId == old(requestId)
    {
      if !failure.Aborted? && requestId == id {
        movies := [];
        error := Some(if failure.ErrorWithMessage? then failure.message else SearchErrorMessage);
      }
      if requestId == id {
        isLoading := false;
      }
    }
  }

  /** A key status that lets the gate probe the provider. */
  const GoodKeyStatus := TmdbClient.ApiKeyStatus(true, true)

  /** Typing "A" and then "B" before A's reply arrives: whatever order the replies come in,
      the published list is B's and loading has ended, and A's controller was aborted. */
  method LatestSearchWins(a: string, b: string, resultsA: seq<Movie>, resultsB: seq<Movie>, aFirst: bool)
    returns (published: seq<Movie>, loading: bool, aAborted: bool)
    requires !Text.IsBlank(a) && !Text.IsBlank(b)
    ensures published == resultsB && !loading && aAborted
  {
    var hook := new Hook();
    var ta := hook.Search(a);
    var gate := hook.EnsureApiKeyValid(GoodKeyStatus);
    var valid := hook.SettleValidation(Some(true));
    var tb := hook.Search(b);
    var gateB := hook.EnsureApiKeyValid(GoodKeyStatus);
    assert gateB == Decided(true);
    if aFirst {
      hook.CompleteSearch(ta.value.id, resultsA);
      hook.CompleteSearch(tb.value.id, resultsB);
    } else {
      hook.CompleteSearch(tb.value.id, resultsB);
      hook.CompleteSearch(ta.value.id, resultsA);
    }
    published, loading, aAborted := hook.movies, hook.isLoading, ta.value.id in hook.aborted;
  }

  /** `reset()` while a search is in flight: the state is cleared and the late reply of that
      search (a result or a failure) is discarded. */
  method ResetDiscardsInFlight(q: string, results: seq<Movie>, late: Option<SearchFailure>)
    returns (published: seq<Movie>, loading: bool, searched: bool, shownError: Option<string>)
    requires !Text.IsBlank(q)
    ensures published == [] && !loading && !searched && shownError.None?
  {
    var hook := new Hook();
    var gate := hook.EnsureApiKeyValid(GoodKeyStatus);
    var valid := hook.SettleValidation(Some(true));
    var t := hook.Search(q);
    hook.Reset();
    if late.Some? {
      hook.FailSearch(t.value.id, late.value);
    } else {
      hook.CompleteSearch(t.value.id, results);
    }
    published, loading, searched, shownError := hook.movies, hook.isLoading, hook.hasSearched, hook.ResultError();
  }

  /** Two searches started while the key is unknown share one validation: the first starts
      the probe, the second waits for that one instead of starting another, and the answer
      becomes the cached key state for both. */
  method OverlappingSearchesShareValidation(a: string, b: string, answer: bool)
    returns (firstGate: KeyGate, secondGate: KeyGate, firstStarted: bool, secondStarted: bool, cached: Option<bool>)
    requires !Text.IsBlank(a) && !Text.IsBlank(b)
    ensures firstGate == AwaitValidation && secondGate == AwaitValidation
    ensures firstStarted && !secondStarted && cached == Some(answer)
  {
    var hook := new Hook();
    var ta := hook.Search(a);
    var pendingBefore := hook.validationPending;
    firstGate := hook.EnsureApiKeyValid(GoodKeyStatus);
    firstStarted := hook.validationPending && !pendingBefore;
    var tb := hook.Search(b);
    pendingBefore := hook.validationPending;
    secondGate := hook.EnsureApiKeyValid(GoodKeyStatus);
    secondStarted := hook.validationPending && !pendingBefore;
    var valid := hook.SettleValidation(Some(answer));
    cached := hook.apiKeyValid;
  }

  /** The failed-key path has no id check: a superseded search whose gate fails ends the
      loading state of the newer search, which is still waiting for its reply. */
  method StaleKeyFailureEndsNewerLoading(a: string, b: string)
    returns (newerInFlight: bool, loading: bool)
    requires !Text.IsBlank(a) && !Text.IsBlank(b)
    ensures newerInFlight && !loading
  {
    var hook := new Hook();
    var ta := hook.Search(a);
    var tb := hook.Search(b);
    newerInFlight := hook.controller == Some(tb.value.id) && tb.value.id != ta.value.id;
    hook.AbandonAfterInvalidKey();
    loading := hook.isLoading;
  }
}

/** The browser-side TMDB client (src/lib/tmdb-client.ts): image URLs, the preferred-poster
    choice with its per-movie cache, the movie-search request, request URL construction and
    the API-key checks. Network replies are parameters. */
module TmdbClient {
  import opened Types
  import Text

  const DefaultBaseUrl: string := "https://api.themoviedb.org/3"
  const DefaultImageBaseUrl: string := "https://image.tmdb.org/t/p"
  const KeyNotConfigured: string := "TMDB API key is not configured"

  // ---------------------------------------------------------------- image URLs

  /** `getImageUrl(path, size)`: no URL for a missing or empty path, otherwise the path
      appended to `<imageBaseUrl>/<size>`. */
  function ImageUrl(imageBaseUrl: string, path: Option<string>, size: string): (r: Option<string>)
    ensures r.None? <==> !Truthy(path)
    ensures r.Some? ==> |r.value| == |imageBaseUrl| + 1 + |size| + |path.value|
                        && r.value[..|imageBaseUrl|] == imageBaseUrl
                        && r.value[|imageBaseUrl|] == '/'
                        && r.value[|imageBaseUrl| + 1..|imageBaseUrl| + 1 + |size|] == size
                        && r.value[|imageBaseUrl| + 1 + |size|..] == path.value
  {
    if !Truthy(path) then None else Some(imageBaseUrl + "/" + size + path.value)
  }

  // ---------------------------------------------------------------- poster choice

  /** `vote_average ?? 0`. */
  function Vote(p: Poster): real {
    if p.voteAverage.Some? then p.voteAverage.value else 0.0
  }

  /** The poster languages the choice prefers: textless (`null`) or English. */
  predicate IsPreferredLanguage(p: Poster) {
    p.language.None? || p.language == Some("en")
  }

  /** Whether a poster takes part in a search: every poster, or only the preferred-language ones. */
  predicate Eligible(p: Poster, onlyPreferred: bool) {
    !onlyPreferred || IsPreferredLanguage(p)
  }

  predicate SortedByVote(s: seq<Poster>) {
    forall i, j :: 0 <= i < j < |s| ==> Vote(s[i]) >= Vote(s[j])
  }

  /** Inserts `p` into a vote-descending list in front of the first poster whose vote is not
      higher, so that `p` stays ahead of later posters with the same vote. */
  function InsertByVote(p: Poster, t: seq<Poster>): (r: seq<Poster>)
    ensures multiset(r) == multiset(t) + multiset{p}
  {
    if t == [] then [p]
    else if Vote(t[0]) <= Vote(p) then [p] + t
    else
      assert t == [t[0]] + t[1..];
      [t[0]] + InsertByVote(p, t[1..])
  }

  lemma {:induction false} InsertKeepsSorted(p: Poster, t: seq<Poster>)
    requires SortedByVote(t)
    ensures SortedByVote(InsertByVote(p, t))
  {
    if t != [] && Vote(t[0]) > Vote(p) {
      var rest := InsertByVote(p, t[1..]);
      InsertKeepsSorted(p, t[1..]);
      forall i | 0 <= i < |rest| ensures Vote(rest[i]) <= Vote(t[0]) {
        assert rest[i] in multiset(rest);
        if rest[i] != p {
          assert rest[i] in multiset(t[1..]);
          var j :| 0 <= j < |t[1..]| && t[1..][j] == rest[i];
          assert t[j + 1] == rest[i];
        }
      }
      assert InsertByVote(p, t) == [t[0]] + rest;
    }
  }

  /** `[...posters].sort((a, b) => vote(b) - vote(a))`: a stable sort by descending vote. */
  function SortByVote(s: seq<Poster>): (r: seq<Poster>)
    ensures multiset(r) == multiset(s)
    ensures SortedByVote(r)
  {
    if s == [] then []
    else
      assert s == [s[0]] + s[1..];
      InsertKeepsSorted(s[0], SortByVote(s[1..]));
      InsertByVote(s[0], SortByVote(s[1..]))
  }

  /** `sorted.find(...)`: the first poster of the list that is eligible. */
  function FindFirst(s: seq<Poster>, onlyPreferred: bool): (r: Option<Poster>)
    ensures r.None? <==> forall i :: 0 <= i < |s| ==> !Eligible(s[i], onlyPreferred)
    ensures r.Some? ==> exists k :: (0 <= k < |s| && s[k] == r.value && Eligible(s[k], onlyPreferred)
                        && forall j :: 0 <= j < k ==> !Eligible(s[j], onlyPreferred))
  {
    if s == [] then None
    else if Eligible(s[0], onlyPreferred) then Some(s[0])
    else
      var r := FindFirst(s[1..], onlyPreferred);
      assert r.Some? ==> exists k :: (0 <= k < |s| && s[k] == r.value && Eligible(s[k], onlyPreferred)
                        && forall j :: 0 <= j < k ==> !Eligible(s[j], onlyPreferred)) by {
        if r.Some? {
          var k :| 0 <= k < |s| - 1 && s[1..][k] == r.value && Eligible(s[1..][k], onlyPreferred)
                   && forall j :: 0 <= j < k ==> !Eligible(s[1..][j], onlyPreferred);
          assert forall j :: 0 <= j < k + 1 ==> !Eligible(s[j], onlyPreferred) by {
            forall j | 0 <= j < k + 1 ensures !Eligible(s[j], onlyPreferred) {
              if j > 0 { assert s[j] == s[1..][j - 1]; }
            }
          }
        }
      }
      r
  }

  /** One step of the reference choice: `p` beats the best of the posters after it unless
      that one has a strictly higher vote. */
  function PreferEarlier(p: Poster, best: Option<Poster>, onlyPreferred: bool): Option<Poster> {
    if !Eligible(p, onlyPreferred) then best
    else if best.Some? && Vote(best.value) > Vote(p) then best
    else Some(p)
  }

  /** Reference definition of the choice, without sorting: each poster beats the best of the
      posters after it unless that one has a strictly higher vote. */
  function FirstBest(s: seq<Poster>, onlyPreferred: bool): Option<Poster> {
    if s == [] then None else PreferEarlier(s[0], FirstBest(s[1..], onlyPreferred), onlyPreferred)
  }

  /** `s[k]` is eligible, no eligible poster has a higher vote, and every eligible poster
      before it has a strictly lower one. */
  predicate IsFirstMaximalAt(s: seq<Poster>, onlyPreferred: bool, k: int) {
    && 0 <= k < |s| && Eligible(s[k], onlyPreferred)
    && (forall j :: 0 <= j < |s| && Eligible(s[j], onlyPreferred) ==> Vote(s[j]) <= Vote(s[k]))
    && (forall j :: 0 <= j < k && Eligible(s[j], onlyPreferred) ==> Vote(s[j]) < Vote(s[k]))
  }

  /** The reference choice is absent exactly when no poster is eligible. */
  lemma {:induction false} FirstBestAbsent(s: seq<Poster>, onlyPreferred: bool)
    ensures FirstBest(s, onlyPreferred).None? <==> forall i :: 0 <= i < |s| ==> !Eligible(s[i], onlyPreferred)
  {
    if s != [] {
      FirstBestAbsent(s[1..], onlyPreferred);
      assert forall j :: 1 <= j < |s| ==> s[j] == s[1..][j - 1];
    }
  }

  /** The reference choice is the first eligible poster, in the original order, among those
      with the highest vote. */
  lemma {:induction false} FirstBestIsFirstMaximal(s: seq<Poster>, onlyPreferred: bool)
    ensures var r := FirstBest(s, onlyPreferred);
            r.Some? ==> exists k :: IsFirstMaximalAt(s, onlyPreferred, k) && s[k] == r.value
  {
    if s != [] {
      var t := s[1..];
      FirstBestIsFirstMaximal(t, onlyPreferred);
      FirstBestAbsent(t, onlyPreferred);
      var rest := FirstBest(t, onlyPreferred);
      var r := FirstBest(s, onlyPreferred);
      if r.Some? {
        if Eligible(s[0], onlyPreferred) && r == Some(s[0]) {
          FirstMaximalAtHead(s, onlyPreferred);
        } else {
          var k :| IsFirstMaximalAt(t, onlyPreferred, k) && t[k] == rest.value;
          FirstMaximalShift(s, onlyPreferred, k);
        }
      }
    }
  }

  lemma FirstMaximalAtHead(s: seq<Poster>, onlyPreferred: bool)
    requires s != [] && Eligible(s[0], onlyPreferred)
    requires FirstBest(s, onlyPreferred) == Some(s[0])
    requires FirstBest(s[1..], onlyPreferred).Some? ==>
               exists k :: IsFirstMaximalAt(s[1..], onlyPreferred, k) && s[1..][k] == FirstBest(s[1..], onlyPreferred).value
    requires FirstBest(s[1..], onlyPreferred).None? ==> forall i :: 0 <= i < |s| - 1 ==> !Eligible(s[1..][i], onlyPreferred)
    ensures IsFirstMaximalAt(s, onlyPreferred, 0)
  {
    var t := s[1..];
    assert forall j :: 1 <= j < |s| ==> s[j] == t[j - 1];
    var rest := FirstBest(t, onlyPreferred);
    if rest.Some? {
      var k :| IsFirstMaximalAt(t, onlyPreferred, k) && t[k] == rest.value;
    }
  }

  lemma FirstMaximalShift(s: seq<Poster>, onlyPreferred: bool, k: int)
    requires s != [] && IsFirstMaximalAt(s[1..], onlyPreferred, k)
    requires Eligible(s[0], onlyPreferred) ==> Vote(s[0]) < Vote(s[1..][k])
    ensures IsFirstMaximalAt(s, onlyPreferred, k + 1) && s[k + 1] == s[1..][k]
  {
    assert forall j :: 1 <= j < |s| ==> s[j] == s[1..][j - 1];
  }

  /** Inserting into a sorted list and then searching it is the reference step. */
  lemma {:induction false} FindFirstInsert(p: Poster, t: seq<Poster>, onlyPreferred: bool)
    requires SortedByVote(t)
    ensures FindFirst(InsertByVote(p, t), onlyPreferred) == PreferEarlier(p, FindFirst(t, onlyPreferred), onlyPreferred)
  {
    if t == [] {
    } else if Vote(t[0]) <= Vote(p) {
      var b := FindFirst(t, onlyPreferred);
      if b.Some? {
        var k :| 0 <= k < |t| && t[k] == b.value;
        assert Vote(b.value) <= Vote(t[0]);
      }
      assert InsertByVote(p, t) == [p] + t;
      assert ([p] + t)[1..] == t;
    } else {
      FindFirstInsert(p, t[1..], onlyPreferred);
      var r := InsertByVote(p, t);
      assert r == [t[0]] + InsertByVote(p, t[1..]);
      assert r[1..] == InsertByVote(p, t[1..]);
    }
  }

  /** Searching the stably sorted list finds the reference choice: the sort really is stable
      where the choice can see it. */
  lemma {:induction false} FindFirstOfSorted(s: seq<Poster>, onlyPreferred: bool)
    ensures FindFirst(SortByVote(s), onlyPreferred) == FirstBest(s, onlyPreferred)
  {
    if s != [] {
      FindFirstOfSorted(s[1..], onlyPreferred);
      FindFirstInsert(s[0], SortByVote(s[1..]), onlyPreferred);
    }
  }

  /** The head of the sorted list is the first poster with the highest vote. */
  lemma HeadOfSorted(s: seq<Poster>)
    ensures s != [] ==> Some(SortByVote(s)[0]) == FirstBest(s, false)
  {
    FindFirstOfSorted(s, false);
  }

  /** The path `getPreferredPoster` returns for an image list:
      `preferred?.file_path || fallback?.file_path || null`, where `preferred` is the first
      sorted poster with a preferred language and `fallback` the first sorted poster.
      Stated against the sort-free reference: the best preferred-language poster's path if
      it is non-empty, else the best poster's path if non-empty, else nothing. */
  function PreferredPosterPath(posters: seq<Poster>): (r: Option<string>)
    ensures r.Some? ==> r.value != []
    ensures posters == [] ==> r.None?
    ensures var preferred := FirstBest(posters, true);
            var fallback := FirstBest(posters, false);
            r == if preferred.Some? && preferred.value.filePath != [] then Some(preferred.value.filePath)
                 else if fallback.Some? && fallback.value.filePath != [] then Some(fallback.value.filePath)
                 else None
  {
    var sorted := SortByVote(posters);
    var preferred := FindFirst(sorted, true);
    var fallback := if sorted == [] then None else Some(sorted[0]);
    FindFirstOfSorted(posters, true);
    HeadOfSorted(posters);
    if preferred.Some? && preferred.value.filePath != [] then Some(preferred.value.filePath)
    else if fallback.Some? && fallback.value.filePath != [] then Some(fallback.value.filePath)
    else None
  }

  /** A poster with a preferred language and a non-empty path always wins over any poster
      with another language, whatever its vote. */
  lemma PreferredLanguageWins(posters: seq<Poster>, i: nat)
    requires i < |posters| && IsPreferredLanguage(posters[i])
    requires forall j :: 0 <= j < |posters| && IsPreferredLanguage(posters[j]) ==> posters[j].filePath != []
    ensures var r := PreferredPosterPath(posters);
            r.Some? && exists k :: 0 <= k < |posters| && IsPreferredLanguage(posters[k]) && r.value == posters[k].filePath
  {
    var b := FirstBest(posters, true);
    FirstBestAbsent(posters, true);
    FirstBestIsFirstMaximal(posters, true);
    var k :| 0 <= k < |posters| && posters[k] == b.value && Eligible(posters[k], true);
  }

  // ---------------------------------------------------------------- search request

  datatype SearchResponse = SearchResponse(page: int, results: seq<Movie>, totalPages: int, totalResults: int)

  const EmptySearchResponse := SearchResponse(1, [], 0, 0)

  /** A query-string parameter value: `string | number | boolean | undefined | null`. */
  datatype ParamValue = Str(s: string) | Num(n: int) | Flag(b: bool) | Undefined | Null

  /** What `searchMovies` does before any network traffic: answer at once, or request a path
      with parameters. */
  datatype SearchPlan = Immediate(response: SearchResponse) | Request(path: string, params: seq<(string, ParamValue)>)

  /** `searchMovies(query, page)`: off the client, or for a blank query, the empty first page
      without a request; otherwise a `/search/movie` request with the trimmed query. */
  function SearchMoviesPlan(isClient: bool, query: string, page: int): (r: SearchPlan)
    ensures r.Immediate? <==> !isClient || Text.IsBlank(query)
    ensures r.Immediate? ==> r.response == EmptySearchResponse
    ensures r.Request? ==> r.path == "/search/movie"
                           && r.params == [("query", Str(Text.Trim(query))), ("page", Num(page)),
                                           ("language", Str("zh-CN")), ("include_adult", Str("false"))]
                           && Text.Trim(query) != [] && Text.IsTrimmed(Text.Trim(query))
  {
    if !isClient then Immediate(EmptySearchResponse)
    else if Text.IsBlank(query) then Immediate(EmptySearchResponse)
    else Request("/search/movie", [("query", Str(Text.Trim(query))), ("page", Num(page)),
                                   ("language", Str("zh-CN")), ("include_adult", Str("false"))])
  }

  // ---------------------------------------------------------------- request URLs

  /** A request URL: the resolved base-plus-path and the query parameters in order. */
  datatype Url = Url(base: string, path: string, query: seq<(string, string)>)

  /** `path.replace(/^\/+/, '')`. */
  function NormalizePath(path: string): (r: string)
    ensures |r| <= |path| && r == path[|path| - |r|..]
    ensures r == [] || r[0] != '/'
    ensures forall i :: 0 <= i < |path| - |r| ==> path[i] == '/'
  {
    if path != [] && path[0] == '/' then NormalizePath(path[1..]) else path
  }

  /** `String(value)` for the values that are kept. */
  function ParamString(v: ParamValue): string
    requires !v.Undefined? && !v.Null?
  {
    match v
    case Str(s) => s
    case Num(n) => Text.IntToString(n)
    case Flag(b) => if b then "true" else "false"
  }

  /** `searchParams.set(key, value)`: the first entry with that key takes the value and later
      ones with the key are removed; without such an entry the pair is appended. */
  function SetParam(q: seq<(string, string)>, key: string, value: string): (r: seq<(string, string)>)
    ensures forall i :: 0 <= i < |r| && r[i].0 != key ==> r[i] in q
    ensures forall i :: 0 <= i < |q| && q[i].0 != key ==> q[i] in r
  {
    if q == [] then [(key, value)]
    else if q[0].0 == key then [(key, value)] + RemoveKey(q[1..], key)
    else [q[0]] + SetParam(q[1..], key, value)
  }

  function RemoveKey(q: seq<(string, string)>, key: string): (r: seq<(string, string)>)
    ensures forall i :: 0 <= i < |r| ==> r[i].0 != key && r[i] in q
    ensures forall i :: 0 <= i < |q| && q[i].0 != key ==> q[i] in r
  {
    if q == [] then [] else if q[0].0 == key then RemoveKey(q[1..], key) else [q[0]] + RemoveKey(q[1..], key)
  }

  /** The value of the first entry with the key (`searchParams.get`). */
  function Lookup(q: seq<(string, string)>, key: string): Option<string> {
    if q == [] then None else if q[0].0 == key then Some(q[0].1) else Lookup(q[1..], key)
  }

  /** The `params.forEach` loop: parameters set in order, skipping `null` and `undefined`.
      It keeps the keys of the query unique. */
  function ApplyParams(q: seq<(string, string)>, params: seq<(string, ParamValue)>): (r: seq<(string, string)>)
    ensures UniqueKeys(q) ==> UniqueKeys(r)
  {
    if params == [] then q
    else
      var before := ApplyParams(q, params[..|params| - 1]);
      var (key, v) := params[|params| - 1];
      if v.Undefined? || v.Null? then before
      else
        assert UniqueKeys(before) ==> UniqueKeys(SetParam(before, key, ParamString(v))) by {
          if UniqueKeys(before) { SetParamUnique(before, key, ParamString(v)); }
        }
        SetParam(before, key, ParamString(v))
  }

  /** One more parameter of the loop: set it, unless it is null or undefined. */
  lemma ApplyParamsStep(q: seq<(string, string)>, params: seq<(string, ParamValue)>, i: nat)
    requires i < |params|
    ensures ApplyParams(q, params[..i + 1]) ==
              if params[i].1.Undefined? || params[i].1.Null? then ApplyParams(q, params[..i])
              else SetParam(ApplyParams(q, params[..i]), params[i].0, ParamString(params[i].1))
  {
    assert params[..i + 1][..i] == params[..i];
  }

  /** The value the last kept parameter with this key gives, if any. */
  function LastValue(params: seq<(string, ParamValue)>, key: string): Option<string> {
    if params == [] then None
    else
      var (k, v) := params[|params| - 1];
      if k == key && !v.Undefined? && !v.Null? then Some(ParamString(v)) else LastValue(params[..|params| - 1], key)
  }

  lemma {:induction false} LookupRemoveKey(q: seq<(string, string)>, key: string, other: string)
    requires other != key
    ensures Lookup(RemoveKey(q, key), other) == Lookup(q, other)
  {
    if q != [] { LookupRemoveKey(q[1..], key, other); }
  }

  lemma {:induction false} LookupSetParam(q: seq<(string, string)>, key: string, value: string, other: string)
    ensures Lookup(SetParam(q, key, value), other) == if other == key then Some(value) else Lookup(q, other)
  {
    if q != [] {
      if q[0].0 == key {
        if other != key { LookupRemoveKey(q[1..], key, other); }
      } else {
        LookupSetParam(q[1..], key, value, other);
      }
    }
  }

  /** After the loop every key reads the last non-null value given for it, and a key no kept
      parameter mentions keeps its earlier value. */
  lemma {:induction false} LookupApplyParams(q: seq<(string, string)>, params: seq<(string, ParamValue)>, key: string)
    ensures Lookup(ApplyParams(q, params), key) == if LastValue(params, key).Some? then LastValue(params, key) else Lookup(q, key)
  {
    if params != [] {
      var prefix := params[..|params| - 1];
      LookupApplyParams(q, prefix, key);
      var (k, v) := params[|params| - 1];
      if !v.Undefined? && !v.Null? {
        LookupSetParam(ApplyParams(q, prefix), k, ParamString(v), key);
      }
    }
  }

  /** Setting keeps keys unique. */
  lemma {:induction false} SetParamUnique(q: seq<(string, string)>, key: string, value: string)
    requires UniqueKeys(q)
    ensures UniqueKeys(SetParam(q, key, value))
  {
    if q != [] {
      if q[0].0 == key {
        var r := RemoveKey(q[1..], key);
        assert forall i :: 0 <= i < |r| ==> r[i].0 != key;
        assert UniqueKeys(r) by { RemoveKeyUnique(q[1..], key); }
      } else {
        SetParamUnique(q[1..], key, value);
        var r := SetParam(q[1..], key, value);
        assert forall i :: 0 <= i < |r| ==> r[i].0 != q[0].0 by {
          forall i | 0 <= i < |r| ensures r[i].0 != q[0].0 {
            if r[i].0 != key {
              var j :| 0 <= j < |q[1..]| && q[1..][j] == r[i];
              assert q[j + 1] == r[i];
            }
          }
        }
      }
    }
  }

  lemma {:induction false} RemoveKeyUnique(q: seq<(string, string)>, key: string)
    requires UniqueKeys(q)
    ensures UniqueKeys(RemoveKey(q, key))
  {
    if q != [] {
      RemoveKeyUnique(q[1..], key);
      var r := RemoveKey(q[1..], key);
      forall i | 0 <= i < |r| ensures r[i].0 != q[0].0 {
        var j :| 0 <= j < |q[1..]| && q[1..][j] == r[i];
        assert q[j + 1] == r[i];
      }
    }
  }

  predicate UniqueKeys(q: seq<(string, string)>) {
    forall i, j :: 0 <= i < j < |q| ==> q[i].0 != q[j].0
  }

  // ---------------------------------------------------------------- API key

  datatype ApiKeyStatus = ApiKeyStatus(isConfigured: bool, isValidFormat: bool)

  predicate StartsWith(s: string, prefix: string) {
    |prefix| <= |s| && s[..|prefix|] == prefix
  }

  /** `getApiKeyStatus()`: off the client both flags are false; otherwise the key is configured
      when non-empty and well-formed when it has at least 32 characters and does not start
      with "eyJ" (the start of a JSON web token, a read-access token rather than a key). */
  function GetApiKeyStatus(isClient: bool, apiKey: string): (r: ApiKeyStatus)
    ensures r.isConfigured <==> isClient && apiKey != []
    ensures r.isValidFormat <==> isClient && |apiKey| >= 32 && !StartsWith(apiKey, "eyJ")
    ensures r.isValidFormat ==> r.isConfigured
  {
    if !isClient then ApiKeyStatus(false, false)
    else ApiKeyStatus(apiKey != [], |apiKey| >= 32 && !StartsWith(apiKey, "eyJ"))
  }

  /** Outcome of the key probe `GET /movie/550`: a 2xx reply with the `id` of its body, a
      non-2xx reply, or a thrown error. */
  datatype ProbeReply = ProbeOk(id: Option<int>) | ProbeNotOk | ProbeThrew

  const ProbeMovieId := 550

  function ProbeUrl(key: string): string {
    "https://api.themoviedb.org/3/movie/550?api_key=" + key
  }

  /** The key `validateApiKey(apiKey?)` tests: the argument when truthy, else the configured one. */
  function KeyToTest(explicitKey: Option<string>, envKey: Option<string>): (r: Option<string>)
    ensures Truthy(explicitKey) ==> r == explicitKey
    ensures !Truthy(explicitKey) ==> r == envKey
  {
    if Truthy(explicitKey) then explicitKey else envKey
  }

  /** The decision of `validateApiKey`: false off the client and for a missing key without any
      probe; otherwise true exactly when the probe answered 2xx with the body id 550. */
  function ValidateApiKey(isClient: bool, explicitKey: Option<string>, envKey: Option<string>, probe: ProbeReply): (valid: bool)
    ensures valid <==> isClient && Truthy(KeyToTest(explicitKey, envKey)) && probe == ProbeOk(Some(ProbeMovieId))
  {
    if !isClient then false
    else
      var key := KeyToTest(explicitKey, envKey);
      if !Truthy(key) then false
      else match probe
        case ProbeOk(id) => id == Some(ProbeMovieId)
        case ProbeNotOk => false
        case ProbeThrew => false
  }

  /** What the images request of `getPreferredPoster` produced: a body (whose `posters` field
      may be missing), an abort, or any other failure. */
  datatype ImagesReply = ImagesOk(posters: Option<seq<Poster>>) | ImagesAborted | ImagesFailed

  /** How `getPreferredPoster` goes on before its `await`: with an answer at once, or with
      the images request. */
  datatype PosterLookup = Answered(path: Option<string>) | Requested

  /** The process-wide client: its configuration, read once, and the poster cache. */
  class Client {
    const apiKey: string
    const baseUrl: string
    const imageBaseUrl: string
    const isClient: bool
    /** `posterCache`: movie id to the chosen poster path, where a stored None records that
        there is none (or that looking it up failed). */
    var posterCache: map<int, Option<string>>

    /** The constructor reads the environment: each setting falls back to its default when
        missing or empty. */
    constructor (isClient: bool, apiKeyEnv: Option<string>, baseUrlEnv: Option<string>, imageBaseUrlEnv: Option<string>)
      ensures this.isClient == isClient
      ensures apiKey == (if Truthy(apiKeyEnv) then apiKeyEnv.value else [])
      ensures baseUrl == (if Truthy(baseUrlEnv) then baseUrlEnv.value else DefaultBaseUrl)
      ensures imageBaseUrl == (if Truthy(imageBaseUrlEnv) then imageBaseUrlEnv.value else DefaultImageBaseUrl)
      ensures posterCache == map[]
    {
      this.isClient := isClient;
      apiKey := if Truthy(apiKeyEnv) then apiKeyEnv.value else [];
      baseUrl := if Truthy(baseUrlEnv) then baseUrlEnv.value else DefaultBaseUrl;
      imageBaseUrl := if Truthy(imageBaseUrlEnv) then imageBaseUrlEnv.value else DefaultImageBaseUrl;
      posterCache := map[];
    }

    /** `getPreferredPoster(movieId)` up to its `await`. Without a key or off the client it
        answers nothing; a cached entry, even a cached None, is the answer; otherwise the
        images request goes out. The cache is only read. */
    method GetPreferredPoster(movieId: int) returns (lookup: PosterLookup)
      ensures apiKey == [] || !isClient ==> lookup == Answered(None)
      ensures apiKey != [] && isClient && movieId in posterCache ==> lookup == Answered(posterCache[movieId])
      ensures apiKey != [] && isClient && movieId !in posterCache ==> lookup == Requested
    {
      if apiKey == [] || !isClient {
        return Answered(None);
      }
      if movieId in posterCache {
        return Answered(posterCache[movieId]);
      }
      return Requested;
    }

    /** `getPreferredPoster(movieId)` after its `await`: the reply decides. A body yields the
        preferred path, which is cached; an abort yields nothing and caches nothing; any
        other failure yields nothing and caches None. The entry is written whatever the
        cache holds by then, so a lookup for the same id that settles later overwrites one
        that settled earlier. Entries of other ids stay as they are. */
    method SettlePreferredPoster(movieId: int, reply: ImagesReply) returns (path: Option<string>)
      modifies this
      ensures match reply
              case ImagesOk(posters) =>
                path == PreferredPosterPath(if posters.Some? then posters.value else [])
                && posterCache == old(posterCache)[movieId := path]
              case ImagesAborted => path.None? && posterCache == old(posterCache)
              case ImagesFailed => path.None? && posterCache == old(posterCache)[movieId := None]
      ensures forall id :: id != movieId ==> (id in posterCache <==> id in old(posterCache))
      ensures forall id :: id != movieId && id in old(posterCache) ==> posterCache[id] == old(posterCache)[id]
    {
      match reply {
        case ImagesOk(posters) =>
          var list := if posters.Some? then posters.value else [];
          path := PreferredPosterPath(list);
          posterCache := posterCache[movieId := path];
        case ImagesAborted =>
          path := None;
        case ImagesFailed =>
          posterCache := posterCache[movieId := None];
          path := None;
      }
    }

    /** `ensureApiKey()`: the key, or the "not configured" error for an empty one. */
    function EnsureApiKey(): (r: Result)
      ensures r.Failed? <==> apiKey == []
      ensures r.Failed? ==> r.error == KeyNotConfigured
      ensures r.Done? ==> r.value == apiKey
    {
      if apiKey == [] then Failed(KeyNotConfigured) else Done(apiKey)
    }

    /** `createUrl(path, params)`: the path without leading slashes under `<baseUrl>/`, with
        `api_key` set first and then every parameter whose value is neither null nor
        undefined set in turn, as a string. An empty key is an error. */
    method CreateUrl(path: string, params: seq<(string, ParamValue)>) returns (r: UrlResult)
      ensures r.UrlFailed? <==> apiKey == []
      ensures r.UrlFailed? ==> r.error == KeyNotConfigured
      ensures r.UrlDone? ==> r.url.base == baseUrl + "/" && r.url.path == NormalizePath(path)
                             && r.url.query == ApplyParams([("api_key", apiKey)], params)
    {
      var normalizedPath := NormalizePath(path);
      var key := EnsureApiKey();
      if key.Failed? {
        return UrlFailed(key.error);
      }
      var query := [("api_key", key.value)];
      var i := 0;
      while i < |params|
        invariant 0 <= i <= |params|
        invariant query == ApplyParams([("api_key", apiKey)], params[..i])
      {
        var (k, v) := params[i];
        ApplyParamsStep([("api_key", apiKey)], params, i);
        if !v.Undefined? && !v.Null? {
          query := SetParam(query, k, ParamString(v));
        }
        i := i + 1;
      }
      assert params[..|params|] == params;
      r := UrlDone(Url(baseUrl + "/", normalizedPath, query));
    }
  }

  datatype Result = Done(value: string) | Failed(error: string)
  datatype UrlResult = UrlDone(url: Url) | UrlFailed(error: string)

  /** Every URL `createUrl` builds carries the key, each parameter's last non-null value, and
      each key once. */
  lemma CreatedUrlQuery(apiKey: string, params: seq<(string, ParamValue)>, key: string)
    ensures var q := ApplyParams([("api_key", apiKey)], params);
            UniqueKeys(q)
            && Lookup(q, key) == if LastValue(params, key).Some? then LastValue(params, key)
                                 else if key == "api_key" then Some(apiKey) else None
  {
    LookupApplyParams([("api_key", apiKey)], params, key);
  }

  /** Two lookups for the same movie that overlap (the same title twice in one search) both
      find the cache empty and both request the images; when the failing one settles last,
      it overwrites the path the other cached with None. */
  method OverlappingLookupsOverwrite(movieId: int, posters: seq<Poster>)
    returns (first: PosterLookup, second: PosterLookup, firstPath: Option<string>, cached: Option<string>)
    requires PreferredPosterPath(posters).Some?
    ensures first == Requested && second == Requested
    ensures firstPath.Some?
    ensures cached == None
  {
    var client := new Client(true, Some("key"), None, None);
    first := client.GetPreferredPoster(movieId);
    second := client.GetPreferredPoster(movieId);
    firstPath := client.SettlePreferredPoster(movieId, ImagesOk(Some(posters)));
    var secondPath := client.SettlePreferredPoster(movieId, ImagesFailed);
    cached := client.posterCache[movieId];
  }

  /** A lookup that settles with a body or a failure is answered from the cache the next
      time, without a request; an aborted one is requested again. */
  method SettledLookupIsCached(movieId: int, reply: ImagesReply)
    returns (path: Option<string>, again: PosterLookup)
    ensures reply.ImagesAborted? ==> again == Requested
    ensures !reply.ImagesAborted? ==> again == Answered(path)
  {
    var client := new Client(true, Some("key"), None, None);
    var first := client.GetPreferredPoster(movieId);
    path := client.SettlePreferredPoster(movieId, reply);
    again := client.GetPreferredPoster(movieId);
  }
}

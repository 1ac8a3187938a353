/** Server-side batch title resolution (lib/tmdb.ts `searchMovies`): one provider search per
    title, all in parallel; each title resolves to its first hit or to nothing, and a single
    failed request rejects the whole batch. The provider's replies are parameters, one per
    title in input order. */
module BatchSearch {
  import opened Types

  /** The reply to one `/search/movie` request: its result list, or the error it threw. */
  datatype SearchReply = Hits(results: seq<Movie>) | RequestFailed(error: string)

  /** The outcome of the whole batch: the resolved movies, or the rejection. */
  datatype BatchResult = Resolved(movies: seq<Movie>) | Rejected(error: string)

  /** The query parameters of the request for one title. */
  datatype TitleQuery = TitleQuery(query: string, language: string, includeAdult: bool)

  /** `titles.map(...)`'s requests: one per title, in order, each asking for that exact title
      in Chinese with adult titles excluded. */
  function Requests(titles: seq<string>): (r: seq<TitleQuery>)
    ensures |r| == |titles|
    ensures forall i :: 0 <= i < |r| ==> r[i] == TitleQuery(titles[i], "zh-CN", false)
  {
    seq(|titles|, i requires 0 <= i < |titles| => TitleQuery(titles[i], "zh-CN", false))
  }

  /** What one title resolves to: the first result, or null when there is none. */
  function FirstHit(results: seq<Movie>): (r: Option<Movie>)
    ensures r.None? <==> results == []
    ensures r.Some? ==> r.value == results[0]
  {
    if |results| == 0 then None else Some(results[0])
  }

  /** `results.filter(movie => movie !== null)`. */
  function NonNull(s: seq<Option<Movie>>): (r: seq<Movie>)
    ensures |r| <= |s|
    ensures forall m :: m in r <==> Some(m) in s
  {
    if s == [] then [] else (if s[0].Some? then [s[0].value] else []) + NonNull(s[1..])
  }

  /** Index of the first failed reply, if any. */
  function FirstFailure(replies: seq<SearchReply>): (r: Option<nat>)
    ensures r.None? <==> forall i :: 0 <= i < |replies| ==> replies[i].Hits?
    ensures r.Some? ==> r.value < |replies| && replies[r.value].RequestFailed?
  {
    if replies == [] then None
    else if replies[0].RequestFailed? then Some(0)
    else
      var rest := FirstFailure(replies[1..]);
      assert forall i :: 1 <= i < |replies| ==> replies[i] == replies[1..][i - 1];
      if rest.None? then None else Some(rest.value + 1)
  }

  /** `searchMovies(titles)`: if any request failed, the batch is rejected with a failure's
      error; otherwise the first hits of the titles that have one, in title order. */
  function SearchMovies(titles: seq<string>, replies: seq<SearchReply>): (r: BatchResult)
    requires |replies| == |titles|
    ensures r.Rejected? <==> exists i :: 0 <= i < |replies| && replies[i].RequestFailed?
    ensures r.Rejected? ==> exists i :: 0 <= i < |replies| && replies[i] == RequestFailed(r.error)
    ensures titles == [] ==> r == Resolved([])
  {
    var failure := FirstFailure(replies);
    if failure.Some? then Rejected(replies[failure.value].error)
    else Resolved(NonNull(seq(|replies|, i requires 0 <= i < |replies| => FirstHit(replies[i].results))))
  }

  /** How many replies found something. */
  function HitCount(replies: seq<SearchReply>): nat {
    if replies == [] then 0 else (if replies[0].Hits? && replies[0].results != [] then 1 else 0) + HitCount(replies[1..])
  }

  /** The first hits of the replies that have one, in order. */
  function Found(replies: seq<SearchReply>): seq<Movie> {
    if replies == [] then []
    else (if replies[0].Hits? && replies[0].results != [] then [replies[0].results[0]] else []) + Found(replies[1..])
  }

  lemma {:induction false} FoundCount(replies: seq<SearchReply>)
    ensures |Found(replies)| == HitCount(replies) <= |replies|
  {
    if replies != [] { FoundCount(replies[1..]); }
  }

  /** A resolved batch is exactly the first hits of the titles that found something, in
      title order, so there are at most as many movies as titles. */
  lemma {:induction false} ResolvedIsFound(titles: seq<string>, replies: seq<SearchReply>)
    requires |replies| == |titles|
    requires SearchMovies(titles, replies).Resolved?
    ensures SearchMovies(titles, replies).movies == Found(replies)
    ensures |Found(replies)| == HitCount(replies) <= |titles|
  {
    var hits := seq(|replies|, i requires 0 <= i < |replies| => FirstHit(replies[i].results));
    NonNullOfHits(replies, hits);
    FoundCount(replies);
  }

  lemma {:induction false} NonNullOfHits(replies: seq<SearchReply>, hits: seq<Option<Movie>>)
    requires forall i :: 0 <= i < |replies| ==> replies[i].Hits?
    requires |hits| == |replies| && forall i :: 0 <= i < |hits| ==> hits[i] == FirstHit(replies[i].results)
    ensures NonNull(hits) == Found(replies)
  {
    if replies != [] {
      NonNullOfHits(replies[1..], hits[1..]);
    }
  }

  /** Resolution is compositional in the title list: the movies for two lists of titles put
      together are the movies for the first list followed by those for the second. */
  lemma {:induction false} FoundAppend(r1: seq<SearchReply>, r2: seq<SearchReply>)
    ensures Found(r1 + r2) == Found(r1) + Found(r2)
  {
    if r1 == [] {
      assert r1 + r2 == r2;
    } else {
      var r := r1 + r2;
      assert r[0] == r1[0] && r[1..] == r1[1..] + r2;
      FoundAppend(r1[1..], r2);
      var head := if r1[0].Hits? && r1[0].results != [] then [r1[0].results[0]] else [];
      assert Found(r) == head + (Found(r1[1..]) + Found(r2));
    }
  }

  /** When every title finds something, the batch is the titles' first hits one for one. */
  lemma {:induction false} AllFound(titles: seq<string>, replies: seq<SearchReply>)
    requires |replies| == |titles|
    requires forall i :: 0 <= i < |replies| ==> replies[i].Hits? && replies[i].results != []
    ensures var r := SearchMovies(titles, replies);
            r.Resolved? && |r.movies| == |titles|
            && forall i :: 0 <= i < |titles| ==> r.movies[i] == replies[i].results[0]
  {
    ResolvedIsFound(titles, replies);
    FoundOfAllHits(replies);
  }

  lemma {:induction false} FoundOfAllHits(replies: seq<SearchReply>)
    requires forall i :: 0 <= i < |replies| ==> replies[i].Hits? && replies[i].results != []
    ensures |Found(replies)| == |replies|
    ensures forall i :: 0 <= i < |replies| ==> Found(replies)[i] == replies[i].results[0]
  {
    if replies != [] {
      FoundOfAllHits(replies[1..]);
      assert forall i :: 1 <= i < |replies| ==> replies[i] == replies[1..][i - 1];
    }
  }

  /** A title with no hit is dropped, not an error: a batch where nothing fails and nothing
      is found resolves to the empty list. */
  lemma NothingFound(titles: seq<string>, replies: seq<SearchReply>)
    requires |replies| == |titles|
    requires forall i :: 0 <= i < |replies| ==> replies[i] == Hits([])
    ensures SearchMovies(titles, replies) == Resolved([])
  {
    ResolvedIsFound(titles, replies);
    FoundCount(replies);
    NoHits(replies);
  }

  lemma {:induction false} NoHits(replies: seq<SearchReply>)
    requires forall i :: 0 <= i < |replies| ==> replies[i] == Hits([])
    ensures HitCount(replies) == 0
  {
    if replies != [] {
      NoHits(replies[1..]);
    }
  }
}

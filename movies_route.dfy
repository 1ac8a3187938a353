/** The `GET /api/movies?titles=...` route (app/api/movies/route.ts): it splits the
    comma-separated titles, trims them, drops empty ones, resolves them in one batch and
    answers 400 without titles, 500 when the batch is rejected and 200 with the movies
    otherwise. */
module MoviesRoute {
  import opened Types
  import Text
  import BatchSearch

  const NoTitlesError: string := "No titles provided"
  const FetchFailedError: string := "Failed to fetch movies"

  datatype Body = ErrorBody(error: string) | MoviesBody(movies: seq<Movie>)
  datatype Response = Response(status: int, body: Body)

  /** `.map(title => title.trim())`. */
  function TrimAll(xs: seq<string>): (r: seq<string>)
    ensures |r| == |xs|
  {
    if xs == [] then [] else [Text.Trim(xs[0])] + TrimAll(xs[1..])
  }

  lemma {:induction false} TrimAllElements(xs: seq<string>)
    ensures forall i :: 0 <= i < |xs| ==> TrimAll(xs)[i] == Text.Trim(xs[i])
  {
    if xs != [] {
      TrimAllElements(xs[1..]);
    }
  }

  /** `.filter(Boolean)` on strings: the non-empty ones, in order. */
  function DropEmpty(xs: seq<string>): (r: seq<string>)
    ensures |r| <= |xs|
  {
    if xs == [] then []
    else if xs[0] == [] then DropEmpty(xs[1..])
    else [xs[0]] + DropEmpty(xs[1..])
  }

  lemma {:induction false} DropEmptyElements(xs: seq<string>)
    ensures forall y :: y in DropEmpty(xs) ==> y != [] && y in xs
  {
    if xs != [] {
      DropEmptyElements(xs[1..]);
    }
  }

  /** The piece of a comma-free string that trimming keeps is comma-free too. */
  lemma TrimKeepsCommaFree(s: string)
    requires ',' !in s
    ensures ',' !in Text.Trim(s)
  {
    var r := Text.Trim(s);
    Text.TrimIsSlice(s);
    var lo, hi :| 0 <= lo <= hi <= |s| && r == s[lo..hi];
    assert forall i :: 0 <= i < |r| ==> r[i] == s[lo + i];
  }

  /** `titles.split(",").map(trim).filter(Boolean)`: every title it yields is non-empty,
      free of commas and of surrounding white space, and there is at most one per comma-
      separated piece. */
  function SplitTitles(titles: string): (r: seq<string>)
    ensures forall i :: 0 <= i < |r| ==> r[i] != [] && ',' !in r[i] && Text.IsTrimmed(r[i])
    ensures |r| <= Text.Count(titles, ',') + 1
  {
    var pieces := Text.Split(titles, ',');
    Text.SplitCount(titles, ',');
    SplitTitlesClean(pieces);
    DropEmpty(TrimAll(pieces))
  }

  lemma SplitTitlesClean(pieces: seq<string>)
    requires forall i :: 0 <= i < |pieces| ==> ',' !in pieces[i]
    ensures forall y :: y in DropEmpty(TrimAll(pieces)) ==> y != [] && ',' !in y && Text.IsTrimmed(y)
  {
    var trimmed := TrimAll(pieces);
    TrimAllElements(pieces);
    DropEmptyElements(trimmed);
    forall y | y in trimmed ensures ',' !in y {
      var i :| 0 <= i < |trimmed| && trimmed[i] == y;
      TrimKeepsCommaFree(pieces[i]);
    }
  }

  lemma {:induction false} TrimAllAppend(a: seq<string>, b: seq<string>)
    ensures TrimAll(a + b) == TrimAll(a) + TrimAll(b)
  {
    if a == [] {
      assert a + b == b;
    } else {
      var ab := a + b;
      assert ab[0] == a[0] && ab[1..] == a[1..] + b;
      calc {
        TrimAll(ab);
        [Text.Trim(a[0])] + TrimAll(a[1..] + b);
        { TrimAllAppend(a[1..], b); }
        [Text.Trim(a[0])] + (TrimAll(a[1..]) + TrimAll(b));
        TrimAll(a) + TrimAll(b);
      }
    }
  }

  lemma {:induction false} DropEmptyAppend(a: seq<string>, b: seq<string>)
    ensures DropEmpty(a + b) == DropEmpty(a) + DropEmpty(b)
  {
    if a == [] {
      assert a + b == b;
    } else {
      var ab := a + b;
      assert ab[0] == a[0] && ab[1..] == a[1..] + b;
      DropEmptyAppend(a[1..], b);
      if a[0] == [] {
        assert DropEmpty(ab) == DropEmpty(a[1..] + b);
      } else {
        assert DropEmpty(ab) == [a[0]] + DropEmpty(a[1..] + b);
      }
    }
  }

  /** Titles keep their input order: the titles of `a,b` are those of `a` followed by those of `b`. */
  lemma SplitTitlesAppend(a: string, b: string)
    ensures SplitTitles(a + [','] + b) == SplitTitles(a) + SplitTitles(b)
  {
    Text.SplitAppend(a, b, ',');
    TrimAllAppend(Text.Split(a, ','), Text.Split(b, ','));
    DropEmptyAppend(TrimAll(Text.Split(a, ',')), TrimAll(Text.Split(b, ',')));
  }

  lemma {:induction false} TrimAllOfTrimmed(xs: seq<string>)
    requires forall i :: 0 <= i < |xs| ==> Text.IsTrimmed(xs[i])
    ensures TrimAll(xs) == xs
  {
    if xs != [] {
      Text.TrimOfTrimmed(xs[0]);
      TrimAllOfTrimmed(xs[1..]);
    }
  }

  lemma {:induction false} DropEmptyOfNonEmpty(xs: seq<string>)
    requires forall i :: 0 <= i < |xs| ==> xs[i] != []
    ensures DropEmpty(xs) == xs
  {
    if xs != [] {
      DropEmptyOfNonEmpty(xs[1..]);
    }
  }

  /** Joining clean titles with commas and splitting again gives them back. */
  lemma SplitTitlesRoundTrip(xs: seq<string>)
    requires forall i :: 0 <= i < |xs| ==> xs[i] != [] && ',' !in xs[i] && Text.IsTrimmed(xs[i])
    ensures SplitTitles(Text.Join(xs, ',')) == xs
  {
    if xs == [] {
      assert Text.Split([], ',') == [[]];
      assert Text.Trim([]) == [];
    } else {
      Text.SplitJoin(xs, ',');
      TrimAllOfTrimmed(xs);
      DropEmptyOfNonEmpty(xs);
    }
  }

  /** Splitting is idempotent: the comma-join of the titles splits into the same titles. */
  lemma SplitTitlesIdempotent(titles: string)
    ensures SplitTitles(Text.Join(SplitTitles(titles), ',')) == SplitTitles(titles)
  {
    SplitTitlesRoundTrip(SplitTitles(titles));
  }

  /** Every character of a piece of a split occurs in the input. */
  lemma {:induction false} SplitPiecesFromInput(s: string, sep: char)
    ensures forall i, j :: 0 <= i < |Text.Split(s, sep)| && 0 <= j < |Text.Split(s, sep)[i]| ==> Text.Split(s, sep)[i][j] in s
  {
    if s != [] {
      SplitPiecesFromInput(s[1..], sep);
    }
  }

  /** Input made only of commas and white space names no title at all. */
  lemma NoTitlesInBlankInput(titles: string)
    requires forall i :: 0 <= i < |titles| ==> titles[i] == ',' || Text.IsSpace(titles[i])
    ensures SplitTitles(titles) == []
  {
    var pieces := Text.Split(titles, ',');
    var trimmed := TrimAll(pieces);
    SplitPiecesFromInput(titles, ',');
    TrimAllElements(pieces);
    forall i | 0 <= i < |pieces| ensures trimmed[i] == [] {
      PieceOfBlankInput(titles, pieces[i]);
    }
    DropEmptyOfEmpties(trimmed);
  }

  lemma PieceOfBlankInput(titles: string, piece: string)
    requires forall i :: 0 <= i < |titles| ==> titles[i] == ',' || Text.IsSpace(titles[i])
    requires ',' !in piece
    requires forall j :: 0 <= j < |piece| ==> piece[j] in titles
    ensures Text.Trim(piece) == []
  {
    forall j | 0 <= j < |piece| ensures Text.IsSpace(piece[j]) {
      var k :| 0 <= k < |titles| && titles[k] == piece[j];
    }
    Text.BlankIff(piece);
  }

  lemma {:induction false} DropEmptyOfEmpties(xs: seq<string>)
    requires forall i :: 0 <= i < |xs| ==> xs[i] == []
    ensures DropEmpty(xs) == []
  {
    if xs != [] {
      DropEmptyOfEmpties(xs[1..]);
    }
  }

  /** `GET(request)`, given the `titles` query parameter and the provider's reply for each
      title it splits into. A missing or empty parameter is a 400 with "No titles provided";
      a rejected batch is a 500 with "Failed to fetch movies"; otherwise a 200 whose body is
      the resolved movies unchanged. */
  function Get(titles: Option<string>, replies: seq<BatchSearch.SearchReply>): (r: Response)
    requires Truthy(titles) ==> |replies| == |SplitTitles(titles.value)|
    ensures !Truthy(titles) ==> r == Response(400, ErrorBody(NoTitlesError))
    ensures Truthy(titles) ==>
              (r.status == 500 <==> exists i :: 0 <= i < |replies| && replies[i].RequestFailed?)
    ensures Truthy(titles) && r.status == 500 ==> r.body == ErrorBody(FetchFailedError)
    ensures Truthy(titles) && r.status != 500 ==> r == Response(200, MoviesBody(BatchSearch.Found(replies)))
  {
    if !Truthy(titles) then Response(400, ErrorBody(NoTitlesError))
    else
      var movieTitles := SplitTitles(titles.value);
      match BatchSearch.SearchMovies(movieTitles, replies)
      case Rejected(_) => Response(500, ErrorBody(FetchFailedError))
      case Resolved(movies) =>
        BatchSearch.ResolvedIsFound(movieTitles, replies);
        Response(200, MoviesBody(movies))
  }

  /** A parameter holding only commas and spaces is not a 400: it resolves no titles and
      answers 200 with an empty list. */
  lemma BlankTitlesAnswerEmpty(titles: string)
    requires titles != []
    requires forall i :: 0 <= i < |titles| ==> titles[i] == ',' || Text.IsSpace(titles[i])
    ensures SplitTitles(titles) == [] && Get(Some(titles), []) == Response(200, MoviesBody([]))
  {
    NoTitlesInBlankInput(titles);
  }
}

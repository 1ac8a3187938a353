/** The result list of the search page (src/components/movie-list.tsx): which of its views
    is shown, which poster URL each card displays and how a release date is written. */
module MovieList {
  import opened Types
  import Text
  import TmdbClient

  // ---------------------------------------------------------------- release dates

  /** `Number(s)` for the strings a release date is made of: surrounding white space is
      ignored, a blank string is 0 and a string of decimal digits is its value. Every other
      string is taken as NaN. */
  function ToNumber(s: string): (r: Option<nat>)
    ensures r.Some? <==> Text.AllDigits(Text.Trim(s))
    ensures Text.IsBlank(s) ==> r == Some(0)
  {
    var t := Text.Trim(s);
    if Text.AllDigits(t) then Some(Text.DigitsValue(t)) else None
  }

  /** A digit string is trimmed already, so `Number` reads its decimal value. */
  lemma ToNumberOfDigits(s: string)
    requires Text.AllDigits(s)
    ensures ToNumber(s) == Some(Text.DigitsValue(s))
  {
    Text.TrimOfTrimmed(s);
  }

  /** `Number(String(n)) == n`. */
  lemma ToNumberOfString(n: nat)
    ensures ToNumber(Text.NatToString(n)) == Some(n)
  {
    ToNumberOfDigits(Text.NatToString(n));
    Text.DigitsOfNat(n);
  }

  /** `Number(String(n).padStart(2, '0')) == n`. */
  lemma ToNumberOfPadded(n: nat)
    ensures Text.AllDigits(Text.PadStart2(Text.NatToString(n)))
    ensures ToNumber(Text.PadStart2(Text.NatToString(n))) == Some(n)
  {
    var s := Text.NatToString(n);
    Text.DigitsOfNat(n);
    if |s| == 1 {
      Text.LeadingZero(s);
    }
    ToNumberOfDigits(Text.PadStart2(s));
  }

  /** The first three `-`-separated parts of a release date read as numbers, when each of
      them is present, non-empty and numeric; so the date has at least two dashes. */
  function DateNumbers(releaseDate: string): (r: Option<(nat, nat, nat)>)
    ensures r.Some? ==> Text.Count(releaseDate, '-') >= 2 && |releaseDate| >= 5
  {
    var parts := Text.Split(releaseDate, '-');
    Text.SplitCount(releaseDate, '-');
    Text.JoinSplit(releaseDate, '-');
    if |parts| < 3 || parts[0] == [] || parts[1] == [] || parts[2] == [] then None
    else
      assert |releaseDate| >= 5 by { JoinLength(parts, '-'); }
      match (ToNumber(parts[0]), ToNumber(parts[1]), ToNumber(parts[2]))
      case (Some(y), Some(m), Some(d)) => Some((y, m, d))
      case _ => None
  }

  /** Three non-empty pieces joined with two separators are at least five characters long. */
  lemma JoinLength(parts: seq<string>, sep: char)
    requires |parts| >= 3 && parts[0] != [] && parts[1] != [] && parts[2] != []
    ensures |Text.Join(parts, sep)| >= 5
  {
    var rest := parts[2..];
    assert |Text.Join(rest, sep)| >= |rest[0]|;
    assert parts[1..][1..] == rest;
  }

  /** The displayed date: the year as its decimal string, month and day padded to two
      digits. It has the displayed shape and reads back as the same three numbers. */
  function ShowDate(y: nat, m: nat, d: nat): (r: string)
    ensures IsShownDate(r)
    ensures DateNumbers(r) == Some((y, m, d))
  {
    DatePartsReadBack(y, m, d);
    Text.NatToString(y) + "-" + Text.PadStart2(Text.NatToString(m)) + "-" + Text.PadStart2(Text.NatToString(d))
  }

  /** A displayed date: three digit groups separated by `-`, the year without leading zero,
      and month and day exactly two digits or, when longer, without leading zero. */
  predicate IsShownDate(s: string) {
    var parts := Text.Split(s, '-');
    |parts| == 3
    && (forall k :: 0 <= k < 3 ==> parts[k] != [] && Text.AllDigits(parts[k]))
    && (|parts[0]| > 1 ==> parts[0][0] != '0')
    && IsPaddedPart(parts[1]) && IsPaddedPart(parts[2])
  }

  /** A month or day as `padStart(2, '0')` shows it: two digits, or a longer group that does
      not start with a zero. */
  predicate IsPaddedPart(s: string) {
    |s| == 2 || (|s| > 2 && s[0] != '0')
  }

  /** Padding the decimal string of a number gives a padded part. */
  lemma PaddedPartOfNumber(n: nat)
    ensures IsPaddedPart(Text.PadStart2(Text.NatToString(n)))
  {
    var s := Text.NatToString(n);
    var r := Text.PadStart2(s);
    if |s| > 2 {
      assert r == r[|r| - |s|..] == s;
    }
  }

  /** A padded part is `padStart(2, '0')` of the decimal string of its own value. */
  lemma PaddedPartReadBack(s: string)
    requires Text.AllDigits(s) && IsPaddedPart(s)
    ensures Text.PadStart2(Text.NatToString(Text.DigitsValue(s))) == s
  {
    if s[0] == '0' {
      var t := [s[1]];
      assert s == "0" + t;
      Text.LeadingZero(t);
      Text.NatToStringOfDigits(t);
    } else {
      Text.NatToStringOfDigits(s);
    }
  }

  /** A displayed date is `ShowDate` of the numbers it reads as: the displayed shape leaves
      no choice of padding. */
  lemma ShownDateIsShowDate(s: string)
    requires IsShownDate(s)
    ensures DateNumbers(s).Some?
    ensures s == ShowDate(DateNumbers(s).value.0, DateNumbers(s).value.1, DateNumbers(s).value.2)
  {
    var parts := Text.Split(s, '-');
    var a, b, c := parts[0], parts[1], parts[2];
    Text.JoinSplit(s, '-');
    assert parts[1..][1..] == [c];
    assert Text.Join(parts[1..], '-') == b + ['-'] + c;
    assert s == a + ['-'] + (b + ['-'] + c);
    assert s == a + "-" + b + "-" + c;
    ToNumberOfDigits(a);
    ToNumberOfDigits(b);
    ToNumberOfDigits(c);
    Text.NatToStringOfDigits(a);
    PaddedPartReadBack(b);
    PaddedPartReadBack(c);
  }

  /** Two displayed dates that read as the same numbers are the same string. */
  lemma ShownDateUnique(s: string, t: string)
    requires IsShownDate(s) && IsShownDate(t) && DateNumbers(s) == DateNumbers(t)
    ensures s == t
  {
    ShownDateIsShowDate(s);
    ShownDateIsShowDate(t);
  }

  lemma DigitsHaveNoDash(s: string)
    requires Text.AllDigits(s)
    ensures '-' !in s
  {
  }

  /** Three separator-free pieces joined by the separator split back into the three. */
  lemma SplitThree(a: string, b: string, c: string, sep: char)
    requires sep !in a && sep !in b && sep !in c
    ensures Text.Split(a + [sep] + b + [sep] + c, sep) == [a, b, c]
  {
    assert a + [sep] + b + [sep] + c == a + [sep] + (b + [sep] + c);
    Text.SplitCons(a, b + [sep] + c, sep);
    Text.SplitCons(b, c, sep);
    Text.SplitOfSeparatorFree(c, sep);
  }

  /** The year's string and the padded month and day, joined by dashes, split back into the
      three, have the displayed shape and read back as the numbers they were made from. */
  lemma DatePartsReadBack(y: nat, m: nat, d: nat)
    ensures var a, b, c := Text.NatToString(y), Text.PadStart2(Text.NatToString(m)), Text.PadStart2(Text.NatToString(d));
            var s := a + "-" + b + "-" + c;
            Text.Split(s, '-') == [a, b, c] && IsShownDate(s) && DateNumbers(s) == Some((y, m, d))
  {
    var a, b, c := Text.NatToString(y), Text.PadStart2(Text.NatToString(m)), Text.PadStart2(Text.NatToString(d));
    ToNumberOfString(y);
    ToNumberOfPadded(m);
    ToNumberOfPadded(d);
    DigitsHaveNoDash(a);
    DigitsHaveNoDash(b);
    DigitsHaveNoDash(c);
    assert a + "-" + b + "-" + c == a + ['-'] + b + ['-'] + c;
    SplitThree(a, b, c, '-');
    PaddedPartOfNumber(m);
    PaddedPartOfNumber(d);
    ShownOfParts(a, b, c);
    NumbersOfParts(a, b, c, y, m, d);
  }

  /** Three digit groups, the first without a superfluous leading zero and the others padded
      parts, joined by dashes, have the displayed shape. */
  lemma ShownOfParts(a: string, b: string, c: string)
    requires |a| >= 1 && Text.AllDigits(a) && (|a| > 1 ==> a[0] != '0')
    requires IsPaddedPart(b) && Text.AllDigits(b) && IsPaddedPart(c) && Text.AllDigits(c)
    requires Text.Split(a + ['-'] + b + ['-'] + c, '-') == [a, b, c]
    ensures IsShownDate(a + ['-'] + b + ['-'] + c)
  {
    var parts := [a, b, c];
    assert forall k :: 0 <= k < 3 ==> parts[k] != [] && Text.AllDigits(parts[k]);
  }

  lemma NumbersOfParts(a: string, b: string, c: string, y: nat, m: nat, d: nat)
    requires a != [] && b != [] && c != []
    requires '-' !in a && '-' !in b && '-' !in c
    requires ToNumber(a) == Some(y) && ToNumber(b) == Some(m) && ToNumber(c) == Some(d)
    ensures DateNumbers(a + ['-'] + b + ['-'] + c) == Some((y, m, d))
  {
    SplitThree(a, b, c, '-');
  }

  /** `formatReleaseDate(releaseDate)`: nothing for a missing or empty date or one whose
      first three parts are not all present and numeric; otherwise a date of the displayed
      shape that stands for the same year, month and day. */
  function FormatReleaseDate(releaseDate: Option<string>): (r: Option<string>)
    ensures r.Some? <==> Truthy(releaseDate) && DateNumbers(releaseDate.value).Some?
    ensures r.Some? ==> IsShownDate(r.value) && DateNumbers(r.value) == DateNumbers(releaseDate.value)
  {
    if !Truthy(releaseDate) then None
    else
      match DateNumbers(releaseDate.value)
      case None => None
      case Some((y, m, d)) => Some(ShowDate(y, m, d))
  }

  /** Formatting a displayed date again leaves it unchanged. */
  lemma FormatIdempotent(releaseDate: Option<string>)
    requires FormatReleaseDate(releaseDate).Some?
    ensures FormatReleaseDate(FormatReleaseDate(releaseDate)) == FormatReleaseDate(releaseDate)
  {
  }

  /** A year without leading zero and a single-digit month and day: month and day gain a
      leading zero and the year is kept as written. */
  lemma PadsMonthAndDay(year: string, month: char, day: char)
    requires |year| >= 1 && Text.AllDigits(year) && (|year| > 1 ==> year[0] != '0')
    requires Text.IsDigit(month) && Text.IsDigit(day)
    ensures FormatReleaseDate(Some(year + ['-', month, '-', day])) == Some(year + ['-', '0', month, '-', '0', day])
  {
    var y, m, d := Text.DigitsValue(year), Text.DigitsValue([month]), Text.DigitsValue([day]);
    ReadsShortDate(year, month, day);
    ShowsShortDate(year, month, day);
    FormatOfNumbers(year + ['-', month, '-', day], y, m, d);
  }

  lemma FormatOfNumbers(s: string, y: nat, m: nat, d: nat)
    requires DateNumbers(s) == Some((y, m, d))
    ensures FormatReleaseDate(Some(s)) == Some(ShowDate(y, m, d))
  {
    assert s != [] by {
      assert |Text.Split(s, '-')| >= 3;
      Text.SplitCount(s, '-');
    }
  }

  lemma ReadsShortDate(year: string, month: char, day: char)
    requires Text.AllDigits(year) && Text.IsDigit(month) && Text.IsDigit(day)
    requires year != []
    ensures DateNumbers(year + ['-', month, '-', day])
            == Some((Text.DigitsValue(year), Text.DigitsValue([month]), Text.DigitsValue([day])))
  {
    ToNumberOfDigits(year);
    ToNumberOfDigits([month]);
    ToNumberOfDigits([day]);
    DigitsHaveNoDash(year);
    DigitsHaveNoDash([month]);
    DigitsHaveNoDash([day]);
    NumbersOfParts(year, [month], [day], Text.DigitsValue(year), Text.DigitsValue([month]), Text.DigitsValue([day]));
    ShortDateString(year, month, day);
  }

  lemma ShortDateString(year: string, month: char, day: char)
    ensures year + ['-'] + [month] + ['-'] + [day] == year + ['-', month, '-', day]
  {
  }

  lemma ShowsShortDate(year: string, month: char, day: char)
    requires |year| >= 1 && Text.AllDigits(year) && (|year| > 1 ==> year[0] != '0')
    requires Text.IsDigit(month) && Text.IsDigit(day)
    ensures ShowDate(Text.DigitsValue(year), Text.DigitsValue([month]), Text.DigitsValue([day]))
            == year + ['-', '0', month, '-', '0', day]
  {
    Text.NatToStringOfDigits(year);
    PaddedDigit(month);
    PaddedDigit(day);
    ShowDateOf(Text.DigitsValue(year), Text.DigitsValue([month]), Text.DigitsValue([day]), year, month, day);
  }

  lemma ShowDateOf(y: nat, m: nat, d: nat, year: string, month: char, day: char)
    requires Text.NatToString(y) == year
    requires Text.PadStart2(Text.NatToString(m)) == "0" + [month]
    requires Text.PadStart2(Text.NatToString(d)) == "0" + [day]
    ensures ShowDate(y, m, d) == year + ['-', '0', month, '-', '0', day]
  {
    ZeroPaddedDate(year, month, day);
  }

  lemma ZeroPaddedDate(year: string, month: char, day: char)
    ensures year + "-" + ("0" + [month]) + "-" + ("0" + [day]) == year + ['-', '0', month, '-', '0', day]
  {
  }

  lemma PaddedDigit(c: char)
    requires Text.IsDigit(c)
    ensures Text.PadStart2(Text.NatToString(Text.DigitsValue([c]))) == "0" + [c]
  {
    Text.NatToStringOfDigits([c]);
  }

  /** A date with fewer than two dashes (only a year, or a year and a month such as
      `2023-05`) shows nothing. */
  lemma MissingPartShowsNothing(releaseDate: string)
    requires Text.Count(releaseDate, '-') < 2
    ensures FormatReleaseDate(Some(releaseDate)) == None
  {
  }

  // ---------------------------------------------------------------- poster of a card

  /** `getFallbackPosterUrl(movie)`: the w500 poster when the movie has a poster path,
      otherwise the w780 backdrop, otherwise none. */
  function FallbackPosterUrl(imageBaseUrl: string, movie: Movie): (r: Option<string>)
    ensures Truthy(movie.posterPath) ==> r == TmdbClient.ImageUrl(imageBaseUrl, movie.posterPath, "w500")
    ensures !Truthy(movie.posterPath) ==> r == TmdbClient.ImageUrl(imageBaseUrl, movie.backdropPath, "w780")
    ensures r.None? <==> !Truthy(movie.posterPath) && !Truthy(movie.backdropPath)
  {
    if Truthy(movie.posterPath) then TmdbClient.ImageUrl(imageBaseUrl, movie.posterPath, "w500")
    else if Truthy(movie.backdropPath) then TmdbClient.ImageUrl(imageBaseUrl, movie.backdropPath, "w780")
    else None
  }

  /** What one card shows once its effects have run: `preferred` is what
      `getPreferredPoster(movie.id)` resolved to. */
  datatype Card = Card(
    title: string,
    posterUrl: Option<string>,
    backdropUrl: Option<string>,
    releaseDate: Option<string>)

  /** `MovieItem`: the card starts from the fallback poster and switches to the w500 image
      of the preferred poster when one is found; the backdrop is the w1280 image. */
  function MovieCard(imageBaseUrl: string, movie: Movie, preferred: Option<string>): (r: Card)
    ensures Truthy(preferred) ==> r.posterUrl == TmdbClient.ImageUrl(imageBaseUrl, preferred, "w500")
    ensures !Truthy(preferred) ==> r.posterUrl == FallbackPosterUrl(imageBaseUrl, movie)
    ensures r.posterUrl.None? <==> !Truthy(preferred) && !Truthy(movie.posterPath) && !Truthy(movie.backdropPath)
    ensures r.backdropUrl == TmdbClient.ImageUrl(imageBaseUrl, movie.backdropPath, "w1280")
    ensures r.title == movie.title
    ensures r.releaseDate == FormatReleaseDate(Some(movie.releaseDate))
  {
    var fallback := FallbackPosterUrl(imageBaseUrl, movie);
    var poster := if Truthy(preferred) then TmdbClient.ImageUrl(imageBaseUrl, preferred, "w500") else fallback;
    Card(movie.title, poster, TmdbClient.ImageUrl(imageBaseUrl, movie.backdropPath, "w1280"),
         FormatReleaseDate(Some(movie.releaseDate)))
  }

  // ---------------------------------------------------------------- views

  datatype ListView =
    | KeyInvalidView
    | ErrorView(message: string)
    | SkeletonView(count: nat)
    | EmptyView
    | GridView(movies: seq<Movie>)

  /** `MovieList(props)`: an invalid key outranks an error message, which outranks the
      loading skeleton of three cards, which outranks the empty notice; otherwise every
      movie gets a card, in order. */
  function Render(movies: seq<Movie>, isLoading: bool, error: Option<string>, apiKeyValid: Option<bool>): (r: ListView)
    ensures r.KeyInvalidView? <==> apiKeyValid == Some(false)
    ensures r.ErrorView? <==> apiKeyValid != Some(false) && Truthy(error)
    ensures r.ErrorView? ==> r.message == error.value
    ensures r.SkeletonView? <==> apiKeyValid != Some(false) && !Truthy(error) && isLoading
    ensures r.SkeletonView? ==> r.count == 3
    ensures r.EmptyView? <==> apiKeyValid != Some(false) && !Truthy(error) && !isLoading && movies == []
    ensures r.GridView? ==> r.movies == movies && movies != []
  {
    if apiKeyValid == Some(false) then KeyInvalidView
    else if Truthy(error) then ErrorView(error.value)
    else if isLoading then SkeletonView(3)
    else if |movies| == 0 then EmptyView
    else GridView(movies)
  }

  /** Settled results are always visible: with a usable key, no error and nothing loading,
      the list shows exactly the movies, or the empty notice when there are none. */
  lemma SettledResultsShown(movies: seq<Movie>, apiKeyValid: Option<bool>)
    requires apiKeyValid != Some(false)
    ensures movies != [] ==> Render(movies, false, None, apiKeyValid) == GridView(movies)
    ensures movies == [] ==> Render(movies, false, None, apiKeyValid) == EmptyView
  {
  }
}

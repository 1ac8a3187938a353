/** The full-screen poster preview (components/poster-preview-dialog.tsx): the neighbours it
    can move to, the swipe and key gestures that move it, the poster it shows and the
    runtime label. Touch positions are integer client coordinates. */
module PosterPreview {
  import opened Types
  import Text

  datatype Direction = Prev | Next

  /** What the dialog asks of its owner: to move to a neighbour, or to change visibility. */
  datatype Event = Navigated(direction: Direction) | VisibilityChanged(visible: bool)

  const MinSwipeDistance: int := 50
  const PlaceholderImage: string := "/placeholder.svg"
  const OriginalImageBase: string := "https://image.tmdb.org/t/p/original"

  // ---------------------------------------------------------------- neighbours

  /** `movies.findIndex(m => m.id === id)`: the first position holding the id, or -1. */
  function FindIndex(movies: seq<Movie>, id: int): (r: int)
    ensures -1 <= r < |movies|
    ensures r >= 0 ==> movies[r].id == id && forall k :: 0 <= k < r ==> movies[k].id != id
    ensures r == -1 <==> forall k :: 0 <= k < |movies| ==> movies[k].id != id
  {
    if movies == [] then -1
    else if movies[0].id == id then 0
    else
      var rest := FindIndex(movies[1..], id);
      assert forall k :: 1 <= k < |movies| ==> movies[k] == movies[1..][k - 1];
      if rest == -1 then -1 else rest + 1
  }

  /** `hasPrev` and `hasNext` of the shown movie. */
  datatype Bounds = Bounds(hasPrev: bool, hasNext: bool)

  function NavBounds(movies: seq<Movie>, current: Movie): (b: Bounds)
    ensures b.hasPrev <==> FindIndex(movies, current.id) > 0
    ensures b.hasNext <==> FindIndex(movies, current.id) < |movies| - 1
  {
    var index := FindIndex(movies, current.id);
    Bounds(index > 0, index < |movies| - 1)
  }

  /** Both neighbours exist whenever they are offered: the previous one is at the index
      before the shown movie and the next one at the index after it, which for a movie
      missing from the list is the first movie. */
  lemma BoundsStayInList(movies: seq<Movie>, current: Movie)
    ensures NavBounds(movies, current).hasPrev ==> 0 <= FindIndex(movies, current.id) - 1 < |movies|
    ensures NavBounds(movies, current).hasNext ==> 0 <= FindIndex(movies, current.id) + 1 < |movies|
  {
  }

  /** A movie that is not in the list has no previous neighbour, but a next one as soon as
      the list is non-empty. */
  lemma AbsentMovieBounds(movies: seq<Movie>, current: Movie)
    requires forall k :: 0 <= k < |movies| ==> movies[k].id != current.id
    ensures !NavBounds(movies, current).hasPrev
    ensures NavBounds(movies, current).hasNext <==> movies != []
  {
  }

  // ---------------------------------------------------------------- gestures

  /** Where a completed swipe leads: a swipe to the left by more than the minimum distance
      goes to the next movie when there is one, a swipe to the right to the previous one
      when there is one; anything else goes nowhere. */
  function SwipeTarget(distance: int, bounds: Bounds): (r: Option<Direction>)
    ensures r == Some(Next) <==> distance > MinSwipeDistance && bounds.hasNext
    ensures r == Some(Prev) <==> distance < -MinSwipeDistance && bounds.hasPrev
  {
    if distance > MinSwipeDistance && bounds.hasNext then Some(Next)
    else if distance < -MinSwipeDistance && bounds.hasPrev then Some(Prev)
    else None
  }

  /** A short swipe never navigates. */
  lemma ShortSwipeStays(distance: int, bounds: Bounds)
    requires -MinSwipeDistance <= distance <= MinSwipeDistance
    ensures SwipeTarget(distance, bounds) == None
  {
  }

  /** What a pressed key does: the arrows navigate without any bounds check and Escape
      closes the dialog. */
  function KeyEvent(key: string): (r: Option<Event>)
    ensures r == Some(Navigated(Prev)) <==> key == "ArrowLeft"
    ensures r == Some(Navigated(Next)) <==> key == "ArrowRight"
    ensures r == Some(VisibilityChanged(false)) <==> key == "Escape"
    ensures r.None? <==> key != "ArrowLeft" && key != "ArrowRight" && key != "Escape"
  {
    if key == "ArrowLeft" then Some(Navigated(Prev))
    else if key == "ArrowRight" then Some(Navigated(Next))
    else if key == "Escape" then Some(VisibilityChanged(false))
    else None
  }

  /** JavaScript truthiness of a `number | null` position: present and not zero. */
  predicate IsSet(position: Option<int>) {
    position.Some? && position.value != 0
  }

  function EventsOf(target: Option<Direction>): seq<Event> {
    if target.Some? then [Navigated(target.value)] else []
  }

  /** The touch state of the dialog and the events it has sent its owner, oldest first. */
  class Preview {
    var touchStart: Option<int>
    var touchEnd: Option<int>
    var events: seq<Event>

    constructor()
      ensures touchStart == None && touchEnd == None && events == []
    {
      touchStart := None;
      touchEnd := None;
      events := [];
    }

    /** `handleTouchStart`: forgets the last end position and records the start. */
    method TouchStart(clientX: int)
      modifies this
      ensures touchStart == Some(clientX) && touchEnd == None && events == old(events)
    {
      touchEnd := None;
      touchStart := Some(clientX);
    }

    /** `handleTouchMove`: records the latest position. */
    method TouchMove(clientX: int)
      modifies this
      ensures touchEnd == Some(clientX) && touchStart == old(touchStart) && events == old(events)
    {
      touchEnd := Some(clientX);
    }

    /** `handleTouchEnd` with the shown movie's bounds. Without both positions (a position
        of 0 counts as none) nothing happens and nothing is reset; otherwise the swipe's
        target, if any, is sent and both positions are cleared. */
    method TouchEnd(bounds: Bounds)
      modifies this
      ensures !(IsSet(old(touchStart)) && IsSet(old(touchEnd))) ==>
                touchStart == old(touchStart) && touchEnd == old(touchEnd) && events == old(events)
      ensures IsSet(old(touchStart)) && IsSet(old(touchEnd)) ==>
                touchStart == None && touchEnd == None
                && events == old(events) + EventsOf(SwipeTarget(old(touchStart).value - old(touchEnd).value, bounds))
    {
      if !IsSet(touchStart) || !IsSet(touchEnd) {
        return;
      }
      var distance := touchStart.value - touchEnd.value;
      var target := SwipeTarget(distance, bounds);
      if target.Some? {
        events := events + [Navigated(target.value)];
      }
      touchStart := None;
      touchEnd := None;
    }

    /** `handleKeyDown`, which listens only while the dialog is visible. */
    method KeyDown(visible: bool, key: string)
      modifies this
      ensures visible && KeyEvent(key).Some? ==> events == old(events) + [KeyEvent(key).value]
      ensures !visible || KeyEvent(key).None? ==> events == old(events)
      ensures touchStart == old(touchStart) && touchEnd == old(touchEnd)
    {
      if visible {
        var e := KeyEvent(key);
        if e.Some? {
          events := events + [e.value];
        }
      }
    }
  }

  /** A whole swipe: touch at `start`, move to `end`, release. Between two non-zero
      positions it ends with both positions cleared and at most one step, towards the
      side the finger moved away from, and only to an existing neighbour. */
  method Swipe(start: int, end: int, bounds: Bounds) returns (events: seq<Event>, cleared: bool)
    requires start != 0 && end != 0
    ensures cleared
    ensures events == EventsOf(SwipeTarget(start - end, bounds))
    ensures events == [Navigated(Next)] ==> bounds.hasNext && start - end > MinSwipeDistance
    ensures events == [Navigated(Prev)] ==> bounds.hasPrev && end - start > MinSwipeDistance
  {
    var preview := new Preview();
    preview.TouchStart(start);
    preview.TouchMove(end);
    preview.TouchEnd(bounds);
    events := preview.events;
    cleared := preview.touchStart.None? && preview.touchEnd.None?;
  }

  /** A tap without movement leaves the start position in place: the end position was
      cleared by the touch start, so the release returns early. */
  method TapKeepsStart(x: int) returns (start: Option<int>, events: seq<Event>)
    ensures start == Some(x) && events == []
  {
    var preview := new Preview();
    preview.TouchStart(x);
    preview.TouchEnd(Bounds(true, true));
    start, events := preview.touchStart, preview.events;
  }

  // ---------------------------------------------------------------- what is shown

  /** The poster shown: the original-size image of the chosen best poster, else the
      original-size image of the poster path, else the placeholder. */
  function PosterUrl(movie: Movie): (url: string)
    ensures movie.bestPoster.Some? ==> url == movie.bestPoster.value.full
    ensures movie.bestPoster.None? && Truthy(movie.posterPath) ==> url == OriginalImageBase + movie.posterPath.value
    ensures movie.bestPoster.None? && !Truthy(movie.posterPath) ==> url == PlaceholderImage
  {
    if movie.bestPoster.Some? then movie.bestPoster.value.full
    else if Truthy(movie.posterPath) then OriginalImageBase + movie.posterPath.value
    else PlaceholderImage
  }

  /** `minutes % 60` as JavaScript computes it: the remainder after the quotient rounded
      toward zero, so it takes the sign of the dividend. */
  function JsRemMinutes(minutes: int): (r: int)
    ensures minutes >= 0 ==> 0 <= r < 60 && minutes == (minutes / 60) * 60 + r
    ensures minutes < 0 ==> -60 < r <= 0 && minutes == -((-minutes) / 60) * 60 + r
  {
    if minutes >= 0 then minutes % 60 else -((-minutes) % 60)
  }

  /** `formatRuntime(minutes)`: whole hours (rounded down) and the remaining minutes. A
      non-negative runtime is written as the decimal strings of its hours and of its
      minutes past the hour; a negative one starts with a minus sign. */
  function FormatRuntime(minutes: int): (r: string)
    ensures minutes >= 0 ==> r == Text.NatToString(minutes / 60) + "小时" + Text.NatToString(minutes % 60) + "分钟"
    ensures minutes < 0 ==> |r| > 0 && r[0] == '-'
  {
    var hours := minutes / 60;
    Text.IntToString(hours) + "小时" + Text.IntToString(JsRemMinutes(minutes)) + "分钟"
  }

  /** For the runtimes that are shown the label splits the minutes exactly into hours and
      fewer than sixty minutes. */
  lemma RuntimeSplits(minutes: int)
    requires minutes > 0
    ensures var hours, rest := minutes / 60, JsRemMinutes(minutes);
            hours >= 0 && 0 <= rest < 60 && hours * 60 + rest == minutes
            && FormatRuntime(minutes) == Text.NatToString(hours) + "小时" + Text.NatToString(rest) + "分钟"
  {
  }

  /** The dialog's content. */
  datatype View = View(title: string, posterUrl: string, bounds: Bounds, runtime: Option<string>)

  /** `PosterPreview(props)`: nothing unless it is visible with a current movie; the runtime
      is shown only when positive. */
  function Render(visible: bool, current: Option<Movie>, movies: seq<Movie>): (r: Option<View>)
    ensures r.None? <==> current.None? || !visible
    ensures r.Some? ==> r.value.title == current.value.title
                        && r.value.posterUrl == PosterUrl(current.value)
                        && r.value.bounds == NavBounds(movies, current.value)
                        && (r.value.runtime.Some? <==> current.value.runtime > 0)
                        && (r.value.runtime.Some? ==> r.value.runtime.value == FormatRuntime(current.value.runtime))
  {
    if current.None? || !visible then None
    else
      var movie := current.value;
      Some(View(movie.title, PosterUrl(movie), NavBounds(movies, movie),
                if movie.runtime > 0 then Some(FormatRuntime(movie.runtime)) else None))
  }
}

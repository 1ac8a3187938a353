/** The "print posters" button (components/print-posters-button.tsx): the A4 page it lays
    the posters out on, the image each poster is loaded from, the footer count and the two
    click handlers. Canvas pixels are integers; every constant of the layout divides exactly. */
module PrintLayout {
  import opened Types
  import Text
  import Uri

  // ---------------------------------------------------------------- page geometry

  /** An A4 page at 300 dpi, in pixels. */
  const A4Width: int := 2480
  const A4Height: int := 3508
  const MarginTop: int := 200
  const MarginBottom: int := 150
  const MarginSide: int := 150
  const SpacingX: int := 100
  const SpacingY: int := 120
  const PostersPerRow: int := 3

  /** The poster width: what is left of the page width after both side margins and the gaps
      between the posters of a row, shared by the posters of the row. */
  function PosterWidth(): (w: int)
    ensures w * PostersPerRow + 2 * MarginSide + (PostersPerRow - 1) * SpacingX == A4Width
  {
    (A4Width - 2 * MarginSide - (PostersPerRow - 1) * SpacingX) / PostersPerRow
  }

  /** The poster height keeps the 2:3 aspect ratio. */
  function PosterHeight(): (h: int)
    ensures 2 * h == 3 * PosterWidth()
  {
    PosterWidth() * 3 / 2
  }

  /** `Math.floor` of the usable page height over the height a row takes: the most rows that
      fit between the top and bottom margins. */
  function PostersPerColumn(): (n: int)
    ensures n >= 0
    ensures n * (PosterHeight() + SpacingY) <= A4Height - MarginTop - MarginBottom
    ensures (n + 1) * (PosterHeight() + SpacingY) > A4Height - MarginTop - MarginBottom
  {
    (A4Height - MarginTop - MarginBottom) / (PosterHeight() + SpacingY)
  }

  /** How many posters one page holds. */
  function Capacity(): (c: int)
    ensures c == PostersPerRow * PostersPerColumn()
    ensures c == 6
  {
    PostersPerRow * PostersPerColumn()
  }

  /** The numbers the layout works out to. */
  lemma LayoutNumbers()
    ensures PosterWidth() == 660 && PosterHeight() == 990 && PostersPerColumn() == 2
  {
  }

  datatype Rect = Rect(x: int, y: int, width: int, height: int)

  /** The cell of the poster at `index`: row `index / 3`, column `index % 3`. */
  function Cell(index: nat): (r: Rect)
    ensures r.width == PosterWidth() && r.height == PosterHeight()
    ensures r.x == MarginSide + (index % PostersPerRow) * (PosterWidth() + SpacingX)
    ensures r.y == MarginTop + (index / PostersPerRow) * (PosterHeight() + SpacingY)
  {
    var row := index / PostersPerRow;
    var col := index % PostersPerRow;
    Rect(MarginSide + col * (PosterWidth() + SpacingX), MarginTop + row * (PosterHeight() + SpacingY),
         PosterWidth(), PosterHeight())
  }

  /** A poster is drawn unless its row lies beyond the rows a page holds. */
  predicate IsDrawn(index: nat) {
    index / PostersPerRow < PostersPerColumn()
  }

  /** Exactly the first page-full of posters is drawn. */
  lemma DrawnIffOnFirstPage(index: nat)
    ensures IsDrawn(index) <==> index < Capacity()
  {
  }

  /** Every drawn poster lies inside the page and keeps clear of the side, top and bottom
      margins. */
  lemma DrawnInsideMargins(index: nat)
    requires IsDrawn(index)
    ensures MarginSide <= Cell(index).x
    ensures Cell(index).x + Cell(index).width <= A4Width - MarginSide
    ensures MarginTop <= Cell(index).y
    ensures Cell(index).y + Cell(index).height <= A4Height - MarginBottom
  {
    LayoutNumbers();
    assert index < 6;
  }

  predicate Disjoint(a: Rect, b: Rect) {
    a.x + a.width <= b.x || b.x + b.width <= a.x || a.y + a.height <= b.y || b.y + b.height <= a.y
  }

  /** Two different posters never overlap: cells of different columns are at least a gap
      apart horizontally, cells of different rows vertically. */
  lemma DrawnDisjoint(i: nat, j: nat)
    requires IsDrawn(i) && IsDrawn(j) && i != j
    ensures Disjoint(Cell(i), Cell(j))
  {
    LayoutNumbers();
    var ri, ci, rj, cj := i / 3, i % 3, j / 3, j % 3;
    assert i == 3 * ri + ci && j == 3 * rj + cj;
    if ci != cj {
      assert ci < cj ==> Cell(i).x + Cell(i).width <= Cell(j).x;
      assert cj < ci ==> Cell(j).x + Cell(j).width <= Cell(i).x;
    } else {
      assert ri != rj;
      assert ri < rj ==> Cell(i).y + Cell(i).height <= Cell(j).y;
      assert rj < ri ==> Cell(j).y + Cell(j).height <= Cell(i).y;
    }
  }

  // ---------------------------------------------------------------- image sources

  const PlaceholderImage: string := "/placeholder.svg"
  const PosterImageBase: string := "https://image.tmdb.org/t/p/w500"
  const ImageProxy: string := "/api/image-proxy?url="

  /** The image a poster is drawn from: the w500 image of its poster path, or the
      placeholder when it has none. */
  function PosterSource(movie: Movie): (url: string)
    ensures Truthy(movie.posterPath) ==> url == PosterImageBase + movie.posterPath.value
    ensures !Truthy(movie.posterPath) ==> url == PlaceholderImage
  {
    if Truthy(movie.posterPath) then PosterImageBase + movie.posterPath.value else PlaceholderImage
  }

  /** The address an image is loaded from: the image proxy, with the original URL as the
      single `url` query parameter. The encoded value contains no character that would end
      the parameter or the query. */
  function ProxiedSource(url: string): (r: string)
    ensures |r| >= |ImageProxy| + |url| && r[..|ImageProxy|] == ImageProxy
    ensures forall i :: |ImageProxy| <= i < |r| ==> r[i] != '&' && r[i] != '#' && r[i] != '='
    ensures r[|ImageProxy|..] == Uri.EncodeUriComponent(url)
  {
    var encoded := Uri.EncodeUriComponent(url);
    Uri.EncodedHasNoDelimiters(url);
    assert forall i :: |ImageProxy| <= i < |ImageProxy + encoded| ==> (ImageProxy + encoded)[i] == encoded[i - |ImageProxy|];
    ImageProxy + encoded
  }

  // ---------------------------------------------------------------- drawing

  /** One poster drawn on the page: the image it was loaded from and its rectangle. */
  datatype Placement = Placement(source: string, cell: Rect)

  /** A generated page: the placed posters in drawing order and the count in the footer. */
  datatype Page = Page(placements: seq<Placement>, footerCount: int)

  /** `Math.min(images.length, POSTERS_PER_ROW * POSTERS_PER_COLUMN)`. */
  function FooterCount(imageCount: nat): (r: nat)
    ensures r <= imageCount && r <= Capacity()
    ensures r == imageCount || r == Capacity()
  {
    if imageCount < Capacity() then imageCount else Capacity()
  }

  /** `images.forEach(...)`: walks the loaded images in order and places those whose row
      fits on the page, each in its own cell. */
  method DrawPosters(sources: seq<string>) returns (placements: seq<Placement>)
    ensures |placements| == FooterCount(|sources|)
    ensures forall k :: 0 <= k < |placements| ==> placements[k] == Placement(sources[k], Cell(k))
  {
    placements := [];
    for index := 0 to |sources|
      invariant |placements| == FooterCount(index)
      invariant forall k :: 0 <= k < |placements| ==> placements[k] == Placement(sources[k], Cell(k))
    {
      DrawnIffOnFirstPage(index);
      if !IsDrawn(index) {
        continue;
      }
      placements := placements + [Placement(sources[index], Cell(index))];
    }
  }

  /** `generatePrintImage()`: nothing without a drawing context or when an image fails to
      load; otherwise the page, whose footer counts exactly the posters drawn on it, each
      loaded through the image proxy from its movie's poster. */
  method GeneratePrintImage(movies: seq<Movie>, hasContext: bool, imagesLoad: bool) returns (page: Option<Page>)
    ensures !hasContext || !imagesLoad ==> page == None
    ensures hasContext && imagesLoad ==> page.Some?
    ensures page.Some? ==> page.value.footerCount == |page.value.placements| == FooterCount(|movies|)
    ensures page.Some? ==> forall k :: 0 <= k < |page.value.placements| ==>
              page.value.placements[k] == Placement(ProxiedSource(PosterSource(movies[k])), Cell(k))
  {
    if !hasContext {
      return None;
    }
    if !imagesLoad {
      return None;
    }
    var sources := seq(|movies|, k requires 0 <= k < |movies| => ProxiedSource(PosterSource(movies[k])));
    var placements := DrawPosters(sources);
    page := Some(Page(placements, FooterCount(|sources|)));
  }

  /** How many of the first `n` posters are drawn, counted one poster at a time. */
  function DrawnCount(n: nat): nat {
    if n == 0 then 0 else DrawnCount(n - 1) + (if IsDrawn(n - 1) then 1 else 0)
  }

  /** The footer counts exactly the posters that are drawn. */
  lemma {:induction false} FooterCountsDrawn(n: nat)
    ensures FooterCount(n) == DrawnCount(n)
  {
    if n > 0 {
      FooterCountsDrawn(n - 1);
      DrawnIffOnFirstPage(n - 1);
    }
  }

  // ---------------------------------------------------------------- the button

  const DownloadName: string := "电影海报收藏.png"

  /** A download the page starts by clicking a link. */
  datatype Download = Download(fileName: string, href: string)

  class PrintButton {
    var previewUrl: Option<string>
    var dialogOpen: bool
    /** The downloads started so far, oldest first. */
    var downloads: seq<Download>

    constructor()
      ensures previewUrl == None && !dialogOpen && downloads == []
    {
      previewUrl := None;
      dialogOpen := false;
      downloads := [];
    }

    /** `handlePrintClick` once generation finished with `imageUrl`: the preview opens only
        for a generated image. */
    method HandlePrintClick(imageUrl: Option<string>)
      modifies this
      ensures Truthy(imageUrl) ==> previewUrl == imageUrl && dialogOpen && downloads == old(downloads)
      ensures !Truthy(imageUrl) ==> previewUrl == old(previewUrl) && dialogOpen == old(dialogOpen)
                                    && downloads == old(downloads)
    {
      if Truthy(imageUrl) {
        previewUrl := imageUrl;
        dialogOpen := true;
      }
    }

    /** `handleConfirmDownload`: without a preview nothing happens; otherwise the preview is
        downloaded under the fixed file name and the dialog closes. */
    method HandleConfirmDownload()
      modifies this
      ensures !Truthy(old(previewUrl)) ==> dialogOpen == old(dialogOpen) && downloads == old(downloads)
      ensures Truthy(old(previewUrl)) ==>
                downloads == old(downloads) + [Download(DownloadName, old(previewUrl).value)] && !dialogOpen
      ensures previewUrl == old(previewUrl)
    {
      if !Truthy(previewUrl) {
        return;
      }
      downloads := downloads + [Download(DownloadName, previewUrl.value)];
      dialogOpen := false;
    }
  }

  /** What the button renders: nothing for an empty list, otherwise the button and the
      preview dialog with its open flag, preview and the number of movies. */
  datatype ButtonView = Hidden | Shown(open: bool, previewUrl: Option<string>, totalPosters: nat)

  function Render(movies: seq<Movie>, previewUrl: Option<string>, dialogOpen: bool): (r: ButtonView)
    ensures r.Hidden? <==> movies == []
    ensures r.Shown? ==> r.open == dialogOpen && r.previewUrl == previewUrl && r.totalPosters == |movies|
  {
    if |movies| == 0 then Hidden else Shown(dialogOpen, previewUrl, |movies|)
  }

  /** A download can only follow a generated preview: printing with a failed generation and
      confirming leaves the button without any download. */
  method PrintThenConfirm(imageUrl: Option<string>) returns (downloaded: seq<Download>, open: bool)
    ensures Truthy(imageUrl) ==> downloaded == [Download(DownloadName, imageUrl.value)] && !open
    ensures !Truthy(imageUrl) ==> downloaded == [] && !open
  {
    var button := new PrintButton();
    button.HandlePrintClick(imageUrl);
    button.HandleConfirmDownload();
    downloaded, open := button.downloads, button.dialogOpen;
  }
}

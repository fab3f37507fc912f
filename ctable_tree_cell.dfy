/**
 * A cell of the table-tree widget: its preferred size, its title height,
 * the layout of its title row (toggle, images, text) and of its child area,
 * the lazy layout done before painting, and its state setters.
 *
 * The toolkit's answers (image bounds, text extents, the preferred sizes of
 * the title and child controls, column edges) are parameters; drawing is not
 * modelled.
 */
module CTableTreeCell {
  import opened Wrappers
  import opened Swt

  /** An image as the toolkit reports it: the size of its bounds and whether it has been disposed. */
  datatype Image = Image(width: nat, height: nat, disposed: bool)

  /** Margins and spacings the cell inherits from its container cell. */
  datatype Metrics = Metrics(
    marginLeft: nat, marginRight: nat, marginTop: nat, marginBottom: nat,
    marginWidth: nat, marginHeight: nat, horizontalSpacing: nat,
    toggleWidth: nat, indent: nat, childSpacing: nat, rightChildIndent: nat)

  /** What the toolkit answers when the cell measures itself. */
  datatype Toolkit = Toolkit(
    fixedTitleHeight: Option<int>, // the item's fixed title height, when it uses one
    titleArea: Option<Size>,       // the title control, when there is one: its preferred size
    childArea: Option<Size>,       // the child control, when there is one: its preferred size
    textExtent: Size)              // the extent of the cell's text in the shared graphics context

  /** Left and right edges of a column of the container. */
  datatype Column = Column(left: int, right: int)

  /** The toolkit errors the cell's code can run into. */
  datatype Failure =
    | GraphicDisposed        // the bounds of a disposed image were asked for
    | InvalidColumn(index: int) // a column outside the container was asked for

  datatype SizeResult = Measured(size: Point) | SizeFailed(failure: Failure)

  /** Where the child area goes, or the column lookup that failed. */
  datatype ChildPlacement = ChildBounds(rect: Rect) | ColumnFailure(index: int)

  /** First and last column spanned by the child area. */
  datatype Span = Span(first: int, last: int)

  /** Vertical placement of the title row. */
  datatype VAlign = VTop | VBottom | VCenter

  // ---------------------------------------------------------------------
  // Preferred size

  predicate AnyDisposed(images: seq<Image>) {
    exists i :: 0 <= i < |images| && images[i].disposed
  }

  /** The width of k spacings laid end to end. */
  function Spacings(k: nat, spacing: nat): nat {
    if k == 0 then 0 else Spacings(k - 1, spacing) + spacing
  }

  lemma {:induction false} SpacingsIsProduct(k: nat, spacing: nat)
    ensures Spacings(k, spacing) == k * spacing
  {
    if k > 0 {
      SpacingsIsProduct(k - 1, spacing);
    }
  }

  function SumWidths(images: seq<Image>): nat
    decreases |images|
  {
    if images == [] then 0 else SumWidths(images[..|images| - 1]) + images[|images| - 1].width
  }

  /**
   * The bounds computeSize accumulates over a non-empty image list: widths
   * side by side with one spacing between neighbours, the tallest height.
   */
  function ImagesExtent(images: seq<Image>, spacing: nat): Size
    requires |images| > 0
    decreases |images|
  {
    if |images| == 1 then
      Size(images[0].width, images[0].height)
    else
      var prev := ImagesExtent(images[..|images| - 1], spacing);
      var last := images[|images| - 1];
      Size(prev.x + spacing + last.width, Max(prev.y, last.height))
  }

  /**
   * The accumulated width is the sum of the widths plus one spacing between
   * each pair of neighbours, and the height is the tallest image's.
   */
  lemma {:induction false} ImagesExtentMeasures(images: seq<Image>, spacing: nat)
    requires |images| > 0
    ensures ImagesExtent(images, spacing).x == SumWidths(images) + Spacings(|images| - 1, spacing)
    ensures forall i :: 0 <= i < |images| ==> images[i].height <= ImagesExtent(images, spacing).y
    ensures exists i :: 0 <= i < |images| && ImagesExtent(images, spacing).y == images[i].height
    decreases |images|
  {
    if |images| == 1 {
      assert images[..0] == [];
      assert ImagesExtent(images, spacing).y == images[0].height;
    } else {
      var prefix := images[..|images| - 1];
      ImagesExtentMeasures(prefix, spacing);
      assert forall i :: 0 <= i < |prefix| ==> prefix[i] == images[i];
      var j :| 0 <= j < |prefix| && ImagesExtent(prefix, spacing).y == prefix[j].height;
      if ImagesExtent(images, spacing).y != images[|images| - 1].height {
        assert ImagesExtent(images, spacing).y == images[j].height;
      }
    }
  }

  /** The images' combined bounds as computeSize sees them; a cell without images counts as 1x1. */
  function CombinedImageBounds(images: seq<Image>, spacing: nat): (r: Size)
    ensures |images| == 0 ==> r == Size(1, 1)
    ensures |images| > 0 ==> r.x == SumWidths(images) + Spacings(|images| - 1, spacing)
    ensures forall i :: 0 <= i < |images| ==> images[i].height <= r.y
  {
    if |images| > 0 then
      ImagesExtentMeasures(images, spacing);
      ImagesExtent(images, spacing)
    else Size(1, 1)
  }

  /**
   * The image loop of computeSize: the combined bounds of the images, or
   * nothing when one of them is disposed and cannot be measured.
   */
  method MeasureImages(images: seq<Image>, spacing: nat) returns (r: Option<Size>)
    ensures r.None? <==> AnyDisposed(images)
    ensures r.Some? ==> r.value == CombinedImageBounds(images, spacing)
  {
    if |images| == 0 {
      return Some(Size(1, 1));
    }
    if images[0].disposed {
      return None;
    }
    var ib := Size(images[0].width, images[0].height);
    assert ib == ImagesExtent(images[..1], spacing);
    for i := 1 to |images|
      invariant ib == ImagesExtent(images[..i], spacing)
      invariant forall j :: 0 <= j < i ==> !images[j].disposed
    {
      if images[i].disposed {
        return None;
      }
      assert images[..i + 1][..i] == images[..i];
      assert ImagesExtent(images[..i + 1], spacing)
          == Size(ib.x + spacing + images[i].width, Max(ib.y, images[i].height));
      ib := Size(ib.x + spacing + images[i].width, Max(ib.y, images[i].height));
    }
    assert images[..|images|] == images;
    r := Some(ib);
  }

  /** The text is measured only when it is not empty. */
  function TextSize(text: string, env: Toolkit): (r: Size)
    ensures |text| == 0 ==> r == Size(0, 0)
  {
    if |text| > 0 then env.textExtent else Size(0, 0)
  }

  /**
   * The extent of the title content when the cell measures it itself:
   * images and text side by side, separated by one spacing only when both
   * have a width.
   */
  function ContentSize(images: seq<Image>, text: string, spacing: nat, env: Toolkit): (r: Point)
    ensures var ib := CombinedImageBounds(images, spacing);
            var t := TextSize(text, env);
            && (ib.x == 0 || t.x == 0 ==> r.x == ib.x + t.x)
            && (ib.x > 0 && t.x > 0 ==> r.x == ib.x + spacing + t.x)
            && r.y >= ib.y && r.y >= t.y && (r.y == ib.y || r.y == t.y)
  {
    var ib := CombinedImageBounds(images, spacing);
    var t := TextSize(text, env);
    Point(ib.x + (if ib.x > 0 && t.x > 0 then spacing else 0) + t.x, Max(ib.y, t.y))
  }

  /** The horizontal space the cell reserves before its content: four margins and, when shown, the toggle. */
  function FrameWidth(m: Metrics, toggleShown: bool): nat {
    m.marginLeft + m.marginWidth + m.marginWidth + m.marginRight + (if toggleShown then m.toggleWidth else 0)
  }

  /** computeSize's measurement of the title before the child area is added. */
  function TitleSize(m: Metrics, toggleShown: bool, images: seq<Image>, text: string, env: Toolkit): (r: Point)
    ensures r.x >= FrameWidth(m, toggleShown)
    ensures env.fixedTitleHeight.Some? ==> r == Point(FrameWidth(m, toggleShown), env.fixedTitleHeight.value)
    ensures env.fixedTitleHeight.None? ==> r.y >= m.marginTop + 2 * m.marginHeight + m.marginBottom
    ensures env.fixedTitleHeight.None? && env.titleArea.Some? ==>
              r == Point(FrameWidth(m, toggleShown), m.marginTop + 2 * m.marginHeight + m.marginBottom + env.titleArea.value.y)
    ensures env.fixedTitleHeight.None? && env.titleArea.None? ==>
              var c := ContentSize(images, text, m.horizontalSpacing, env);
              r == Point(FrameWidth(m, toggleShown) + c.x, m.marginTop + 2 * m.marginHeight + m.marginBottom + c.y)
  {
    var x := FrameWidth(m, toggleShown);
    if env.fixedTitleHeight.Some? then
      Point(x, env.fixedTitleHeight.value)
    else
      var y := m.marginTop + m.marginHeight + m.marginHeight + m.marginBottom;
      if env.titleArea.Some? then
        Point(x, y + env.titleArea.value.y)
      else
        var c := ContentSize(images, text, m.horizontalSpacing, env);
        Point(x + c.x, y + c.y)
  }

  /**
   * The size of an open cell with a child control: margins, toggle and the
   * wider of title and child across; the title, the child and a child spacing
   * above and below it down. Otherwise the title's size.
   */
  function WithChildArea(m: Metrics, open: bool, title: Point, env: Toolkit): (r: Point)
    ensures !(open && env.childArea.Some?) ==> r == title
    ensures open && env.childArea.Some? ==>
              var child := env.childArea.value;
              && r.x >= m.marginLeft + 2 * m.marginWidth + m.marginRight + m.toggleWidth + title.x
              && r.x >= m.marginLeft + 2 * m.marginWidth + m.marginRight + m.toggleWidth + child.x
              && (r.x == m.marginLeft + 2 * m.marginWidth + m.marginRight + m.toggleWidth + title.x
                  || r.x == m.marginLeft + 2 * m.marginWidth + m.marginRight + m.toggleWidth + child.x)
              && r.y == title.y + child.y + 2 * m.childSpacing
  {
    if open && env.childArea.Some? then
      var child := env.childArea.value;
      Point(m.marginLeft + m.marginWidth + m.toggleWidth + Max(title.x, child.x) + m.marginWidth + m.marginRight,
            title.y + (m.childSpacing + child.y + m.childSpacing))
    else title
  }

  /** A size clamped by a hint: the hint caps it unless it is DEFAULT. */
  function Clamp(v: int, hint: int): (r: int)
    ensures hint == DEFAULT ==> r == v
    ensures hint != DEFAULT ==> r <= v && r <= hint && (r == v || r == hint)
  {
    if hint != DEFAULT then Min(v, hint) else v
  }

  /**
   * The cell's preferred size for the given hints (computeSize): the title,
   * widened and deepened by the child area when the cell is open, then clamped
   * by each hint that is not DEFAULT.
   */
  function PreferredSize(m: Metrics, toggleShown: bool, open: bool, images: seq<Image>, text: string,
                         env: Toolkit, wHint: int, hHint: int): (r: SizeResult)
    ensures r.SizeFailed? <==> env.fixedTitleHeight.None? && env.titleArea.None? && AnyDisposed(images)
    ensures r.Measured? ==>
              var size := WithChildArea(m, open, TitleSize(m, toggleShown, images, text, env), env);
              r.size == Point(Clamp(size.x, wHint), Clamp(size.y, hHint))
    ensures r.Measured? && wHint != DEFAULT ==> r.size.x <= wHint
    ensures r.Measured? && hHint != DEFAULT ==> r.size.y <= hHint
    ensures r.Measured? && wHint == DEFAULT ==> r.size.x >= FrameWidth(m, toggleShown)
    ensures r.Measured? && wHint == DEFAULT && open && env.childArea.Some? ==>
              r.size.x >= m.marginLeft + 2 * m.marginWidth + m.marginRight + m.toggleWidth + env.childArea.value.x
  {
    if env.fixedTitleHeight.None? && env.titleArea.None? && AnyDisposed(images) then
      SizeFailed(GraphicDisposed)
    else
      var size := WithChildArea(m, open, TitleSize(m, toggleShown, images, text, env), env);
      Measured(Point(Clamp(size.x, wHint), Clamp(size.y, hHint)))
  }

  /**
   * The title half of computeSize: margins and toggle across; the fixed title
   * height, the title-area control's height, or the images beside the text.
   * Nothing when an image it has to measure is disposed.
   */
  method MeasureTitle(m: Metrics, toggleShown: bool, images: seq<Image>, text: string, env: Toolkit)
    returns (r: Option<Point>)
    ensures r.None? <==> env.fixedTitleHeight.None? && env.titleArea.None? && AnyDisposed(images)
    ensures r.Some? ==> r.value == TitleSize(m, toggleShown, images, text, env)
  {
    var x := m.marginLeft + m.marginWidth + m.marginWidth + m.marginRight;
    if toggleShown {
      x := x + m.toggleWidth;
    }
    var y: int;
    if env.fixedTitleHeight.Some? {
      y := env.fixedTitleHeight.value;
    } else {
      y := m.marginTop + m.marginHeight + m.marginHeight + m.marginBottom;
      if env.titleArea.Some? {
        y := y + env.titleArea.value.y;
      } else {
        var measured := MeasureImages(images, m.horizontalSpacing);
        if measured.None? {
          return None;
        }
        var ib := measured.value;
        var t := TextSize(text, env);
        assert ContentSize(images, text, m.horizontalSpacing, env)
            == Point(ib.x + (if ib.x > 0 && t.x > 0 then m.horizontalSpacing else 0) + t.x, Max(ib.y, t.y));
        x := x + ib.x + (if ib.x > 0 && t.x > 0 then m.horizontalSpacing else 0) + t.x;
        y := y + Max(ib.y, t.y);
      }
    }
    r := Some(Point(x, y));
  }

  // ---------------------------------------------------------------------
  // Title height

  /** The tallest of the recorded image bounds, 0 when there are none. */
  function MaxRectHeight(rects: seq<Rect>): (r: int)
    ensures r >= 0
    ensures forall i :: 0 <= i < |rects| ==> rects[i].height <= r
    ensures r == 0 || exists i :: 0 <= i < |rects| && r == rects[i].height
    decreases |rects|
  {
    if rects == [] then 0
    else
      var prefix := rects[..|rects| - 1];
      assert forall i :: 0 <= i < |prefix| ==> prefix[i] == rects[i];
      Max(MaxRectHeight(prefix), rects[|rects| - 1].height)
  }

  /**
   * computeTitleHeight: the four vertical margins plus the title control's
   * height, or else the tallest of the recorded image bounds and the text
   * height; clamped by the hint when it is not DEFAULT.
   */
  function TitleHeight(m: Metrics, iBounds: seq<Rect>, env: Toolkit, hHint: int): (r: int)
    ensures hHint != DEFAULT ==> r <= hHint && r == Min(TitleHeight(m, iBounds, env, DEFAULT), hHint)
    ensures hHint == DEFAULT && env.titleArea.None? ==>
              (forall i :: 0 <= i < |iBounds| ==> r >= m.marginTop + 2 * m.marginHeight + m.marginBottom + iBounds[i].height)
              && r >= m.marginTop + 2 * m.marginHeight + m.marginBottom + env.textExtent.y
              && (r == m.marginTop + 2 * m.marginHeight + m.marginBottom + env.textExtent.y
                  || exists i :: 0 <= i < |iBounds| && r == m.marginTop + 2 * m.marginHeight + m.marginBottom + iBounds[i].height)
    ensures hHint == DEFAULT && env.titleArea.Some? ==>
              r == m.marginTop + 2 * m.marginHeight + m.marginBottom + env.titleArea.value.y
    decreases if hHint == DEFAULT then 0 else 1
  {
    var margins := m.marginTop + m.marginHeight + m.marginHeight + m.marginBottom;
    var h := if env.titleArea.Some? then margins + env.titleArea.value.y
             else margins + Max(MaxRectHeight(iBounds), env.textExtent.y);
    if hHint != DEFAULT then Min(h, hHint) else h
  }

  // ---------------------------------------------------------------------
  // Layout of the title row

  /** The bounds layout() records for an image; a disposed one is given a 1x1 placeholder. */
  function ImageRect(img: Image): Rect {
    if img.disposed then Rect(0, 0, 1, 1) else Rect(0, 0, img.width, img.height)
  }

  function ImageRects(images: seq<Image>): (r: seq<Rect>)
    ensures |r| == |images|
    ensures forall i :: 0 <= i < |images| ==> r[i] == ImageRect(images[i])
  {
    seq(|images|, i requires 0 <= i < |images| => ImageRect(images[i]))
  }

  function RectWidths(rects: seq<Rect>): int
    decreases |rects|
  {
    if rects == [] then 0 else RectWidths(rects[..|rects| - 1]) + rects[|rects| - 1].width
  }

  /** Spacings in the title row: one after every image but the last, and after the last one too when text follows. */
  function Gaps(n: nat, hasText: bool): nat {
    if n == 0 then 0 else if hasText then n else n - 1
  }

  /** The width layout() aligns: indent, toggle, images with their spacings, text. */
  function RowWidth(m: Metrics, toggleW: int, rects: seq<Rect>, hasText: bool, textW: int): int {
    m.indent + toggleW + RectWidths(rects) + Spacings(Gaps(|rects|, hasText), m.horizontalSpacing) + textW
  }

  /** Where the title row starts for the horizontal alignment style (CENTER wins over RIGHT; LEFT by default). */
  function RowStart(m: Metrics, style: bv32, bounds: Rect, width: int): int {
    if HasStyle(style, CENTER) then
      bounds.x + Half(bounds.width - (m.indent + m.marginLeft + m.marginWidth + width + m.marginWidth + m.marginRight))
    else if HasStyle(style, RIGHT) then
      bounds.x + (bounds.width - (width + m.marginWidth + m.marginRight))
    else
      bounds.x + (m.indent + m.marginLeft + m.marginWidth)
  }

  function VerticalAlign(style: bv32, open: bool, hasChildArea: bool): VAlign {
    if (open && hasChildArea) || HasStyle(style, TOP) then VTop
    else if HasStyle(style, BOTTOM) then VBottom
    else VCenter
  }

  /**
   * The y the layout gives to a rectangle of the title row. The BOTTOM case
   * subtracts the y the rectangle held before, as the layout does.
   */
  function AlignedY(mode: VAlign, m: Metrics, bounds: Rect, r: Rect): (y: int)
    ensures mode == VCenter ==> -1 <= 2 * (y - bounds.y) + r.height - bounds.height <= 1
  {
    match mode
    case VTop => bounds.y + m.marginTop + m.marginHeight
    case VBottom => bounds.y + bounds.height - (r.y + m.marginHeight + m.marginBottom)
    case VCenter => bounds.y + Half(bounds.height - r.height)
  }

  /** Width of the images and of the spacings after them (the width loop of layout()). */
  method MeasureImageRow(rects: seq<Rect>, spacing: nat, hasText: bool) returns (w: int)
    ensures w == RectWidths(rects) + Spacings(Gaps(|rects|, hasText), spacing)
  {
    w := 0;
    var n := |rects|;
    for i := 0 to n
      invariant w == RectWidths(rects[..i]) + Spacings(if i == n then Gaps(n, hasText) else i, spacing)
    {
      assert rects[..i + 1][..i] == rects[..i];
      w := w + rects[i].width;
      if i != n - 1 || hasText {
        w := w + spacing;
      }
    }
    assert rects[..n] == rects;
  }

  /** Where the position loop of layout() puts image i: after the widths and spacings of the images before it. */
  function ImageX(rects: seq<Rect>, x: int, spacing: nat, i: nat): int
    requires i <= |rects|
  {
    x + RectWidths(rects[..i]) + Spacings(i, spacing)
  }

  /** Consecutive image positions differ by the earlier image's width plus one spacing. */
  lemma ImageXStep(rects: seq<Rect>, x: int, spacing: nat, i: nat)
    requires 0 < i <= |rects|
    ensures ImageX(rects, x, spacing, i) == ImageX(rects, x, spacing, i - 1) + rects[i - 1].width + spacing
  {
    assert rects[..i][..i - 1] == rects[..i - 1];
  }

  /**
   * Places the images left to right from x (the position loop of layout()):
   * each image starts where the previous one ends plus one spacing, and the
   * text starts after the last image, with a spacing only when there is text.
   */
  method PlaceRow(rects: seq<Rect>, x: int, spacing: nat, hasText: bool) returns (placed: seq<Rect>, textX: int)
    ensures |placed| == |rects|
    ensures forall i :: 0 <= i < |rects| ==> placed[i] == rects[i].(x := placed[i].x)
    ensures |rects| > 0 ==> placed[0].x == x
    ensures forall i :: 0 < i < |rects| ==> placed[i].x == placed[i - 1].x + placed[i - 1].width + spacing
    ensures |rects| == 0 ==> textX == x
    ensures |rects| > 0 ==> textX == placed[|rects| - 1].x + placed[|rects| - 1].width + (if hasText then spacing else 0)
    ensures textX == x + RectWidths(rects) + Spacings(Gaps(|rects|, hasText), spacing)
  {
    var n := |rects|;
    placed := rects;
    textX := x;
    for i := 0 to n
      invariant |placed| == n
      invariant forall j :: 0 <= j < n ==> placed[j] == rects[j].(x := if j < i then ImageX(rects, x, spacing, j) else rects[j].x)
      invariant textX == x + RectWidths(rects[..i]) + Spacings(if i == n then Gaps(n, hasText) else i, spacing)
    {
      assert rects[..i + 1][..i] == rects[..i];
      placed := placed[i := placed[i].(x := textX)];
      textX := textX + placed[i].width;
      if i != n - 1 || hasText {
        textX := textX + spacing;
      }
    }
    assert rects[..n] == rects;
    forall i | 0 < i < n ensures placed[i].x == placed[i - 1].x + placed[i - 1].width + spacing {
      ImageXStep(rects, x, spacing, i);
    }
    if n > 0 {
      ImageXStep(rects, x, spacing, n);
      assert rects[..0] == [];
    }
  }

  /** Gives every image of the title row the y of the vertical alignment (the y loops of layout()). */
  method AlignRow(rects: seq<Rect>, mode: VAlign, m: Metrics, bounds: Rect) returns (placed: seq<Rect>)
    ensures |placed| == |rects|
    ensures forall i :: 0 <= i < |rects| ==> placed[i] == rects[i].(y := AlignedY(mode, m, bounds, rects[i]))
  {
    placed := rects;
    for i := 0 to |rects|
      invariant |placed| == |rects|
      invariant forall j :: 0 <= j < i ==> placed[j] == rects[j].(y := AlignedY(mode, m, bounds, rects[j]))
      invariant forall j :: i <= j < |rects| ==> placed[j] == rects[j]
    {
      placed := placed[i := placed[i].(y := AlignedY(mode, m, bounds, placed[i]))];
    }
  }

  /** The rectangles of the title row: toggle, images, text. */
  datatype TitleRow = TitleRow(toggle: Rect, images: seq<Rect>, text: Rect)

  /**
   * Sizes of the title row as layout() leaves them: the toggle is cut to the
   * cell width and the title height, images keep their measured size (1x1
   * when disposed), the text its extent.
   */
  ghost predicate RowSizes(m: Metrics, bounds: Rect, images: seq<Image>, text: string, env: Toolkit,
                           titleHeight: int, row: TitleRow)
  {
    var rects := ImageRects(images);
    var t := TextSize(text, env);
    && row.toggle.width == Min(bounds.width, m.toggleWidth)
    && row.toggle.height == Min(bounds.height, titleHeight)
    && |row.images| == |rects|
    && (forall i :: 0 <= i < |rects| ==> row.images[i].width == rects[i].width && row.images[i].height == rects[i].height)
    && row.text.width == t.x && row.text.height == t.y
  }

  /**
   * Positions across: from the aligned start, the toggle, then the images
   * left to right, each one spacing after the previous, then the text, one
   * spacing after the last image only when there is text.
   */
  ghost predicate RowAcross(m: Metrics, style: bv32, bounds: Rect, toggleShown: bool, images: seq<Image>,
                            text: string, env: Toolkit, prevToggle: Rect, row: TitleRow)
  {
    var rects := ImageRects(images);
    var n := |rects|;
    var hasText := |text| > 0;
    var sp := m.horizontalSpacing;
    var toggleW := if toggleShown then row.toggle.width else 0;
    var x1 := RowStart(m, style, bounds, RowWidth(m, toggleW, rects, hasText, TextSize(text, env).x)) + toggleW;
    && |row.images| == n
    && row.toggle.x == (if toggleShown then x1 - toggleW - 1 else prevToggle.x)
    && (n > 0 ==> row.images[0].x == x1)
    && (forall i :: 0 < i < n ==> row.images[i].x == row.images[i - 1].x + row.images[i - 1].width + sp)
    && (n == 0 ==> row.text.x == x1)
    && (n > 0 ==> row.text.x == row.images[n - 1].x + row.images[n - 1].width + (if hasText then sp else 0))
    && row.text.x == x1 + RectWidths(rects) + Spacings(Gaps(n, hasText), sp)
  }

  /** Positions down: every rectangle by the vertical alignment. */
  ghost predicate RowDown(m: Metrics, bounds: Rect, images: seq<Image>, text: string, env: Toolkit,
                          mode: VAlign, prevToggle: Rect, prevText: Rect, row: TitleRow)
  {
    var rects := ImageRects(images);
    && |row.images| == |rects|
    && (forall i :: 0 <= i < |rects| ==> row.images[i].y == AlignedY(mode, m, bounds, rects[i]))
    && row.text.y == AlignedY(mode, m, bounds, prevText.(height := TextSize(text, env).y))
    && row.toggle.y == (if mode == VTop then bounds.y else AlignedY(mode, m, bounds, prevToggle.(height := row.toggle.height)))
  }

  /** The title row as layout() leaves it: sizes, positions across and positions down. */
  ghost predicate RowLaidOut(m: Metrics, style: bv32, bounds: Rect, toggleShown: bool, images: seq<Image>,
                             text: string, env: Toolkit, titleHeight: int, mode: VAlign,
                             prevToggle: Rect, prevText: Rect, row: TitleRow)
  {
    && RowSizes(m, bounds, images, text, env, titleHeight, row)
    && RowAcross(m, style, bounds, toggleShown, images, text, env, prevToggle, row)
    && RowDown(m, bounds, images, text, env, mode, prevToggle, prevText, row)
  }

  /** The bounds of every image of the title row (the iBounds loop of layout()). */
  method MeasureImageRects(images: seq<Image>) returns (rects: seq<Rect>)
    ensures rects == ImageRects(images)
  {
    rects := [];
    for i := 0 to |images|
      invariant |rects| == i
      invariant forall j :: 0 <= j < i ==> rects[j] == ImageRect(images[j])
    {
      rects := rects + [ImageRect(images[i])];
    }
  }

  /**
   * Sizes the toggle and finds where the row starts across for the alignment
   * style; a shown toggle goes first, one pixel left of the start, and the
   * images follow it.
   */
  method PlaceToggle(m: Metrics, style: bv32, bounds: Rect, toggleShown: bool, rects: seq<Rect>, hasText: bool,
                     textW: int, titleHeight: int, prevToggle: Rect) returns (toggle: Rect, x: int)
    ensures toggle.width == Min(bounds.width, m.toggleWidth) && toggle.height == Min(bounds.height, titleHeight)
    ensures toggle.y == prevToggle.y
    ensures var toggleW := if toggleShown then toggle.width else 0;
            x == RowStart(m, style, bounds, RowWidth(m, toggleW, rects, hasText, textW)) + toggleW
    ensures toggle.x == if toggleShown then x - toggle.width - 1 else prevToggle.x
  {
    toggle := prevToggle.(width := Min(bounds.width, m.toggleWidth), height := Min(bounds.height, titleHeight));
    var toggleW := if toggleShown then toggle.width else 0;
    var imagesW := MeasureImageRow(rects, m.horizontalSpacing, hasText);
    x := RowStart(m, style, bounds, m.indent + toggleW + imagesW + textW);
    if toggleShown {
      toggle := toggle.(x := x - 1);
      x := x + toggle.width;
    }
  }

  /**
   * Sizes and places the title row across (the first half of layout()); the
   * y of every rectangle is still the one it had.
   */
  method PlaceTitleRow(m: Metrics, style: bv32, bounds: Rect, toggleShown: bool, images: seq<Image>,
                       text: string, env: Toolkit, titleHeight: int,
                       prevToggle: Rect, prevText: Rect) returns (row: TitleRow)
    ensures RowSizes(m, bounds, images, text, env, titleHeight, row)
    ensures RowAcross(m, style, bounds, toggleShown, images, text, env, prevToggle, row)
    ensures row.toggle.y == prevToggle.y && row.text.y == prevText.y
    ensures forall i :: 0 <= i < |images| ==> row.images[i].y == ImageRects(images)[i].y
  {
    var rects := MeasureImageRects(images);
    var hasText := |text| > 0;
    var t := TextSize(text, env);
    var toggle, x := PlaceToggle(m, style, bounds, toggleShown, rects, hasText, t.x, titleHeight, prevToggle);
    var placed, textX := PlaceRow(rects, x, m.horizontalSpacing, hasText);
    row := TitleRow(toggle, placed, prevText.(x := textX, width := t.x, height := t.y));
  }

  /** Gives toggle, images and text the y of the vertical alignment (the second half of layout()). */
  method AlignTitleRow(row: TitleRow, mode: VAlign, m: Metrics, bounds: Rect) returns (aligned: TitleRow)
    ensures aligned.toggle == row.toggle.(y := if mode == VTop then bounds.y else AlignedY(mode, m, bounds, row.toggle))
    ensures aligned.text == row.text.(y := AlignedY(mode, m, bounds, row.text))
    ensures |aligned.images| == |row.images|
    ensures forall i :: 0 <= i < |row.images| ==>
              aligned.images[i] == row.images[i].(y := AlignedY(mode, m, bounds, row.images[i]))
  {
    var images := AlignRow(row.images, mode, m, bounds);
    var toggle := row.toggle.(y := if mode == VTop then bounds.y else AlignedY(mode, m, bounds, row.toggle));
    aligned := TitleRow(toggle, images, row.text.(y := AlignedY(mode, m, bounds, row.text)));
  }

  /**
   * The title-row part of layout(): measures the images and the text, aligns
   * the row across and down, and places toggle, images and text.
   */
  method LayoutTitleRow(m: Metrics, style: bv32, bounds: Rect, toggleShown: bool, images: seq<Image>,
                        text: string, env: Toolkit, titleHeight: int, mode: VAlign,
                        prevToggle: Rect, prevText: Rect) returns (row: TitleRow)
    ensures RowLaidOut(m, style, bounds, toggleShown, images, text, env, titleHeight, mode, prevToggle, prevText, row)
  {
    var across := PlaceTitleRow(m, style, bounds, toggleShown, images, text, env, titleHeight, prevToggle, prevText);
    row := AlignTitleRow(across, mode, m, bounds);
    AcrossIgnoresY(m, style, bounds, toggleShown, images, text, env, titleHeight, prevToggle, across, row);
    AlignedRowDown(m, bounds, images, text, env, titleHeight, mode, prevToggle, prevText, across, row);
  }

  /** Aligning a row placed across, whose y are still the previous ones, puts it down as layout() does. */
  lemma AlignedRowDown(m: Metrics, bounds: Rect, images: seq<Image>, text: string, env: Toolkit,
                       titleHeight: int, mode: VAlign, prevToggle: Rect, prevText: Rect, across: TitleRow, row: TitleRow)
    requires RowSizes(m, bounds, images, text, env, titleHeight, across)
    requires across.toggle.y == prevToggle.y && across.text.y == prevText.y
    requires forall i :: 0 <= i < |images| ==> across.images[i].y == ImageRects(images)[i].y
    requires row.toggle == across.toggle.(y := if mode == VTop then bounds.y else AlignedY(mode, m, bounds, across.toggle))
    requires row.text == across.text.(y := AlignedY(mode, m, bounds, across.text))
    requires |row.images| == |across.images|
    requires forall i :: 0 <= i < |across.images| ==>
               row.images[i] == across.images[i].(y := AlignedY(mode, m, bounds, across.images[i]))
    ensures RowDown(m, bounds, images, text, env, mode, prevToggle, prevText, row)
  {
    var rects := ImageRects(images);
    forall i | 0 <= i < |rects|
      ensures row.images[i].y == AlignedY(mode, m, bounds, rects[i])
    {
      assert across.images[i].y == rects[i].y && across.images[i].height == rects[i].height;
    }
  }

  /** Two rows whose rectangles differ at most in their y. */
  predicate SameAcross(a: TitleRow, b: TitleRow) {
    && a.toggle.(y := 0) == b.toggle.(y := 0)
    && a.text.(y := 0) == b.text.(y := 0)
    && |a.images| == |b.images|
    && forall i :: 0 <= i < |a.images| ==> a.images[i].(y := 0) == b.images[i].(y := 0)
  }

  /** Sizes and positions across do not depend on the y of any rectangle. */
  lemma AcrossIgnoresY(m: Metrics, style: bv32, bounds: Rect, toggleShown: bool, images: seq<Image>,
                       text: string, env: Toolkit, titleHeight: int, prevToggle: Rect, a: TitleRow, b: TitleRow)
    requires SameAcross(a, b)
    requires RowSizes(m, bounds, images, text, env, titleHeight, a)
    requires RowAcross(m, style, bounds, toggleShown, images, text, env, prevToggle, a)
    ensures RowSizes(m, bounds, images, text, env, titleHeight, b)
    ensures RowAcross(m, style, bounds, toggleShown, images, text, env, prevToggle, b)
  {
    assert forall i :: 0 <= i < |a.images| ==>
      a.images[i].x == b.images[i].x && a.images[i].width == b.images[i].width && a.images[i].height == b.images[i].height
    by {
      forall i | 0 <= i < |a.images|
        ensures a.images[i].x == b.images[i].x && a.images[i].width == b.images[i].width
        ensures a.images[i].height == b.images[i].height
      {
        assert a.images[i].(y := 0) == b.images[i].(y := 0);
      }
    }
    assert a.toggle.(y := 0).width == b.toggle.(y := 0).width;
  }

  /** With RIGHT alignment the text ends exactly at the right margins, less the indent the row width counts. */
  lemma RightAlignedTextEnd(m: Metrics, style: bv32, bounds: Rect, toggleShown: bool, images: seq<Image>,
                            text: string, env: Toolkit, titleHeight: int, mode: VAlign,
                            prevToggle: Rect, prevText: Rect, row: TitleRow)
    requires RowLaidOut(m, style, bounds, toggleShown, images, text, env, titleHeight, mode, prevToggle, prevText, row)
    requires !HasStyle(style, CENTER) && HasStyle(style, RIGHT)
    ensures row.text.x + row.text.width == bounds.x + bounds.width - m.marginWidth - m.marginRight - m.indent
  {
  }

  /** With LEFT alignment the row's first element starts after the indent and the left margins. */
  lemma LeftAlignedRowStart(m: Metrics, style: bv32, bounds: Rect, toggleShown: bool, images: seq<Image>,
                            text: string, env: Toolkit, titleHeight: int, mode: VAlign,
                            prevToggle: Rect, prevText: Rect, row: TitleRow)
    requires RowLaidOut(m, style, bounds, toggleShown, images, text, env, titleHeight, mode, prevToggle, prevText, row)
    requires !HasStyle(style, CENTER) && !HasStyle(style, RIGHT)
    ensures var start := bounds.x + m.indent + m.marginLeft + m.marginWidth;
            && (toggleShown ==> row.toggle.x + 1 == start)
            && (!toggleShown && |images| > 0 ==> row.images[0].x == start)
            && (!toggleShown && |images| == 0 ==> row.text.x == start)
  {
  }

  /** Toggle bounds never exceed the cell width or the title height. */
  lemma ToggleWithinCell(m: Metrics, style: bv32, bounds: Rect, toggleShown: bool, images: seq<Image>,
                         text: string, env: Toolkit, titleHeight: int, mode: VAlign,
                         prevToggle: Rect, prevText: Rect, row: TitleRow)
    requires RowLaidOut(m, style, bounds, toggleShown, images, text, env, titleHeight, mode, prevToggle, prevText, row)
    ensures row.toggle.width <= bounds.width && row.toggle.width <= m.toggleWidth
    ensures row.toggle.height <= bounds.height && row.toggle.height <= titleHeight
  {
  }

  /** Images laid out by PlaceRow are strictly left to right when every image is wider than nothing. */
  lemma {:induction false} PlacedImagesIncrease(placed: seq<Rect>, spacing: nat, i: int, j: int)
    requires forall k :: 0 < k < |placed| ==> placed[k].x == placed[k - 1].x + placed[k - 1].width + spacing
    requires forall k :: 0 <= k < |placed| ==> placed[k].width > 0
    requires 0 <= i < j < |placed|
    ensures placed[i].x < placed[j].x
    decreases j - i
  {
    if i + 1 < j {
      PlacedImagesIncrease(placed, spacing, i, j - 1);
    }
  }

  // ---------------------------------------------------------------------
  // Child area

  /**
   * The columns the child area spans, from the span setting (start, len):
   * a negative start means the cell's own column, a negative len means up to
   * the last column, and the end never passes the last column. A start at or
   * beyond the column count gives no span.
   */
  function ResolveChildSpan(start: int, len: int, ownIndex: int, columnCount: int): (r: Option<Span>)
    ensures r.None? <==> start >= columnCount
    ensures r.Some? ==> r.value.last <= columnCount - 1
    ensures r.Some? ==> r.value.first == (if start < 0 then ownIndex else start)
    ensures r.Some? && len < 0 ==> r.value.last == columnCount - 1
    ensures r.Some? && len >= 0 ==> r.value.last == Min(r.value.first + len - 1, columnCount - 1)
  {
    if start >= columnCount then None
    else
      var first := if start < 0 then ownIndex else start;
      var last := if len < 0 then columnCount - 1 else first + len - 1;
      Some(Span(first, if last >= columnCount then columnCount - 1 else last))
  }

  /** The default span (-1, 1) keeps the child area within the cell's own column. */
  lemma DefaultSpanIsOwnColumn(ownIndex: int, columnCount: int)
    requires 0 <= ownIndex < columnCount
    ensures ResolveChildSpan(-1, 1, ownIndex, columnCount) == Some(Span(ownIndex, ownIndex))
  {
  }

  /** The span (0, -1) covers every column. */
  lemma FullSpanCoversAllColumns(ownIndex: int, columnCount: int)
    requires columnCount > 0
    ensures ResolveChildSpan(0, -1, ownIndex, columnCount) == Some(Span(0, columnCount - 1))
  {
  }

  /** A span from an explicit column never covers more columns than asked for, and at least one. */
  lemma ExplicitSpanWithinRequest(start: int, len: int, ownIndex: int, columnCount: int)
    requires 0 <= start < columnCount && len >= 1
    ensures var s := ResolveChildSpan(start, len, ownIndex, columnCount).value;
            start == s.first <= s.last < columnCount && s.last - s.first + 1 <= len
  {
  }

  /**
   * The bounds layout() gives the child area: the zero rectangle when the
   * cell is closed or the span starts past the last column; otherwise from
   * the span's first column (or just right of the toggle, for the cell's own
   * column) to the right edge of its last column less the right indent, and
   * from below the title to the cell's bottom, one child spacing away from
   * each. Looking up a column before the first one fails.
   */
  function ChildArea(m: Metrics, open: bool, bounds: Rect, titleHeight: int, toggleW: int,
                     start: int, len: int, ownIndex: int, columns: seq<Column>): (r: ChildPlacement)
    ensures !open || start >= |columns| ==> r == ChildBounds(Rect(0, 0, 0, 0))
    ensures open && start < |columns| ==>
              var s := ResolveChildSpan(start, len, ownIndex, |columns|).value;
              && (r.ColumnFailure? <==> s.last < 0)
              && (r.ChildBounds? ==>
                    && r.rect.x + r.rect.width + m.rightChildIndent == columns[s.last].right
                    && (start >= 0 ==> r.rect.x == columns[start].left)
                    && (start < 0 ==> r.rect.x == bounds.x + m.marginWidth + toggleW)
                    && r.rect.y == bounds.y + titleHeight + m.childSpacing
                    && r.rect.y + r.rect.height + m.childSpacing == bounds.y + bounds.height)
  {
    if !open || start >= |columns| then
      ChildBounds(Rect(0, 0, 0, 0))
    else
      var s := ResolveChildSpan(start, len, ownIndex, |columns|).value;
      if s.last < 0 then
        ColumnFailure(s.last)
      else
        var cx := if start < 0 then bounds.x + m.marginWidth + toggleW else columns[s.first].left;
        var cw := columns[s.last].right - cx - m.rightChildIndent;
        ChildBounds(Rect(cx, bounds.y + titleHeight + m.childSpacing, cw,
                         bounds.height - (titleHeight + m.childSpacing + m.childSpacing)))
  }

  /**
   * The column lookup never fails when there is a column, the length is
   * positive or -1 (to the last column), and the start, or for -1 the
   * cell's own index, is a valid column index.
   */
  lemma {:induction false} ChildAreaPlacedForValidSpan(m: Metrics, open: bool, bounds: Rect, titleHeight: int, toggleW: int,
                                                           start: int, len: int, ownIndex: int, columns: seq<Column>)
    requires |columns| > 0 && (len >= 1 || len < 0)
    requires start >= 0 || ownIndex >= 0
    ensures ChildArea(m, open, bounds, titleHeight, toggleW, start, len, ownIndex, columns).ChildBounds?
  {
    if open && start < |columns| {
      var s := ResolveChildSpan(start, len, ownIndex, |columns|).value;
      assert s.last >= 0;
    }
  }

  // ---------------------------------------------------------------------
  // The cell

  class Cell {
    /** Margins and spacings, set by the container cell. */
    const m: Metrics
    var style: bv32
    var open: bool
    var toggleVisible: bool
    var ghostToggle: bool
    var bounds: Rect
    var toggleBounds: Rect
    var titleHeight: int
    var needsLayout: bool
    var update: bool

    var images: seq<Image>
    var text: Option<string>
    var iBounds: seq<Rect>
    var tBounds: Rect
    /** The child span setting: first column (-1: the cell's own) and number of columns (-1: to the last). */
    var spanStart: int
    var spanLen: int
    /** The bounds last given to the child control. */
    var childAreaBounds: Rect

    constructor (metrics: Metrics, style: bv32)
      ensures m == metrics && this.style == style
      ensures images == [] && text == None && iBounds == [] && tBounds == Rect(0, 0, 0, 0)
      ensures spanStart == -1 && spanLen == 1
      ensures !open && !toggleVisible && !ghostToggle && !needsLayout && !update
    {
      m := metrics;
      this.style := style;
      images := [];
      text := None;
      iBounds := [];
      tBounds := Rect(0, 0, 0, 0);
      spanStart, spanLen := -1, 1;
      open, toggleVisible, ghostToggle := false, false, false;
      bounds, toggleBounds, childAreaBounds := Rect(0, 0, 0, 0), Rect(0, 0, 0, 0), Rect(0, 0, 0, 0);
      titleHeight := 0;
      needsLayout, update := false, false;
    }

    predicate ToggleShown()
      reads this`toggleVisible, this`ghostToggle
    {
      toggleVisible || ghostToggle
    }

    /** The cell's text; a cell whose text was never set reads as the empty string. */
    function GetText(): string
      reads this`text
    {
      if text.None? then "" else text.value
    }

    /** The first image, if any. */
    function GetImage(): (r: Option<Image>)
      reads this`images
      ensures r.None? <==> images == []
      ensures r.Some? ==> r.value == images[0]
    {
      if |images| > 0 then Some(images[0]) else None
    }

    /**
     * The preferred size of the cell for the given hints. Measuring the
     * images themselves fails on a disposed image.
     */
    method ComputeSize(wHint: int, hHint: int, env: Toolkit) returns (r: SizeResult)
      ensures r == PreferredSize(m, ToggleShown(), open, images, GetText(), env, wHint, hHint)
      ensures r.Measured? && wHint != DEFAULT ==> r.size.x <= wHint
      ensures r.Measured? && hHint != DEFAULT ==> r.size.y <= hHint
    {
      var title := MeasureTitle(m, ToggleShown(), images, GetText(), env);
      if title.None? {
        return SizeFailed(GraphicDisposed);
      }
      var x, y := title.value.x, title.value.y;
      if open && env.childArea.Some? {
        var child := env.childArea.value;
        x := m.marginLeft + m.marginWidth + m.toggleWidth + Max(x, child.x) + m.marginWidth + m.marginRight;
        y := y + (m.childSpacing + child.y + m.childSpacing);
      }
      if wHint != DEFAULT {
        x := Min(x, wHint);
      }
      if hHint != DEFAULT {
        y := Min(y, hHint);
      }
      r := Measured(Point(x, y));
    }

    /** Computes, stores and returns the title height. */
    method ComputeTitleHeight(hHint: int, env: Toolkit) returns (h: int)
      modifies this`titleHeight
      ensures h == titleHeight == TitleHeight(m, iBounds, env, hHint)
    {
      titleHeight := m.marginTop + m.marginHeight + m.marginHeight + m.marginBottom;
      if env.titleArea.Some? {
        titleHeight := titleHeight + env.titleArea.value.y;
      } else {
        var height := 0;
        for i := 0 to |iBounds|
          invariant height == MaxRectHeight(iBounds[..i])
        {
          assert iBounds[..i + 1][..i] == iBounds[..i];
          height := Max(height, iBounds[i].height);
        }
        assert iBounds[..|iBounds|] == iBounds;
        height := Max(height, env.textExtent.y);
        titleHeight := titleHeight + height;
      }
      if hHint != DEFAULT {
        titleHeight := Min(titleHeight, hHint);
      }
      h := titleHeight;
    }

    /** The title-row half of layout(): the title height, then toggle, images and text. */
    method LayoutTitle(env: Toolkit)
      modifies this`titleHeight, this`toggleBounds, this`iBounds, this`tBounds
      ensures titleHeight == if env.fixedTitleHeight.Some? then env.fixedTitleHeight.value else old(titleHeight)
      ensures RowLaidOut(m, style, bounds, ToggleShown(), images, GetText(), env, titleHeight,
                         VerticalAlign(style, open, env.childArea.Some?), old(toggleBounds), old(tBounds),
                         TitleRow(toggleBounds, iBounds, tBounds))
    {
      if env.fixedTitleHeight.Some? {
        titleHeight := env.fixedTitleHeight.value;
      }
      var shown, text, mode := ToggleShown(), GetText(), VerticalAlign(style, open, env.childArea.Some?);
      var row := LayoutTitleRow(m, style, bounds, shown, images, text, env, titleHeight, mode, toggleBounds, tBounds);
      toggleBounds, iBounds, tBounds := row.toggle, row.images, row.text;
    }

    /**
     * The child-area half of layout(): the child area is given the bounds of
     * its column span, or nothing happens when there is no child area. A
     * failing column lookup leaves the cell still in need of layout.
     */
    method LayoutChild(env: Toolkit, columns: seq<Column>, ownIndex: int) returns (failure: Option<Failure>)
      modifies this`childAreaBounds, this`needsLayout
      ensures env.childArea.None? ==> childAreaBounds == old(childAreaBounds) && failure == None
      ensures env.childArea.Some? ==>
                match ChildArea(m, open, bounds, titleHeight, toggleBounds.width, spanStart, spanLen, ownIndex, columns)
                case ChildBounds(r) => childAreaBounds == r && failure == None
                case ColumnFailure(k) => childAreaBounds == old(childAreaBounds) && failure == Some(InvalidColumn(k))
      ensures needsLayout == (old(needsLayout) && failure.Some?)
    {
      if env.childArea.Some? {
        match ChildArea(m, open, bounds, titleHeight, toggleBounds.width, spanStart, spanLen, ownIndex, columns)
        case ChildBounds(r) =>
          childAreaBounds := r;
        case ColumnFailure(k) =>
          return Some(InvalidColumn(k));
      }
      needsLayout := false;
      failure := None;
    }

    /**
     * Lays out the title row and then the child area. A failing column
     * lookup leaves the title row laid out but the cell still in need of
     * layout.
     */
    method Layout(env: Toolkit, columns: seq<Column>, ownIndex: int) returns (failure: Option<Failure>)
      modifies this`titleHeight, this`toggleBounds, this`iBounds, this`tBounds, this`childAreaBounds, this`needsLayout
      ensures titleHeight == if env.fixedTitleHeight.Some? then env.fixedTitleHeight.value else old(titleHeight)
      ensures RowLaidOut(m, style, bounds, ToggleShown(), images, GetText(), env, titleHeight,
                         VerticalAlign(style, open, env.childArea.Some?), old(toggleBounds), old(tBounds),
                         TitleRow(toggleBounds, iBounds, tBounds))
      ensures env.childArea.None? ==> childAreaBounds == old(childAreaBounds) && failure == None
      ensures env.childArea.Some? ==>
                match ChildArea(m, open, bounds, titleHeight, toggleBounds.width, spanStart, spanLen, ownIndex, columns)
                case ChildBounds(r) => childAreaBounds == r && failure == None
                case ColumnFailure(k) => childAreaBounds == old(childAreaBounds) && failure == Some(InvalidColumn(k))
      ensures needsLayout == (old(needsLayout) && failure.Some?)
    {
      LayoutTitle(env);
      failure := LayoutChild(env, columns, ownIndex);
    }

    /**
     * The part of painting that is not drawing: nothing happens for an empty
     * cell, and a cell that needs layout is laid out first.
     */
    method Paint(env: Toolkit, columns: seq<Column>, ownIndex: int) returns (failure: Option<Failure>)
      modifies this`titleHeight, this`toggleBounds, this`iBounds, this`tBounds, this`childAreaBounds, this`needsLayout
      ensures old(bounds.width <= 0 || bounds.height <= 0 || !needsLayout) ==> unchanged(this) && failure == None
      ensures old(bounds.width > 0 && bounds.height > 0 && needsLayout) ==>
                && titleHeight == (if env.fixedTitleHeight.Some? then env.fixedTitleHeight.value else old(titleHeight))
                && RowLaidOut(m, style, bounds, ToggleShown(), images, GetText(), env, titleHeight,
                              VerticalAlign(style, open, env.childArea.Some?), old(toggleBounds), old(tBounds),
                              TitleRow(toggleBounds, iBounds, tBounds))
                && (env.childArea.None? ==> childAreaBounds == old(childAreaBounds) && failure == None)
                && (env.childArea.Some? ==>
                      match ChildArea(m, open, bounds, titleHeight, toggleBounds.width, spanStart, spanLen, ownIndex, columns)
                      case ChildBounds(r) => childAreaBounds == r && failure == None
                      case ColumnFailure(k) => childAreaBounds == old(childAreaBounds) && failure == Some(InvalidColumn(k)))
                && (needsLayout <==> failure.Some?)
    {
      failure := None;
      if bounds.width <= 0 || bounds.height <= 0 {
        return;
      }
      if needsLayout {
        failure := Layout(env, columns, ownIndex);
      }
    }

    /** Replaces the images by the given one, or by none. */
    method SetImage(image: Option<Image>)
      modifies this`images
      ensures images == if image.None? then [] else [image.value]
      ensures |images| <= 1 && GetImage() == image
    {
      if image.None? {
        images := [];
      } else {
        images := [image.value];
      }
    }

    /**
     * Replaces the images. No array empties them; an array holding a null or
     * a disposed image is refused. The cell is marked for update either way.
     */
    method SetImages(newImages: Option<seq<Option<Image>>>)
      modifies this`images, this`update
      ensures newImages.None? ==> images == []
      ensures newImages.Some? && Usable(newImages.value) ==> images == Present(newImages.value)
      ensures newImages.Some? && !Usable(newImages.value) ==> images == old(images)
      ensures update
    {
      if newImages.None? {
        images := [];
      } else {
        var a := newImages.value;
        var doit := true;
        for i := 0 to |a|
          invariant doit <==> forall j :: 0 <= j < i ==> a[j].Some? && !a[j].value.disposed
        {
          if a[i].None? || a[i].value.disposed {
            doit := false;
          }
        }
        if doit {
          images := Present(a);
        }
      }
      update := true;
    }

    /** Sets the child span setting. */
    method SetChildSpan(start: int, len: int)
      modifies this`spanStart, this`spanLen
      ensures spanStart == start && spanLen == len
    {
      spanStart := start;
      spanLen := len;
    }

    /** Sets the text; null or the current text changes nothing. */
    method SetText(s: Option<string>)
      modifies this`text, this`update
      ensures s.Some? ==> GetText() == s.value
      ensures s.None? || s.value == old(GetText()) ==> text == old(text) && update == old(update)
      ensures s.Some? && s.value != old(GetText()) ==> text == s && update
    {
      if s.Some? && s.value != GetText() {
        text := s;
        update := true;
      }
    }
  }

  /** Every entry is a present, undisposed image. */
  predicate Usable(a: seq<Option<Image>>) {
    forall j :: 0 <= j < |a| ==> a[j].Some? && !a[j].value.disposed
  }

  function Present(a: seq<Option<Image>>): (r: seq<Image>)
    requires Usable(a)
    ensures |r| == |a| && forall j :: 0 <= j < |a| ==> Some(r[j]) == a[j]
  {
    seq(|a|, j requires 0 <= j < |a| && Usable(a) => a[j].value)
  }
}

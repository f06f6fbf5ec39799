/** Actions of two recordings, the figures they become, and the tables that grow along the way. */
module PlotCanvas {
  import opened Wrappers
  import opened PlotGeometry
  import CirclePreview
  import PolylinePreview

  // ----- Recorded actions -----

  datatype Stroke = Stroke(width: real, cap: int, join: int, miterLimit: real, pattern: int)

  datatype Font = Font(name: string, size: real, style: int)

  datatype RasterImage = RasterImage(width: int, height: int, data: seq<bv8>)

  /** An ABGR value. */
  type Color = c: int | 0 <= c < 0x1_0000_0000 witness 0

  const BLACK: Color := 0xff000000
  const WHITE: Color := 0xffffffff
  const DEFAULT_FONT := Font("", 12.0 / 72.0, 0)

  predicate IsOpaque(c: Color) { c / 0x1000000 == 0xff }

  predicate IsTransparent(c: Color) { c / 0x1000000 == 0 }

  predicate CloseStrokes(a: Stroke, b: Stroke) {
    && a.cap == b.cap && a.join == b.join && a.pattern == b.pattern
    && IsClose(a.width, b.width) && IsClose(a.miterLimit, b.miterLimit)
  }

  predicate CloseFonts(a: Font, b: Font) { a.style == b.style && IsClose(a.size, b.size) && a.name == b.name }

  datatype Action =
    | CircleAction(center: Point, radius: real, stroke: Stroke, color: Color, fill: Color)
    | ClipAction(area: Rectangle)
    | LineAction(from: Point, to: Point, stroke: Stroke, color: Color)
    | NewPageAction(fill: Color)
    | PathAction(subPaths: seq<seq<Point>>, winding: bool, stroke: Stroke, color: Color, fill: Color)
    | PolygonAction(points: seq<Point>, stroke: Stroke, color: Color, fill: Color)
    | PolylineAction(points: seq<Point>, stroke: Stroke, color: Color)
    | RasterAction(image: RasterImage, rectangle: Rectangle, angle: real, interpolate: bool)
    | RectangleAction(rectangle: Rectangle, stroke: Stroke, color: Color, fill: Color)
    | TextAction(text: string, position: Point, angle: real, anchor: real, font: Font, color: Color)

  predicate SameKind(a: Action, b: Action) {
    match a
    case CircleAction(_, _, _, _, _) => b.CircleAction?
    case ClipAction(_) => b.ClipAction?
    case LineAction(_, _, _, _) => b.LineAction?
    case NewPageAction(_) => b.NewPageAction?
    case PathAction(_, _, _, _, _) => b.PathAction?
    case PolygonAction(_, _, _, _) => b.PolygonAction?
    case PolylineAction(_, _, _) => b.PolylineAction?
    case RasterAction(_, _, _, _) => b.RasterAction?
    case RectangleAction(_, _, _, _) => b.RectangleAction?
    case TextAction(_, _, _, _, _, _) => b.TextAction?
  }

  /** The parser reads two points of the second polyline when the first one has exactly two. */
  predicate Readable(a: Action, b: Action) {
    a.PolylineAction? && b.PolylineAction? && |a.points| == 2 ==> |b.points| >= 2
  }

  datatype PlotError = MismatchingActions | GrowingText

  datatype Result<T> = Ok(value: T) | Failed(error: PlotError)

  // ----- Figures -----

  datatype Polyline = Polyline(points: seq<AffinePoint>, mask: seq<bool>, count: nat)

  // an index is -1 where nothing is drawn
  datatype Figure =
    | CircleFigure(center: AffinePoint, radius: AffineCoordinate, stroke: int, color: int, fill: int, masked: bool)
    | LineFigure(from: AffinePoint, to: AffinePoint, stroke: int, color: int)
    | PathFigure(subPaths: seq<Polyline>, winding: bool, stroke: int, color: int, fill: int)
    | PolygonFigure(polyline: Polyline, stroke: int, color: int, fill: int)
    | PolylineFigure(polyline: Polyline, stroke: int, color: int)
    | RasterFigure(image: RasterImage, from: AffinePoint, to: AffinePoint, angle: real, interpolate: bool)
    | RectangleFigure(from: AffinePoint, to: AffinePoint, stroke: int, color: int, fill: int)
    | TextFigure(text: string, position: AffinePoint, angle: real, anchor: real, font: int, color: int)

  // ----- The tables -----

  /** The clipping areas seen so far at both sizes with their viewports, the colours, strokes and
      fonts in the order of their indices, and where drawing goes on. */
  datatype Canvas = Canvas(
    firstAreas: seq<Rectangle>, secondAreas: seq<Rectangle>, viewports: seq<Viewport>,
    palette: seq<Color>, strokes: seq<Stroke>, fonts: seq<Font>, clip: nat, viewport: nat)
  {
    predicate InRange() {
      && |firstAreas| == |secondAreas| == |viewports|
      && clip < |viewports| && viewport < |viewports|
    }

    function At(first: Point, second: Point): AffinePoint
      requires InRange()
    {
      ExtrapolatePoint(firstAreas[viewport], first, secondAreas[viewport], second)
    }

    function RadiusAt(first: real, second: real): AffineCoordinate
      requires InRange()
    {
      ExtrapolateCoordinate(firstAreas[viewport].Height(), first, secondAreas[viewport].Height(), second)
    }
  }

  /** The first entry close to x, or |xs|. */
  function IndexOf<T>(x: T, xs: seq<T>, close: (T, T) -> bool): (i: nat)
    ensures i <= |xs| && (i < |xs| ==> close(x, xs[i])) && (forall j :: 0 <= j < i ==> !close(x, xs[j]))
  {
    if xs == [] then 0
    else if close(x, xs[0]) then 0
    else 1 + IndexOf(x, xs[1..], close)
  }

  function Registered<T>(x: T, xs: seq<T>, close: (T, T) -> bool): seq<T> {
    if IndexOf(x, xs, close) == |xs| then xs + [x] else xs
  }

  predicate SameColor(a: Color, b: Color) { a == b }

  function StrokeIndex(c: Canvas, s: Stroke): int { IndexOf(s, c.strokes, CloseStrokes) }

  function WithStroke(c: Canvas, s: Stroke): Canvas { c.(strokes := Registered(s, c.strokes, CloseStrokes)) }

  function FontIndex(c: Canvas, f: Font): int { IndexOf(f, c.fonts, CloseFonts) }

  function WithFont(c: Canvas, f: Font): Canvas { c.(fonts := Registered(f, c.fonts, CloseFonts)) }

  function ColorIndex(c: Canvas, color: Color): int {
    if IsTransparent(color) then -1 else IndexOf(color, c.palette, SameColor)
  }

  function WithColor(c: Canvas, color: Color): Canvas {
    if IsTransparent(color) then c else c.(palette := Registered(color, c.palette, SameColor))
  }

  // ----- Lines are clipped -----

  /** Where the line meets x == x0; none when it is vertical or the points are close. */
  function MeetX(from: Point, to: Point, x0: real): Option<Point> {
    var line := PolylinePreview.Through(from, to);
    if ClosePoints(from, to) || IsClose(line.b, 0.0) then None
    else Some(Point(x0, -(line.c + line.a * x0) / line.b))
  }

  function MeetY(from: Point, to: Point, y0: real): Option<Point> {
    var line := PolylinePreview.Through(from, to);
    if ClosePoints(from, to) || IsClose(line.a, 0.0) then None
    else Some(Point(-(line.c + line.b * y0) / line.a, y0))
  }

  /** Those of the meetings that lie on the border of the area. */
  function OnBorder(meetings: seq<Option<Point>>, area: Rectangle): seq<Point> {
    if meetings == [] then [] else
    var last := meetings[|meetings| - 1];
    OnBorder(meetings[..|meetings| - 1], area) + if last.Some? && Touches(last.value, area) then [last.value] else []
  }

  /** Where the line meets the four lines through the sides of the area. */
  function Meetings(from: Point, to: Point, area: Rectangle): seq<Option<Point>> {
    [MeetX(from, to, area.from.x), MeetX(from, to, area.to.x), MeetY(from, to, area.from.y), MeetY(from, to, area.to.y)]
  }

  function Crossings(from: Point, to: Point, area: Rectangle): seq<Point> { OnBorder(Meetings(from, to, area), area) }

  /** The first of the nearest points. */
  function Nearest(p: Point, points: seq<Point>): (q: Point)
    requires points != []
    ensures q in points && forall r <- points :: SquaredDistance(p, q) <= SquaredDistance(p, r)
  {
    if |points| == 1 then points[0] else
    var front, last := points[..|points| - 1], points[|points| - 1];
    var q := Nearest(p, front);
    assert points == front + [last];
    if SquaredDistance(p, last) < SquaredDistance(p, q) then last else q
  }

  function ClipEnd(p: Point, crossings: seq<Point>, area: Rectangle): Point {
    if Contains(area, p) || crossings == [] then p else Nearest(p, crossings)
  }

  function ClipLine(from: Point, to: Point, area: Rectangle): (Point, Point) {
    var crossings := Crossings(from, to, area);
    (ClipEnd(from, crossings, area), ClipEnd(to, crossings, area))
  }

  predicate OnLine(from: Point, to: Point, p: Point) { PolylinePreview.Through(from, to).Value(p) == 0.0 }

  lemma MeetingIsOnLine(from: Point, to: Point, v: real)
    ensures MeetX(from, to, v).Some? ==> OnLine(from, to, MeetX(from, to, v).value)
    ensures MeetY(from, to, v).Some? ==> OnLine(from, to, MeetY(from, to, v).value)
  {
    var line := PolylinePreview.Through(from, to);
    if line.b != 0.0 { assert line.b * (-(line.c + line.a * v) / line.b) == -(line.c + line.a * v); }
    if line.a != 0.0 { assert line.a * (-(line.c + line.b * v) / line.a) == -(line.c + line.b * v); }
  }

  /** An end inside the area stays; an end outside stays or moves along the line to the nearest point
      where it meets the border. */
  lemma ClippingMovesAlongLine(from: Point, to: Point, area: Rectangle)
    ensures
      var ends, crossings := ClipLine(from, to, area), Crossings(from, to, area);
      && (forall p <- crossings :: Touches(p, area) && OnLine(from, to, p))
      && (Contains(area, from) || crossings == [] ==> ends.0 == from)
      && (!Contains(area, from) && crossings != [] ==>
            ends.0 in crossings && forall p <- crossings :: SquaredDistance(from, ends.0) <= SquaredDistance(from, p))
      && (Contains(area, to) || crossings == [] ==> ends.1 == to)
      && (!Contains(area, to) && crossings != [] ==>
            ends.1 in crossings && forall p <- crossings :: SquaredDistance(to, ends.1) <= SquaredDistance(to, p))
  {
    MeetingIsOnLine(from, to, area.from.x);
    MeetingIsOnLine(from, to, area.to.x);
    MeetingIsOnLine(from, to, area.from.y);
    MeetingIsOnLine(from, to, area.to.y);
    hide MeetX, MeetY, Touches, OnLine, SquaredDistance, OnBorder;
    OnBorderIsMet(Meetings(from, to, area), area);
    assert forall m <- Meetings(from, to, area) :: m.Some? ==> OnLine(from, to, m.value);
  }

  lemma {:induction false} OnBorderIsMet(meetings: seq<Option<Point>>, area: Rectangle)
    ensures forall p <- OnBorder(meetings, area) :: Touches(p, area) && Some(p) in meetings
  {
    hide Touches;
    if meetings != [] {
      OnBorderIsMet(meetings[..|meetings| - 1], area);
      assert meetings == meetings[..|meetings| - 1] + [meetings[|meetings| - 1]];
    }
  }

  // ----- Figures of single actions -----

  /** A polyline drawn in a viewport with these two areas. */
  function PolylineIn(firstArea: Rectangle, first: seq<Point>, secondArea: Rectangle,
                      second: seq<Point>): Result<Polyline> {
    if |first| != |second| then Failed(MismatchingActions)
    else Ok(Polyline(seq(|first|, i requires 0 <= i < |first| =>
                         ExtrapolatePoint(firstArea, first[i], secondArea, second[i])),
                     PolylinePreview.PreviewMask(first), PolylinePreview.PreviewCount(first)))
  }

  /** The first n sub-paths. */
  function PathIn(firstArea: Rectangle, first: seq<seq<Point>>, secondArea: Rectangle, second: seq<seq<Point>>,
                  n: nat): Result<seq<Polyline>>
    requires n <= |first| == |second|
  {
    if n == 0 then Ok([]) else
    match PathIn(firstArea, first, secondArea, second, n - 1)
    case Failed(e) => Failed(e)
    case Ok(before) =>
      match PolylineIn(firstArea, first[n - 1], secondArea, second[n - 1])
      case Failed(e) => Failed(e)
      case Ok(polyline) => Ok(before + [polyline])
  }

  /** Stroke, colour and fill are registered in this order. */
  function Inked(c: Canvas, stroke: Stroke, color: Color, fill: Color): Canvas {
    WithColor(WithColor(WithStroke(c, stroke), color), fill)
  }

  function FillIndex(c: Canvas, color: Color, fill: Color): int { ColorIndex(WithColor(c, color), fill) }

  /** The tables after an action other than a clip. */
  function Grown(c: Canvas, a: Action): Canvas {
    match a
    case CircleAction(_, _, stroke, color, fill) => Inked(c, stroke, color, fill)
    case ClipAction(_) => c
    case LineAction(_, _, stroke, color) => WithColor(WithStroke(c, stroke), color)
    case NewPageAction(fill) => WithColor(c, fill)
    case PathAction(_, _, stroke, color, fill) => Inked(c, stroke, color, fill)
    case PolygonAction(_, stroke, color, fill) => Inked(c, stroke, color, fill)
    case PolylineAction(_, stroke, color) => WithColor(WithStroke(c, stroke), color)
    case RasterAction(_, _, _, _) => c
    case RectangleAction(_, stroke, color, fill) => Inked(c, stroke, color, fill)
    case TextAction(_, _, _, _, font, color) => WithColor(WithFont(c, font), color)
  }

  /** The figure an action other than a clip becomes; `masked` is for circles. */
  function Image(c: Canvas, a: Action, b: Action, masked: bool): Result<Figure>
    requires c.InRange() && SameKind(a, b) && Readable(a, b) && !a.ClipAction?
  {
    var firstArea, secondArea := c.firstAreas[c.viewport], c.secondAreas[c.viewport];
    match a
    case CircleAction(center, radius, stroke, color, fill) =>
      Ok(CircleFigure(c.At(center, b.center), c.RadiusAt(radius, b.radius),
                      StrokeIndex(c, stroke), ColorIndex(c, color), FillIndex(c, color, fill), masked))
    case LineAction(from, to, stroke, color) =>
      var first := ClipLine(from, to, firstArea);
      var second := ClipLine(b.from, b.to, secondArea);
      Ok(LineFigure(c.At(first.0, second.0), c.At(first.1, second.1), StrokeIndex(c, stroke), ColorIndex(c, color)))
    case NewPageAction(fill) =>
      Ok(RectangleFigure(TOP_LEFT, BOTTOM_RIGHT, -1, -1, ColorIndex(c, fill)))
    case PathAction(subPaths, winding, stroke, color, fill) =>
      if |subPaths| != |b.subPaths| then Failed(MismatchingActions) else
      (match PathIn(firstArea, subPaths, secondArea, b.subPaths, |subPaths|)
       case Failed(e) => Failed(e)
       case Ok(polylines) =>
         Ok(PathFigure(polylines, winding, StrokeIndex(c, stroke), ColorIndex(c, color), FillIndex(c, color, fill))))
    case PolygonAction(points, stroke, color, fill) =>
      (match PolylineIn(firstArea, points, secondArea, b.points)
       case Failed(e) => Failed(e)
       case Ok(polyline) =>
         Ok(PolygonFigure(polyline, StrokeIndex(c, stroke), ColorIndex(c, color), FillIndex(c, color, fill))))
    case PolylineAction(points, stroke, color) =>
      if |points| == 2 then
        Ok(LineFigure(c.At(points[0], b.points[0]), c.At(points[1], b.points[1]),
                      StrokeIndex(c, stroke), ColorIndex(c, color)))
      else
        (match PolylineIn(firstArea, points, secondArea, b.points)
         case Failed(e) => Failed(e)
         case Ok(polyline) => Ok(PolylineFigure(polyline, StrokeIndex(c, stroke), ColorIndex(c, color))))
    case RasterAction(image, rectangle, angle, interpolate) =>
      Ok(RasterFigure(image, c.At(rectangle.from, b.rectangle.from), c.At(rectangle.to, b.rectangle.to), angle,
                      interpolate))
    case RectangleAction(rectangle, stroke, color, fill) =>
      Ok(RectangleFigure(c.At(rectangle.from, b.rectangle.from), c.At(rectangle.to, b.rectangle.to),
                         StrokeIndex(c, stroke), ColorIndex(c, color), FillIndex(c, color, fill)))
    case TextAction(text, position, angle, anchor, font, color) =>
      if !IsClose(font.size, b.font.size) then Failed(GrowingText)
      else Ok(TextFigure(text, c.At(position, b.position), angle, anchor, FontIndex(c, font), ColorIndex(c, color)))
  }

  /** An opaque rectangle over the whole plot hides everything painted before it. */
  predicate CoversPage(c: Canvas, a: Action)
    requires c.InRange()
  {
    a.RectangleAction? && c.clip == 0 && IsOpaque(a.fill) && CloseRectangles(a.rectangle, c.firstAreas[0])
  }

  // ----- Clips and viewports -----

  function AreaSize(r: Rectangle): real { r.Width() * r.Height() }

  /** Among areas 1 to n - 1, the first of the smallest ones that hold the rectangle; 0 if none does. */
  function ParentOf(areas: seq<Rectangle>, rectangle: Rectangle, n: nat): (p: nat)
    requires n <= |areas|
    ensures p == 0 || p < n
  {
    if n <= 1 then 0 else
    var p := ParentOf(areas, rectangle, n - 1);
    if IsNested(rectangle, areas[n - 1]) && (p == 0 || AreaSize(areas[n - 1]) < AreaSize(areas[p])) then n - 1 else p
  }

  predicate HasChildren(areas: seq<Rectangle>, n: nat, viewport: nat)
    requires viewport < n <= |areas|
  {
    exists i :: 1 <= i < n && i != viewport && IsNested(areas[i], areas[viewport])
  }

  function NewViewport(c: Canvas, first: Rectangle, second: Rectangle): Viewport
    requires c.InRange()
  {
    var parent := ParentOf(c.firstAreas, first, |c.viewports|);
    var inside := c.(viewport := parent);
    if IsFixedRatio(first, c.firstAreas[parent]) && !HasChildren(c.firstAreas, |c.viewports|, parent)
    then ExtrapolateFixed(first, second, parent)
    else FreeViewport(inside.At(first.from, second.from), inside.At(first.to, second.to), parent)
  }

  /** The tables after an area has been looked up, and registered with a viewport if it is new. */
  function WithArea(c: Canvas, first: Rectangle, second: Rectangle): Canvas
    requires c.InRange()
  {
    if IndexOf(first, c.firstAreas, CloseRectangles) < |c.firstAreas| then c
    else c.(firstAreas := c.firstAreas + [first], secondAreas := c.secondAreas + [second],
            viewports := c.viewports + [NewViewport(c, first, second)],
            viewport := ParentOf(c.firstAreas, first, |c.viewports|))
  }

  /** The whole page is drawn in the surrounding viewport when that one has a fixed ratio. */
  function Suggested(c: Canvas, requested: nat): nat
    requires c.viewport < |c.viewports|
  {
    if requested != 0 then requested else
    var parent := c.viewports[c.viewport].parent;
    if 0 <= parent < |c.viewports| && c.viewports[parent].FixedViewport? then parent else 0
  }

  function ClipTo(c: Canvas, first: Rectangle, second: Rectangle): Canvas
    requires c.InRange()
  {
    var index := IndexOf(first, c.firstAreas, CloseRectangles);
    var grown := WithArea(c, first, second);
    grown.(clip := index, viewport := Suggested(grown, index))
  }

  // ----- The plot without look-ahead, layers and states -----

  datatype Placed = Placed(figure: Figure, viewport: nat, clip: nat)

  datatype Page = Page(canvas: Canvas, figures: seq<Placed>)

  function EmptyCanvas(firstSize: Size, secondSize: Size): Canvas {
    Canvas([PageOf(firstSize)], [PageOf(secondSize)], [FULL_SCREEN], [BLACK, WHITE], [], [DEFAULT_FONT], 0, 0)
  }

  /** One action: a clip moves on to another area; anything else adds its figure, after removing
      all others when it covers the page. */
  function Step(p: Page, a: Action, b: Action, masked: bool): Result<Page>
    requires p.canvas.InRange() && Readable(a, b)
  {
    if !SameKind(a, b) then Failed(MismatchingActions)
    else if a.ClipAction? then Ok(p.(canvas := ClipTo(p.canvas, a.area, b.area)))
    else
      match Image(p.canvas, a, b, masked)
      case Failed(e) => Failed(e)
      case Ok(figure) =>
        var below := if CoversPage(p.canvas, a) then [] else p.figures;
        Ok(Page(Grown(p.canvas, a), below + [Placed(figure, p.canvas.viewport, p.canvas.clip)]))
  }

  predicate AllReadable(first: seq<Action>, second: seq<Action>) {
    |first| == |second| ==> forall i :: 0 <= i < |first| ==> Readable(first[i], second[i])
  }

  lemma GrownStaysInRange(c: Canvas, a: Action)
    requires c.InRange()
    ensures Grown(c, a).InRange() && Grown(c, a).clip == c.clip && Grown(c, a).viewport == c.viewport
  {
    hide Registered, IsTransparent;
  }

  lemma ClipStaysInRange(c: Canvas, first: Rectangle, second: Rectangle)
    requires c.InRange()
    ensures ClipTo(c, first, second).InRange()
  {
    hide CloseRectangles, NewViewport;
  }

  lemma StepStaysInRange(p: Page, a: Action, b: Action, masked: bool)
    requires p.canvas.InRange() && Readable(a, b)
    ensures Step(p, a, b, masked).Ok? ==> Step(p, a, b, masked).value.canvas.InRange()
  {
    GrownStaysInRange(p.canvas, a);
    if SameKind(a, b) && a.ClipAction? { ClipStaysInRange(p.canvas, a.area, b.area); }
    hide Image, Grown, ClipTo;
  }

  /** Where the run of circles around the i-th action starts. */
  function RunStart(actions: seq<Action>, i: nat): (start: nat)
    requires i < |actions|
    ensures start <= i
  {
    if i > 0 && actions[i - 1].CircleAction? then RunStart(actions, i - 1) else i
  }

  /** Where it ends. */
  function RunEnd(actions: seq<Action>, i: nat): (end: nat)
    requires i < |actions|
    ensures i < end <= |actions|
    decreases |actions| - i
  {
    if i + 1 < |actions| && actions[i + 1].CircleAction? then RunEnd(actions, i + 1) else i + 1
  }

  function Centers(actions: seq<Action>): (centers: seq<Point>)
    ensures |centers| == |actions|
  {
    seq(|actions|, i requires 0 <= i < |actions| =>
          if actions[i].CircleAction? then actions[i].center else Point(0.0, 0.0))
  }

  /** A circle is masked when a preview of its whole run hides it. */
  predicate IsMasked(c: Canvas, actions: seq<Action>, i: nat)
    requires c.InRange() && i < |actions|
  {
    && actions[i].CircleAction?
    && CirclePreview.Hidden(Centers(actions[RunStart(actions, i)..RunEnd(actions, i)]), c.firstAreas[c.clip],
                            i - RunStart(actions, i))
  }

  /** The page after the first n actions. */
  function Draw(sizes: (Size, Size), first: seq<Action>, second: seq<Action>, n: nat): (r: Result<Page>)
    requires n <= |first| == |second| && AllReadable(first, second)
    ensures r.Ok? ==> r.value.canvas.InRange()
  {
    if n == 0 then Ok(Page(EmptyCanvas(sizes.0, sizes.1), [])) else
    match Draw(sizes, first, second, n - 1)
    case Failed(e) => Failed(e)
    case Ok(page) =>
      var masked := IsMasked(page.canvas, first, n - 1);
      StepStaysInRange(page, first[n - 1], second[n - 1], masked);
      Step(page, first[n - 1], second[n - 1], masked)
  }

  /** What parsing two recordings means. */
  function Plotted(sizes: (Size, Size), first: seq<Action>, second: seq<Action>): Result<Page>
    requires AllReadable(first, second)
  {
    if |first| != |second| then Failed(MismatchingActions) else Draw(sizes, first, second, |first|)
  }

  lemma DrawNext(sizes: (Size, Size), first: seq<Action>, second: seq<Action>, n: nat, page: Page)
    requires n < |first| == |second| && AllReadable(first, second) && Draw(sizes, first, second, n) == Ok(page)
    ensures Draw(sizes, first, second, n + 1) == Step(page, first[n], second[n], IsMasked(page.canvas, first, n))
  {
    hide Step, IsMasked;
  }

  lemma {:induction false} FailureStays(sizes: (Size, Size), first: seq<Action>, second: seq<Action>, n: nat, m: nat)
    requires n <= m <= |first| == |second| && AllReadable(first, second) && Draw(sizes, first, second, n).Failed?
    ensures Draw(sizes, first, second, m) == Draw(sizes, first, second, n)
    decreases m
  {
    hide Step, IsMasked;
    if n < m { FailureStays(sizes, first, second, n, m - 1); }
  }

  ghost predicate CirclesBetween(actions: seq<Action>, start: nat, end: nat) {
    start <= end <= |actions| && (forall i :: start <= i < end ==> actions[i].CircleAction?)
  }

  lemma {:induction false} RunIsWhole(actions: seq<Action>, start: nat, end: nat, i: nat)
    requires CirclesBetween(actions, start, end) && start <= i < end
    requires start > 0 ==> !actions[start - 1].CircleAction?
    requires end < |actions| ==> !actions[end].CircleAction?
    ensures RunStart(actions, i) == start && RunEnd(actions, i) == end
  {
    RunStartsAt(actions, start, i);
    RunEndsAt(actions, end, i);
  }

  lemma {:induction false} RunStartsAt(actions: seq<Action>, start: nat, i: nat)
    requires start <= i < |actions| && CirclesBetween(actions, start, i + 1)
    requires start > 0 ==> !actions[start - 1].CircleAction?
    ensures RunStart(actions, i) == start
  {
    if i > start { RunStartsAt(actions, start, i - 1); }
  }

  lemma {:induction false} RunEndsAt(actions: seq<Action>, end: nat, i: nat)
    requires i < end && CirclesBetween(actions, i, end)
    requires end < |actions| ==> !actions[end].CircleAction?
    ensures RunEnd(actions, i) == end
    decreases end - i
  {
    if i + 1 < end { RunEndsAt(actions, end, i + 1); }
  }

  lemma StepOfCircle(p: Page, a: Action, b: Action, masked: bool)
    requires p.canvas.InRange() && a.CircleAction? && b.CircleAction?
    ensures Image(p.canvas, a, b, masked).Ok?
    ensures
      Step(p, a, b, masked) ==
      Ok(Page(Grown(p.canvas, a),
              p.figures + [Placed(Image(p.canvas, a, b, masked).value, p.canvas.viewport, p.canvas.clip)]))
  {
    hide Grown, StrokeIndex, ColorIndex, FillIndex, ExtrapolatePoint, ExtrapolateCoordinate;
  }

  lemma CircleIsDrawn(sizes: (Size, Size), first: seq<Action>, second: seq<Action>, n: nat)
    requires n < |first| == |second| && AllReadable(first, second) && first[n].CircleAction? && second[n].CircleAction?
    requires Draw(sizes, first, second, n).Ok?
    ensures Draw(sizes, first, second, n + 1).Ok?
  {
    var page := Draw(sizes, first, second, n).value;
    DrawNext(sizes, first, second, n, page);
    StepOfCircle(page, first[n], second[n], IsMasked(page.canvas, first, n));
    hide *;
  }

  lemma CirclesFront(actions: seq<Action>, start: nat, end: nat)
    requires start < end && CirclesBetween(actions, start, end)
    ensures CirclesBetween(actions, start, end - 1) && actions[end - 1].CircleAction?
  {
  }

  /** Drawing a run of circles never fails. */
  lemma {:induction false} CirclesAreDrawn(sizes: (Size, Size), first: seq<Action>, second: seq<Action>, start: nat,
                                           end: nat)
    requires end <= |first| == |second| && AllReadable(first, second) && start <= end
    requires CirclesBetween(first, start, end) && CirclesBetween(second, start, end)
    requires Draw(sizes, first, second, start).Ok?
    ensures Draw(sizes, first, second, end).Ok?
    decreases end
  {
    hide *;
    if start < end {
      CirclesFront(first, start, end);
      CirclesFront(second, start, end);
      CirclesAreDrawn(sizes, first, second, start, end - 1);
      CircleIsDrawn(sizes, first, second, end - 1);
    }
  }

  // ----- Parents -----

  lemma {:induction false} ParentIgnoresLater(areas: seq<Rectangle>, more: Rectangle, rectangle: Rectangle, n: nat)
    requires n <= |areas|
    ensures ParentOf(areas + [more], rectangle, n) == ParentOf(areas, rectangle, n)
  {
    hide IsNested, AreaSize;
    if n > 1 { ParentIgnoresLater(areas, more, rectangle, n - 1); }
  }

  /** The parent is a smallest registered area that holds the rectangle. */
  lemma {:induction false} ParentIsSmallest(areas: seq<Rectangle>, rectangle: Rectangle, n: nat)
    requires n <= |areas|
    ensures
      var p := ParentOf(areas, rectangle, n);
      && (p > 0 ==> IsNested(rectangle, areas[p]))
      && (forall i :: 1 <= i < n && IsNested(rectangle, areas[i]) ==> p > 0 && AreaSize(areas[p]) <= AreaSize(areas[i]))
  {
    hide IsNested, AreaSize;
    if n > 1 { ParentIsSmallest(areas, rectangle, n - 1); }
  }
}

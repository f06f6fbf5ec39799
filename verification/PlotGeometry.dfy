/** Points, rectangles and the affine coordinates that say where a point goes when a plot is resized. */
module PlotGeometry {
  import opened Wrappers
  const EPSILON := 0.001

  datatype Point = Point(x: real, y: real)

  datatype Size = Size(width: real, height: real)

  datatype Rectangle = Rectangle(from: Point, to: Point)
  {
    function Width(): real { to.x - from.x }

    function Height(): real { to.y - from.y }
  }

  function Min(a: real, b: real): real { if b < a then b else a }

  function Max(a: real, b: real): real { if a < b then b else a }

  function MakeRectangle(a: Point, b: Point): Rectangle {
    Rectangle(Point(Min(a.x, b.x), Min(a.y, b.y)), Point(Max(a.x, b.x), Max(a.y, b.y)))
  }

  /** The area of a whole plot. */
  function PageOf(size: Size): Rectangle {
    MakeRectangle(Point(0.0, 0.0), Point(size.width, size.height))
  }

  predicate IsClose(x: real, y: real) { -EPSILON < x - y < EPSILON }

  predicate ClosePoints(a: Point, b: Point) { IsClose(a.x, b.x) && IsClose(a.y, b.y) }

  predicate CloseRectangles(a: Rectangle, b: Rectangle) { ClosePoints(a.from, b.from) && ClosePoints(a.to, b.to) }

  function SquaredDistance(a: Point, b: Point): real {
    (a.x - b.x) * (a.x - b.x) + (a.y - b.y) * (a.y - b.y)
  }

  predicate IsNested(internal: Rectangle, external: Rectangle) {
    && internal.from.x >= external.from.x - EPSILON && internal.to.x <= external.to.x + EPSILON
    && internal.from.y >= external.from.y - EPSILON && internal.to.y < external.to.y + EPSILON
  }

  predicate IsFixedRatio(internal: Rectangle, external: Rectangle) {
    if IsClose(internal.from.x, external.from.x) && IsClose(internal.to.x, external.to.x) then
      var topGap, bottomGap := internal.from.y - external.from.y, external.to.y - internal.to.y;
      IsClose(topGap, bottomGap) && topGap > 0.0
    else if IsClose(internal.from.y, external.from.y) && IsClose(internal.to.y, external.to.y) then
      var leftGap, rightGap := internal.from.x - external.from.x, external.to.x - internal.to.x;
      IsClose(leftGap, rightGap) && leftGap > 0.0
    else false
  }

  predicate Touches(point: Point, area: Rectangle) {
    if IsClose(point.x, area.from.x) || IsClose(point.x, area.to.x) then area.from.y < point.y < area.to.y
    else if IsClose(point.y, area.from.y) || IsClose(point.y, area.to.y) then area.from.x < point.x < area.to.x
    else false
  }

  predicate Contains(area: Rectangle, point: Point) {
    && point.x >= area.from.x - EPSILON && point.x <= area.to.x + EPSILON
    && point.y >= area.from.y - EPSILON && point.y < area.to.y + EPSILON
  }

  // ----- Affine coordinates -----

  /** The coordinate scale * side + offset, where side is the width or height of the surrounding area. */
  datatype AffineCoordinate = AffineCoordinate(scale: real, offset: real)
  {
    function At(side: real): real { scale * side + offset }
  }

  datatype AffinePoint = AffinePoint(x: AffineCoordinate, y: AffineCoordinate)
  {
    /** Where the point stands when its area is `area`. */
    function In(area: Rectangle): Point {
      Point(area.from.x + x.At(area.Width()), area.from.y + y.At(area.Height()))
    }
  }

  const TOP_LEFT := AffinePoint(AffineCoordinate(0.0, 0.0), AffineCoordinate(0.0, 0.0))
  const BOTTOM_RIGHT := AffinePoint(AffineCoordinate(1.0, 0.0), AffineCoordinate(1.0, 0.0))

  function ExtrapolateCoordinate(firstSide: real, first: real, secondSide: real, second: real): AffineCoordinate {
    if !IsClose(firstSide, secondSide) then
      var scale := (first - second) / (firstSide - secondSide);
      AffineCoordinate(scale, first - scale * firstSide)
    else AffineCoordinate(0.0, first)
  }

  function ExtrapolatePoint(firstArea: Rectangle, first: Point, secondArea: Rectangle, second: Point): AffinePoint {
    AffinePoint(
      ExtrapolateCoordinate(firstArea.Width(), first.x - firstArea.from.x,
                            secondArea.Width(), second.x - secondArea.from.x),
      ExtrapolateCoordinate(firstArea.Height(), first.y - firstArea.from.y,
                            secondArea.Height(), second.y - secondArea.from.y))
  }

  datatype Viewport =
    // the ratio has no finite value when both recordings have the same width
    | FixedViewport(ratio: Option<real>, delta: Option<real>, parent: int)
    | FreeViewport(from: AffinePoint, to: AffinePoint, parent: int)

  function ExtrapolateFixed(first: Rectangle, second: Rectangle, parent: int): Viewport {
    if first.Width() == second.Width() then FixedViewport(None, None, parent) else
    var ratio := (first.Height() - second.Height()) / (first.Width() - second.Width());
    FixedViewport(Some(ratio), Some(first.Height() - ratio * first.Width()), parent)
  }

  const FULL_SCREEN := FreeViewport(TOP_LEFT, BOTTOM_RIGHT, -1)
}

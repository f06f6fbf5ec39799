/** Where lines, new pages and previews stand in a plot. */
module PlotLines {
  import opened Wrappers
  import opened PlotGeometry
  import opened PlotLayout
  import opened PlotCanvas
  import PolylinePreview
  import PlotParser
  import opened PlotLaws

  // ----- Clipped ends -----

  /** The line meets a side of the area in q. Lines that are nearly parallel to a side, and lines
      between close points, count as not meeting it. */
  predicate MeetsSide(from: Point, to: Point, area: Rectangle, q: Point) {
    && !ClosePoints(from, to) && OnLine(from, to, q) && Touches(q, area)
    && (|| ((q.x == area.from.x || q.x == area.to.x) && !IsClose(from.x, to.x))
        || ((q.y == area.from.y || q.y == area.to.y) && !IsClose(to.y, from.y)))
  }

  /** The end p of a line is drawn at q: unmoved when it lies in the area or the line meets no side, and
      otherwise where the line meets a side, as near to p as possible. */
  ghost predicate DrawnAt(p: Point, from: Point, to: Point, area: Rectangle, q: Point) {
    if Contains(area, p) || forall r :: !MeetsSide(from, to, area, r) then q == p
    else MeetsSide(from, to, area, q)
         && forall r :: MeetsSide(from, to, area, r) ==> SquaredDistance(p, q) <= SquaredDistance(p, r)
  }

  lemma ThroughIs(from: Point, to: Point)
    ensures PolylinePreview.Through(from, to).a == to.y - from.y
    ensures PolylinePreview.Through(from, to).b == from.x - to.x
  {
  }

  /** The quotient d solves the equation of the line. */
  lemma SolvedFor(a: real, b: real, c: real, x: real, y: real, d: real)
    requires b != 0.0 && d == -(c + a * x) / b
    ensures a * x + b * y + c == 0.0 <==> y == d
  {
    QuotientIs(-(c + a * x), b, y);
  }

  lemma MeetXIsExact(from: Point, to: Point, x0: real, q: Point)
    ensures MeetX(from, to, x0) == Some(q) <==>
      !ClosePoints(from, to) && !IsClose(from.x, to.x) && q.x == x0 && OnLine(from, to, q)
  {
    var line := PolylinePreview.Through(from, to);
    ThroughIs(from, to);
    hide PolylinePreview.Through;
    assert IsClose(line.b, 0.0) <==> IsClose(from.x, to.x);
    if !IsClose(line.b, 0.0) && !ClosePoints(from, to) {
      var y := MeetX(from, to, x0).value.y;
      SolvedFor(line.a, line.b, line.c, x0, q.y, y);
      assert MeetX(from, to, x0) == Some(q) <==> q.x == x0 && q.y == y;
      hide MeetX;
      if q.x == x0 { assert OnLine(from, to, q) <==> line.a * x0 + line.b * q.y + line.c == 0.0; }
    }
  }

  lemma MeetYIsExact(from: Point, to: Point, y0: real, q: Point)
    ensures MeetY(from, to, y0) == Some(q) <==>
      !ClosePoints(from, to) && !IsClose(to.y, from.y) && q.y == y0 && OnLine(from, to, q)
  {
    var line := PolylinePreview.Through(from, to);
    ThroughIs(from, to);
    hide PolylinePreview.Through;
    assert IsClose(line.a, 0.0) <==> IsClose(to.y, from.y);
    if !IsClose(line.a, 0.0) && !ClosePoints(from, to) {
      var x := MeetY(from, to, y0).value.x;
      SolvedFor(line.b, line.a, line.c, y0, q.x, x);
      assert MeetY(from, to, y0) == Some(q) <==> q.y == y0 && q.x == x;
      hide MeetY;
      if q.y == y0 { assert OnLine(from, to, q) <==> line.b * y0 + line.a * q.x + line.c == 0.0; }
    }
  }

  lemma QuotientIs(n: real, d: real, q: real)
    requires d != 0.0
    ensures n / d == q <==> d * q == n
  {
    assert n / d * d == n;
  }

  lemma {:induction false} OnBorderAre(meetings: seq<Option<Point>>, area: Rectangle, p: Point)
    ensures p in OnBorder(meetings, area) <==> Touches(p, area) && Some(p) in meetings
  {
    hide Touches;
    if meetings != [] {
      OnBorderAre(meetings[..|meetings| - 1], area, p);
      assert meetings == meetings[..|meetings| - 1] + [meetings[|meetings| - 1]];
    }
  }

  /** The crossings are exactly the points in which the line meets a side. */
  lemma CrossingsAre(from: Point, to: Point, area: Rectangle, q: Point)
    ensures q in Crossings(from, to, area) <==> MeetsSide(from, to, area, q)
  {
    OnBorderAre(Meetings(from, to, area), area, q);
    MeetXIsExact(from, to, area.from.x, q);
    MeetXIsExact(from, to, area.to.x, q);
    MeetYIsExact(from, to, area.from.y, q);
    MeetYIsExact(from, to, area.to.y, q);
    hide MeetX, MeetY, Touches, OnLine, OnBorder, IsClose;
  }

  lemma ClipsBothEnds(from: Point, to: Point, area: Rectangle)
    ensures DrawnAt(from, from, to, area, ClipLine(from, to, area).0)
    ensures DrawnAt(to, from, to, area, ClipLine(from, to, area).1)
  {
    ClipsEnd(from, from, to, area);
    ClipsEnd(to, from, to, area);
    hide ClipEnd, DrawnAt;
  }

  lemma ClipsEnd(p: Point, from: Point, to: Point, area: Rectangle)
    ensures DrawnAt(p, from, to, area, ClipEnd(p, Crossings(from, to, area), area))
  {
    hide MeetsSide, Crossings, Contains, SquaredDistance;
    var crossings := Crossings(from, to, area);
    forall q ensures q in crossings <==> MeetsSide(from, to, area, q) {
      CrossingsAre(from, to, area, q);
    }
    if crossings != [] { assert crossings[0] in crossings; }
  }

  // ----- Lines in a plot -----

  lemma EndsOfImage(c: Canvas, a: Action, b: Action, masked: bool)
    requires c.InRange() && SameKind(a, b) && a.LineAction? && Image(c, a, b, masked).Ok?
    ensures
      var f := Image(c, a, b, masked).value;
      var firstArea, secondArea := c.firstAreas[c.viewport], c.secondAreas[c.viewport];
      var first, second := ClipLine(a.from, a.to, firstArea), ClipLine(b.from, b.to, secondArea);
      && f.LineFigure?
      && f.from == ExtrapolatePoint(firstArea, first.0, secondArea, second.0)
      && f.to == ExtrapolatePoint(firstArea, first.1, secondArea, second.1)
  {
    hide StrokeIndex, ColorIndex, ClipLine, ExtrapolatePoint;
  }

  /** The figure stands where an end drawn at `first` and `second` stands, at both sizes of the plot. */
  ghost predicate StandsAt(p: AffinePoint, sizes: (Size, Size), c: Canvas, v: nat, first: Point, second: Point)
    requires Recorded(c.viewports, c.firstAreas, c.secondAreas) && v < |c.viewports| && FreeChain(c.viewports, v)
  {
    && p.In(AreaOf(c.viewports, v, PageOf(sizes.0))) == first
    && (ChainDetermined(c.viewports, c.firstAreas, c.secondAreas, v) ==>
          (p.In(AreaOf(c.viewports, v, PageOf(sizes.1))) == second <==>
           PointDetermined(c.firstAreas[v], first, c.secondAreas[v], second)))
  }

  /** The tables of a finished drawing, with the areas an action was drawn in. */
  lemma TablesOf(sizes: (Size, Size), first: seq<Action>, second: seq<Action>, i: nat, n: nat)
    requires i < n <= |first| == |second| && AllReadable(first, second)
    requires Draw(sizes, first, second, i + 1).Ok? && Draw(sizes, first, second, n).Ok? && !first[i].ClipAction?
    ensures Draw(sizes, first, second, i).Ok?
    ensures
      var before, c := Draw(sizes, first, second, i).value.canvas, Draw(sizes, first, second, n).value.canvas;
      var v := before.viewport;
      && SameKind(first[i], second[i]) && Readable(first[i], second[i])
      && Image(before, first[i], second[i], IsMasked(before, first, i)).Ok?
      && ImageAt(sizes, first, second, i) ==
         Placed(Image(before, first[i], second[i], IsMasked(before, first, i)).value, v, before.clip)
      && Recorded(c.viewports, c.firstAreas, c.secondAreas) && v < |c.viewports|
      && v < |before.firstAreas| && v < |before.secondAreas|
      && c.firstAreas[v] == before.firstAreas[v] && c.secondAreas[v] == before.secondAreas[v]
      && c.firstAreas[0] == PageOf(sizes.0) && c.secondAreas[0] == PageOf(sizes.1)
  {
    DrawExtends(sizes, first, second, 0, n);
    DrawExtends(sizes, first, second, i, n);
    DrawStaysSound(sizes, first, second, n);
    PlotParser.DrawNothing(sizes, first, second);
    DrawNext(sizes, first, second, i, Draw(sizes, first, second, i).value);
    hide Draw, Image, SameKind, IsMasked, Recorded;
  }

  /** In a plot, the ends of a recorded line are drawn where clipping to the areas of its viewport at the
      two sizes puts them: at the first size always, at the second if and only if determined there. */
  lemma LinesResize(sizes: (Size, Size), first: seq<Action>, second: seq<Action>, i: nat, n: nat)
    returns (from: (Point, Point), to: (Point, Point))
    requires i < n <= |first| == |second| && AllReadable(first, second)
    requires Draw(sizes, first, second, i + 1).Ok? && Draw(sizes, first, second, n).Ok?
    requires first[i].LineAction? && second[i].LineAction?
    ensures
      var f := ImageAt(sizes, first, second, i);
      var c := Draw(sizes, first, second, n).value.canvas;
      var v := f.viewport;
      && f.figure.LineFigure? && Recorded(c.viewports, c.firstAreas, c.secondAreas) && v < |c.viewports|
      && DrawnAt(first[i].from, first[i].from, first[i].to, c.firstAreas[v], from.0)
      && DrawnAt(first[i].to, first[i].from, first[i].to, c.firstAreas[v], to.0)
      && DrawnAt(second[i].from, second[i].from, second[i].to, c.secondAreas[v], from.1)
      && DrawnAt(second[i].to, second[i].from, second[i].to, c.secondAreas[v], to.1)
      && (FreeChain(c.viewports, v) ==>
            StandsAt(f.figure.from, sizes, c, v, from.0, from.1) && StandsAt(f.figure.to, sizes, c, v, to.0, to.1))
  {
    TablesOf(sizes, first, second, i, n);
    var before, c := Draw(sizes, first, second, i).value.canvas, Draw(sizes, first, second, n).value.canvas;
    var v := before.viewport;
    EndsOfImage(before, first[i], second[i], IsMasked(before, first, i));
    var ends, ends' := ClipLine(first[i].from, first[i].to, c.firstAreas[v]),
                       ClipLine(second[i].from, second[i].to, c.secondAreas[v]);
    ClipsBothEnds(first[i].from, first[i].to, c.firstAreas[v]);
    ClipsBothEnds(second[i].from, second[i].to, c.secondAreas[v]);
    from, to := (ends.0, ends'.0), (ends.1, ends'.1);
    hide *;
    if FreeChain(c.viewports, v) {
      LayoutIsExact(c.viewports, c.firstAreas, c.secondAreas, v, from.0, from.1);
      LayoutIsExact(c.viewports, c.firstAreas, c.secondAreas, v, to.0, to.1);
    }
  }

  /** A line with both ends in its viewport's areas is not moved. */
  lemma InnerLinesStay(from: Point, to: Point, area: Rectangle, p: Point, q: Point)
    requires DrawnAt(from, from, to, area, p) && DrawnAt(to, from, to, area, q)
    ensures Contains(area, from) && Contains(area, to) ==> p == from && q == to
  {
  }

  // ----- New pages -----

  lemma NewPageImage(c: Canvas, a: Action, b: Action, masked: bool)
    requires c.InRange() && SameKind(a, b) && a.NewPageAction?
    ensures
      var r := Image(c, a, b, masked);
      r.Ok? && r.value.RectangleFigure? && r.value.from == TOP_LEFT && r.value.to == BOTTOM_RIGHT
  {
    hide ColorIndex;
  }

  /** The rectangle of a new page fills its viewport at every size of the plot, and the page when
      that is the page's own viewport. */
  lemma NewPagesFill(sizes: (Size, Size), first: seq<Action>, second: seq<Action>, i: nat, n: nat, page: Rectangle)
    requires i < n <= |first| == |second| && AllReadable(first, second) && first[i].NewPageAction?
    requires Draw(sizes, first, second, i + 1).Ok? && Draw(sizes, first, second, n).Ok?
    ensures
      var f := ImageAt(sizes, first, second, i);
      var c := Draw(sizes, first, second, n).value.canvas;
      var v := f.viewport;
      && f.figure.RectangleFigure? && IsForest(c.viewports) && v < |c.viewports|
      && (FreeChain(c.viewports, v) ==>
            var area := AreaOf(c.viewports, v, page);
            Rectangle(f.figure.from.In(area), f.figure.to.In(area)) == area && (v == 0 ==> area == page))
  {
    TablesOf(sizes, first, second, i, n);
    var before, c := Draw(sizes, first, second, i).value.canvas, Draw(sizes, first, second, n).value.canvas;
    NewPageImage(before, first[i], second[i], IsMasked(before, first, i));
    hide Draw, Image, IsMasked, SameKind, ViewportRecorded;
    if FreeChain(c.viewports, before.viewport) {
      RootIsPage(AreaOf(c.viewports, before.viewport, page));
      RootIsPage(page);
    }
  }

  // ----- Previews -----

  /** The polylines of a figure, and of an action. */
  function PolylinesOf(f: Figure): seq<Polyline> {
    match f
    case PathFigure(subPaths, _, _, _, _) => subPaths
    case PolygonFigure(polyline, _, _, _) => [polyline]
    case PolylineFigure(polyline, _, _) => [polyline]
    case _ => []
  }

  function RecordedLists(a: Action): seq<seq<Point>> {
    match a
    case PathAction(subPaths, _, _, _, _) => subPaths
    case PolygonAction(points, _, _, _) => [points]
    case PolylineAction(points, _, _) => if |points| == 2 then [] else [points]
    case _ => []
  }

  /** Every polyline carries the preview of the points recorded for it at the first size. */
  predicate CarryPreviews(polylines: seq<Polyline>, lists: seq<seq<Point>>) {
    && |polylines| == |lists|
    && (forall k :: 0 <= k < |lists| ==>
          && |polylines[k].points| == |lists[k]|
          && polylines[k].mask == PolylinePreview.PreviewMask(lists[k])
          && polylines[k].count == PolylinePreview.Visible(polylines[k].mask))
  }

  lemma {:induction false} PathsCarryPreviews(firstArea: Rectangle, first: seq<seq<Point>>, secondArea: Rectangle,
                                              second: seq<seq<Point>>, n: nat)
    requires n <= |first| == |second| && PathIn(firstArea, first, secondArea, second, n).Ok?
    ensures CarryPreviews(PathIn(firstArea, first, secondArea, second, n).value, first[..n])
  {
    if n > 0 {
      PathsCarryPreviews(firstArea, first, secondArea, second, n - 1);
      PolylinePreview.PreviewIsFaithful(first[n - 1]);
      hide PolylinePreview.PreviewMask, PolylinePreview.PreviewCount, PolylinePreview.Visible, ExtrapolatePoint;
    }
  }

  lemma ImageCarriesPreviews(c: Canvas, a: Action, b: Action, masked: bool)
    requires c.InRange() && SameKind(a, b) && Readable(a, b) && !a.ClipAction? && Image(c, a, b, masked).Ok?
    ensures CarryPreviews(PolylinesOf(Image(c, a, b, masked).value), RecordedLists(a))
    ensures var f := Image(c, a, b, masked).value; a.PathAction? ==> f.PathFigure? && f.winding == a.winding
    ensures var f := Image(c, a, b, masked).value; a.CircleAction? ==> f.CircleFigure? && f.masked == masked
  {
    hide PolylinePreview.PreviewMask, PolylinePreview.PreviewCount, PolylinePreview.Visible, ExtrapolatePoint,
         StrokeIndex, ColorIndex, FillIndex, FontIndex, PathIn, ClipLine, ExtrapolateCoordinate;
    match a {
      case PathAction(subPaths, _, _, _, _) =>
        PathsCarryPreviews(c.firstAreas[c.viewport], subPaths, c.secondAreas[c.viewport], b.subPaths, |subPaths|);
        assert subPaths[..|subPaths|] == subPaths;
      case PolygonAction(points, _, _, _) => PolylinePreview.PreviewIsFaithful(points);
      case PolylineAction(points, _, _) => PolylinePreview.PreviewIsFaithful(points);
      case _ =>
    }
  }

  /** In a plot every polyline carries the preview of its own points, a path its winding rule, and a
      circle the mask of its run. */
  lemma PlotCarriesPreviews(sizes: (Size, Size), first: seq<Action>, second: seq<Action>, i: nat)
    requires i < |first| == |second| && AllReadable(first, second) && !first[i].ClipAction?
    requires Draw(sizes, first, second, i + 1).Ok?
    ensures Draw(sizes, first, second, i).Ok?
    ensures
      var f, c := ImageAt(sizes, first, second, i).figure, Draw(sizes, first, second, i).value.canvas;
      && CarryPreviews(PolylinesOf(f), RecordedLists(first[i]))
      && (first[i].PathAction? ==> f.PathFigure? && f.winding == first[i].winding)
      && (first[i].CircleAction? ==> f.CircleFigure? && f.masked == IsMasked(c, first, i))
  {
    TablesOf(sizes, first, second, i, i + 1);
    hide *;
    var c := Draw(sizes, first, second, i).value.canvas;
    ImageCarriesPreviews(c, first[i], second[i], IsMasked(c, first, i));
  }
}

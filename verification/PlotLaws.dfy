/** What a parsed plot is made of. */
module PlotLaws {
  import opened Wrappers
  import opened PlotGeometry
  import opened PlotLayout
  import opened PlotCanvas
  import PlotParser

  // ----- The figures of the plot -----

  /** The figure of action i, which is not a clip, when everything before it can be drawn. */
  function ImageAt(sizes: (Size, Size), first: seq<Action>, second: seq<Action>, i: nat): Placed
    requires i < |first| == |second| && AllReadable(first, second) && Draw(sizes, first, second, i + 1).Ok?
    requires !first[i].ClipAction?
  {
    var c := Draw(sizes, first, second, i).value.canvas;
    Placed(Image(c, first[i], second[i], IsMasked(c, first, i)).value, c.viewport, c.clip)
  }

  /** The last of the first n actions that covers the whole page, or 0. */
  function LastCover(sizes: (Size, Size), first: seq<Action>, second: seq<Action>, n: nat): (k: nat)
    requires n <= |first| == |second| && AllReadable(first, second) && Draw(sizes, first, second, n).Ok?
    ensures k <= n
  {
    if n == 0 then 0 else
    DrawnBefore(sizes, first, second, n - 1);
    if CoversPage(Draw(sizes, first, second, n - 1).value.canvas, first[n - 1]) then n - 1
    else LastCover(sizes, first, second, n - 1)
  }

  /** The figures of actions `from` to n - 1, in order, clips left out. */
  function ImagesFrom(sizes: (Size, Size), first: seq<Action>, second: seq<Action>, from: nat, n: nat): seq<Placed>
    requires n <= |first| == |second| && AllReadable(first, second) && Draw(sizes, first, second, n).Ok?
  {
    if n <= from then [] else
    DrawnBefore(sizes, first, second, n - 1);
    ImagesFrom(sizes, first, second, from, n - 1)
    + if first[n - 1].ClipAction? then [] else [ImageAt(sizes, first, second, n - 1)]
  }

  lemma FiguresStep(sizes: (Size, Size), first: seq<Action>, second: seq<Action>, n: nat)
    requires n < |first| == |second| && AllReadable(first, second) && Draw(sizes, first, second, n + 1).Ok?
    ensures Draw(sizes, first, second, n).Ok?
    ensures
      var page := Draw(sizes, first, second, n).value;
      Draw(sizes, first, second, n + 1).value.figures ==
      if first[n].ClipAction? then page.figures
      else (if CoversPage(page.canvas, first[n]) then [] else page.figures) + [ImageAt(sizes, first, second, n)]
  {
    var page := Draw(sizes, first, second, n).value;
    DrawNext(sizes, first, second, n, page);
    hide Draw, Image, Grown, ClipTo, IsMasked, SameKind, CoversPage, AllReadable;
  }

  lemma ImagesStep(sizes: (Size, Size), first: seq<Action>, second: seq<Action>, from: nat, n: nat)
    requires from <= n < |first| == |second| && AllReadable(first, second) && Draw(sizes, first, second, n + 1).Ok?
    requires Draw(sizes, first, second, n).Ok?
    ensures
      ImagesFrom(sizes, first, second, from, n + 1) ==
      ImagesFrom(sizes, first, second, from, n)
      + if first[n].ClipAction? then [] else [ImageAt(sizes, first, second, n)]
  {
    hide Draw, ImageAt;
  }

  /** The plot shows the figures of all actions from the last one that covers the page, in order. */
  lemma {:induction false} PlotShowsImages(sizes: (Size, Size), first: seq<Action>, second: seq<Action>, n: nat)
    requires n <= |first| == |second| && AllReadable(first, second) && Draw(sizes, first, second, n).Ok?
    ensures
      Draw(sizes, first, second, n).value.figures ==
      ImagesFrom(sizes, first, second, LastCover(sizes, first, second, n), n)
  {
    hide *;
    if n == 0 {
      NothingIsShown(sizes, first, second);
    } else {
      DrawnBefore(sizes, first, second, n - 1);
      LastCoverStep(sizes, first, second, n - 1);
      PlotShowsImages(sizes, first, second, n - 1);
      ShowsOneMore(sizes, first, second, n - 1, LastCover(sizes, first, second, n - 1),
                   LastCover(sizes, first, second, n));
    }
  }

  lemma NothingIsShown(sizes: (Size, Size), first: seq<Action>, second: seq<Action>)
    requires |first| == |second| && AllReadable(first, second) && Draw(sizes, first, second, 0).Ok?
    ensures
      Draw(sizes, first, second, 0).value.figures ==
      ImagesFrom(sizes, first, second, LastCover(sizes, first, second, 0), 0)
  {
  }

  lemma ShowsOneMore(sizes: (Size, Size), first: seq<Action>, second: seq<Action>, n: nat, k: nat, l: nat)
    requires n < |first| == |second| && AllReadable(first, second)
    requires Draw(sizes, first, second, n).Ok? && Draw(sizes, first, second, n + 1).Ok? && k <= n
    requires Draw(sizes, first, second, n).value.figures == ImagesFrom(sizes, first, second, k, n)
    requires l == if CoversPage(Draw(sizes, first, second, n).value.canvas, first[n]) then n else k
    ensures Draw(sizes, first, second, n + 1).value.figures == ImagesFrom(sizes, first, second, l, n + 1)
  {
    hide *;
    FiguresStep(sizes, first, second, n);
    ImagesStep(sizes, first, second, l, n);
    var c := Draw(sizes, first, second, n).value.canvas;
    if CoversPage(c, first[n]) {
      OnlyRectanglesCover(c, first[n]);
      NothingBefore(sizes, first, second, n);
    }
  }

  lemma OnlyRectanglesCover(c: Canvas, a: Action)
    requires c.InRange() && CoversPage(c, a)
    ensures a.RectangleAction?
  {
  }

  lemma NothingBefore(sizes: (Size, Size), first: seq<Action>, second: seq<Action>, n: nat)
    requires n <= |first| == |second| && AllReadable(first, second) && Draw(sizes, first, second, n).Ok?
    ensures ImagesFrom(sizes, first, second, n, n) == []
  {
  }

  lemma LastCoverStep(sizes: (Size, Size), first: seq<Action>, second: seq<Action>, n: nat)
    requires n < |first| == |second| && AllReadable(first, second)
    requires Draw(sizes, first, second, n).Ok? && Draw(sizes, first, second, n + 1).Ok?
    ensures
      LastCover(sizes, first, second, n + 1) ==
      if CoversPage(Draw(sizes, first, second, n).value.canvas, first[n]) then n else LastCover(sizes, first, second, n)
  {
    hide CoversPage, Step;
  }

  lemma DrawnBefore(sizes: (Size, Size), first: seq<Action>, second: seq<Action>, n: nat)
    requires n < |first| == |second| && AllReadable(first, second) && Draw(sizes, first, second, n + 1).Ok?
    ensures Draw(sizes, first, second, n).Ok?
  {
    hide Step, IsMasked;
  }

  // ----- Tables and indices stay sound -----

  /** Viewports form a forest and were extrapolated inside their parents, and no colour is listed twice. */
  ghost predicate Sound(c: Canvas) {
    && c.InRange() && Recorded(c.viewports, c.firstAreas, c.secondAreas) && NoDuplicates(c.palette)
  }

  predicate IndexOk(i: int, n: nat) { -1 <= i < n }

  /** Every index of the figure is -1 or names an entry of its table. */
  predicate FigureOk(f: Figure, strokes: nat, colors: nat, fonts: nat) {
    match f
    case CircleFigure(_, _, stroke, color, fill, _) =>
      IndexOk(stroke, strokes) && IndexOk(color, colors) && IndexOk(fill, colors)
    case LineFigure(_, _, stroke, color) => IndexOk(stroke, strokes) && IndexOk(color, colors)
    case PathFigure(_, _, stroke, color, fill) =>
      IndexOk(stroke, strokes) && IndexOk(color, colors) && IndexOk(fill, colors)
    case PolygonFigure(_, stroke, color, fill) =>
      IndexOk(stroke, strokes) && IndexOk(color, colors) && IndexOk(fill, colors)
    case PolylineFigure(_, stroke, color) => IndexOk(stroke, strokes) && IndexOk(color, colors)
    case RasterFigure(_, _, _, _, _) => true
    case RectangleFigure(_, _, stroke, color, fill) =>
      IndexOk(stroke, strokes) && IndexOk(color, colors) && IndexOk(fill, colors)
    case TextFigure(_, _, _, _, font, color) => IndexOk(font, fonts) && IndexOk(color, colors)
  }

  ghost predicate PageOk(p: Page) {
    && Sound(p.canvas)
    && (forall f <- p.figures :: PlacedOk(f, p.canvas))
  }

  predicate PlacedOk(p: Placed, c: Canvas) {
    && FigureOk(p.figure, |c.strokes|, |c.palette|, |c.fonts|)
    && p.viewport < |c.viewports| && p.clip < |c.viewports|
  }

  /** The second canvas has everything the first one has, at the same indices. */
  predicate Extends(c: Canvas, d: Canvas) {
    && c.firstAreas <= d.firstAreas && c.secondAreas <= d.secondAreas && c.viewports <= d.viewports
    && c.palette <= d.palette && c.strokes <= d.strokes && c.fonts <= d.fonts
  }

  lemma GrownExtends(c: Canvas, a: Action)
    ensures Extends(c, Grown(c, a))
  {
    hide IndexOf, IsTransparent, CloseStrokes, CloseFonts;
  }

  lemma ColorIsOk(c: Canvas, color: Color)
    ensures IndexOk(ColorIndex(c, color), |WithColor(c, color).palette|)
    ensures |c.palette| <= |WithColor(c, color).palette| && WithColor(c, color).strokes == c.strokes &&
        WithColor(c, color).fonts == c.fonts
  {
    hide IsTransparent;
  }

  lemma StrokeIsOk(c: Canvas, stroke: Stroke)
    ensures IndexOk(StrokeIndex(c, stroke), |WithStroke(c, stroke).strokes|) &&
        WithStroke(c, stroke).palette == c.palette
  {
    hide CloseStrokes;
  }

  lemma FontIsOk(c: Canvas, font: Font)
    ensures IndexOk(FontIndex(c, font), |WithFont(c, font).fonts|) && WithFont(c, font).palette == c.palette
  {
    hide CloseFonts;
  }

  lemma InkIsOk(c: Canvas, stroke: Stroke, color: Color, fill: Color)
    ensures
      var d := Inked(c, stroke, color, fill);
      && IndexOk(StrokeIndex(c, stroke), |d.strokes|) && IndexOk(ColorIndex(c, color), |d.palette|)
      && IndexOk(FillIndex(c, color, fill), |d.palette|)
  {
    hide WithStroke, WithColor, StrokeIndex, IsTransparent, IndexOf;
    var c1 := WithStroke(c, stroke);
    StrokeIsOk(c, stroke);
    ColorIsOk(c1, color);
    ColorIsOk(WithColor(c1, color), fill);
    assert ColorIndex(c1, color) == ColorIndex(c, color);
    SameFillIndex(c, c1, color, fill);
  }

  lemma SameFillIndex(c: Canvas, d: Canvas, color: Color, fill: Color)
    requires c.palette == d.palette
    ensures ColorIndex(WithColor(d, color), fill) == FillIndex(c, color, fill)
  {
  }

  lemma LineInkIsOk(c: Canvas, stroke: Stroke, color: Color)
    ensures
      var d := WithColor(WithStroke(c, stroke), color);
      IndexOk(StrokeIndex(c, stroke), |d.strokes|) && IndexOk(ColorIndex(c, color), |d.palette|)
  {
    StrokeIsOk(c, stroke);
    ColorIsOk(WithStroke(c, stroke), color);
    assert ColorIndex(WithStroke(c, stroke), color) == ColorIndex(c, color);
    hide *;
  }

  lemma TextInkIsOk(c: Canvas, font: Font, color: Color)
    ensures
      var d := WithColor(WithFont(c, font), color);
      IndexOk(FontIndex(c, font), |d.fonts|) && IndexOk(ColorIndex(c, color), |d.palette|)
  {
    FontIsOk(c, font);
    ColorIsOk(WithFont(c, font), color);
    assert ColorIndex(WithFont(c, font), color) == ColorIndex(c, color);
    hide *;
  }

  lemma ImageIsOk(c: Canvas, a: Action, b: Action, masked: bool)
    requires c.InRange() && SameKind(a, b) && Readable(a, b) && !a.ClipAction? && Image(c, a, b, masked).Ok?
    ensures
      var d := Grown(c, a);
      FigureOk(Image(c, a, b, masked).value, |d.strokes|, |d.palette|, |d.fonts|)
  {
    hide Inked, WithStroke, WithColor, WithFont, StrokeIndex, ColorIndex, FillIndex, FontIndex, ExtrapolatePoint,
         ExtrapolateCoordinate, ClipLine, PolylineIn, PathIn, IsClose;
    match a {
      case CircleAction(_, _, stroke, color, fill) => InkIsOk(c, stroke, color, fill);
      case LineAction(_, _, stroke, color) => LineInkIsOk(c, stroke, color);
      case NewPageAction(fill) => ColorIsOk(c, fill);
      case PathAction(_, _, stroke, color, fill) => InkIsOk(c, stroke, color, fill);
      case PolygonAction(_, stroke, color, fill) => InkIsOk(c, stroke, color, fill);
      case PolylineAction(_, stroke, color) => LineInkIsOk(c, stroke, color);
      case RasterAction(_, _, _, _) =>
      case RectangleAction(_, stroke, color, fill) => InkIsOk(c, stroke, color, fill);
      case TextAction(_, _, _, _, font, color) => TextInkIsOk(c, font, color);
    }
  }

  lemma GrownIsSound(c: Canvas, a: Action)
    requires Sound(c)
    ensures Sound(Grown(c, a))
  {
    GrownStaysInRange(c, a);
    match a {
      case CircleAction(_, _, stroke, color, fill) => InkedIsSound(c, stroke, color, fill);
      case ClipAction(_) =>
      case LineAction(_, _, stroke, color) => NewColorIsSound(WithStroke(c, stroke), color);
      case NewPageAction(fill) => NewColorIsSound(c, fill);
      case PathAction(_, _, stroke, color, fill) => InkedIsSound(c, stroke, color, fill);
      case PolygonAction(_, stroke, color, fill) => InkedIsSound(c, stroke, color, fill);
      case PolylineAction(_, stroke, color) => NewColorIsSound(WithStroke(c, stroke), color);
      case RasterAction(_, _, _, _) =>
      case RectangleAction(_, stroke, color, fill) => InkedIsSound(c, stroke, color, fill);
      case TextAction(_, _, _, _, font, color) => NewColorIsSound(WithFont(c, font), color);
    }
  }

  lemma InkedIsSound(c: Canvas, stroke: Stroke, color: Color, fill: Color)
    requires Sound(c)
    ensures Sound(Inked(c, stroke, color, fill))
  {
    hide Recorded, NoDuplicates, WithColor;
    NewColorIsSound(WithStroke(c, stroke), color);
    NewColorIsSound(WithColor(WithStroke(c, stroke), color), fill);
  }

  lemma NewColorIsSound(c: Canvas, color: Color)
    requires Sound(c)
    ensures Sound(WithColor(c, color))
  {
    hide Recorded, IsTransparent;
    if IndexOf(color, c.palette, SameColor) == |c.palette| {
      assert forall j :: 0 <= j < |c.palette| ==> !SameColor(color, c.palette[j]);
    }
  }

  lemma ClipIsSound(c: Canvas, first: Rectangle, second: Rectangle)
    requires Sound(c)
    ensures Sound(ClipTo(c, first, second)) && Extends(c, ClipTo(c, first, second))
  {
    ClipStaysInRange(c, first, second);
    if IndexOf(first, c.firstAreas, CloseRectangles) == |c.firstAreas| {
      NewViewportIsRecorded(c, first, second);
    }
    hide Recorded, NewViewport, ParentOf, CloseRectangles, Suggested, NoDuplicates, IndexOf;
  }

  lemma NewViewportIsRecorded(c: Canvas, first: Rectangle, second: Rectangle)
    requires Sound(c)
    ensures Recorded(c.viewports + [NewViewport(c, first, second)], c.firstAreas + [first], c.secondAreas + [second])
  {
    hide IsFixedRatio, HasChildren, ExtrapolatePoint, NoDuplicates;
    var n := |c.viewports|;
    var viewports := c.viewports + [NewViewport(c, first, second)];
    var firstAreas, secondAreas := c.firstAreas + [first], c.secondAreas + [second];
    forall i | 0 < i <= n && viewports[i].FreeViewport?
      ensures ViewportRecorded(viewports[i], firstAreas, secondAreas, i, viewports[i].parent)
    {
      if i < n { assert ViewportRecorded(c.viewports[i], c.firstAreas, c.secondAreas, i, c.viewports[i].parent); }
    }
  }

  lemma StillOk(p: Placed, c: Canvas, d: Canvas)
    requires PlacedOk(p, c) && Extends(c, d)
    ensures PlacedOk(p, d)
  {
  }

  lemma StepIsOk(p: Page, a: Action, b: Action, masked: bool)
    requires PageOk(p) && Readable(a, b) && Step(p, a, b, masked).Ok?
    ensures PageOk(Step(p, a, b, masked).value) && Extends(p.canvas, Step(p, a, b, masked).value.canvas)
  {
    var q := Step(p, a, b, masked).value;
    if a.ClipAction? {
      ClipIsSound(p.canvas, a.area, b.area);
    } else {
      GrownIsSound(p.canvas, a);
      GrownExtends(p.canvas, a);
      GrownStaysInRange(p.canvas, a);
      ImageIsOk(p.canvas, a, b, masked);
    }
    hide Sound, Image, Grown, ClipTo, Extends, FigureOk, CoversPage, SameKind;
    forall f | f in q.figures ensures PlacedOk(f, q.canvas) {
      if f in p.figures { StillOk(f, p.canvas, q.canvas); }
    }
  }

  /** Whatever has been drawn, tables and indices are sound: the clipping areas and viewports match,
      parents come first, figures name valid entries. */
  lemma {:induction false} DrawStaysSound(sizes: (Size, Size), first: seq<Action>, second: seq<Action>, n: nat)
    requires n <= |first| == |second| && AllReadable(first, second) && Draw(sizes, first, second, n).Ok?
    ensures PageOk(Draw(sizes, first, second, n).value)
  {
    hide *;
    if n == 0 {
      StartIsSound(sizes, first, second);
    } else {
      DrawnBefore(sizes, first, second, n - 1);
      DrawStaysSound(sizes, first, second, n - 1);
      StepIsSound(sizes, first, second, n - 1);
    }
  }

  lemma StartIsSound(sizes: (Size, Size), first: seq<Action>, second: seq<Action>)
    requires |first| == |second| && AllReadable(first, second) && Draw(sizes, first, second, 0).Ok?
    ensures PageOk(Draw(sizes, first, second, 0).value)
  {
  }

  lemma StepIsSound(sizes: (Size, Size), first: seq<Action>, second: seq<Action>, n: nat)
    requires n < |first| == |second| && AllReadable(first, second) && Draw(sizes, first, second, n + 1).Ok?
    requires Draw(sizes, first, second, n).Ok? && PageOk(Draw(sizes, first, second, n).value)
    ensures PageOk(Draw(sizes, first, second, n + 1).value)
  {
    var page := Draw(sizes, first, second, n).value;
    assert Readable(first[n], second[n]);
    hide *;
    DrawNext(sizes, first, second, n, page);
    StepIsOk(page, first[n], second[n], IsMasked(page.canvas, first, n));
  }

  lemma StepExtends(sizes: (Size, Size), first: seq<Action>, second: seq<Action>, n: nat)
    requires n < |first| == |second| && AllReadable(first, second) && Draw(sizes, first, second, n + 1).Ok?
    ensures Draw(sizes, first, second, n).Ok?
    ensures Extends(Draw(sizes, first, second, n).value.canvas, Draw(sizes, first, second, n + 1).value.canvas)
  {
    DrawStaysSound(sizes, first, second, n);
    var page := Draw(sizes, first, second, n).value;
    DrawNext(sizes, first, second, n, page);
    assert Readable(first[n], second[n]);
    hide *;
    var masked := IsMasked(page.canvas, first, n);
    StepIsOk(page, first[n], second[n], masked);
  }

  lemma {:induction false} DrawExtends(sizes: (Size, Size), first: seq<Action>, second: seq<Action>, i: nat, n: nat)
    requires i <= n <= |first| == |second| && AllReadable(first, second) && Draw(sizes, first, second, n).Ok?
    ensures Draw(sizes, first, second, i).Ok?
    ensures Extends(Draw(sizes, first, second, i).value.canvas, Draw(sizes, first, second, n).value.canvas)
    decreases n
  {
    hide *;
    if i < n {
      StepExtends(sizes, first, second, n - 1);
      DrawExtends(sizes, first, second, i, n - 1);
      ExtendsFurther(Draw(sizes, first, second, i).value.canvas, Draw(sizes, first, second, n - 1).value.canvas,
                     Draw(sizes, first, second, n).value.canvas);
    } else {
      ExtendsItself(Draw(sizes, first, second, n).value.canvas);
    }
  }

  lemma ExtendsItself(c: Canvas)
    ensures Extends(c, c)
  {
  }

  lemma ExtendsFurther(c: Canvas, d: Canvas, e: Canvas)
    requires Extends(c, d) && Extends(d, e)
    ensures Extends(c, e)
  {
  }

  /** The layers of a finished parse name registered viewports and clipping areas, and their figures valid entries. */
  lemma {:induction false} LayersAreSound(layers: seq<PlotParser.Layer>, c: Canvas, k: nat, i: nat)
    requires k < |layers| && i < |layers[k].figures|
    requires forall f <- PlotParser.Flattened(layers) :: PlacedOk(f, c)
    ensures layers[k].viewport < |c.viewports| && layers[k].clip < |c.viewports|
    ensures FigureOk(layers[k].figures[i], |c.strokes|, |c.palette|, |c.fonts|)
    decreases |layers|
  {
    hide FigureOk;
    var n := |layers| - 1;
    var front, last := layers[..n], layers[n];
    var placed := PlotParser.Place(last.figures, last.viewport, last.clip);
    assert PlotParser.Flattened(layers) == PlotParser.Flattened(front) + placed;
    if k < n {
      LayersAreSound(front, c, k, i);
    } else {
      assert placed[i] in placed;
      assert PlacedOk(placed[i], c);
    }
  }

  // ----- Resizing -----

  /** The points recorded for an action, as pairs of the two recordings. */
  function PointPairs(a: Action, b: Action): seq<(Point, Point)>
    requires SameKind(a, b)
  {
    match a
    case CircleAction(center, _, _, _, _) => [(center, b.center)]
    case ClipAction(_) => []
    case LineAction(_, _, _, _) => []
    case NewPageAction(_) => []
    case PathAction(subPaths, _, _, _, _) => PathPairs(subPaths, b.subPaths, Shorter(|subPaths|, |b.subPaths|))
    case PolygonAction(points, _, _, _) => Paired(points, b.points)
    case PolylineAction(points, _, _) => Paired(points, b.points)
    case RasterAction(_, r, _, _) => [(r.from, b.rectangle.from), (r.to, b.rectangle.to)]
    case RectangleAction(r, _, _, _) => [(r.from, b.rectangle.from), (r.to, b.rectangle.to)]
    case TextAction(_, position, _, _, _, _) => [(position, b.position)]
  }

  function Shorter(m: nat, n: nat): nat { if m < n then m else n }

  function Paired(first: seq<Point>, second: seq<Point>): seq<(Point, Point)> {
    seq(Shorter(|first|, |second|), i requires 0 <= i < Shorter(|first|, |second|) => (first[i], second[i]))
  }

  function PathPairs(first: seq<seq<Point>>, second: seq<seq<Point>>, n: nat): seq<(Point, Point)>
    requires n <= |first| && n <= |second|
  {
    if n == 0 then [] else PathPairs(first, second, n - 1) + Paired(first[n - 1], second[n - 1])
  }

  /** The points of a figure. */
  function PointsOf(f: Figure): seq<AffinePoint> {
    match f
    case CircleFigure(center, _, _, _, _, _) => [center]
    case LineFigure(from, to, _, _) => [from, to]
    case PathFigure(subPaths, _, _, _, _) => PathPoints(subPaths)
    case PolygonFigure(polyline, _, _, _) => polyline.points
    case PolylineFigure(polyline, _, _) => polyline.points
    case RasterFigure(_, from, to, _, _) => [from, to]
    case RectangleFigure(from, to, _, _, _) => [from, to]
    case TextFigure(_, position, _, _, _, _) => [position]
  }

  function PathPoints(subPaths: seq<Polyline>): seq<AffinePoint> {
    if subPaths == [] then [] else PathPoints(subPaths[..|subPaths| - 1]) + subPaths[|subPaths| - 1].points
  }

  predicate AreImages(points: seq<AffinePoint>, pairs: seq<(Point, Point)>, firstArea: Rectangle,
                      secondArea: Rectangle) {
    && |points| == |pairs|
    && (forall j :: 0 <= j < |points| ==> points[j] == ExtrapolatePoint(firstArea, pairs[j].0, secondArea, pairs[j].1))
  }

  lemma {:induction false} PathsAreImages(firstArea: Rectangle, first: seq<seq<Point>>, secondArea: Rectangle,
                                          second: seq<seq<Point>>, n: nat)
    requires n <= |first| == |second| && PathIn(firstArea, first, secondArea, second, n).Ok?
    ensures AreImages(PathPoints(PathIn(firstArea, first, secondArea, second, n).value), PathPairs(first, second, n),
                      firstArea, secondArea)
  {
    hide ExtrapolatePoint;
    if n > 0 {
      PathsAreImages(firstArea, first, secondArea, second, n - 1);
      var subPaths := PathIn(firstArea, first, secondArea, second, n).value;
      assert subPaths[..n - 1] == PathIn(firstArea, first, secondArea, second, n - 1).value by {
        PathLength(firstArea, first, secondArea, second, n - 1);
      }
    }
  }

  lemma {:induction false} PathLength(firstArea: Rectangle, first: seq<seq<Point>>, secondArea: Rectangle,
                                      second: seq<seq<Point>>, n: nat)
    requires n <= |first| == |second| && PathIn(firstArea, first, secondArea, second, n).Ok?
    ensures |PathIn(firstArea, first, secondArea, second, n).value| == n
  {
    hide PolylineIn;
    if n > 0 { PathLength(firstArea, first, secondArea, second, n - 1); }
  }

  lemma PointsAreImages(c: Canvas, a: Action, b: Action, masked: bool)
    requires c.InRange() && SameKind(a, b) && Readable(a, b) && !a.ClipAction? && !a.LineAction? && !a.NewPageAction?
    requires Image(c, a, b, masked).Ok?
    ensures AreImages(PointsOf(Image(c, a, b, masked).value), PointPairs(a, b), c.firstAreas[c.viewport],
                      c.secondAreas[c.viewport])
  {
    hide ExtrapolatePoint, StrokeIndex, ColorIndex, FillIndex, FontIndex, PathIn, PathPoints, PathPairs, IsClose;
    if a.PathAction? {
      PathsAreImages(c.firstAreas[c.viewport], a.subPaths, c.secondAreas[c.viewport], b.subPaths, |a.subPaths|);
    }
  }

  /** Resizing a plot to the first recorded size puts every recorded point of a figure in free
      viewports back in its place; at the second size, in determined viewports, exactly the
      determined points come back. Lines are clipped first; they have a law of their own. */
  lemma PlotResizes(sizes: (Size, Size), first: seq<Action>, second: seq<Action>, i: nat, n: nat, j: nat)
    requires i < n <= |first| == |second| && AllReadable(first, second)
    requires Draw(sizes, first, second, i + 1).Ok? && Draw(sizes, first, second, n).Ok?
    requires !first[i].ClipAction? && !first[i].LineAction? && !first[i].NewPageAction? && SameKind(first[i], second[i])
    requires j < |PointPairs(first[i], second[i])|
    ensures
      var f := ImageAt(sizes, first, second, i);
      var c := Draw(sizes, first, second, n).value.canvas;
      var v, pair := f.viewport, PointPairs(first[i], second[i])[j];
      && |PointsOf(f.figure)| == |PointPairs(first[i], second[i])|
      && Recorded(c.viewports, c.firstAreas, c.secondAreas) && v < |c.viewports|
      && (FreeChain(c.viewports, v) ==>
            var p := PointsOf(f.figure)[j];
            && p.In(AreaOf(c.viewports, v, PageOf(sizes.0))) == pair.0
            && (ChainDetermined(c.viewports, c.firstAreas, c.secondAreas, v) ==>
                  (p.In(AreaOf(c.viewports, v, PageOf(sizes.1))) == pair.1 <==>
                   PointDetermined(c.firstAreas[v], pair.0, c.secondAreas[v], pair.1))))
  {
    DrawExtends(sizes, first, second, 0, n);
    DrawExtends(sizes, first, second, i, n);
    DrawStaysSound(sizes, first, second, n);
    PlotParser.DrawNothing(sizes, first, second);
    var before, c := Draw(sizes, first, second, i).value.canvas, Draw(sizes, first, second, n).value.canvas;
    DrawNext(sizes, first, second, i, Draw(sizes, first, second, i).value);
    var masked := IsMasked(before, first, i);
    assert Image(before, first[i], second[i], masked).Ok? by { hide Image, Draw, SameKind; }
    PointsAreImages(before, first[i], second[i], masked);
    var f := ImageAt(sizes, first, second, i);
    var v := f.viewport;
    if FreeChain(c.viewports, v) {
      var pair := PointPairs(first[i], second[i])[j];
      hide Draw, Image, PointPairs, PointsOf, ExtrapolatePoint, AffinePoint.In, PointDetermined, AreaOf,
           ChainDetermined, SameKind, Step;
      LayoutIsExact(c.viewports, c.firstAreas, c.secondAreas, v, pair.0, pair.1);
    }
  }

  lemma RadiusOfImage(c: Canvas, a: Action, b: Action, masked: bool)
    requires c.InRange() && SameKind(a, b) && a.CircleAction? && Image(c, a, b, masked).Ok?
    ensures
      var f := Image(c, a, b, masked).value;
      && f.CircleFigure?
      && f.radius == ExtrapolateCoordinate(c.firstAreas[c.viewport].Height(), a.radius,
                                           c.secondAreas[c.viewport].Height(), b.radius)
  {
    hide StrokeIndex, ColorIndex, FillIndex;
  }

  /** The radius of a circle follows the height of its viewport in the same way. */
  lemma CirclesResize(sizes: (Size, Size), first: seq<Action>, second: seq<Action>, i: nat, n: nat)
    requires i < n <= |first| == |second| && AllReadable(first, second)
    requires Draw(sizes, first, second, i + 1).Ok? && Draw(sizes, first, second, n).Ok?
    requires first[i].CircleAction? && second[i].CircleAction?
    ensures
      var f := ImageAt(sizes, first, second, i);
      var c := Draw(sizes, first, second, n).value.canvas;
      var v := f.viewport;
      && f.figure.CircleFigure?
      && Recorded(c.viewports, c.firstAreas, c.secondAreas) && v < |c.viewports|
      && (FreeChain(c.viewports, v) ==>
            && f.figure.radius.At(AreaOf(c.viewports, v, PageOf(sizes.0)).Height()) == first[i].radius
            && (ChainDetermined(c.viewports, c.firstAreas, c.secondAreas, v) ==>
                  (f.figure.radius.At(AreaOf(c.viewports, v, PageOf(sizes.1)).Height()) == second[i].radius <==>
                   Determined(c.firstAreas[v].Height(), first[i].radius, c.secondAreas[v].Height(), second[i].radius))))
  {
    DrawExtends(sizes, first, second, 0, n);
    DrawExtends(sizes, first, second, i, n);
    DrawStaysSound(sizes, first, second, n);
    PlotParser.DrawNothing(sizes, first, second);
    var before, c := Draw(sizes, first, second, i).value.canvas, Draw(sizes, first, second, n).value.canvas;
    DrawNext(sizes, first, second, i, Draw(sizes, first, second, i).value);
    var masked := IsMasked(before, first, i);
    assert Image(before, first[i], second[i], masked).Ok? by { hide Image, Draw, SameKind; }
    RadiusOfImage(before, first[i], second[i], masked);
    var f := ImageAt(sizes, first, second, i);
    var v := f.viewport;
    assert v == before.viewport;
    if FreeChain(c.viewports, v) {
      hide Draw, Image, AffineCoordinate.At, ExtrapolateCoordinate, AreaOf, ChainDetermined, SameKind, Step, Determined;
      FirstAreasAreExact(c.viewports, c.firstAreas, c.secondAreas, v);
      SecondAreasAreExact(c.viewports, c.firstAreas, c.secondAreas, v);
      FirstIsExact(c.firstAreas[v].Height(), first[i].radius, c.secondAreas[v].Height(), second[i].radius);
      SecondIsExact(c.firstAreas[v].Height(), first[i].radius, c.secondAreas[v].Height(), second[i].radius);
    }
  }

  // ----- Colours, strokes and fonts -----

  predicate NamesColor(i: int, color: Color, palette: seq<Color>) {
    if IsTransparent(color) then i == -1 else 0 <= i < |palette| && palette[i] == color
  }

  predicate NamesStroke(i: int, stroke: Stroke, strokes: seq<Stroke>) {
    0 <= i < |strokes| && CloseStrokes(stroke, strokes[i])
  }

  predicate NamesFont(i: int, font: Font, fonts: seq<Font>) {
    0 <= i < |fonts| && CloseFonts(font, fonts[i])
  }

  /** The figure's indices name the colours, stroke and font of its action. */
  predicate NamesInk(f: Figure, a: Action, c: Canvas) {
    match a
    case CircleAction(_, _, stroke, color, fill) =>
      f.CircleFigure? && NamesStroke(f.stroke, stroke, c.strokes) && NamesColor(f.color, color, c.palette)
      && NamesColor(f.fill, fill, c.palette)
    case ClipAction(_) => false
    case LineAction(_, _, stroke, color) =>
      f.LineFigure? && NamesStroke(f.stroke, stroke, c.strokes) && NamesColor(f.color, color, c.palette)
    case NewPageAction(fill) => f.RectangleFigure? && f.stroke == f.color == -1 && NamesColor(f.fill, fill, c.palette)
    case PathAction(_, _, stroke, color, fill) =>
      f.PathFigure? && NamesStroke(f.stroke, stroke, c.strokes) && NamesColor(f.color, color, c.palette)
      && NamesColor(f.fill, fill, c.palette)
    case PolygonAction(_, stroke, color, fill) =>
      f.PolygonFigure? && NamesStroke(f.stroke, stroke, c.strokes) && NamesColor(f.color, color, c.palette)
      && NamesColor(f.fill, fill, c.palette)
    case PolylineAction(_, stroke, color) =>
      (f.PolylineFigure? || f.LineFigure?) && NamesStroke(f.stroke, stroke, c.strokes)
      && NamesColor(f.color, color, c.palette)
    case RasterAction(image, _, angle, interpolate) =>
      f.RasterFigure? && f.image == image && f.angle == angle && f.interpolate == interpolate
    case RectangleAction(_, stroke, color, fill) =>
      f.RectangleFigure? && NamesStroke(f.stroke, stroke, c.strokes) && NamesColor(f.color, color, c.palette)
      && NamesColor(f.fill, fill, c.palette)
    case TextAction(text, _, angle, anchor, font, color) =>
      f.TextFigure? && f.text == text && f.angle == angle && f.anchor == anchor
      && NamesFont(f.font, font, c.fonts) && NamesColor(f.color, color, c.palette)
  }

  lemma ColorIsNamed(c: Canvas, color: Color)
    ensures NamesColor(ColorIndex(c, color), color, WithColor(c, color).palette)
    ensures c.palette <= WithColor(c, color).palette
  {
    hide IsTransparent;
  }

  lemma NameStays(i: int, color: Color, palette: seq<Color>, more: seq<Color>)
    requires NamesColor(i, color, palette) && palette <= more
    ensures NamesColor(i, color, more)
  {
    hide IsTransparent;
  }

  lemma StrokeIsNamed(c: Canvas, stroke: Stroke)
    requires forall s :: CloseStrokes(s, s)
    ensures NamesStroke(StrokeIndex(c, stroke), stroke, WithStroke(c, stroke).strokes)
  {
    hide CloseStrokes;
  }

  lemma FontIsNamed(c: Canvas, font: Font)
    requires forall f :: CloseFonts(f, f)
    ensures NamesFont(FontIndex(c, font), font, WithFont(c, font).fonts)
  {
    hide CloseFonts;
  }

  lemma CloseToItself()
    ensures forall s :: CloseStrokes(s, s)
    ensures forall f :: CloseFonts(f, f)
  {
  }

  lemma InkIsNamed(c: Canvas, stroke: Stroke, color: Color, fill: Color)
    requires forall s :: CloseStrokes(s, s)
    ensures
      var d := Inked(c, stroke, color, fill);
      && NamesStroke(StrokeIndex(c, stroke), stroke, d.strokes) && NamesColor(ColorIndex(c, color), color, d.palette)
      && NamesColor(FillIndex(c, color, fill), fill, d.palette)
  {
    var c1 := WithStroke(c, stroke);
    var c2 := WithColor(c1, color);
    StrokeIsNamed(c, stroke);
    ColorIsNamed(c1, color);
    ColorIsNamed(c2, fill);
    SameFillIndex(c, c1, color, fill);
    assert ColorIndex(c1, color) == ColorIndex(c, color);
    hide NamesColor, WithStroke, WithColor, StrokeIndex, ColorIndex, IndexOf, NamesStroke, IsTransparent;
    NameStays(ColorIndex(c, color), color, c2.palette, WithColor(c2, fill).palette);
    ColorLeavesStrokes(c1, color);
    ColorLeavesStrokes(c2, fill);
  }

  lemma ColorLeavesStrokes(c: Canvas, color: Color)
    ensures WithColor(c, color).strokes == c.strokes && WithColor(c, color).fonts == c.fonts
  {
  }

  lemma LineInkIsNamed(c: Canvas, stroke: Stroke, color: Color)
    requires forall s :: CloseStrokes(s, s)
    ensures
      var d := WithColor(WithStroke(c, stroke), color);
      NamesStroke(StrokeIndex(c, stroke), stroke, d.strokes) && NamesColor(ColorIndex(c, color), color, d.palette)
  {
    StrokeIsNamed(c, stroke);
    ColorIsNamed(WithStroke(c, stroke), color);
    ColorLeavesStrokes(WithStroke(c, stroke), color);
    assert ColorIndex(WithStroke(c, stroke), color) == ColorIndex(c, color);
    hide *;
  }

  lemma TextInkIsNamed(c: Canvas, font: Font, color: Color)
    requires forall f :: CloseFonts(f, f)
    ensures
      var d := WithColor(WithFont(c, font), color);
      NamesFont(FontIndex(c, font), font, d.fonts) && NamesColor(ColorIndex(c, color), color, d.palette)
  {
    FontIsNamed(c, font);
    ColorIsNamed(WithFont(c, font), color);
    ColorLeavesStrokes(WithFont(c, font), color);
    assert ColorIndex(WithFont(c, font), color) == ColorIndex(c, color);
    hide *;
  }

  lemma ImageNamesInk(c: Canvas, a: Action, b: Action, masked: bool)
    requires c.InRange() && SameKind(a, b) && Readable(a, b) && !a.ClipAction? && Image(c, a, b, masked).Ok?
    ensures NamesInk(Image(c, a, b, masked).value, a, Grown(c, a))
  {
    CloseToItself();
    hide CloseStrokes, CloseFonts, NamesStroke, NamesFont, NamesColor, Inked, WithStroke, WithColor, WithFont,
         StrokeIndex, ColorIndex, FillIndex, FontIndex, ExtrapolatePoint, ExtrapolateCoordinate, ClipLine, PolylineIn,
         PathIn, IsClose;
    match a {
      case CircleAction(_, _, stroke, color, fill) => InkIsNamed(c, stroke, color, fill);
      case LineAction(_, _, stroke, color) => LineInkIsNamed(c, stroke, color);
      case NewPageAction(fill) => ColorIsNamed(c, fill);
      case PathAction(_, _, stroke, color, fill) => InkIsNamed(c, stroke, color, fill);
      case PolygonAction(_, stroke, color, fill) => InkIsNamed(c, stroke, color, fill);
      case PolylineAction(_, stroke, color) => LineInkIsNamed(c, stroke, color);
      case RasterAction(_, _, _, _) =>
      case RectangleAction(_, stroke, color, fill) => InkIsNamed(c, stroke, color, fill);
      case TextAction(_, _, _, _, font, color) => TextInkIsNamed(c, font, color);
    }
  }

  lemma InkStays(f: Figure, a: Action, c: Canvas, d: Canvas)
    requires NamesInk(f, a, c) && Extends(c, d)
    ensures NamesInk(f, a, d)
  {
    hide IsTransparent, CloseStrokes, CloseFonts;
  }

  lemma ImageOfStep(sizes: (Size, Size), first: seq<Action>, second: seq<Action>, i: nat)
    requires i < |first| == |second| && AllReadable(first, second) && Draw(sizes, first, second, i + 1).Ok? &&
        !first[i].ClipAction?
    ensures NamesInk(ImageAt(sizes, first, second, i).figure, first[i], Draw(sizes, first, second, i + 1).value.canvas)
  {
    DrawnBefore(sizes, first, second, i);
    var page := Draw(sizes, first, second, i).value;
    DrawNext(sizes, first, second, i, page);
    var masked := IsMasked(page.canvas, first, i);
    assert SameKind(first[i], second[i]) && Readable(first[i], second[i]) &&
        Image(page.canvas, first[i], second[i], masked).Ok?;
    ImageNamesInk(page.canvas, first[i], second[i], masked);
    hide Draw, Image, Grown, NamesInk, IsMasked, SameKind, AllReadable;
  }

  /** In the finished plot every figure still names the colours, stroke and font of its own action. */
  lemma PlotNamesInk(sizes: (Size, Size), first: seq<Action>, second: seq<Action>, i: nat, n: nat)
    requires i < n <= |first| == |second| && AllReadable(first, second) && !first[i].ClipAction?
    requires Draw(sizes, first, second, i + 1).Ok? && Draw(sizes, first, second, n).Ok?
    ensures NamesInk(ImageAt(sizes, first, second, i).figure, first[i], Draw(sizes, first, second, n).value.canvas)
  {
    hide *;
    ImageOfStep(sizes, first, second, i);
    DrawExtends(sizes, first, second, i + 1, n);
    InkStays(ImageAt(sizes, first, second, i).figure, first[i],
             Draw(sizes, first, second, i + 1).value.canvas, Draw(sizes, first, second, n).value.canvas);
  }
}

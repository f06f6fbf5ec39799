/** The parser of two recordings of one plot: it looks ahead over runs of circles, collects figures
    in layers and keeps track of axes. */
module PlotParser {
  import opened Wrappers
  import opened PlotGeometry
  import opened PlotCanvas
  import PolylinePreview
  import CirclePreview

  datatype State = Initial | AxisLines | AxisText

  datatype Layer = Layer(viewport: nat, clip: nat, figures: seq<Figure>, isAxisText: bool)

  function Place(figures: seq<Figure>, viewport: nat, clip: nat): seq<Placed> {
    seq(|figures|, i requires 0 <= i < |figures| => Placed(figures[i], viewport, clip))
  }

  /** The figures of all layers, one after the other. */
  function Flattened(layers: seq<Layer>): seq<Placed> {
    if layers == [] then [] else
    var last := layers[|layers| - 1];
    Flattened(layers[..|layers| - 1]) + Place(last.figures, last.viewport, last.clip)
  }

  /** The palette lists the keys of the colour table by their values. */
  ghost predicate IsInverse(palette: seq<Color>, indices: map<Color, int>) {
    && (forall c :: c in indices <==> c in palette)
    && (forall i :: 0 <= i < |palette| ==> palette[i] in indices && indices[palette[i]] == i)
    && |indices| == |palette|
  }

  /** Candidates for axis labels: which layer holds them, and the first line of their axis. */
  ghost predicate AxesOk(layers: seq<Layer>, indices: seq<nat>, lines: seq<Option<Action>>, state: State,
                         line: Option<Action>) {
    && |indices| == |lines|
    && (forall i :: 0 <= i < |indices| ==> indices[i] < |layers| && lines[i].Some? && lines[i].value.LineAction?)
    && (forall i, j :: 0 <= i < j < |indices| ==> indices[i] < indices[j])
    && (state != Initial ==> line.Some? && line.value.LineAction?)
    && (forall i :: 0 <= i < |layers| ==> layers[i].figures != [] && !layers[i].isAxisText)
  }

  method FindIndex<T>(x: T, xs: seq<T>, close: (T, T) -> bool) returns (index: int)
    ensures index == if IndexOf(x, xs, close) < |xs| then IndexOf(x, xs, close) else -1
  {
    for i := 0 to |xs|
      invariant IndexOf(x, xs, close) == i + IndexOf(x, xs[i..], close)
    {
      if close(x, xs[i]) {
        return i;
      }
      assert xs[i..][1..] == xs[i + 1..];
    }
    return -1;
  }

  method FindClosest(point: Point, points: seq<Point>) returns (closest: Point)
    requires points != []
    ensures closest == Nearest(point, points)
  {
    closest := points[0];
    for i := 1 to |points|
      invariant closest == Nearest(point, points[..i])
    {
      assert points[..i + 1][..i] == points[..i];
      if SquaredDistance(point, points[i]) < SquaredDistance(point, closest) {
        closest := points[i];
      }
    }
    assert points[..|points|] == points;
  }

  method ClipToArea(from: Point, to: Point, area: Rectangle) returns (ends: (Point, Point))
    ensures ends == ClipLine(from, to, area)
  {
    hide MeetX, MeetY, Touches, Contains, Nearest;
    ends := (from, to);
    var containsFrom, containsTo := Contains(area, from), Contains(area, to);
    if !containsFrom || !containsTo {
      var meetings := Meetings(from, to, area);
      var crossings: seq<Point> := [];
      for i := 0 to |meetings|
        invariant crossings == OnBorder(meetings[..i], area)
      {
        assert meetings[..i + 1][..i] == meetings[..i];
        if meetings[i].Some? && Touches(meetings[i].value, area) {
          crossings := crossings + [meetings[i].value];
        }
      }
      assert meetings[..|meetings|] == meetings;
      hide OnBorder, Meetings;
      if crossings != [] {
        if !containsFrom {
          var closest := FindClosest(from, crossings);
          ends := (closest, ends.1);
        }
        if !containsTo {
          var closest := FindClosest(to, crossings);
          ends := (ends.0, closest);
        }
      }
    }
  }

  class DifferentialParser {
    const sizes: (Size, Size)
    const firstActions: seq<Action>
    const secondActions: seq<Action>

    var color2Indices: map<Color, int>
    ghost var palette: seq<Color>
    var firstClippingAreas: seq<Rectangle>
    var secondClippingAreas: seq<Rectangle>
    var viewports: seq<Viewport>
    var strokes: seq<Stroke>
    var layers: seq<Layer>
    var fonts: seq<Font>

    var currentLineAction: Option<Action>
    var lineActions: seq<Option<Action>>
    var axisTextLayerIndices: seq<nat>
    var state: State

    var currentFigures: seq<Figure>
    var currentClippingAreaIndex: nat
    var currentViewportIndex: nat
    var currentActionIndex: int

    ghost function Tables(): Canvas
      reads `firstClippingAreas, `secondClippingAreas, `viewports, `palette, `strokes, `fonts
      reads `currentClippingAreaIndex, `currentViewportIndex
    {
      Canvas(firstClippingAreas, secondClippingAreas, viewports, palette, strokes, fonts,
             currentClippingAreaIndex, currentViewportIndex)
    }

    /** All figures kept so far. */
    ghost function Figures(): seq<Placed>
      reads `layers, `currentFigures, `currentViewportIndex, `currentClippingAreaIndex
    {
      Flattened(layers) + Place(currentFigures, currentViewportIndex, currentClippingAreaIndex)
    }

    ghost predicate Valid()
      reads `color2Indices, `palette, `firstClippingAreas, `secondClippingAreas, `viewports, `strokes, `layers, `fonts
      reads `currentLineAction, `lineActions, `axisTextLayerIndices, `state, `currentClippingAreaIndex,
        `currentViewportIndex
    {
      && Tables().InRange()
      && IsInverse(palette, color2Indices)
      && AxesOk(layers, axisTextLayerIndices, lineActions, state, currentLineAction)
    }

    constructor (firstSize: Size, firstActions: seq<Action>, secondSize: Size, secondActions: seq<Action>)
      ensures Valid() && Tables() == EmptyCanvas(firstSize, secondSize)
      ensures layers == [] && Figures() == [] && state == Initial
      ensures sizes == (firstSize, secondSize) && this.firstActions == firstActions &&
          this.secondActions == secondActions
      ensures currentActionIndex == -1
    {
      sizes := (firstSize, secondSize);
      this.firstActions, this.secondActions := firstActions, secondActions;
      firstClippingAreas, secondClippingAreas, viewports := [PageOf(firstSize)], [PageOf(secondSize)], [FULL_SCREEN];
      color2Indices, palette, strokes, fonts := map[], [], [], [];
      layers, currentLineAction, lineActions, axisTextLayerIndices, state := [], None, [], [], Initial;
      currentFigures, currentClippingAreaIndex, currentViewportIndex, currentActionIndex := [], 0, 0, -1;
      new;
      hide *;
      RegisterDefaults();
      Starts(firstSize, secondSize);
    }

    /** What the fields mean at the start. */
    lemma Starts(firstSize: Size, secondSize: Size)
      requires firstClippingAreas == [PageOf(firstSize)] && secondClippingAreas == [PageOf(secondSize)]
      requires viewports == [FULL_SCREEN] && palette == [BLACK, WHITE] && strokes == [] && fonts == [DEFAULT_FONT]
      requires currentClippingAreaIndex == 0 && currentViewportIndex == 0 && IsInverse(palette, color2Indices)
      requires layers == [] && currentFigures == [] && axisTextLayerIndices == [] && lineActions == []
      requires currentLineAction == None && state == Initial
      ensures Valid() && Tables() == EmptyCanvas(firstSize, secondSize) && Figures() == []
    {
      NoLayers(0, 0, Initial, None);
      hide AxesOk, IsInverse, Flattened, Place, PageOf;
    }

    method RegisterDefaults()
      requires color2Indices == map[] && palette == [] && fonts == []
      modifies `color2Indices, `palette, `fonts
      ensures IsInverse(palette, color2Indices) && palette == [BLACK, WHITE] && fonts == [DEFAULT_FONT]
    {
      InitialColors();
      hide Registered, IndexOf, CloseFonts, IsInverse, IsTransparent, PageOf;
      var black := UseColor(BLACK);
      var white := UseColor(WHITE);
      var font := UseFont(DEFAULT_FONT);
    }

    // ----- The tables -----

    method UseColor(color: Color) returns (index: int)
      requires IsInverse(palette, color2Indices)
      modifies `color2Indices, `palette
      ensures IsInverse(palette, color2Indices)
      ensures Tables() == WithColor(old(Tables()), color) && index == ColorIndex(old(Tables()), color)
    {
      if IsTransparent(color) {
        return -1;
      }
      if color in color2Indices {
        index := color2Indices[color];
        ColorIsKnown(palette, color2Indices, color);
      } else {
        index := |color2Indices|;
        ColorIsNew(palette, color2Indices, color);
        color2Indices := color2Indices[color := index];
        palette := palette + [color];
      }
    }

    method UseStroke(stroke: Stroke) returns (index: int)
      modifies `strokes
      ensures Tables() == WithStroke(old(Tables()), stroke) && index == StrokeIndex(old(Tables()), stroke)
    {
      index := FindIndex(stroke, strokes, CloseStrokes);
      if index == -1 {
        index := |strokes|;
        strokes := strokes + [stroke];
      }
    }

    method UseFont(font: Font) returns (index: int)
      modifies `fonts
      ensures Tables() == WithFont(old(Tables()), font) && index == FontIndex(old(Tables()), font)
    {
      index := FindIndex(font, fonts, CloseFonts);
      if index == -1 {
        index := |fonts|;
        fonts := fonts + [font];
      }
    }

    // ----- Layers and axes -----

    method Flush()
      requires Valid()
      modifies `layers, `currentFigures, `axisTextLayerIndices, `lineActions
      ensures Valid() && Figures() == old(Figures()) && currentFigures == []
      ensures
        if old(currentFigures) == [] then unchanged(`layers, `axisTextLayerIndices, `lineActions)
        else
          && layers == old(layers) + [Layer(currentViewportIndex, currentClippingAreaIndex, old(currentFigures), false)]
          && axisTextLayerIndices == old(axisTextLayerIndices) + (if state == AxisText then [old(|layers|)] else [])
          && lineActions == old(lineActions) + (if state == AxisText then [currentLineAction] else [])
    {
      hide Flattened, Place, AxesOk, IsInverse, Canvas.InRange;
      if currentFigures != [] {
        var layer := Layer(currentViewportIndex, currentClippingAreaIndex, currentFigures, false);
        FlushKeepsAxes(layers, axisTextLayerIndices, lineActions, state, currentLineAction, layer);
        if state == AxisText {
          axisTextLayerIndices := axisTextLayerIndices + [|layers|];
          lineActions := lineActions + [currentLineAction];
        }
        LayerShows(layers, layer);
        layers := layers + [layer];
        currentFigures := [];
      }
    }

    method FlushAndSwitchTo(newState: State)
      requires Valid() && (newState == AxisText ==> state == AxisLines)
      modifies `layers, `currentFigures, `axisTextLayerIndices, `lineActions, `state
      ensures Figures() == old(Figures()) && currentFigures == [] && state == newState
      ensures Tables().InRange() && IsInverse(palette, color2Indices)
      ensures AxesOk(layers, axisTextLayerIndices, lineActions,
                     if newState == AxisLines then Initial else newState, currentLineAction)
    {
      hide *;
      ValidMeans();
      Flush();
      ValidMeans();
      AxesFor(layers, axisTextLayerIndices, lineActions, state, if newState == AxisLines then Initial else newState,
              currentLineAction);
      state := newState;
    }

    /** A line outside all clipping areas may start an axis. */
    method SwitchForLine(line: Action)
      requires Valid() && line.LineAction?
      modifies `layers, `currentFigures, `axisTextLayerIndices, `lineActions, `state, `currentLineAction
      ensures Valid() && Figures() == old(Figures())
      ensures
        var starts := currentClippingAreaIndex == 0 && old(state) == Initial;
        && currentLineAction == (if starts then Some(line) else old(currentLineAction))
        && state == if starts then AxisLines
                    else if currentClippingAreaIndex != 0 && old(state) == AxisLines then Initial
                    else old(state)
      ensures state != old(state) ==> currentFigures == []
    {
      hide Flattened, Place, IsInverse, Canvas.InRange;
      if currentClippingAreaIndex == 0 && state == Initial {
        FlushAndSwitchTo(AxisLines);
        currentLineAction := Some(line);
      }
      if currentClippingAreaIndex != 0 && state == AxisLines {
        FlushAndSwitchTo(Initial);
      }
    }

    /** A text right after axis lines may label them. */
    method SwitchForText()
      requires Valid()
      modifies `layers, `currentFigures, `axisTextLayerIndices, `lineActions, `state
      ensures Valid() && Figures() == old(Figures())
      ensures
        state == if currentClippingAreaIndex == 0 && old(state) == AxisLines then AxisText
                 else if currentClippingAreaIndex != 0 && old(state) == AxisText then Initial
                 else old(state)
      ensures state != old(state) ==> currentFigures == []
    {
      hide Flattened, Place, IsInverse, Canvas.InRange;
      if currentClippingAreaIndex == 0 && state == AxisLines {
        FlushAndSwitchTo(AxisText);
      }
      if currentClippingAreaIndex != 0 && state == AxisText {
        FlushAndSwitchTo(Initial);
      }
    }

    /** Any other action ends an axis. */
    method SwitchForOther(a: Action)
      requires Valid()
      modifies `layers, `currentFigures, `axisTextLayerIndices, `lineActions, `state
      ensures Valid() && Figures() == old(Figures())
      ensures state == if a.TextAction? || (a.LineAction? && old(state) == AxisLines) then old(state) else Initial
      ensures state != old(state) ==> currentFigures == []
    {
      hide Flattened, Place, IsInverse, Canvas.InRange;
      if state == AxisLines && !a.LineAction? && !a.TextAction? {
        FlushAndSwitchTo(Initial);
      }
      if state == AxisText && !a.TextAction? {
        FlushAndSwitchTo(Initial);
      }
    }

    // ----- Figures -----

    ghost function Now(): Page
      reads this
    {
      Page(Tables(), Figures())
    }

    method UseInk(stroke: Stroke, color: Color, fill: Color) returns (strokeIndex: int, colorIndex: int, fillIndex: int)
      requires IsInverse(palette, color2Indices)
      modifies `strokes, `palette, `color2Indices
      ensures IsInverse(palette, color2Indices) && Tables() == Inked(old(Tables()), stroke, color, fill)
      ensures strokeIndex == StrokeIndex(old(Tables()), stroke) && colorIndex == ColorIndex(old(Tables()), color)
      ensures fillIndex == FillIndex(old(Tables()), color, fill)
    {
      hide IsInverse;
      strokeIndex := UseStroke(stroke);
      colorIndex := UseColor(color);
      fillIndex := UseColor(fill);
    }

    method ExtrapolatePoints(first: seq<Point>, second: seq<Point>) returns (r: Result<Polyline>)
      requires Tables().InRange()
      ensures r == PolylineIn(firstClippingAreas[currentViewportIndex], first,
                              secondClippingAreas[currentViewportIndex], second)
    {
      if |first| != |second| {
        return Failed(MismatchingActions);
      }
      var firstArea, secondArea := firstClippingAreas[currentViewportIndex], secondClippingAreas[currentViewportIndex];
      var points := [];
      for i := 0 to |first|
        invariant |points| == i && forall j :: 0 <= j < i ==>
            points[j] == ExtrapolatePoint(firstArea, first[j], secondArea, second[j])
      {
        points := points + [ExtrapolatePoint(firstArea, first[i], secondArea, second[i])];
      }
      var mask, count := PolylinePreview.BuildPreviewMask(first);
      assert points == PolylineIn(firstArea, first, secondArea, second).value.points;
      r := Ok(Polyline(points, mask, count));
    }

    method ExtrapolateLine(a: Action, b: Action) returns (r: Result<Figure>)
      requires Valid() && SameKind(a, b) && Readable(a, b) && a.LineAction?
      modifies this
      ensures currentActionIndex == old(currentActionIndex)
      ensures Became(old(Now()), Now(), a, b, r) && (r.Ok? ==> Valid())
    {
      hide Flattened, Place, AxesOk, IsInverse, Grown, Image;
      SwitchForLine(a);
      NotCovering(Tables(), a);
      var figure := ImageOfLine(a, b);
      r := Ok(figure);
    }

    method ImageOfLine(a: Action, b: Action) returns (figure: Figure)
      requires Tables().InRange() && IsInverse(palette, color2Indices) && a.LineAction? && b.LineAction?
      modifies `strokes, `palette, `color2Indices
      ensures IsInverse(palette, color2Indices) && Tables() == Grown(old(Tables()), a)
      ensures Ok(figure) == Image(old(Tables()), a, b, false)
    {
      hide Flattened, Place, AxesOk, IsInverse, ClipLine, ExtrapolatePoint, ExtrapolateCoordinate, CloseRectangles,
           IsOpaque, Registered, IndexOf, IsTransparent, PolylineIn, PathIn;
      var firstArea, secondArea := firstClippingAreas[currentViewportIndex], secondClippingAreas[currentViewportIndex];
      var firstEnds := ClipToArea(a.from, a.to, firstArea);
      var secondEnds := ClipToArea(b.from, b.to, secondArea);
      var from := ExtrapolatePoint(firstArea, firstEnds.0, secondArea, secondEnds.0);
      var to := ExtrapolatePoint(firstArea, firstEnds.1, secondArea, secondEnds.1);
      var strokeIndex := UseStroke(a.stroke);
      var colorIndex := UseColor(a.color);
      figure := LineFigure(from, to, strokeIndex, colorIndex);
    }

    method ExtrapolateNewPage(a: Action, b: Action) returns (r: Result<Figure>)
      requires Valid() && SameKind(a, b) && Readable(a, b) && a.NewPageAction?
      modifies this
      ensures currentActionIndex == old(currentActionIndex)
      ensures Became(old(Now()), Now(), a, b, r) && (r.Ok? ==> Valid())
    {
      hide Flattened, Place, AxesOk, IsInverse, ClipLine, ExtrapolatePoint, ExtrapolateCoordinate, CloseRectangles,
           IsOpaque, Registered, IndexOf, IsTransparent, PolylineIn, PathIn;
      var fillIndex := UseColor(a.fill);
      r := Ok(RectangleFigure(TOP_LEFT, BOTTOM_RIGHT, -1, -1, fillIndex));
    }

    method ExtrapolatePath(a: Action, b: Action) returns (r: Result<Figure>)
      requires Valid() && SameKind(a, b) && Readable(a, b) && a.PathAction?
      modifies this
      ensures currentActionIndex == old(currentActionIndex)
      ensures Became(old(Now()), Now(), a, b, r) && (r.Ok? ==> Valid())
    {
      hide Flattened, Place, AxesOk, IsInverse, ClipLine, ExtrapolatePoint, ExtrapolateCoordinate, Registered, IndexOf,
           IsTransparent, PolylineIn;
      if |a.subPaths| != |b.subPaths| {
        return Failed(MismatchingActions);
      }
      ghost var firstArea, secondArea := firstClippingAreas[currentViewportIndex],
        secondClippingAreas[currentViewportIndex];
      var subPaths := [];
      for i := 0 to |a.subPaths|
        invariant Valid() && Now() == old(Now()) && currentActionIndex == old(currentActionIndex)
        invariant PathIn(firstArea, a.subPaths, secondArea, b.subPaths, i) == Ok(subPaths)
      {
        var polyline := ExtrapolatePoints(a.subPaths[i], b.subPaths[i]);
        if polyline.Failed? {
          PathFails(firstArea, a.subPaths, secondArea, b.subPaths, i + 1, |a.subPaths|);
          return Failed(polyline.error);
        }
        subPaths := subPaths + [polyline.value];
      }
      var strokeIndex, colorIndex, fillIndex := UseInk(a.stroke, a.color, a.fill);
      r := Ok(PathFigure(subPaths, a.winding, strokeIndex, colorIndex, fillIndex));
    }

    method ExtrapolatePolygon(a: Action, b: Action) returns (r: Result<Figure>)
      requires Valid() && SameKind(a, b) && Readable(a, b) && a.PolygonAction?
      modifies this
      ensures currentActionIndex == old(currentActionIndex)
      ensures Became(old(Now()), Now(), a, b, r) && (r.Ok? ==> Valid())
    {
      hide Flattened, Place, AxesOk, IsInverse, ClipLine, ExtrapolatePoint, ExtrapolateCoordinate, CloseRectangles,
           IsOpaque, Registered, IndexOf, IsTransparent, PolylineIn, PathIn;
      var polyline := ExtrapolatePoints(a.points, b.points);
      if polyline.Failed? {
        return Failed(polyline.error);
      }
      var strokeIndex, colorIndex, fillIndex := UseInk(a.stroke, a.color, a.fill);
      r := Ok(PolygonFigure(polyline.value, strokeIndex, colorIndex, fillIndex));
    }

    method ExtrapolatePolyline(a: Action, b: Action) returns (r: Result<Figure>)
      requires Valid() && SameKind(a, b) && Readable(a, b) && a.PolylineAction?
      modifies this
      ensures currentActionIndex == old(currentActionIndex)
      ensures Became(old(Now()), Now(), a, b, r) && (r.Ok? ==> Valid())
    {
      hide Flattened, Place, AxesOk, IsInverse, ClipLine, ExtrapolatePoint, ExtrapolateCoordinate, CloseRectangles,
           IsOpaque, Registered, IndexOf, IsTransparent, PolylineIn, PathIn;
      ghost var before := Tables();
      var strokeIndex := UseStroke(a.stroke);
      var colorIndex := UseColor(a.color);
      var firstArea, secondArea := firstClippingAreas[currentViewportIndex], secondClippingAreas[currentViewportIndex];
      if |a.points| == 2 {
        var from := ExtrapolatePoint(firstArea, a.points[0], secondArea, b.points[0]);
        var to := ExtrapolatePoint(firstArea, a.points[1], secondArea, b.points[1]);
        r := Ok(LineFigure(from, to, strokeIndex, colorIndex));
      } else {
        var polyline := ExtrapolatePoints(a.points, b.points);
        if polyline.Failed? {
          return Failed(polyline.error);
        }
        r := Ok(PolylineFigure(polyline.value, strokeIndex, colorIndex));
      }
    }

    method ExtrapolateRaster(a: Action, b: Action) returns (r: Result<Figure>)
      requires Valid() && SameKind(a, b) && Readable(a, b) && a.RasterAction?
      modifies this
      ensures currentActionIndex == old(currentActionIndex)
      ensures Became(old(Now()), Now(), a, b, r) && (r.Ok? ==> Valid())
    {
      hide Flattened, Place, AxesOk, IsInverse, ClipLine, ExtrapolatePoint, ExtrapolateCoordinate, CloseRectangles,
           IsOpaque, Registered, IndexOf, IsTransparent, PolylineIn, PathIn;
      var firstArea, secondArea := firstClippingAreas[currentViewportIndex], secondClippingAreas[currentViewportIndex];
      var from := ExtrapolatePoint(firstArea, a.rectangle.from, secondArea, b.rectangle.from);
      var to := ExtrapolatePoint(firstArea, a.rectangle.to, secondArea, b.rectangle.to);
      r := Ok(RasterFigure(a.image, from, to, a.angle, a.interpolate));
    }

    method ExtrapolateRectangle(a: Action, b: Action) returns (r: Result<Figure>)
      requires Valid() && SameKind(a, b) && Readable(a, b) && a.RectangleAction?
      modifies this
      ensures currentActionIndex == old(currentActionIndex)
      ensures Became(old(Now()), Now(), a, b, r) && (r.Ok? ==> Valid())
    {
      hide Flattened, Place, AxesOk, IsInverse, ClipLine, ExtrapolatePoint, ExtrapolateCoordinate, CloseRectangles,
           IsOpaque, Registered, IndexOf, IsTransparent, PolylineIn, PathIn;
      GrownStaysInRange(Tables(), a);
      var figure := ImageOfRectangle(a, b);
      hide Grown, Image;
      if currentClippingAreaIndex == 0 && IsOpaque(a.fill) && CloseRectangles(a.rectangle, firstClippingAreas[0]) {
        RemoveFigures();
      }
      r := Ok(figure);
    }

    method ImageOfRectangle(a: Action, b: Action) returns (figure: Figure)
      requires Tables().InRange() && IsInverse(palette, color2Indices) && a.RectangleAction? && b.RectangleAction?
      modifies `strokes, `palette, `color2Indices
      ensures IsInverse(palette, color2Indices) && Tables() == Grown(old(Tables()), a)
      ensures Ok(figure) == Image(old(Tables()), a, b, false)
    {
      hide IsInverse, ExtrapolatePoint, Registered, IndexOf, IsTransparent, PathIn, PolylineIn, ClipLine,
           ExtrapolateCoordinate;
      var firstArea, secondArea := firstClippingAreas[currentViewportIndex], secondClippingAreas[currentViewportIndex];
      var from := ExtrapolatePoint(firstArea, a.rectangle.from, secondArea, b.rectangle.from);
      var to := ExtrapolatePoint(firstArea, a.rectangle.to, secondArea, b.rectangle.to);
      var strokeIndex, colorIndex, fillIndex := UseInk(a.stroke, a.color, a.fill);
      figure := RectangleFigure(from, to, strokeIndex, colorIndex, fillIndex);
    }

    method RemoveFigures()
      requires Valid()
      modifies `layers, `currentFigures, `axisTextLayerIndices, `lineActions
      ensures Valid() && Figures() == []
    {
      NoLayers(currentViewportIndex, currentClippingAreaIndex, state, currentLineAction);
      hide Flattened, Place, IsInverse, Canvas.InRange, AxesOk;
      axisTextLayerIndices := [];
      currentFigures := [];
      lineActions := [];
      layers := [];
    }

    method ExtrapolateText(a: Action, b: Action) returns (r: Result<Figure>)
      requires Valid() && SameKind(a, b) && Readable(a, b) && a.TextAction?
      modifies this
      ensures currentActionIndex == old(currentActionIndex)
      ensures Became(old(Now()), Now(), a, b, r) && (r.Ok? ==> Valid())
    {
      hide Flattened, Place, AxesOk, IsInverse, ClipLine, ExtrapolatePoint, ExtrapolateCoordinate, CloseRectangles,
           IsOpaque, Registered, IndexOf, IsTransparent, PolylineIn, PathIn;
      SwitchForText();
      NotCovering(Tables(), a);
      if !IsClose(a.font.size, b.font.size) {
        return Failed(GrowingText);
      }
      var figure := ImageOfText(a, b);
      r := Ok(figure);
    }

    method ImageOfText(a: Action, b: Action) returns (figure: Figure)
      requires Tables().InRange() && IsInverse(palette, color2Indices) && a.TextAction? && b.TextAction?
      requires IsClose(a.font.size, b.font.size)
      modifies `fonts, `palette, `color2Indices
      ensures IsInverse(palette, color2Indices) && Tables() == Grown(old(Tables()), a)
      ensures Ok(figure) == Image(old(Tables()), a, b, false)
    {
      hide IsInverse, ExtrapolatePoint, Registered, IndexOf, IsTransparent, PathIn, PolylineIn, ClipLine,
           ExtrapolateCoordinate;
      var position := ExtrapolatePoint(firstClippingAreas[currentViewportIndex], a.position,
                                       secondClippingAreas[currentViewportIndex], b.position);
      var fontIndex := UseFont(a.font);
      var colorIndex := UseColor(a.color);
      figure := TextFigure(a.text, position, a.angle, a.anchor, fontIndex, colorIndex);
    }

    method ExtrapolateCircle(a: Action, b: Action, masked: bool) returns (figure: Figure)
      requires Valid() && a.CircleAction? && b.CircleAction?
      modifies `strokes, `palette, `color2Indices
      ensures Valid() && Tables() == Grown(old(Tables()), a) && Ok(figure) == Image(old(Tables()), a, b, masked)
    {
      hide AxesOk, IsInverse, Registered, IndexOf, IsTransparent, ExtrapolatePoint, ExtrapolateCoordinate;
      var firstArea, secondArea := firstClippingAreas[currentViewportIndex], secondClippingAreas[currentViewportIndex];
      var center := ExtrapolatePoint(firstArea, a.center, secondArea, b.center);
      var radius := ExtrapolateCoordinate(firstArea.Height(), a.radius, secondArea.Height(), b.radius);
      var strokeIndex, colorIndex, fillIndex := UseInk(a.stroke, a.color, a.fill);
      figure := CircleFigure(center, radius, strokeIndex, colorIndex, fillIndex, masked);
    }

    // ----- Clips -----

    method FindParent(rectangle: Rectangle, count: nat) returns (parentIndex: nat)
      requires 1 <= count <= |firstClippingAreas|
      ensures parentIndex == ParentOf(firstClippingAreas, rectangle, count)
    {
      parentIndex := 0;
      for i := 1 to count
        invariant parentIndex == ParentOf(firstClippingAreas, rectangle, i)
      {
        var candidate := firstClippingAreas[i];
        if IsNested(rectangle, candidate) {
          if parentIndex == 0 || AreaSize(candidate) < AreaSize(firstClippingAreas[parentIndex]) {
            parentIndex := i;
          }
        }
      }
    }

    method FindChildren(viewportIndex: nat) returns (found: bool)
      requires viewportIndex < |viewports| <= |firstClippingAreas|
      ensures found == HasChildren(firstClippingAreas, |viewports|, viewportIndex)
    {
      for i := 1 to |viewports|
        invariant forall j :: 1 <= j < i && j != viewportIndex ==>
            !IsNested(firstClippingAreas[j], firstClippingAreas[viewportIndex])
      {
        if i != viewportIndex && IsNested(firstClippingAreas[i], firstClippingAreas[viewportIndex]) {
          return true;
        }
      }
      return false;
    }

    /** The viewport for the area that was registered last; its parent becomes the current one. */
    method ExtrapolateViewport(first: Rectangle, second: Rectangle) returns (viewport: Viewport)
      requires 0 < |viewports| == |secondClippingAreas| == |firstClippingAreas| - 1
      requires firstClippingAreas[|viewports|] == first
      modifies `currentViewportIndex
      ensures
        var n := |viewports|;
        var c := Canvas(firstClippingAreas[..n], secondClippingAreas, viewports, palette, strokes, fonts, 0, 0);
        viewport == NewViewport(c, first, second) && currentViewportIndex == ParentOf(c.firstAreas, first, n)
    {
      hide IsFixedRatio, IsNested, ExtrapolateFixed, ExtrapolatePoint;
      ghost var areas := firstClippingAreas[..|viewports|];
      assert firstClippingAreas == areas + [first];
      ParentIgnoresLater(areas, first, first, |viewports|);
      currentViewportIndex := FindParent(first, |viewports|);
      var hasChildren := FindChildren(currentViewportIndex);
      assert HasChildren(areas, |viewports|, currentViewportIndex) ==
          HasChildren(firstClippingAreas, |viewports|, currentViewportIndex);
      var firstArea, secondArea := firstClippingAreas[currentViewportIndex], secondClippingAreas[currentViewportIndex];
      if IsFixedRatio(first, firstArea) && !hasChildren {
        viewport := ExtrapolateFixed(first, second, currentViewportIndex);
      } else {
        var from := ExtrapolatePoint(firstArea, first.from, secondArea, second.from);
        var to := ExtrapolatePoint(firstArea, first.to, secondArea, second.to);
        viewport := FreeViewport(from, to, currentViewportIndex);
      }
    }

    method UseArea(first: Rectangle, second: Rectangle) returns (index: nat)
      requires Tables().InRange()
      modifies `firstClippingAreas, `secondClippingAreas, `viewports, `currentViewportIndex
      ensures Tables() == WithArea(old(Tables()), first, second)
      ensures index == IndexOf(first, old(firstClippingAreas), CloseRectangles)
    {
      hide CloseRectangles;
      var found := FindIndex(first, firstClippingAreas, CloseRectangles);
      if found == -1 {
        index := |firstClippingAreas|;
        firstClippingAreas := firstClippingAreas + [first];
      } else {
        index := found;
      }
      if |firstClippingAreas| > |viewports| {
        assert firstClippingAreas[..|viewports|] == old(firstClippingAreas);
        var viewport := ExtrapolateViewport(first, second);
        viewports := viewports + [viewport];
        secondClippingAreas := secondClippingAreas + [second];
      }
    }

    method SuggestViewport(requestedIndex: nat) returns (index: nat)
      requires currentViewportIndex < |viewports|
      ensures index == Suggested(Tables(), requestedIndex)
    {
      if requestedIndex != 0 {
        return requestedIndex;
      }
      var parentIndex := viewports[currentViewportIndex].parent;
      // a parent is always registered, see PlotLaws.DrawStaysSound
      if 0 <= parentIndex < |viewports| && viewports[parentIndex].FixedViewport? {
        return parentIndex;
      }
      return requestedIndex;
    }

    method MoveTo(first: Rectangle, second: Rectangle)
      requires Tables().InRange()
      modifies `firstClippingAreas, `secondClippingAreas, `viewports, `currentViewportIndex, `currentClippingAreaIndex
      ensures Tables() == ClipTo(old(Tables()), first, second)
    {
      hide IndexOf, CloseRectangles, NewViewport, ParentOf;
      ClipStaysInRange(Tables(), first, second);
      currentClippingAreaIndex := UseArea(first, second);
      currentViewportIndex := SuggestViewport(currentClippingAreaIndex);
    }

    method Clip(a: Action, b: Action)
      requires Valid() && a.ClipAction? && b.ClipAction?
      modifies this
      ensures Valid() && Tables() == ClipTo(old(Tables()), a.area, b.area) && Figures() == old(Figures())
      ensures currentActionIndex == old(currentActionIndex) && currentFigures == []
    {
      hide *;
      ValidMeans();
      ClipStaysInRange(Tables(), a.area, b.area);
      Flush();
      NoneCurrent();
      ValidMeans();
      MoveTo(a.area, b.area);
      NoneCurrent();
      ValidMeans();
    }

    lemma ValidMeans()
      ensures
        Valid() <==>
        && Tables().InRange() && IsInverse(palette, color2Indices)
        && AxesOk(layers, axisTextLayerIndices, lineActions, state, currentLineAction)
    {
    }

    lemma NoneCurrent()
      requires currentFigures == []
      ensures Figures() == Flattened(layers)
    {
      NothingPlaced(currentViewportIndex, currentClippingAreaIndex);
      hide Flattened, Place;
    }

    // ----- Runs of circles -----

    /** Goes on to the next action; both recordings must have the same kind of action there. */
    method MoveNextAction() returns (r: Result<bool>)
      requires -1 <= currentActionIndex < |firstActions| == |secondActions|
      modifies `currentActionIndex
      ensures currentActionIndex == old(currentActionIndex) + 1
      ensures
        r == if currentActionIndex == |firstActions| then Ok(false)
             else if SameKind(firstActions[currentActionIndex], secondActions[currentActionIndex]) then Ok(true)
             else Failed(MismatchingActions)
    {
      currentActionIndex := currentActionIndex + 1;
      if currentActionIndex >= |firstActions| {
        return Ok(false);
      }
      if !SameKind(firstActions[currentActionIndex], secondActions[currentActionIndex]) {
        return Failed(MismatchingActions);
      }
      return Ok(true);
    }

    /** Collects the run of circles that starts at the current action, up to its last circle. */
    method CollectCircles() returns (r: Result<nat>)
      requires 0 <= currentActionIndex < |firstActions| == |secondActions| && AllReadable(firstActions, secondActions)
      requires firstActions[currentActionIndex].CircleAction? && secondActions[currentActionIndex].CircleAction?
      requires Draw(sizes, firstActions, secondActions, currentActionIndex).Ok?
      modifies `currentActionIndex
      ensures r.Failed? ==> Plotted(sizes, firstActions, secondActions) == Failed(r.error)
      ensures r.Ok? ==>
        && old(currentActionIndex) <= currentActionIndex < |firstActions| && r.value == currentActionIndex + 1
        && CirclesBetween(firstActions, old(currentActionIndex), r.value)
        && CirclesBetween(secondActions, old(currentActionIndex), r.value)
        && (r.value < |firstActions| ==> !firstActions[r.value].CircleAction?)
    {
      hide Draw;
      var start := currentActionIndex;
      var more := MoveNextAction();
      while more == Ok(true) && firstActions[currentActionIndex].CircleAction?
        invariant start < currentActionIndex <= |firstActions|
        invariant CirclesBetween(firstActions, start, currentActionIndex) &&
            CirclesBetween(secondActions, start, currentActionIndex)
        invariant
          more == if currentActionIndex == |firstActions| then Ok(false)
                  else if SameKind(firstActions[currentActionIndex], secondActions[currentActionIndex]) then Ok(true)
                  else Failed(MismatchingActions)
        decreases |firstActions| - currentActionIndex
      {
        more := MoveNextAction();
      }
      if more.Failed? {
        CirclesAreDrawn(sizes, firstActions, secondActions, start, currentActionIndex);
        MismatchFails(sizes, firstActions, secondActions, currentActionIndex);
        return Failed(more.error);
      }
      currentActionIndex := currentActionIndex - 1;
      r := Ok(currentActionIndex + 1);
    }

    /** The first n actions have been drawn. */
    ghost predicate Drawn(n: int)
      reads this
    {
      && 0 <= n <= |firstActions| == |secondActions| && AllReadable(firstActions, secondActions)
      && Draw(sizes, firstActions, secondActions, n) == Ok(Now())
    }

    /** The first n actions have been drawn once the figure is added to the current ones. */
    ghost predicate DrawnWith(n: int, figure: Figure)
      reads this
    {
      && 0 <= n <= |firstActions| == |secondActions| && AllReadable(firstActions, secondActions)
      && Draw(sizes, firstActions, secondActions, n) == Ok(Page(Tables(), Figures() + [Here(figure)]))
    }

    ghost function Here(figure: Figure): Placed
      reads this
    {
      Placed(figure, currentViewportIndex, currentClippingAreaIndex)
    }

    method Push(figure: Figure)
      modifies `currentFigures
      ensures Figures() == old(Figures()) + [Here(figure)]
    {
      hide Flattened, Place;
      PlaceOneMore(currentFigures, figure, currentViewportIndex, currentClippingAreaIndex);
      currentFigures := currentFigures + [figure];
    }

    /** A circle of the run from start to end. */
    method ExtrapolateInRun(ghost start: nat, ghost end: nat, i: nat, masked: bool) returns (figure: Figure)
      requires Tables().InRange() && Valid() && start <= i < end && Drawn(i) && IsRun(firstActions, start, end) &&
          CirclesBetween(secondActions, start, end)
      requires
        masked <==> CirclePreview.Hidden(Centers(firstActions[start..end]),
                                         firstClippingAreas[currentClippingAreaIndex], i - start)
      modifies `strokes, `palette, `color2Indices
      ensures Valid() && DrawnWith(i + 1, figure)
    {
      hide Draw, AllReadable, Image, Grown, Valid, Flattened, Place;
      figure := ExtrapolateCircle(firstActions[i], secondActions[i], masked);
      CircleStep(sizes, firstActions, secondActions, start, end, i, old(Now()), figure);
    }

    /** A run of circles, with the preview mask of the whole run. */
    method ExtrapolateCircles() returns (r: Result<Figure>)
      requires Tables().InRange() && Valid() && currentActionIndex < |firstActions| && Drawn(currentActionIndex)
      requires firstActions[currentActionIndex].CircleAction? && secondActions[currentActionIndex].CircleAction?
      requires currentActionIndex > 0 ==> !firstActions[currentActionIndex - 1].CircleAction?
      modifies this
      ensures r.Failed? ==> Plotted(sizes, firstActions, secondActions) == Failed(r.error)
      ensures r.Ok? ==>
        && Valid() && old(currentActionIndex) <= currentActionIndex < |firstActions|
        && DrawnWith(currentActionIndex + 1, r.value)
        && (currentActionIndex + 1 < |firstActions| ==> !firstActions[currentActionIndex + 1].CircleAction?)
    {
      hide Valid, Draw, Plotted, AllReadable, Flattened, Place, Centers, CirclePreview.Hidden;
      var start: nat := currentActionIndex;
      var collected := CollectCircles();
      if collected.Failed? {
        return Failed(collected.error);
      }
      var end := collected.value;
      var centers := Centers(firstActions[start..end]);
      var area := firstClippingAreas[currentClippingAreaIndex];
      var mask: seq<bool> := [false];
      if end - start == 1 {
        SingleIsVisible(centers, area);
      } else {
        mask := CirclePreview.BuildPreviewMask(centers, area);
      }
      var last := ExtrapolateRun(start, end, mask);
      r := Ok(last);
    }

    /** All circles of a run; the last figure is returned. */
    method ExtrapolateRun(start: nat, end: nat, mask: seq<bool>) returns (last: Figure)
      requires Tables().InRange() && Valid() && start < end && Drawn(start) && currentActionIndex == end - 1
      requires IsRun(firstActions, start, end) && CirclesBetween(secondActions, start, end) && |mask| == end - start
      requires forall i :: 0 <= i < end - start ==>
        (mask[i] <==> CirclePreview.Hidden(Centers(firstActions[start..end]),
                                           firstClippingAreas[currentClippingAreaIndex], i))
      modifies `strokes, `palette, `color2Indices, `currentFigures
      ensures Valid() && DrawnWith(end, last)
    {
      hide Valid, Draw, AllReadable, Flattened, Place, Centers, CirclePreview.Hidden, IsRun, CirclesBetween;
      for i := start to end - 1
        invariant Valid() && Drawn(i)
      {
        var figure := ExtrapolateInRun(start, end, i, mask[i - start]);
        Push(figure);
      }
      last := ExtrapolateInRun(start, end, end - 1, mask[end - 1 - start]);
    }

    // ----- Parsing -----

    method ExtrapolateOther(a: Action, b: Action) returns (r: Result<Figure>)
      requires Valid() && SameKind(a, b) && Readable(a, b) && !a.ClipAction? && !a.CircleAction?
      modifies this
      ensures currentActionIndex == old(currentActionIndex)
      ensures Became(old(Now()), Now(), a, b, r) && (r.Ok? ==> Valid())
    {
      hide Valid, Became, Flattened, Place;
      match a {
        case LineAction(_, _, _, _) => r := ExtrapolateLine(a, b);
        case NewPageAction(_) => r := ExtrapolateNewPage(a, b);
        case PathAction(_, _, _, _, _) => r := ExtrapolatePath(a, b);
        case PolygonAction(_, _, _, _) => r := ExtrapolatePolygon(a, b);
        case PolylineAction(_, _, _) => r := ExtrapolatePolyline(a, b);
        case RasterAction(_, _, _, _) => r := ExtrapolateRaster(a, b);
        case RectangleAction(_, _, _, _) => r := ExtrapolateRectangle(a, b);
        case TextAction(_, _, _, _, _, _) => r := ExtrapolateText(a, b);
      }
    }

    /** The figure of the current action; a run of circles is read to its end, and only its last figure returned. */
    method Extrapolate() returns (r: Result<Figure>)
      requires Tables().InRange() && Valid() && currentActionIndex < |firstActions| && Drawn(currentActionIndex)
      requires
        var a, b := firstActions[currentActionIndex], secondActions[currentActionIndex];
        SameKind(a, b) && !a.ClipAction?
      requires AtRunStart(firstActions, currentActionIndex)
      modifies this
      ensures r.Failed? ==> Plotted(sizes, firstActions, secondActions) == Failed(r.error)
      ensures r.Ok? ==>
        && Valid() && old(currentActionIndex) <= currentActionIndex < |firstActions|
        && DrawnWith(currentActionIndex + 1, r.value) && AtRunStart(firstActions, currentActionIndex + 1)
    {
      hide Valid, Became, Flattened, Place, Draw, Plotted, AllReadable;
      var a, b := firstActions[currentActionIndex], secondActions[currentActionIndex];
      assert Readable(a, b) by { ReadableAt(firstActions, secondActions, currentActionIndex); }
      SwitchForOther(a);
      ghost var before := Now();
      if a.CircleAction? {
        r := ExtrapolateCircles();
      } else {
        r := ExtrapolateOther(a, b);
        OtherStep(sizes, firstActions, secondActions, currentActionIndex, before, Now(), r);
      }
    }

    /** Handles the current action, or the run of circles that starts there. */
    method ParseCurrent() returns (error: Option<PlotError>)
      requires Tables().InRange() && Valid() && currentActionIndex < |firstActions| && Drawn(currentActionIndex)
      requires SameKind(firstActions[currentActionIndex], secondActions[currentActionIndex])
      requires AtRunStart(firstActions, currentActionIndex)
      modifies this
      ensures error.Some? ==> Plotted(sizes, firstActions, secondActions) == Failed(error.value)
      ensures error.None? ==>
        && Tables().InRange() && Valid() && old(currentActionIndex) <= currentActionIndex < |firstActions|
        && Drawn(currentActionIndex + 1) && AtRunStart(firstActions, currentActionIndex + 1)
    {
      ValidMeans();
      hide Valid, Flattened, Place, Draw, Plotted, AllReadable;
      var a, b := firstActions[currentActionIndex], secondActions[currentActionIndex];
      if a.ClipAction? {
        ClipStep(sizes, firstActions, secondActions, currentActionIndex, Now());
        Clip(a, b);
        ValidMeans();
      } else {
        var figure := Extrapolate();
        if figure.Failed? {
          return Some(figure.error);
        }
        Push(figure.value);
        ValidMeans();
      }
      error := None;
    }

    /** Marks the layers whose axis line starts on the border of a clipping area. */
    method MarkAxisTextLayers()
      requires AxesOk(layers, axisTextLayerIndices, lineActions, state, currentLineAction)
      modifies `layers
      ensures Flattened(layers) == old(Flattened(layers)) && |layers| == old(|layers|)
      ensures forall k :: 0 <= k < |layers| ==>
        layers[k] ==
        old(layers[k]).(isAxisText :=
                          LabelsAxis(firstClippingAreas, axisTextLayerIndices, lineActions, |lineActions|, k))
    {
      for i := 0 to |axisTextLayerIndices|
        invariant |layers| == old(|layers|)
        invariant forall k :: 0 <= k < |layers| ==>
          layers[k] == old(layers[k]).(isAxisText :=
                                       LabelsAxis(firstClippingAreas, axisTextLayerIndices, lineActions, i, k))
      {
        var touches := TouchesAnyClippingArea(lineActions[i].value.from);
        if touches {
          var layerIndex := axisTextLayerIndices[i];
          layers := layers[layerIndex := layers[layerIndex].(isAxisText := true)];
        }
      }
      MarksDoNotShow(old(layers), layers);
    }

    method TouchesAnyClippingArea(point: Point) returns (touches: bool)
      ensures touches == TouchesAny(firstClippingAreas, point)
    {
      for i := 0 to |firstClippingAreas|
        invariant forall j :: 0 <= j < i ==> !Touches(point, firstClippingAreas[j])
      {
        if Touches(point, firstClippingAreas[i]) {
          return true;
        }
      }
      return false;
    }

    /** The whole parse: it fails exactly when drawing the actions one by one fails, with the same
        error; otherwise the layers together hold what drawing one by one leaves on the page. */
    method Parse() returns (error: Option<PlotError>)
      requires Tables().InRange() && Valid() && Now() == Page(EmptyCanvas(sizes.0, sizes.1), []) &&
          currentActionIndex == -1
      requires AllReadable(firstActions, secondActions)
      modifies this
      ensures
        match Plotted(sizes, firstActions, secondActions)
        case Failed(e) => error == Some(e)
        case Ok(page) => error == None && Tables() == page.canvas && Flattened(layers) == page.figures
      ensures error.None? ==>
        && IsInverse(palette, color2Indices) && currentActionIndex == |firstActions|
        && AxesMarked(layers, firstClippingAreas, axisTextLayerIndices, lineActions)
    {
      if |firstActions| != |secondActions| {
        return Some(MismatchingActions);
      }
      hide Valid, AllReadable, AxesMarked, Flattened;
      DrawNothing(sizes, firstActions, secondActions);
      hide Draw, Plotted;
      error := ParseActions();
      if error.None? {
        Finish();
      }
    }

    method ParseActions() returns (error: Option<PlotError>)
      requires Tables().InRange() && Valid() && Drawn(0) && currentActionIndex == -1
      modifies this
      ensures error.Some? ==> Plotted(sizes, firstActions, secondActions) == Failed(error.value)
      ensures error.None? ==> Valid() && Drawn(|firstActions|) && currentActionIndex == |firstActions|
    {
      hide Valid, Flattened, Place, Draw, Plotted, AllReadable, SameKind, AtRunStart;
      assert AtRunStart(firstActions, 0) by { StartsRun(firstActions); }
      var more := MoveNextAction();
      while more == Ok(true)
        invariant 0 <= currentActionIndex <= |firstActions|
        invariant Tables().InRange() && Valid() && Drawn(currentActionIndex)
        invariant AtRunStart(firstActions, currentActionIndex)
        invariant
          more == if currentActionIndex == |firstActions| then Ok(false)
                  else if SameKind(firstActions[currentActionIndex], secondActions[currentActionIndex]) then Ok(true)
                  else Failed(MismatchingActions)
        decreases |firstActions| - currentActionIndex
      {
        error := ParseCurrent();
        if error.Some? {
          return;
        }
        more := MoveNextAction();
      }
      if more.Failed? {
        MismatchFails(sizes, firstActions, secondActions, currentActionIndex);
        return Some(more.error);
      }
      error := None;
    }

    method Finish()
      requires Valid() && Drawn(currentActionIndex) && currentActionIndex == |firstActions|
      modifies `layers, `currentFigures, `axisTextLayerIndices, `lineActions
      ensures Plotted(sizes, firstActions, secondActions) == Ok(Page(Tables(), Flattened(layers)))
      ensures IsInverse(palette, color2Indices)
      ensures AxesMarked(layers, firstClippingAreas, axisTextLayerIndices, lineActions)
    {
      hide Flattened, Place, Draw, AllReadable;
      Flush();
      AllInLayers(layers, currentViewportIndex, currentClippingAreaIndex);
      ghost var unmarked := layers;
      MarkAxisTextLayers();
    }

    /** The colours of the plot by their indices. */
    method BuildColors() returns (colors: seq<Color>)
      requires IsInverse(palette, color2Indices)
      ensures colors == palette
    {
      colors := seq(|color2Indices|, _ => 0);
      var left := color2Indices.Keys;
      while left != {}
        invariant left <= color2Indices.Keys && |colors| == |palette|
        invariant forall i :: 0 <= i < |palette| && palette[i] !in left ==> colors[i] == palette[i]
        decreases left
      {
        var color :| color in left;
        left := left - {color};
        assert color in palette;
        colors := colors[color2Indices[color] := color];
      }
    }
  }

  lemma InitialColors()
    ensures Registered(BLACK, [], SameColor) == [BLACK] && Registered(WHITE, [BLACK], SameColor) == [BLACK, WHITE]
    ensures Registered(DEFAULT_FONT, [], CloseFonts) == [DEFAULT_FONT]
    ensures !IsTransparent(BLACK) && !IsTransparent(WHITE)
    ensures IsInverse([], map[])
  {
  }

  lemma ColorIsKnown(palette: seq<Color>, indices: map<Color, int>, color: Color)
    requires IsInverse(palette, indices) && color in indices
    ensures IndexOf(color, palette, SameColor) == indices[color] < |palette|
  {
    var i := IndexOf(color, palette, SameColor);
    var k :| 0 <= k < |palette| && palette[k] == color;
    assert SameColor(color, palette[k]);
    assert SameColor(color, palette[i]);
  }

  lemma ColorIsNew(palette: seq<Color>, indices: map<Color, int>, color: Color)
    requires IsInverse(palette, indices) && color !in indices
    ensures IndexOf(color, palette, SameColor) == |palette| == |indices|
    ensures IsInverse(palette + [color], indices[color := |indices|])
  {
    assert forall i :: 0 <= i < |palette| ==> !SameColor(color, palette[i]);
    forall c ensures c in indices[color := |indices|] <==> c in palette + [color] {}
  }

  /** Leaving an axis is always possible, and its texts follow its lines. */
  lemma AxesFor(layers: seq<Layer>, indices: seq<nat>, lines: seq<Option<Action>>, state: State, newState: State,
                line: Option<Action>)
    requires AxesOk(layers, indices, lines, state, line) && (newState != Initial ==> state != Initial)
    ensures AxesOk(layers, indices, lines, newState, line)
  {
  }

  lemma FlushKeepsAxes(layers: seq<Layer>, indices: seq<nat>, lines: seq<Option<Action>>, state: State,
                       line: Option<Action>, layer: Layer)
    requires AxesOk(layers, indices, lines, state, line) && layer.figures != [] && !layer.isAxisText
    ensures
      if state == AxisText then AxesOk(layers + [layer], indices + [|layers|], lines + [line], state, line)
      else AxesOk(layers + [layer], indices, lines, state, line)
  {
  }

  /** What an action other than a clip or a circle does to the page, before its figure is added. */
  ghost predicate Became(before: Page, after: Page, a: Action, b: Action, r: Result<Figure>)
    requires before.canvas.InRange() && SameKind(a, b) && Readable(a, b) && !a.ClipAction? && !a.CircleAction?
  {
    && r == Image(before.canvas, a, b, false)
    && (r.Ok? ==>
          && after.canvas == Grown(before.canvas, a)
          && after.figures == if CoversPage(before.canvas, a) then [] else before.figures)
  }

  lemma {:induction false} PathFails(firstArea: Rectangle, first: seq<seq<Point>>, secondArea: Rectangle,
                                     second: seq<seq<Point>>, i: nat, n: nat)
    requires i <= n <= |first| == |second| && PathIn(firstArea, first, secondArea, second, i).Failed?
    ensures PathIn(firstArea, first, secondArea, second, n) == PathIn(firstArea, first, secondArea, second, i)
    decreases n
  {
    if i < n { PathFails(firstArea, first, secondArea, second, i, n - 1); }
  }

  lemma NoLayers(viewport: nat, clip: nat, state: State, line: Option<Action>)
    requires state != Initial ==> line.Some? && line.value.LineAction?
    ensures AxesOk([], [], [], state, line) && Flattened([]) + Place([], viewport, clip) == []
  {
  }

  lemma EmptyTables(firstSize: Size, secondSize: Size)
    ensures EmptyCanvas(firstSize, secondSize).InRange()
    ensures
      EmptyCanvas(firstSize, secondSize) ==
      Canvas([PageOf(firstSize)], [PageOf(secondSize)], [FULL_SCREEN], [BLACK, WHITE], [], [DEFAULT_FONT], 0, 0)
  {
    hide PageOf;
  }

  /** A layer shows its figures. */
  lemma LayerShows(layers: seq<Layer>, layer: Layer)
    ensures
      Flattened(layers + [layer]) + Place([], layer.viewport, layer.clip) ==
      Flattened(layers) + Place(layer.figures, layer.viewport, layer.clip)
  {
    assert (layers + [layer])[..|layers|] == layers;
    NothingPlaced(layer.viewport, layer.clip);
    hide Place;
  }

  lemma NothingPlaced(viewport: nat, clip: nat)
    ensures Place([], viewport, clip) == []
  {
  }

  lemma PlaceOneMore(figures: seq<Figure>, figure: Figure, viewport: nat, clip: nat)
    ensures Place(figures + [figure], viewport, clip) ==
        Place(figures, viewport, clip) + [Placed(figure, viewport, clip)]
  {
  }

  lemma MismatchFails(sizes: (Size, Size), first: seq<Action>, second: seq<Action>, n: nat)
    requires n < |first| == |second| && AllReadable(first, second)
    requires Draw(sizes, first, second, n).Ok? && !SameKind(first[n], second[n])
    ensures Plotted(sizes, first, second) == Failed(MismatchingActions)
  {
    hide IsMasked, SameKind;
    FailureStays(sizes, first, second, n + 1, |first|);
  }

  /** A whole run of circles. */
  ghost predicate IsRun(actions: seq<Action>, start: nat, end: nat) {
    && CirclesBetween(actions, start, end)
    && (start > 0 ==> !actions[start - 1].CircleAction?)
    && (end < |actions| ==> !actions[end].CircleAction?)
  }

  lemma SingleIsVisible(centers: seq<Point>, area: Rectangle)
    requires |centers| == 1
    ensures !CirclePreview.Hidden(centers, area, 0)
  {
  }

  lemma CircleStep(sizes: (Size, Size), first: seq<Action>, second: seq<Action>, start: nat, end: nat, i: nat,
                   page: Page, figure: Figure)
    requires |first| == |second| && AllReadable(first, second) && start <= i < end
    requires IsRun(first, start, end) && CirclesBetween(second, start, end)
    requires Draw(sizes, first, second, i) == Ok(page)
    requires
      var masked := CirclePreview.Hidden(Centers(first[start..end]), page.canvas.firstAreas[page.canvas.clip],
                                         i - start);
      Ok(figure) == Image(page.canvas, first[i], second[i], masked)
    ensures
      Draw(sizes, first, second, i + 1) ==
      Ok(Page(Grown(page.canvas, first[i]), page.figures + [Placed(figure, page.canvas.viewport, page.canvas.clip)]))
  {
    hide Draw, Image, Grown, Centers, CirclePreview.Hidden, IsMasked, Step;
    DrawNext(sizes, first, second, i, page);
    MaskInRun(page.canvas, first, start, end, i);
    StepOfCircle(page, first[i], second[i], IsMasked(page.canvas, first, i));
  }

  lemma MaskInRun(c: Canvas, actions: seq<Action>, start: nat, end: nat, i: nat)
    requires c.InRange() && start <= i < end && IsRun(actions, start, end)
    ensures
      IsMasked(c, actions, i) <==>
      CirclePreview.Hidden(Centers(actions[start..end]), c.firstAreas[c.clip], i - start)
  {
    hide Centers, CirclePreview.Hidden, RunStart, RunEnd;
    RunIsWhole(actions, start, end, i);
  }

  /** The n-th action, if it is a circle, is the first one of its run. */
  ghost predicate AtRunStart(actions: seq<Action>, n: int) {
    0 < n < |actions| && actions[n].CircleAction? ==> !actions[n - 1].CircleAction?
  }

  lemma ReadableAt(first: seq<Action>, second: seq<Action>, n: nat)
    requires n < |first| == |second| && AllReadable(first, second)
    ensures Readable(first[n], second[n])
  {
  }

  lemma OtherStep(sizes: (Size, Size), first: seq<Action>, second: seq<Action>, n: nat, before: Page, after: Page,
                  r: Result<Figure>)
    requires n < |first| == |second| && AllReadable(first, second) && Draw(sizes, first, second, n) == Ok(before)
    requires SameKind(first[n], second[n]) && !first[n].ClipAction? && !first[n].CircleAction?
    requires Became(before, after, first[n], second[n], r)
    ensures r.Failed? ==> Plotted(sizes, first, second) == Failed(r.error)
    ensures r.Ok? ==>
      && after.canvas.viewport == before.canvas.viewport && after.canvas.clip == before.canvas.clip
      && Draw(sizes, first, second, n + 1) ==
         Ok(Page(after.canvas, after.figures + [Placed(r.value, after.canvas.viewport, after.canvas.clip)]))
  {
    DrawNext(sizes, first, second, n, before);
    GrownStaysInRange(before.canvas, first[n]);
    MaskIsForCircles(before.canvas, first[n], second[n], IsMasked(before.canvas, first, n));
    hide Draw, Image, Grown, IsMasked, SameKind;
    if r.Failed? { FailureStays(sizes, first, second, n + 1, |first|); }
  }

  lemma MaskIsForCircles(c: Canvas, a: Action, b: Action, masked: bool)
    requires c.InRange() && SameKind(a, b) && Readable(a, b) && !a.ClipAction? && !a.CircleAction?
    ensures Image(c, a, b, masked) == Image(c, a, b, false)
  {
  }

  lemma ClipStep(sizes: (Size, Size), first: seq<Action>, second: seq<Action>, n: nat, page: Page)
    requires n < |first| == |second| && AllReadable(first, second) && Draw(sizes, first, second, n) == Ok(page)
    requires first[n].ClipAction? && second[n].ClipAction?
    ensures Draw(sizes, first, second, n + 1) == Ok(page.(canvas := ClipTo(page.canvas, first[n].area, second[n].area)))
  {
    DrawNext(sizes, first, second, n, page);
    hide Draw, ClipTo, IsMasked;
  }

  lemma AllInLayers(layers: seq<Layer>, viewport: nat, clip: nat)
    ensures Flattened(layers) + Place([], viewport, clip) == Flattened(layers)
  {
  }

  lemma DrawNothing(sizes: (Size, Size), first: seq<Action>, second: seq<Action>)
    requires |first| == |second| && AllReadable(first, second)
    ensures Draw(sizes, first, second, 0) == Ok(Page(EmptyCanvas(sizes.0, sizes.1), []))
  {
  }

  predicate TouchesAny(areas: seq<Rectangle>, point: Point) {
    exists i :: 0 <= i < |areas| && Touches(point, areas[i])
  }

  /** One of the first n candidates is layer k, and its line starts on the border of an area. */
  predicate LabelsAxis(areas: seq<Rectangle>, indices: seq<nat>, lines: seq<Option<Action>>, n: nat, k: nat)
    requires n <= |lines| == |indices| && forall i :: 0 <= i < |lines| ==> lines[i].Some? && lines[i].value.LineAction?
  {
    exists i :: 0 <= i < n && indices[i] == k && TouchesAny(areas, lines[i].value.from)
  }

  /** Every candidate is a layer with a line of its own, and a layer is marked exactly when it is a
      candidate whose line starts on the border of a clipping area. */
  ghost predicate AxesMarked(layers: seq<Layer>, areas: seq<Rectangle>, indices: seq<nat>, lines: seq<Option<Action>>) {
    && |indices| == |lines|
    && (forall i :: 0 <= i < |indices| ==> indices[i] < |layers| && lines[i].Some? && lines[i].value.LineAction?)
    && (forall i, j :: 0 <= i < j < |indices| ==> indices[i] < indices[j])
    && (forall k :: 0 <= k < |layers| ==>
          layers[k].figures != [] && (layers[k].isAxisText <==> LabelsAxis(areas, indices, lines, |lines|, k)))
  }

  lemma {:induction false} MarksDoNotShow(before: seq<Layer>, after: seq<Layer>)
    requires |before| == |after|
    requires forall k :: 0 <= k < |before| ==> after[k] == before[k].(isAxisText := after[k].isAxisText)
    ensures Flattened(after) == Flattened(before)
  {
    hide Place;
    if before != [] {
      MarksDoNotShow(before[..|before| - 1], after[..|after| - 1]);
    }
  }

  lemma StartsRun(actions: seq<Action>)
    ensures AtRunStart(actions, 0)
  {
  }

  lemma NotCovering(c: Canvas, a: Action)
    requires c.InRange() && !a.RectangleAction?
    ensures !CoversPage(c, a) && Grown(c, a).InRange()
  {
    GrownStaysInRange(c, a);
  }
}

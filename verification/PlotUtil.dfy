/** The plot made of two recordings at different sizes. */
module PlotUtil {
  import opened Wrappers
  import opened PlotGeometry
  import opened PlotLayout
  import opened PlotCanvas
  import PlotParser
  import opened PlotLaws

  datatype Plot = Plot(fonts: seq<Font>, colors: seq<Color>, strokes: seq<Stroke>, viewports: seq<Viewport>,
                       layers: seq<PlotParser.Layer>, error: Option<PlotError>)

  /** Viewports form a forest, no colour is listed twice, and every layer shows figures in viewports
      and with colours, strokes and fonts that the plot lists. */
  ghost predicate IsSound(p: Plot) {
    && IsForest(p.viewports) && NoDuplicates(p.colors)
    && (forall k: nat :: k < |p.layers| ==> LayerOk(p, p.layers[k]))
  }

  ghost predicate LayerOk(p: Plot, layer: PlotParser.Layer) {
    && layer.figures != [] && layer.viewport < |p.viewports| && layer.clip < |p.viewports|
    && (forall i: nat :: i < |layer.figures| ==> FigureOk(layer.figures[i], |p.strokes|, |p.colors|, |p.fonts|))
  }

  /** Only what a client needs to show a message. */
  function EmptyPlot(error: PlotError): Plot {
    Plot([DEFAULT_FONT], [BLACK, WHITE], [], [FULL_SCREEN], [], Some(error))
  }

  method BuildPlot(parser: PlotParser.DifferentialParser, error: Option<PlotError>) returns (plot: Plot)
    requires PlotParser.IsInverse(parser.palette, parser.color2Indices)
    ensures plot == Plot(parser.fonts, parser.palette, parser.strokes, parser.viewports, parser.layers, error)
  {
    var colors := parser.BuildColors();
    plot := Plot(parser.fonts, colors, parser.strokes, parser.viewports, parser.layers, error);
  }

  method CreatePlotWithError(error: PlotError) returns (plot: Plot)
    ensures plot == EmptyPlot(error)
  {
    var parser := new PlotParser.DifferentialParser(Size(0.0, 0.0), [], Size(0.0, 0.0), []);
    plot := BuildPlot(parser, Some(error));
  }

  lemma EmptyIsSound(error: PlotError)
    ensures IsSound(EmptyPlot(error))
  {
  }

  /** A plot with the tables of the finished drawing and its figures in layers. */
  lemma PlotIsSound(sizes: (Size, Size), first: seq<Action>, second: seq<Action>, plot: Plot)
    requires AllReadable(first, second) && Plotted(sizes, first, second).Ok?
    requires forall layer <- plot.layers :: layer.figures != []
    requires
      var page := Plotted(sizes, first, second).value;
      && PlotParser.Flattened(plot.layers) == page.figures && plot.viewports == page.canvas.viewports
      && plot.colors == page.canvas.palette && plot.strokes == page.canvas.strokes && plot.fonts == page.canvas.fonts
    ensures IsSound(plot)
  {
    var page := Plotted(sizes, first, second).value;
    DrawStaysSound(sizes, first, second, |first|);
    hide FigureOk, Draw, PlotParser.Flattened;
    forall k: nat | k < |plot.layers| ensures LayerOk(plot, plot.layers[k]) {
      assert plot.layers[k] in plot.layers;
      LayersAreSound(plot.layers, page.canvas, k, 0);
      forall i: nat | i < |plot.layers[k].figures|
        ensures FigureOk(plot.layers[k].figures[i], |plot.strokes|, |plot.colors|, |plot.fonts|)
      {
        LayersAreSound(plot.layers, page.canvas, k, i);
      }
    }
  }

  lemma NoEmptyLayer(layers: seq<PlotParser.Layer>, areas: seq<Rectangle>, indices: seq<nat>,
                     lines: seq<Option<Action>>)
    requires PlotParser.AxesMarked(layers, areas, indices, lines)
    ensures forall layer <- layers :: layer.figures != []
  {
  }

  /** The plot of two recordings: it carries an error exactly when drawing action by action fails, and is
      empty then; otherwise its layers together show the figures of all actions from the last one that
      covers the page on, in order, and all its indices are valid. */
  method Extrapolate(firstSize: Size, firstActions: seq<Action>, secondSize: Size, secondActions: seq<Action>)
    returns (plot: Plot)
    requires AllReadable(firstActions, secondActions)
    ensures IsSound(plot)
    ensures plot.error.None? <==> Plotted((firstSize, secondSize), firstActions, secondActions).Ok?
    ensures plot.error.Some? ==>
      && plot == EmptyPlot(plot.error.value)
      && Plotted((firstSize, secondSize), firstActions, secondActions) == Failed(plot.error.value)
    ensures plot.error.None? ==>
      var sizes, n := (firstSize, secondSize), |firstActions|;
      && n == |secondActions|
      && PlotParser.Flattened(plot.layers) ==
         ImagesFrom(sizes, firstActions, secondActions, LastCover(sizes, firstActions, secondActions, n), n)
      && plot.colors == Draw(sizes, firstActions, secondActions, n).value.canvas.palette
      && plot.strokes == Draw(sizes, firstActions, secondActions, n).value.canvas.strokes
      && plot.fonts == Draw(sizes, firstActions, secondActions, n).value.canvas.fonts
      && plot.viewports == Draw(sizes, firstActions, secondActions, n).value.canvas.viewports
  {
    hide PlotParser.AxesMarked, PlotParser.Flattened, PlotParser.AxesOk, PlotParser.IsInverse, AllReadable, IsSound,
         Draw, ImagesFrom, LastCover;
    var parser := new PlotParser.DifferentialParser(firstSize, firstActions, secondSize, secondActions);
    var error := parser.Parse();
    if error.Some? {
      plot := CreatePlotWithError(error.value);
      EmptyIsSound(error.value);
    } else {
      plot := BuildPlot(parser, None);
      NoEmptyLayer(parser.layers, parser.firstClippingAreas, parser.axisTextLayerIndices, parser.lineActions);
      PlotShowsImages((firstSize, secondSize), firstActions, secondActions, |firstActions|);
      PlotIsSound((firstSize, secondSize), firstActions, secondActions, plot);
    }
  }
}

/** Which viewports a plot has, and which one is drawn in. */
module PlotViewports {
  import opened Wrappers
  import opened PlotGeometry
  import opened PlotCanvas
  import opened PlotLaws

  /** The height follows the width along a straight line through both recordings; with one width
      there is no such line. */
  predicate FitsBoth(v: Viewport, first: Rectangle, second: Rectangle)
    requires v.FixedViewport?
  {
    if first.Width() == second.Width() then v.ratio == None && v.delta == None
    else
      && v.ratio.Some? && v.delta.Some?
      && first.Height() == v.ratio.value * first.Width() + v.delta.value
      && second.Height() == v.ratio.value * second.Width() + v.delta.value
  }

  lemma FixedFits(first: Rectangle, second: Rectangle, parent: int)
    ensures FitsBoth(ExtrapolateFixed(first, second, parent), first, second)
  {
    if first.Width() != second.Width() {
      var w, h := first.Width() - second.Width(), first.Height() - second.Height();
      assert h / w * w == h;
      assert h / w * w == h / w * first.Width() - h / w * second.Width();
    }
  }

  /** The areas seen before the i-th one, other than the parent itself, that lie in its parent. */
  predicate StandsAlone(areas: seq<Rectangle>, i: nat, parent: int)
    requires i < |areas| && 0 <= parent < |areas|
  {
    forall j :: 1 <= j < i && j != parent ==> !IsNested(areas[j], areas[parent])
  }

  /** How the i-th viewport came about: its parent is the first smallest area around it among those
      seen before, or the page; it is fixed exactly when it is centred between two sides of its parent and
      nothing else was in there. */
  predicate CameAbout(c: Canvas, i: nat)
    requires c.InRange() && 0 < i < |c.viewports|
  {
    var v, area := c.viewports[i], c.firstAreas[i];
    && 0 <= v.parent < i
    && (v.parent == 0 || IsNested(area, c.firstAreas[v.parent]))
    && (forall j :: 1 <= j < i && IsNested(area, c.firstAreas[j]) ==>
          && v.parent != 0 && AreaSize(c.firstAreas[v.parent]) <= AreaSize(c.firstAreas[j])
          && (j < v.parent ==> AreaSize(c.firstAreas[v.parent]) < AreaSize(c.firstAreas[j])))
    && (v.FixedViewport? <==> IsFixedRatio(area, c.firstAreas[v.parent]) && StandsAlone(c.firstAreas, i, v.parent))
    && (v.FixedViewport? ==> FitsBoth(v, area, c.secondAreas[i]))
  }

  ghost predicate AllCameAbout(c: Canvas)
    requires c.InRange()
  {
    forall i: nat :: 0 < i < |c.viewports| ==> CameAbout(c, i)
  }

  lemma {:induction false} ParentIsFirstSmallest(areas: seq<Rectangle>, rectangle: Rectangle, n: nat)
    requires 0 < n <= |areas|
    ensures
      var p := ParentOf(areas, rectangle, n);
      && 0 <= p < n && (p == 0 || IsNested(rectangle, areas[p]))
      && (forall j :: 1 <= j < n && IsNested(rectangle, areas[j]) ==>
            && p != 0 && AreaSize(areas[p]) <= AreaSize(areas[j])
            && (j < p ==> AreaSize(areas[p]) < AreaSize(areas[j])))
  {
    hide IsNested, AreaSize;
    if n > 1 { ParentIsFirstSmallest(areas, rectangle, n - 1); }
  }

  lemma NewOneCameAbout(c: Canvas, first: Rectangle, second: Rectangle, d: Canvas)
    requires c.InRange() && d.InRange()
    requires d.viewports == c.viewports + [NewViewport(c, first, second)]
    requires d.firstAreas == c.firstAreas + [first] && d.secondAreas == c.secondAreas + [second]
    ensures CameAbout(d, |c.viewports|)
  {
    var n := |c.viewports|;
    var parent := ParentOf(c.firstAreas, first, n);
    ParentIsFirstSmallest(c.firstAreas, first, n);
    FixedFits(first, second, parent);
    hide IsNested, AreaSize, IsFixedRatio, FitsBoth, ExtrapolateFixed, ExtrapolatePoint, ParentOf;
    assert forall j :: 0 <= j < n ==> d.firstAreas[j] == c.firstAreas[j];
  }

  lemma OlderOnesStay(c: Canvas, d: Canvas, i: nat)
    requires c.InRange() && d.InRange() && 0 < i < |c.viewports| && CameAbout(c, i)
    requires c.viewports <= d.viewports && c.firstAreas <= d.firstAreas && c.secondAreas <= d.secondAreas
    ensures CameAbout(d, i)
  {
    hide IsNested, AreaSize, IsFixedRatio, FitsBoth;
    assert forall j :: 0 <= j <= i ==> d.firstAreas[j] == c.firstAreas[j];
  }

  lemma ClipKeepsAll(c: Canvas, first: Rectangle, second: Rectangle)
    requires c.InRange() && AllCameAbout(c)
    ensures ClipTo(c, first, second).InRange() && AllCameAbout(ClipTo(c, first, second))
  {
    ClipStaysInRange(c, first, second);
    var d := ClipTo(c, first, second);
    hide NewViewport, ParentOf, IndexOf, CameAbout, CloseRectangles, Suggested;
    forall i: nat | 0 < i < |d.viewports| ensures CameAbout(d, i) {
      if i < |c.viewports| {
        OlderOnesStay(c, d, i);
      } else {
        NewOneCameAbout(c, first, second, d);
      }
    }
  }

  lemma GrownKeepsAll(c: Canvas, a: Action)
    requires c.InRange() && AllCameAbout(c)
    ensures Grown(c, a).InRange() && AllCameAbout(Grown(c, a))
  {
    GrownStaysInRange(c, a);
    GrownKeepsAreas(c, a);
    hide Grown, CameAbout;
    forall i: nat | 0 < i < |c.viewports| ensures CameAbout(Grown(c, a), i) {
      OlderOnesStay(c, Grown(c, a), i);
    }
  }

  lemma GrownKeepsAreas(c: Canvas, a: Action)
    ensures
      var d := Grown(c, a);
      && d.viewports == c.viewports && d.firstAreas == c.firstAreas && d.secondAreas == c.secondAreas
      && d.clip == c.clip && d.viewport == c.viewport
  {
    hide Registered, IsTransparent;
  }

  lemma StepKeepsAll(sizes: (Size, Size), first: seq<Action>, second: seq<Action>, n: nat, page: Page)
    requires n < |first| == |second| && AllReadable(first, second)
    requires Draw(sizes, first, second, n) == Ok(page) && Draw(sizes, first, second, n + 1).Ok?
    requires AllCameAbout(page.canvas)
    ensures AllCameAbout(Draw(sizes, first, second, n + 1).value.canvas)
  {
    hide AllCameAbout, Image, Grown, ClipTo, CoversPage, IsMasked;
    DrawNext(sizes, first, second, n, page);
    hide Draw;
    if first[n].ClipAction? {
      ClipKeepsAll(page.canvas, first[n].area, second[n].area);
    } else {
      GrownKeepsAll(page.canvas, first[n]);
    }
  }

  lemma StartCameAbout(sizes: (Size, Size), first: seq<Action>, second: seq<Action>)
    requires |first| == |second| && AllReadable(first, second) && Draw(sizes, first, second, 0).Ok?
    ensures AllCameAbout(Draw(sizes, first, second, 0).value.canvas)
  {
  }

  /** In every plot the viewports came about as they should. */
  lemma {:induction false} ViewportsCameAbout(sizes: (Size, Size), first: seq<Action>, second: seq<Action>, n: nat)
    requires n <= |first| == |second| && AllReadable(first, second) && Draw(sizes, first, second, n).Ok?
    ensures AllCameAbout(Draw(sizes, first, second, n).value.canvas)
  {
    hide AllCameAbout, Draw;
    if n == 0 {
      StartCameAbout(sizes, first, second);
    } else {
      DrawnBefore(sizes, first, second, n - 1);
      ViewportsCameAbout(sizes, first, second, n - 1);
      StepKeepsAll(sizes, first, second, n - 1, Draw(sizes, first, second, n - 1).value);
    }
  }

  // ----- Where drawing goes on -----

  /** A clip to the whole page goes on in the surrounding viewport when that one is fixed, and otherwise in
      the page's own; any other clip goes on in the viewport of an area close to the requested one. */
  lemma ClipsMoveOn(sizes: (Size, Size), first: seq<Action>, second: seq<Action>, n: nat)
    requires n < |first| == |second| && AllReadable(first, second) && first[n].ClipAction?
    requires Draw(sizes, first, second, n + 1).Ok?
    ensures Draw(sizes, first, second, n).Ok?
    ensures
      var c, d := Draw(sizes, first, second, n).value.canvas, Draw(sizes, first, second, n + 1).value.canvas;
      var around := c.viewports[c.viewport].parent;
      && |d.firstAreas| > 0
      && if CloseRectangles(first[n].area, d.firstAreas[0]) then
           && d.clip == 0
           && d.viewport == if 0 <= around < |c.viewports| && c.viewports[around].FixedViewport? then around else 0
         else
           && 0 < d.viewport == d.clip < |d.firstAreas|
           && (CloseRectangles(first[n].area, d.firstAreas[d.clip]) || d.firstAreas[d.clip] == first[n].area)
  {
    DrawnBefore(sizes, first, second, n);
    var page := Draw(sizes, first, second, n).value;
    DrawNext(sizes, first, second, n, page);
    hide Draw, IsMasked, NewViewport, ParentOf, CloseRectangles;
  }
}

/** Resizing a plot to one of its two recorded sizes gives back what was recorded at that size. */
module PlotLayout {
  import opened PlotGeometry

  lemma FirstIsExact(firstSide: real, first: real, secondSide: real, second: real)
    ensures ExtrapolateCoordinate(firstSide, first, secondSide, second).At(firstSide) == first
  {
  }

  lemma SecondIsExact(firstSide: real, first: real, secondSide: real, second: real)
    ensures
      ExtrapolateCoordinate(firstSide, first, secondSide, second).At(secondSide) == second <==>
      Determined(firstSide, first, secondSide, second)
  {
    if !IsClose(firstSide, secondSide) {
      var d := firstSide - secondSide;
      var scale := (first - second) / d;
      assert scale * d == first - second;
      assert scale * secondSide + (first - scale * firstSide) == first - scale * d;
    }
  }

  /** The coordinate was recorded twice with different sides, or stays where it is. */
  predicate Determined(firstSide: real, first: real, secondSide: real, second: real) {
    !IsClose(firstSide, secondSide) || first == second
  }

  predicate PointDetermined(firstArea: Rectangle, first: Point, secondArea: Rectangle, second: Point) {
    && Determined(firstArea.Width(), first.x - firstArea.from.x, secondArea.Width(), second.x - secondArea.from.x)
    && Determined(firstArea.Height(), first.y - firstArea.from.y, secondArea.Height(), second.y - secondArea.from.y)
  }

  lemma {:induction false} PointIsExact(firstArea: Rectangle, first: Point, secondArea: Rectangle, second: Point)
    ensures
      var p := ExtrapolatePoint(firstArea, first, secondArea, second);
      && p.In(firstArea) == first
      && (p.In(secondArea) == second <==> PointDetermined(firstArea, first, secondArea, second))
  {
    hide AffineCoordinate.At, ExtrapolateCoordinate;
    var w, w' := firstArea.Width(), secondArea.Width();
    var h, h' := firstArea.Height(), secondArea.Height();
    FirstIsExact(w, first.x - firstArea.from.x, w', second.x - secondArea.from.x);
    FirstIsExact(h, first.y - firstArea.from.y, h', second.y - secondArea.from.y);
    SecondIsExact(w, first.x - firstArea.from.x, w', second.x - secondArea.from.x);
    SecondIsExact(h, first.y - firstArea.from.y, h', second.y - secondArea.from.y);
  }

  // ----- Viewports -----

  /** Every viewport but the root names a parent before it. */
  predicate IsForest(viewports: seq<Viewport>) {
    && |viewports| > 0 && viewports[0] == FULL_SCREEN
    && (forall i :: 0 < i < |viewports| ==> 0 <= viewports[i].parent < i)
  }

  /** The viewport and all those around it are free. */
  predicate FreeChain(viewports: seq<Viewport>, i: nat)
    requires IsForest(viewports) && i < |viewports|
  {
    viewports[i].FreeViewport? && (i == 0 || FreeChain(viewports, viewports[i].parent))
  }

  /** The area of a viewport when the page has the area `page`. */
  function AreaOf(viewports: seq<Viewport>, i: nat, page: Rectangle): Rectangle
    requires IsForest(viewports) && i < |viewports| && FreeChain(viewports, i)
  {
    var outer := if i == 0 then page else AreaOf(viewports, viewports[i].parent, page);
    Rectangle(viewports[i].from.In(outer), viewports[i].to.In(outer))
  }

  /** Each free viewport was extrapolated inside its parent, from its areas at the two sizes. */
  predicate Recorded(viewports: seq<Viewport>, firstAreas: seq<Rectangle>, secondAreas: seq<Rectangle>) {
    && IsForest(viewports) && |viewports| == |firstAreas| == |secondAreas|
    && (forall i :: 0 < i < |viewports| && viewports[i].FreeViewport? ==>
          ViewportRecorded(viewports[i], firstAreas, secondAreas, i, viewports[i].parent))
  }

  predicate ViewportRecorded(v: Viewport, firstAreas: seq<Rectangle>, secondAreas: seq<Rectangle>, i: nat, parent: nat)
    requires i < |firstAreas| == |secondAreas| && parent < |firstAreas|
  {
    v == FreeViewport(
           ExtrapolatePoint(firstAreas[parent], firstAreas[i].from, secondAreas[parent], secondAreas[i].from),
           ExtrapolatePoint(firstAreas[parent], firstAreas[i].to, secondAreas[parent], secondAreas[i].to),
           parent)
  }

  /** Both corners of the viewport, and of those around it, are determined in their parents. */
  predicate ChainDetermined(viewports: seq<Viewport>, firstAreas: seq<Rectangle>, secondAreas: seq<Rectangle>, i: nat)
    requires Recorded(viewports, firstAreas, secondAreas) && i < |viewports|
  {
    i > 0 ==>
      var p: nat := viewports[i].parent;
      && PointDetermined(firstAreas[p], firstAreas[i].from, secondAreas[p], secondAreas[i].from)
      && PointDetermined(firstAreas[p], firstAreas[i].to, secondAreas[p], secondAreas[i].to)
      && ChainDetermined(viewports, firstAreas, secondAreas, p)
  }

  lemma RootIsPage(page: Rectangle)
    ensures Rectangle(TOP_LEFT.In(page), BOTTOM_RIGHT.In(page)) == page
  {
  }

  lemma {:induction false} FirstAreasAreExact(viewports: seq<Viewport>, firstAreas: seq<Rectangle>,
                                              secondAreas: seq<Rectangle>, i: nat)
    requires Recorded(viewports, firstAreas, secondAreas) && i < |viewports| && FreeChain(viewports, i)
    ensures AreaOf(viewports, i, firstAreas[0]) == firstAreas[i]
  {
    hide AffinePoint.In, ExtrapolatePoint;
    if i == 0 {
      RootIsPage(firstAreas[0]);
    } else {
      var p: nat := viewports[i].parent;
      assert ViewportRecorded(viewports[i], firstAreas, secondAreas, i, p);
      FirstAreasAreExact(viewports, firstAreas, secondAreas, p);
      PointIsExact(firstAreas[p], firstAreas[i].from, secondAreas[p], secondAreas[i].from);
      PointIsExact(firstAreas[p], firstAreas[i].to, secondAreas[p], secondAreas[i].to);
    }
  }

  /** At the second size, the viewport and all those around it have their second areas. */
  predicate SecondAreasHold(viewports: seq<Viewport>, secondAreas: seq<Rectangle>, i: nat)
    requires IsForest(viewports) && |viewports| == |secondAreas| && i < |viewports| && FreeChain(viewports, i)
  {
    && AreaOf(viewports, i, secondAreas[0]) == secondAreas[i]
    && (i > 0 ==> SecondAreasHold(viewports, secondAreas, viewports[i].parent))
  }

  lemma {:induction false} SecondAreasAreExact(viewports: seq<Viewport>, firstAreas: seq<Rectangle>,
                                               secondAreas: seq<Rectangle>, i: nat)
    requires Recorded(viewports, firstAreas, secondAreas) && i < |viewports| && FreeChain(viewports, i)
    ensures
      SecondAreasHold(viewports, secondAreas, i) <==> ChainDetermined(viewports, firstAreas, secondAreas, i)
  {
    hide AffinePoint.In, ExtrapolatePoint, PointDetermined;
    if i == 0 {
      RootIsPage(secondAreas[0]);
    } else {
      var p: nat := viewports[i].parent;
      assert ViewportRecorded(viewports[i], firstAreas, secondAreas, i, p);
      SecondAreasAreExact(viewports, firstAreas, secondAreas, p);
      PointIsExact(firstAreas[p], firstAreas[i].from, secondAreas[p], secondAreas[i].from);
      PointIsExact(firstAreas[p], firstAreas[i].to, secondAreas[p], secondAreas[i].to);
    }
  }

  /** A point recorded in viewport i: at the first size it always comes back; at the second size,
      inside determined viewports, exactly when the point itself is determined. */
  lemma {:induction false} LayoutIsExact(viewports: seq<Viewport>, firstAreas: seq<Rectangle>,
                                         secondAreas: seq<Rectangle>, i: nat, first: Point, second: Point)
    requires Recorded(viewports, firstAreas, secondAreas) && i < |viewports| && FreeChain(viewports, i)
    ensures
      var p := ExtrapolatePoint(firstAreas[i], first, secondAreas[i], second);
      && p.In(AreaOf(viewports, i, firstAreas[0])) == first
      && (ChainDetermined(viewports, firstAreas, secondAreas, i) ==>
            (p.In(AreaOf(viewports, i, secondAreas[0])) == second <==>
             PointDetermined(firstAreas[i], first, secondAreas[i], second)))
  {
    hide AffinePoint.In, ExtrapolatePoint, PointDetermined, AreaOf;
    FirstAreasAreExact(viewports, firstAreas, secondAreas, i);
    PointIsExact(firstAreas[i], first, secondAreas[i], second);
    SecondAreasAreExact(viewports, firstAreas, secondAreas, i);
  }
}

/** Which circles of a run of circles a preview may leave out. */
module CirclePreview {
  import opened Wrappers
  import opened PlotGeometry

  const MAX_CIRCLES_PER_CELL := 250
  const CIRCLE_DISTANCE_THRESHOLD := 12.0 / 72.0

  /** The centres are closer than the threshold. */
  predicate TooClose(a: Point, b: Point) {
    SquaredDistance(a, b) < CIRCLE_DISTANCE_THRESHOLD * CIRCLE_DISTANCE_THRESHOLD
  }

  // ----- One cell -----

  ghost predicate HiddenBy(centers: seq<Point>, cell: seq<nat>, mask: seq<bool>, i: nat, j: nat)
    requires i < |cell| && InRange(cell, |centers|) && |mask| == |centers|
  {
    i < j < |cell| && !mask[cell[j]] && TooClose(centers[cell[j]], centers[cell[i]])
  }

  predicate InRange(cell: seq<nat>, n: nat) { forall i :: 0 <= i < |cell| ==> cell[i] < n }

  /** From position `from` on, the masked circles of a cell are those close to a later visible one. */
  ghost predicate ThinnedFrom(centers: seq<Point>, cell: seq<nat>, mask: seq<bool>, from: nat) {
    && InRange(cell, |centers|) && |mask| == |centers|
    && (forall i: nat :: from <= i < |cell| ==> (mask[cell[i]] <==>
                                                 exists j: nat :: HiddenBy(centers, cell, mask, i, j)))
  }

  ghost predicate Thinned(centers: seq<Point>, cell: seq<nat>, mask: seq<bool>) {
    ThinnedFrom(centers, cell, mask, 0)
  }

  method ThinCell(mask: array<bool>, centers: seq<Point>, cell: seq<nat>)
    requires mask.Length == |centers| && InRange(cell, |centers|) && NoDuplicates(cell)
    requires forall i :: 0 <= i < |cell| ==> !mask[cell[i]]
    modifies mask
    ensures Thinned(centers, cell, mask[..])
    ensures forall k: nat :: k < mask.Length && k !in cell ==> mask[k] == old(mask[k])
  {
    hide TooClose;
    if cell == [] {
      return;
    }
    for i := |cell| - 1 downto 0
      invariant ThinnedFrom(centers, cell, mask[..], i)
      invariant forall k :: 0 <= k < i ==> !mask[cell[k]]
      invariant forall k: nat :: k < mask.Length && k !in cell ==> mask[k] == old(mask[k])
    {
      var hidden := IsHidden(mask, centers, cell, i);
      ghost var before := mask[..];
      mask[cell[i]] := hidden;
      OneMore(centers, cell, before, mask[..], i);
    }
  }

  /** Is there a later visible circle close to the i-th one? */
  method IsHidden(mask: array<bool>, centers: seq<Point>, cell: seq<nat>, i: nat) returns (hidden: bool)
    requires mask.Length == |centers| && InRange(cell, |centers|) && i < |cell|
    ensures hidden <==> exists j: nat :: HiddenBy(centers, cell, mask[..], i, j)
  {
    hide TooClose;
    for j := i + 1 to |cell|
      invariant forall k: nat :: k < j ==> !HiddenBy(centers, cell, mask[..], i, k)
    {
      if !mask[cell[j]] && TooClose(centers[cell[j]], centers[cell[i]]) {
        assert HiddenBy(centers, cell, mask[..], i, j);
        return true;
      }
    }
    return false;
  }

  lemma OneMore(centers: seq<Point>, cell: seq<nat>, before: seq<bool>, after: seq<bool>, i: nat)
    requires InRange(cell, |centers|) && NoDuplicates(cell) && i < |cell|
    requires ThinnedFrom(centers, cell, before, i + 1) && |after| == |before|
    requires after == before[cell[i] := exists j: nat :: HiddenBy(centers, cell, before, i, j)]
    ensures ThinnedFrom(centers, cell, after, i)
  {
    hide TooClose;
    forall k: nat, j: nat | i <= k < |cell|
      ensures HiddenBy(centers, cell, after, k, j) <==> HiddenBy(centers, cell, before, k, j)
    {
    }
  }

  // ----- The grid -----

  function SquareRoot(n: nat): (r: nat)
    ensures r * r <= n < (r + 1) * (r + 1)
  {
    if n == 0 then 0 else
    var r := SquareRoot(n - 1);
    if (r + 1) * (r + 1) <= n then r + 1 else r
  }

  /** The row or column of a coordinate; an area without extent has one row and column. */
  function GridIndex(value: real, side: real, gridSide: nat): (index: nat)
    requires gridSide > 0
    ensures index < gridSide
  {
    var index := if side == 0.0 then 0 else (value / side * (gridSide as real)).Floor;
    if index < 0 then 0 else if index > gridSide - 1 then gridSide - 1 else index
  }

  function CellOf(center: Point, area: Rectangle, gridSide: nat): (cell: nat)
    requires gridSide > 0
    ensures cell < gridSide * gridSide
  {
    var x := GridIndex(center.x - area.from.x, area.Width(), gridSide);
    var y := GridIndex(center.y - area.from.y, area.Height(), gridSide);
    CellInGrid(x, y, gridSide);
    y * gridSide + x
  }

  lemma CellInGrid(x: nat, y: nat, gridSide: nat)
    requires x < gridSide && y < gridSide
    ensures y * gridSide + x < gridSide * gridSide
  {
    assert y * gridSide <= (gridSide - 1) * gridSide;
  }

  /** The first n circles that fall in a cell, in order. */
  function Members(centers: seq<Point>, area: Rectangle, gridSide: nat, cell: nat, n: nat): seq<nat>
    requires gridSide > 0 && n <= |centers|
  {
    if n == 0 then []
    else Members(centers, area, gridSide, cell, n - 1)
         + if CellOf(centers[n - 1], area, gridSide) == cell then [n - 1] else []
  }

  /** Every circle falls in its own cell and in no other, once; cells keep the order of the circles. */
  lemma {:induction false} CellsPartition(centers: seq<Point>, area: Rectangle, gridSide: nat, cell: nat, n: nat)
    requires gridSide > 0 && n <= |centers|
    ensures
      var members := Members(centers, area, gridSide, cell, n);
      && (forall i: nat :: i in members <==> i < n && CellOf(centers[i], area, gridSide) == cell)
      && (forall i, j :: 0 <= i < j < |members| ==> members[i] < members[j])
  {
    hide CellOf;
    if n > 0 {
      CellsPartition(centers, area, gridSide, cell, n - 1);
      var before, after := Members(centers, area, gridSide, cell, n - 1), Members(centers, area, gridSide, cell, n);
      forall i: nat ensures i in after <==> i < n && CellOf(centers[i], area, gridSide) == cell {
        assert i in after <==> i in before || (i == n - 1 && CellOf(centers[i], area, gridSide) == cell);
      }
      forall j | 0 <= j < |before| ensures before[j] < n - 1 { assert before[j] in before; }
    }
  }

  function UpTo(n: nat): (s: seq<nat>)
    ensures |s| == n && forall i :: 0 <= i < n ==> s[i] == i
  {
    seq(n, i requires i >= 0 => i)
  }

  /** The cells that are thinned one by one: all circles together when they are few. */
  function Cells(centers: seq<Point>, area: Rectangle): seq<seq<nat>> {
    var gridSide := SquareRoot(|centers| / MAX_CIRCLES_PER_CELL);
    if gridSide > 1
    then seq(gridSide * gridSide, (cell: nat) => Members(centers, area, gridSide, cell, |centers|))
    else [UpTo(|centers|)]
  }

  lemma ThinnedStays(centers: seq<Point>, cell: seq<nat>, before: seq<bool>, after: seq<bool>)
    requires Thinned(centers, cell, before) && |after| == |before|
    requires forall i :: 0 <= i < |cell| ==> after[cell[i]] == before[cell[i]]
    ensures Thinned(centers, cell, after)
  {
    hide TooClose;
    forall i: nat, j: nat | i < |cell|
      ensures HiddenBy(centers, cell, after, i, j) <==> HiddenBy(centers, cell, before, i, j)
    {
    }
  }

  /** The cells before `done` are thinned, and nothing in the others is masked yet. */
  ghost predicate ThinnedSoFar(centers: seq<Point>, area: Rectangle, gridSide: nat, mask: seq<bool>, done: nat)
    requires gridSide > 0
  {
    && |mask| == |centers|
    && (forall c: nat :: c < done ==> Thinned(centers, Members(centers, area, gridSide, c, |centers|), mask))
    && (forall i :: 0 <= i < |centers| && CellOf(centers[i], area, gridSide) >= done ==> !mask[i])
  }

  lemma CellThinned(centers: seq<Point>, area: Rectangle, gridSide: nat, before: seq<bool>, after: seq<bool>, cell: nat)
    requires gridSide > 0 && |before| == |after| && ThinnedSoFar(centers, area, gridSide, before, cell)
    requires
      var members := Members(centers, area, gridSide, cell, |centers|);
      Thinned(centers, members, after) && forall k: nat :: k < |after| && k !in members ==> after[k] == before[k]
    ensures ThinnedSoFar(centers, area, gridSide, after, cell + 1)
  {
    hide CellOf, Thinned;
    MembersInRange(centers, area, gridSide, cell);
    forall c: nat | c < cell ensures Thinned(centers, Members(centers, area, gridSide, c, |centers|), after) {
      MembersInRange(centers, area, gridSide, c);
      ThinnedStays(centers, Members(centers, area, gridSide, c, |centers|), before, after);
    }
  }

  method ThinCells(mask: array<bool>, centers: seq<Point>, area: Rectangle, gridSide: nat)
    requires gridSide > 0 && mask.Length == |centers| && forall i :: 0 <= i < mask.Length ==> !mask[i]
    modifies mask
    ensures ThinnedSoFar(centers, area, gridSide, mask[..], gridSide * gridSide)
  {
    var cells := FillCells(centers, area, gridSide);
    assert ThinnedSoFar(centers, area, gridSide, mask[..], 0);
    for cell := 0 to gridSide * gridSide
      invariant ThinnedSoFar(centers, area, gridSide, mask[..], cell)
      invariant forall c :: 0 <= c < cells.Length ==> cells[c] == Members(centers, area, gridSide, c, |centers|)
    {
      MembersInRange(centers, area, gridSide, cell);
      ghost var before := mask[..];
      hide CellOf, Thinned, Members;
      ThinCell(mask, centers, cells[cell]);
      CellThinned(centers, area, gridSide, before, mask[..], cell);
    }
  }

  lemma MembersInRange(centers: seq<Point>, area: Rectangle, gridSide: nat, cell: nat)
    requires gridSide > 0
    ensures
      var members := Members(centers, area, gridSide, cell, |centers|);
      && InRange(members, |centers|) && NoDuplicates(members)
      && (forall i: nat :: i in members <==> i < |centers| && CellOf(centers[i], area, gridSide) == cell)
      && (forall k :: 0 <= k < |members| ==> CellOf(centers[members[k]], area, gridSide) == cell)
  {
    CellsPartition(centers, area, gridSide, cell, |centers|);
    var members := Members(centers, area, gridSide, cell, |centers|);
    assert forall k :: 0 <= k < |members| ==> members[k] in members;
  }

  method FillCells(centers: seq<Point>, area: Rectangle, gridSide: nat) returns (cells: array<seq<nat>>)
    requires gridSide > 0
    ensures fresh(cells) && cells.Length == gridSide * gridSide
    ensures forall c :: 0 <= c < cells.Length ==> cells[c] == Members(centers, area, gridSide, c, |centers|)
  {
    hide CellOf;
    cells := new seq<nat>[gridSide * gridSide](_ => []);
    for i := 0 to |centers|
      invariant forall c :: 0 <= c < cells.Length ==> cells[c] == Members(centers, area, gridSide, c, i)
    {
      var c := CellOf(centers[i], area, gridSide);
      cells[c] := cells[c] + [i];
    }
  }

  // ----- What a preview guarantees -----

  /** Circles are compared within their cell only, when there are enough of them. */
  predicate SameCell(centers: seq<Point>, area: Rectangle, i: nat, j: nat)
    requires i < |centers| && j < |centers|
  {
    var gridSide := SquareRoot(|centers| / MAX_CIRCLES_PER_CELL);
    gridSide <= 1 || CellOf(centers[i], area, gridSide) == CellOf(centers[j], area, gridSide)
  }

  /** A preview hides the circles that are too close to a later one of their cell that it shows. */
  predicate Hidden(centers: seq<Point>, area: Rectangle, i: nat)
    requires i < |centers|
    decreases |centers| - i
  {
    exists j: nat :: i < j < |centers|
      && SameCell(centers, area, i, j) && TooClose(centers[j], centers[i]) && !Hidden(centers, area, j)
  }

  /** Every circle is in exactly one of the cells that are thinned, at one place. */
  lemma CellsCoverOnce(centers: seq<Point>, area: Rectangle, i: nat) returns (c: nat)
    requires i < |centers|
    ensures
      var cells := Cells(centers, area);
      && c < |cells|
      && (forall d :: 0 <= d < |cells| ==> (i in cells[d] <==> d == c))
      && InRange(cells[c], |centers|)
      && (forall k, l :: 0 <= k < l < |cells[c]| ==> cells[c][k] < cells[c][l])
      && (forall j: nat :: j < |centers| ==> (j in cells[c] <==> SameCell(centers, area, i, j)))
  {
    var gridSide := SquareRoot(|centers| / MAX_CIRCLES_PER_CELL);
    var cells := Cells(centers, area);
    if gridSide > 1 {
      hide CellOf, SquareRoot;
      c := CellOf(centers[i], area, gridSide);
      forall d | 0 <= d < |cells| ensures i in cells[d] <==> d == c { MembersInRange(centers, area, gridSide, d); }
      MembersInRange(centers, area, gridSide, c);
      CellsPartition(centers, area, gridSide, c, |centers|);
    } else {
      c := 0;
      forall j: nat | j < |centers| ensures j in cells[0] { assert UpTo(|centers|)[j] == j; }
    }
  }

  lemma {:induction false} ThinnedMeansHidden(centers: seq<Point>, area: Rectangle, mask: seq<bool>, i: nat)
    requires i <= |centers| == |mask| && forall cell <- Cells(centers, area) :: Thinned(centers, cell, mask)
    ensures forall k: nat :: i <= k < |centers| ==> (mask[k] <==> Hidden(centers, area, k))
    decreases |centers| - i
  {
    hide SameCell, TooClose, Cells;
    if i < |centers| {
      ThinnedMeansHidden(centers, area, mask, i + 1);
      var c := CellsCoverOnce(centers, area, i);
      var cell := Cells(centers, area)[c];
      assert Thinned(centers, cell, mask);
      var p :| 0 <= p < |cell| && cell[p] == i;
      if mask[i] {
        var q: nat :| HiddenBy(centers, cell, mask, p, q);
        assert cell[q] in cell;
      }
      if Hidden(centers, area, i) {
        var j: nat :| i < j < |centers| && SameCell(centers, area, i, j) && TooClose(centers[j], centers[i])
          && !Hidden(centers, area, j);
        var q :| 0 <= q < |cell| && cell[q] == j;
        assert HiddenBy(centers, cell, mask, p, q);
      }
    }
  }

  method BuildPreviewMask(centers: seq<Point>, area: Rectangle) returns (mask: seq<bool>)
    ensures |mask| == |centers| && forall i: nat :: i < |centers| ==> (mask[i] <==> Hidden(centers, area, i))
  {
    hide Thinned, Members, SquareRoot, CellOf, Hidden;
    var gridSide := SquareRoot(|centers| / MAX_CIRCLES_PER_CELL);
    var m := new bool[|centers|](_ => false);
    if gridSide > 1 {
      ThinCells(m, centers, area, gridSide);
    } else {
      ThinCell(m, centers, UpTo(|centers|));
    }
    mask := m[..];
    ThinnedMeansHidden(centers, area, mask, 0);
  }

  /** Visible circles of one cell keep their distance, and the last one of each cell is visible. */
  lemma VisibleKeepDistance(centers: seq<Point>, area: Rectangle, i: nat, j: nat)
    requires i < j < |centers| && SameCell(centers, area, i, j)
    ensures !Hidden(centers, area, i) && !Hidden(centers, area, j) ==> !TooClose(centers[j], centers[i])
    ensures (forall k: nat :: k < |centers| && SameCell(centers, area, j, k) ==> k <= j) ==> !Hidden(centers, area, j)
  {
    hide SameCell, TooClose;
  }
}

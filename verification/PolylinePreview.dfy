/** Which points of a polyline a preview may leave out. */
module PolylinePreview {
  import opened Wrappers
  import opened PlotGeometry

  const LINE_DISTANCE_THRESHOLD := 2.0 / 72.0
  const POLYLINE_LENGTH_THRESHOLD := 7

  // ----- The distance to a line -----

  /** The line a * x + b * y + c == 0 through two points. */
  datatype Line = Line(a: real, b: real, c: real)
  {
    function Value(p: Point): real { a * p.x + b * p.y + c }

    function Norm(): real { Square(a) + Square(b) }

    function SquaredDistanceTo(p: Point): real
      requires Norm() > 0.0
    {
      Value(p) * Value(p) / Norm()
    }

    /** The point of the line that is nearest to p. */
    function Nearest(p: Point): Point
      requires Norm() > 0.0
    {
      var t := Value(p) / Norm();
      Point(p.x - t * a, p.y - t * b)
    }
  }

  function Through(from: Point, to: Point): Line {
    Line(to.y - from.y, from.x - to.x, to.x * from.y - to.y * from.x)
  }

  function Square(x: real): real { x * x }

  lemma ProductIsPositive(x: real, y: real, product: real)
    requires x > 0.0 && y > 0.0 && product == x * y
    ensures product > 0.0
  {
  }

  lemma SquareIsPositive(x: real)
    ensures Square(x) >= 0.0
    ensures x != 0.0 ==> Square(x) > 0.0
  {
    if x > 0.0 {
      ProductIsPositive(x, x, Square(x));
    } else if x < 0.0 {
      ProductIsPositive(-x, -x, Square(x));
    }
  }

  lemma NormIsPositive(line: Line)
    requires line.a != 0.0 || line.b != 0.0
    ensures line.Norm() > 0.0
  {
    SquareIsPositive(line.a);
    SquareIsPositive(line.b);
    hide Square;
  }

  lemma LineIsProper(from: Point, to: Point)
    requires from != to
    ensures Through(from, to).Norm() > 0.0
  {
    NormIsPositive(Through(from, to));
  }

  /** The squared distance to the line through two points, or to the first one when they are close. */
  function SquaredDistanceToLine(from: Point, to: Point, p: Point): real {
    if ClosePoints(from, to) then SquaredDistance(p, from) else
    LineIsProper(from, to);
    Through(from, to).SquaredDistanceTo(p)
  }

  /** The formula is the distance to the nearest point of the line. */
  lemma DistanceIsLeast(from: Point, to: Point, p: Point, q: Point)
    requires !ClosePoints(from, to) && Through(from, to).Value(q) == 0.0
    ensures SquaredDistance(p, q) >= SquaredDistanceToLine(from, to, p) >= 0.0
  {
    LineIsProper(from, to);
    hide Through, Line.Value, Line.Norm, Line.SquaredDistanceTo, SquaredDistance, ClosePoints;
    NoPointIsNearer(Through(from, to), p, q);
  }

  lemma NoPointIsNearer(line: Line, p: Point, q: Point)
    requires line.Norm() > 0.0 && line.Value(q) == 0.0
    ensures SquaredDistance(p, q) >= line.SquaredDistanceTo(p) >= 0.0
  {
    ValueFromPoint(line, p, q);
    LineBound(line.a, line.b, p.x - q.x, p.y - q.y, line.Value(p), SquaredDistance(p, q));
    hide Line.Value, SquaredDistance;
    QuotientBound(line.Value(p) * line.Value(p), line.Norm(), SquaredDistance(p, q));
  }

  lemma ValueFromPoint(line: Line, p: Point, q: Point)
    requires line.Value(q) == 0.0
    ensures line.Value(p) == line.a * (p.x - q.x) + line.b * (p.y - q.y)
  {
  }

  /** The bound over plain numbers. */
  lemma LineBound(a: real, b: real, x: real, y: real, value: real, distance: real)
    requires value == a * x + b * y && distance == x * x + y * y
    ensures 0.0 <= value * value <= (Square(a) + Square(b)) * distance
  {
    Lagrange(a, b, x, y);
    SquareIsPositive(a * y - b * x);
    SquareIsPositive(value);
  }

  lemma Lagrange(a: real, b: real, x: real, y: real)
    ensures (a * a + b * b) * (x * x + y * y) == (a * x + b * y) * (a * x + b * y) + (a * y - b * x) * (a * y - b * x)
  {
    var u, v, w, z := a * x, b * y, a * y, b * x;
    assert a * a * (x * x) == u * u && b * b * (y * y) == v * v && a * a * (y * y) == w * w && b * b * (x * x) == z * z;
    assert u * v == w * z;
  }

  lemma PositiveProduct(x: real, y: real)
    requires x > 0.0 && y > 0.0
    ensures x * y > 0.0
  {
  }

  lemma QuotientBound(n: real, d: real, x: real)
    requires d > 0.0 && 0.0 <= n <= d * x
    ensures 0.0 <= n / d <= x
  {
    var q := n / d;
    assert q * d == n;
    if q > x { PositiveProduct(q - x, d); }
    if q < 0.0 { PositiveProduct(-q, d); }
  }

  /** The nearest point of the line. */
  function Foot(from: Point, to: Point, p: Point): Point {
    if ClosePoints(from, to) then from else
    LineIsProper(from, to);
    Through(from, to).Nearest(p)
  }

  lemma DistanceIsAttained(from: Point, to: Point, p: Point)
    ensures !ClosePoints(from, to) ==> Through(from, to).Value(Foot(from, to, p)) == 0.0
    ensures SquaredDistance(p, Foot(from, to, p)) == SquaredDistanceToLine(from, to, p)
  {
    if !ClosePoints(from, to) {
      LineIsProper(from, to);
      hide Through, Line.Value, Line.Norm, Line.SquaredDistanceTo, Line.Nearest, SquaredDistance, ClosePoints;
      NearestIsOnLine(Through(from, to), p);
    }
  }

  lemma NearestIsOnLine(line: Line, p: Point)
    requires line.Norm() > 0.0
    ensures line.Value(line.Nearest(p)) == 0.0 && SquaredDistance(p, line.Nearest(p)) == line.SquaredDistanceTo(p)
  {
    hide Line.Value, Line.Norm, SquaredDistance;
    var value, norm := line.Value(p), line.Norm();
    QuotientTimes(value, norm);
    FootIsOnLine(line, p, value / norm, line.Nearest(p));
    FootDistance(line, p, value / norm, line.Nearest(p));
    ScaledSquare(value, norm, value / norm);
  }

  lemma QuotientTimes(n: real, d: real)
    requires d > 0.0
    ensures n / d * d == n
  {
  }

  lemma FootIsOnLine(line: Line, p: Point, t: real, q: Point)
    requires q == Point(p.x - t * line.a, p.y - t * line.b)
    ensures line.Value(q) == line.Value(p) - t * line.Norm()
  {
  }

  lemma FootDistance(line: Line, p: Point, t: real, q: Point)
    requires q == Point(p.x - t * line.a, p.y - t * line.b)
    ensures SquaredDistance(p, q) == t * t * line.Norm()
  {
    SquareOfProduct(t, line.a);
    SquareOfProduct(t, line.b);
  }

  lemma SquareOfProduct(t: real, x: real)
    ensures (t * x) * (t * x) == t * t * (x * x)
  {
  }

  lemma ScaledSquare(value: real, norm: real, t: real)
    requires norm > 0.0 && t * norm == value
    ensures t * t * norm == value * value / norm
  {
    SquareOfProduct(t, norm);
    QuotientOf(value * value, norm, t * t * norm);
  }

  lemma QuotientOf(n: real, d: real, q: real)
    requires d > 0.0 && q * d == n
    ensures q == n / d
  {
  }

  // ----- The points that stay -----

  /** A squared distance below the threshold. */
  predicate IsNear(squared: real) { squared < LINE_DISTANCE_THRESHOLD * LINE_DISTANCE_THRESHOLD }

  datatype Far = Far(index: int, distance: real)

  function DistanceAt(points: seq<Point>, start: nat, end: nat, i: nat): real
    requires start < end <= |points| && i < |points|
  {
    SquaredDistanceToLine(points[start], points[end - 1], points[i])
  }

  /** The first of the farthest points among those before n; Far(-1, 0.0) when all are on the line. */
  function Farthest(points: seq<Point>, start: nat, end: nat, n: nat): (f: Far)
    requires start < n < end <= |points|
    ensures f.distance > 0.0 ==> start < f.index < n
  {
    if n == start + 1 then Far(-1, 0.0) else
    var f := Farthest(points, start, end, n - 1);
    var d := DistanceAt(points, start, end, n - 1);
    if d > f.distance then Far(n - 1, d) else f
  }

  lemma {:induction false} FarthestIsLargest(points: seq<Point>, start: nat, end: nat, n: nat)
    requires start < n < end <= |points|
    ensures forall i :: start < i < n ==> DistanceAt(points, start, end, i) <= Farthest(points, start, end, n).distance
  {
    hide DistanceAt;
    if n > start + 1 {
      FarthestIsLargest(points, start, end, n - 1);
    }
  }

  /** The points between start and end that a preview keeps, in order. */
  function Kept(points: seq<Point>, start: nat, end: nat): seq<nat>
    requires start < end <= |points|
    decreases end - start
  {
    if end - start == 1 then [start]
    else if end - start == 2 then [start, start + 1]
    else
      var f := Farthest(points, start, end, end - 1);
      if IsNear(f.distance) then [start, end - 1]
      else Join(Kept(points, start, f.index + 1), Kept(points, f.index, end))
  }

  /** Two stretches of kept points that share a point. */
  function Join(left: seq<nat>, right: seq<nat>): seq<nat> {
    if right == [] then left else left + right[1..]
  }

  /** From start to end - 1, and between two kept points all others are near the line through them. */
  ghost predicate Faithful(points: seq<Point>, start: nat, end: nat, kept: seq<nat>)
    requires start < end <= |points|
  {
    && 0 < |kept| && kept[0] == start && kept[|kept| - 1] == end - 1 && Ascending(kept)
    && (forall k :: 0 <= k < |kept| ==> start <= kept[k] < end)
    && (forall k :: 0 <= k < |kept| - 1 ==> GapIsNear(points, kept[k], kept[k + 1]))
  }

  ghost predicate GapIsNear(points: seq<Point>, u: nat, v: nat)
    requires u < |points| && v < |points|
  {
    forall i :: u < i < v ==> NearLine(points, u, v, i)
  }

  predicate NearLine(points: seq<Point>, u: nat, v: nat, i: nat)
    requires u < |points| && v < |points| && i < |points|
  {
    IsNear(SquaredDistanceToLine(points[u], points[v], points[i]))
  }

  lemma JoinIsFaithful(points: seq<Point>, start: nat, middle: nat, end: nat, left: seq<nat>, right: seq<nat>)
    requires start <= middle < end <= |points|
    requires Faithful(points, start, middle + 1, left) && Faithful(points, middle, end, right)
    ensures Faithful(points, start, end, Join(left, right))
  {
    hide NearLine;
    var s := Join(left, right);
    var n := |left|;
    assert forall k :: n - 1 <= k < |s| ==> s[k] == right[k - (n - 1)];
    assert forall k :: 0 <= k < n ==> s[k] == left[k];
    hide GapIsNear;
    forall k | 0 <= k < |s| - 1 ensures GapIsNear(points, s[k], s[k + 1]) {
      if k < n - 1 {
        assert GapIsNear(points, left[k], left[k + 1]);
      } else {
        assert GapIsNear(points, right[k - n + 1], right[k - n + 2]);
      }
    }
  }

  lemma KeptOfShort(points: seq<Point>, start: nat, end: nat)
    requires start < end <= |points| && end - start <= 2
    ensures Kept(points, start, end) == if end - start == 1 then [start] else [start, start + 1]
  {
  }

  lemma KeptOfLong(points: seq<Point>, start: nat, end: nat)
    requires start + 2 < end <= |points|
    ensures
      var f := Farthest(points, start, end, end - 1);
      if IsNear(f.distance) then Kept(points, start, end) == [start, end - 1]
      else
        && start < f.index < end - 1
        && Kept(points, start, end) == Join(Kept(points, start, f.index + 1), Kept(points, f.index, end))
  {
    hide Farthest, Join;
  }

  lemma {:induction false} KeptIsFaithful(points: seq<Point>, start: nat, end: nat)
    requires start < end <= |points|
    ensures Faithful(points, start, end, Kept(points, start, end))
    decreases end - start
  {
    hide *;
    if end - start <= 2 {
      KeptOfShort(points, start, end);
      ShortIsFaithful(points, start, end);
    } else {
      KeptOfLong(points, start, end);
      var f := Farthest(points, start, end, end - 1);
      if IsNear(f.distance) {
        OnlyEnds(points, start, end);
      } else {
        KeptIsFaithful(points, start, f.index + 1);
        KeptIsFaithful(points, f.index, end);
        JoinIsFaithful(points, start, f.index, end, Kept(points, start, f.index + 1), Kept(points, f.index, end));
      }
    }
  }

  lemma ShortIsFaithful(points: seq<Point>, start: nat, end: nat)
    requires start < end <= |points|
    ensures end - start == 1 ==> Faithful(points, start, end, [start])
    ensures end - start == 2 ==> Faithful(points, start, end, [start, start + 1])
  {
    if end - start == 2 { Adjacent(points, start); }
  }

  lemma Adjacent(points: seq<Point>, u: nat)
    requires u + 1 < |points|
    ensures GapIsNear(points, u, u + 1)
  {
  }

  lemma OnlyEnds(points: seq<Point>, start: nat, end: nat)
    requires start + 2 < end <= |points|
    requires IsNear(Farthest(points, start, end, end - 1).distance)
    ensures Faithful(points, start, end, [start, end - 1])
  {
    hide SquaredDistanceToLine, Farthest;
    var last := end - 1;
    FarthestIsLargest(points, start, end, last);
    forall i | start < i < last ensures NearLine(points, start, last, i) {
      assert DistanceAt(points, start, end, i) <= Farthest(points, start, end, last).distance;
    }
  }

  /** Between start and end exactly the points that are not kept have become masked. */
  ghost predicate Masked(before: seq<bool>, after: seq<bool>, start: nat, end: nat, kept: seq<nat>) {
    && |before| == |after|
    && (forall i :: 0 <= i < |after| ==> after[i] == if start <= i < end then i !in kept else before[i])
  }

  lemma MasksJoin(points: seq<Point>, before: seq<bool>, half: seq<bool>, after: seq<bool>, start: nat, middle: nat,
                  end: nat, left: seq<nat>, right: seq<nat>)
    requires start <= middle < end <= |points| == |before|
    requires Faithful(points, start, middle + 1, left) && Faithful(points, middle, end, right)
    requires Masked(before, half, start, middle + 1, left) && Masked(half, after, middle, end, right)
    ensures Masked(before, after, start, end, Join(left, right))
  {
    forall i | 0 <= i < |after|
      ensures after[i] == if start <= i < end then i !in Join(left, right) else before[i]
    {
      JoinMembers(points, start, middle, end, left, right, i);
    }
  }

  lemma JoinMembers(points: seq<Point>, start: nat, middle: nat, end: nat, left: seq<nat>, right: seq<nat>, i: nat)
    requires start <= middle < end <= |points|
    requires Faithful(points, start, middle + 1, left) && Faithful(points, middle, end, right)
    ensures i in Join(left, right) <==> if i < middle then i in left else i in right
  {
    hide GapIsNear;
    var s := Join(left, right);
    if i in left {
      var k :| 0 <= k < |left| && left[k] == i;
      assert s[k] == i;
    }
    if i in right {
      var k :| 0 <= k < |right| && right[k] == i;
      assert s[|left| + k - 1] == i;
    }
  }

  // ----- The mask -----

  /** A point may be left out of the preview where its mask is true. */
  function PreviewMask(points: seq<Point>): seq<bool> {
    seq(|points|, i => |points| > POLYLINE_LENGTH_THRESHOLD && i !in Kept(points, 0, |points|))
  }

  function PreviewCount(points: seq<Point>): nat {
    if |points| > POLYLINE_LENGTH_THRESHOLD then |Kept(points, 0, |points|)| else |points|
  }

  method FindFarthest(points: seq<Point>, start: nat, end: nat) returns (maxDistanceIndex: int, maxDistance: real)
    requires start + 1 < end <= |points|
    ensures Farthest(points, start, end, end - 1) == Far(maxDistanceIndex, maxDistance)
  {
    maxDistance, maxDistanceIndex := 0.0, -1;
    for index := start + 1 to end - 1
      invariant Farthest(points, start, end, index) == Far(maxDistanceIndex, maxDistance)
    {
      var distance := SquaredDistanceToLine(points[start], points[end - 1], points[index]);
      if distance > maxDistance {
        maxDistanceIndex := index;
        maxDistance := distance;
      }
    }
  }

  method MaskInside(mask: array<bool>, start: nat, end: nat)
    requires start + 1 < end <= mask.Length && NoneMasked(mask[..], start, end)
    modifies mask
    ensures Masked(old(mask[..]), mask[..], start, end, [start, end - 1])
  {
    for index := start + 1 to end - 1
      invariant forall i :: 0 <= i < mask.Length ==> mask[i] == if start < i < index then true else old(mask[i])
    {
      mask[index] := true;
    }
  }

  method MaskBetween(mask: array<bool>, points: seq<Point>, start: nat, end: nat) returns (count: nat)
    requires start < end <= |points| == mask.Length
    requires NoneMasked(mask[..], start, end)
    modifies mask
    ensures Masked(old(mask[..]), mask[..], start, end, Kept(points, start, end))
    ensures count == |Kept(points, start, end)|
    decreases end - start, 1
  {
    hide *;
    if end - start <= 2 {
      KeptOfShort(points, start, end);
      ShortStretch(mask[..], start, end);
      return end - start;
    }
    var maxDistanceIndex, maxDistance := FindFarthest(points, start, end);
    KeptOfLong(points, start, end);
    if IsNear(maxDistance) {
      MaskInside(mask, start, end);
      return 2;
    } else {
      count := MaskHalves(mask, points, start, maxDistanceIndex, end);
    }
  }

  method MaskHalves(mask: array<bool>, points: seq<Point>, start: nat, middle: nat, end: nat) returns (count: nat)
    requires start < middle < end - 1 && end <= |points| == mask.Length
    requires NoneMasked(mask[..], start, end)
    modifies mask
    ensures
      var kept := Join(Kept(points, start, middle + 1), Kept(points, middle, end));
      Masked(old(mask[..]), mask[..], start, end, kept) && count == |kept|
    decreases end - start, 0
  {
    hide *;
    ghost var left, right := Kept(points, start, middle + 1), Kept(points, middle, end);
    ghost var before := mask[..];
    KeptIsFaithful(points, start, middle + 1);
    KeptIsFaithful(points, middle, end);
    NoneMaskedWithin(before, start, end, middle);
    var firstCount := MaskBetween(mask, points, start, middle + 1);
    ghost var half := mask[..];
    FirstHalfLeavesRest(points, before, half, start, middle, end, left);
    var secondCount := MaskBetween(mask, points, middle, end);
    MasksJoin(points, before, half, mask[..], start, middle, end, left, right);
    JoinLength(points, middle, end, left, right);
    return firstCount + secondCount - 1;
  }

  predicate NoneMasked(mask: seq<bool>, start: nat, end: nat) {
    end <= |mask| && (forall i :: start <= i < end ==> !mask[i])
  }

  lemma NoneMaskedWithin(mask: seq<bool>, start: nat, end: nat, middle: nat)
    requires NoneMasked(mask, start, end) && middle < end
    ensures NoneMasked(mask, start, middle + 1)
  {
  }

  lemma ShortStretch(mask: seq<bool>, start: nat, end: nat)
    requires start < end && NoneMasked(mask, start, end)
    ensures end - start == 1 ==> Masked(mask, mask, start, end, [start])
    ensures end - start == 2 ==> Masked(mask, mask, start, end, [start, start + 1])
  {
  }

  lemma FirstHalfLeavesRest(points: seq<Point>, before: seq<bool>, half: seq<bool>, start: nat, middle: nat, end: nat,
                            left: seq<nat>)
    requires start <= middle < end <= |points| == |before| && Faithful(points, start, middle + 1, left)
    requires Masked(before, half, start, middle + 1, left) && NoneMasked(before, start, end)
    ensures NoneMasked(half, middle, end)
  {
    assert left[|left| - 1] in left;
  }

  lemma JoinLength(points: seq<Point>, middle: nat, end: nat, left: seq<nat>, right: seq<nat>)
    requires middle < end <= |points| && Faithful(points, middle, end, right)
    ensures |Join(left, right)| == |left| + |right| - 1
  {
  }

  method BuildPreviewMask(points: seq<Point>) returns (mask: seq<bool>, count: nat)
    ensures mask == PreviewMask(points) && count == PreviewCount(points)
  {
    hide Kept;
    var cells := new bool[|points|](_ => false);
    if |points| > POLYLINE_LENGTH_THRESHOLD {
      count := MaskBetween(cells, points, 0, |points|);
    } else {
      count := |points|;
    }
    mask := cells[..];
  }

  // ----- What a preview guarantees -----

  function Visible(mask: seq<bool>): nat {
    if mask == [] then 0 else Visible(mask[..|mask| - 1]) + if mask[|mask| - 1] then 0 else 1
  }

  /** The masked point i lies between two visible points, with only masked ones between, near the line through these. */
  predicate LeftOutRightly(points: seq<Point>, mask: seq<bool>, i: nat, u: nat, v: nat)
    requires |mask| == |points| && i < |points|
  {
    && u < i < v < |points| && !mask[u] && !mask[v] && (forall j :: u < j < v ==> mask[j])
    && NearLine(points, u, v, i)
  }

  lemma {:induction false} Between(kept: seq<nat>, i: nat) returns (k: nat)
    requires Ascending(kept) && |kept| > 0 && kept[0] < i < kept[|kept| - 1] && i !in kept
    ensures 0 < k < |kept| && kept[k - 1] < i < kept[k]
  {
    if i > kept[|kept| - 2] {
      k := |kept| - 1;
    } else {
      assert kept[|kept| - 2] in kept;
      k := Between(kept[..|kept| - 1], i);
    }
  }

  lemma {:induction false} VisibleIsKept(kept: seq<nat>, mask: seq<bool>)
    requires Ascending(kept) && (forall k :: 0 <= k < |kept| ==> kept[k] < |mask|)
    requires forall i :: 0 <= i < |mask| ==> (mask[i] <==> i !in kept)
    ensures Visible(mask) == |kept|
    decreases |mask|
  {
    if mask == [] {
      NotMoreThan(kept, 0);
    } else {
      var last := |mask| - 1;
      if mask[last] {
        VisibleIsKept(kept, mask[..last]);
      } else {
        LastKept(kept, last);
        VisibleIsKept(kept[..|kept| - 1], mask[..last]);
      }
    }
  }

  lemma {:induction false} NotMoreThan(kept: seq<nat>, n: nat)
    requires Ascending(kept) && forall k :: 0 <= k < |kept| ==> kept[k] < n
    ensures |kept| <= n
  {
    if |kept| > 0 { NotMoreThan(kept[..|kept| - 1], kept[|kept| - 1]); }
  }

  /** The largest index that is kept stands at the end. */
  lemma LastKept(kept: seq<nat>, last: nat)
    requires Ascending(kept) && last in kept && forall k :: 0 <= k < |kept| ==> kept[k] <= last
    ensures |kept| > 0 && kept[|kept| - 1] == last && Ascending(kept[..|kept| - 1])
    ensures forall i :: 0 <= i < |kept| - 1 ==> kept[i] < last
    ensures forall i: nat :: i in kept[..|kept| - 1] <==> i in kept && i != last
  {
    var j :| 0 <= j < |kept| && kept[j] == last;
    assert kept == kept[..|kept| - 1] + [kept[|kept| - 1]];
  }

  lemma {:induction false} NothingMasked(mask: seq<bool>)
    requires forall i :: 0 <= i < |mask| ==> !mask[i]
    ensures Visible(mask) == |mask|
  {
    if mask != [] { NothingMasked(mask[..|mask| - 1]); }
  }

  /** A preview keeps the end points, counts what it keeps, and leaves out only points near the line
      through the visible points around them. */
  lemma PreviewIsFaithful(points: seq<Point>)
    ensures
      var mask := PreviewMask(points);
      && |mask| == |points| && PreviewCount(points) == Visible(mask)
      && (|points| > 0 ==> !mask[0] && !mask[|points| - 1])
      && (forall i :: 0 <= i < |points| && mask[i] ==> exists u, v :: LeftOutRightly(points, mask, i, u, v))
  {
    var mask := PreviewMask(points);
    if |points| > POLYLINE_LENGTH_THRESHOLD {
      var kept := Kept(points, 0, |points|);
      KeptIsFaithful(points, 0, |points|);
      hide Kept, NearLine;
      VisibleIsKept(kept, mask);
      assert kept[0] in kept && kept[|kept| - 1] in kept;
      forall i | 0 <= i < |points| && mask[i] ensures exists u, v :: LeftOutRightly(points, mask, i, u, v) {
        var k := Between(kept, i);
        assert kept[k - 1] in kept && kept[k] in kept;
        forall j | kept[k - 1] < j < kept[k] ensures mask[j] { NotBetween(kept, k, j); }
        assert LeftOutRightly(points, mask, i, kept[k - 1], kept[k]);
      }
    } else {
      NothingMasked(mask);
    }
  }

  lemma NotBetween(kept: seq<nat>, k: nat, j: nat)
    requires Ascending(kept) && 0 < k < |kept| && kept[k - 1] < j < kept[k]
    ensures j !in kept
  {
  }
}

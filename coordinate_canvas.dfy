/**
 * The point selection, shape building and labelling rules of the coordinate-plane lesson in
 * frontend/src/StudentDashboard/HandsOnLearning/Lessons/CoordinateCanvas.tsx. Each rule is a
 * functional state updater there, so each is a function here from the previous value to the
 * next one. Points are in pixels, already snapped to the 20-pixel grid by the click handler.
 */
module CoordinateCanvas {
  const GridSize: int := 400
  const CellSize: int := 20

  datatype Point = Point(id: string, x: int, y: int)

  /** The three values the shape buttons give `currentShapeType`. */
  datatype ShapeKind = Line | Triangle | Rectangle

  datatype Shape = Shape(points: seq<Point>, kind: ShapeKind, completed: bool)

  /** The lesson's drawing state. */
  datatype Canvas = Canvas(points: seq<Point>, selected: seq<Point>, shapes: seq<Shape>,
                           showGrid: bool, showLabels: bool, shapeKind: ShapeKind)

  /** `s.filter(p => p !== x)`. */
  function Without(s: seq<Point>, x: Point): (r: seq<Point>)
    ensures x !in r
    ensures forall p :: p in r <==> p in s && p != x
    ensures |r| <= |s|
    decreases |s|
  {
    if s == [] then []
    else if s[0] == x then Without(s[1..], x)
    else [s[0]] + Without(s[1..], x)
  }

  predicate NoDuplicates(s: seq<Point>)
  {
    forall i, j :: 0 <= i < j < |s| ==> s[i] != s[j]
  }

  /** Removing a point that occurs once takes exactly one entry away. */
  lemma {:induction false} WithoutOnce(s: seq<Point>, x: Point)
    requires NoDuplicates(s) && x in s
    ensures |Without(s, x)| == |s| - 1
    decreases |s|
  {
    if s[0] != x {
      assert NoDuplicates(s[1..]) by {
        forall i, j | 0 <= i < j < |s[1..]| ensures s[1..][i] != s[1..][j] {
          assert s[1..][i] == s[i + 1] && s[1..][j] == s[j + 1];
        }
      }
      WithoutOnce(s[1..], x);
    } else {
      assert x !in s[1..] by {
        forall k | 0 <= k < |s[1..]| ensures s[1..][k] != x {
          assert s[1..][k] == s[k + 1];
        }
      }
      WithoutAbsent(s[1..], x);
    }
  }

  /** Removing a point that is not there changes nothing. */
  lemma {:induction false} WithoutAbsent(s: seq<Point>, x: Point)
    requires x !in s
    ensures Without(s, x) == s
    decreases |s|
  {
    if s != [] {
      WithoutAbsent(s[1..], x);
      assert [s[0]] + s[1..] == s;
    }
  }

  /** `selectPoint(point)` applied to the previous selection. */
  function SelectPoint(prev: seq<Point>, point: Point): (r: seq<Point>)
  {
    if point in prev then Without(prev, point)
    else if |prev| == 2 then [prev[1], point]
    else prev + [point]
  }

  /** A selection the lesson can reach: at most two distinct points. */
  predicate SelectionOk(s: seq<Point>)
  {
    |s| <= 2 && NoDuplicates(s)
  }

  /** Selecting an already selected point deselects it and keeps the others. */
  lemma SelectToggles(prev: seq<Point>, point: Point)
    requires SelectionOk(prev) && point in prev
    ensures point !in SelectPoint(prev, point)
    ensures |SelectPoint(prev, point)| == |prev| - 1
    ensures forall p :: p in prev && p != point ==> p in SelectPoint(prev, point)
  {
    WithoutOnce(prev, point);
  }

  /** A new point is always selected: appended, or paired with the later of two selected points. */
  lemma SelectNew(prev: seq<Point>, point: Point)
    requires point !in prev
    ensures |prev| == 2 ==> SelectPoint(prev, point) == [prev[1], point]
    ensures |prev| != 2 ==> SelectPoint(prev, point) == prev + [point]
    ensures point in SelectPoint(prev, point)
  {
  }

  /** At most two distinct points are ever selected. */
  lemma SelectKeepsWindow(prev: seq<Point>, point: Point)
    requires SelectionOk(prev)
    ensures SelectionOk(SelectPoint(prev, point))
  {
    var r := SelectPoint(prev, point);
    if point in prev {
      WithoutOnce(prev, point);
      if |prev| == 2 {
        // the other point is the only one left
        var other := if prev[0] == point then prev[1] else prev[0];
        assert other in r;
      }
    }
  }

  /** The number of points that completes a shape of the current kind. */
  function Needed(kind: ShapeKind): nat
  {
    match kind
    case Line => 2
    case Triangle => 3
    case Rectangle => 4
  }

  /** `addToShape(point)` applied to the previous shapes; `current` is `currentShapeType`. */
  function AddToShape(prev: seq<Shape>, point: Point, current: ShapeKind): (r: seq<Shape>)
  {
    if |prev| == 0 || prev[|prev| - 1].completed then
      prev + [Shape([point], current, false)]
    else
      var last := prev[|prev| - 1];
      var newPoints := last.points + [point];
      var completed := |newPoints| == Needed(current);
      prev[..|prev| - 1] + [last.(points := newPoints, completed := completed)]
  }

  /** With no shape, or a completed last one, a new incomplete shape of the current kind is started. */
  lemma AddStartsShape(prev: seq<Shape>, point: Point, current: ShapeKind)
    requires |prev| == 0 || prev[|prev| - 1].completed
    ensures var r := AddToShape(prev, point, current);
      |r| == |prev| + 1 && r[..|prev|] == prev && r[|prev|] == Shape([point], current, false)
  {
  }

  /**
   * Otherwise the point is appended to the last shape, which keeps its own kind and is complete
   * exactly when its new point count is the number the current kind needs.
   */
  lemma AddExtendsShape(prev: seq<Shape>, point: Point, current: ShapeKind)
    requires |prev| > 0 && !prev[|prev| - 1].completed
    ensures var r := AddToShape(prev, point, current);
      var last := prev[|prev| - 1];
      && |r| == |prev|
      && r[..|prev| - 1] == prev[..|prev| - 1]
      && r[|prev| - 1].points == last.points + [point]
      && r[|prev| - 1].kind == last.kind
      && (r[|prev| - 1].completed <==> |last.points| + 1 == Needed(current))
  {
  }

  /** Earlier shapes are never touched, and at most one shape is added. */
  lemma AddTouchesOnlyLast(prev: seq<Shape>, point: Point, current: ShapeKind)
    ensures var r := AddToShape(prev, point, current);
      && |prev| <= |r| <= |prev| + 1
      && (forall k :: 0 <= k < |prev| - 1 ==> r[k] == prev[k])
      && (forall k :: 0 <= k < |prev| && prev[k].completed ==> r[k] == prev[k])
  {
  }

  /** Every shape built only by `addToShape` is non-empty, and a completed one has 2, 3 or 4 points. */
  predicate ShapesOk(shapes: seq<Shape>)
  {
    forall k :: 0 <= k < |shapes| ==>
      |shapes[k].points| >= 1 && (shapes[k].completed ==> 2 <= |shapes[k].points| <= 4)
  }

  lemma AddKeepsShapesOk(prev: seq<Shape>, point: Point, current: ShapeKind)
    requires ShapesOk(prev)
    ensures ShapesOk(AddToShape(prev, point, current))
  {
  }

  /**
   * An incomplete last shape that already holds as many points as the current kind needs (the
   * kind was switched while it was being drawn) never completes: more points only make it longer.
   */
  lemma OvergrownShapeNeverCompletes(prev: seq<Shape>, point: Point, current: ShapeKind)
    requires |prev| > 0 && !prev[|prev| - 1].completed && |prev[|prev| - 1].points| >= Needed(current)
    ensures var r := AddToShape(prev, point, current);
      |r| == |prev| && !r[|r| - 1].completed && |r[|r| - 1].points| > Needed(current)
  {
  }

  /** `clearAll()`: points, selection and shapes are emptied; the display settings stay. */
  function ClearAll(c: Canvas): (r: Canvas)
    ensures r.points == [] && r.selected == [] && r.shapes == []
    ensures r.showGrid == c.showGrid && r.showLabels == c.showLabels && r.shapeKind == c.shapeKind
  {
    c.(points := [], selected := [], shapes := [])
  }

  /** After `clearAll` the next shape point starts a fresh shape and the next selection is a single point. */
  lemma ClearAllRestarts(c: Canvas, point: Point)
    ensures var r := ClearAll(c);
      && SelectionOk(r.selected) && ShapesOk(r.shapes)
      && SelectPoint(r.selected, point) == [point]
      && AddToShape(r.shapes, point, r.shapeKind) == [Shape([point], c.shapeKind, false)]
  {
  }

  /** `getPointLabel(point)` as the pair of numbers it prints: (x / 20, (400 - y) / 20). */
  function PointLabel(p: Point): (r: (real, real))
  {
    (p.x as real / CellSize as real, (GridSize - p.y) as real / CellSize as real)
  }

  /** The label determines the pixel position: scaling it back by the cell size gives x and y. */
  lemma LabelRoundTrip(p: Point)
    ensures PointLabel(p).0 * 20.0 == p.x as real
    ensures 400.0 - PointLabel(p).1 * 20.0 == p.y as real
  {
  }

  /** A grid-snapped point is labelled by whole numbers: its cell column and its row above the bottom edge. */
  lemma LabelOnGrid(p: Point)
    requires p.x % CellSize == 0 && p.y % CellSize == 0
    ensures PointLabel(p) == ((p.x / CellSize) as real, ((GridSize - p.y) / CellSize) as real)
  {
    var i, j := p.x / CellSize, (GridSize - p.y) / CellSize;
    assert p.x == i * 20;
    assert GridSize - p.y == j * 20;
    assert p.x as real == i as real * 20.0;
    assert (GridSize - p.y) as real == j as real * 20.0;
  }
}

/**
 * Rectangle collision and obstacle bounding boxes of the game's main module.
 * Corners are top-left positions; a size counts character cells, so a rectangle
 * covers the half-open ranges [corner, corner + size) on both axes.
 */
module Obstacles {
  import opened Wrappers
  import opened Grid
  import opened Text

  /** `_is_point_inside`: the point lies in the half-open rectangle. */
  predicate IsPointInside(corner: Point, size: Size, point: Point)
    ensures IsPointInside(corner, size, point) ==> size.rows > 0 && size.columns > 0
  {
    corner.row <= point.row < corner.row + size.rows as real &&
    corner.column <= point.column < corner.column + size.columns as real
  }

  /** The bottom-right cell of a rectangle: `corner + size - 1` on each axis. */
  function OppositeCorner(corner: Point, size: Size): Point {
    Point(corner.row + size.rows as real - 1.0, corner.column + size.columns as real - 1.0)
  }

  /**
   * `has_collision`: some top-left or bottom-right corner of either rectangle
   * lies inside the other one. The other object is a single cell unless sized.
   */
  predicate HasCollision(obstacleCorner: Point, obstacleSize: Size, objCorner: Point, objSize: Size := Size(1, 1))
    ensures IsPointInside(obstacleCorner, obstacleSize, objCorner) ==> HasCollision(obstacleCorner, obstacleSize, objCorner, objSize)
    ensures IsPointInside(objCorner, objSize, obstacleCorner) ==> HasCollision(obstacleCorner, obstacleSize, objCorner, objSize)
    ensures HasCollision(obstacleCorner, obstacleSize, objCorner, objSize) ==>
      (obstacleSize.rows > 0 && obstacleSize.columns > 0) || (objSize.rows > 0 && objSize.columns > 0)
  {
    IsPointInside(obstacleCorner, obstacleSize, objCorner) ||
    IsPointInside(obstacleCorner, obstacleSize, OppositeCorner(objCorner, objSize)) ||
    IsPointInside(objCorner, objSize, obstacleCorner) ||
    IsPointInside(objCorner, objSize, OppositeCorner(obstacleCorner, obstacleSize))
  }

  /** Reference notion of overlap: the two half-open rectangles share a point. */
  predicate RectanglesOverlap(a: Point, sa: Size, b: Point, sb: Size) {
    a.row < b.row + sb.rows as real && b.row < a.row + sa.rows as real &&
    a.column < b.column + sb.columns as real && b.column < a.column + sa.columns as real
  }

  /** A rectangle at least one cell wide holds both of the corners the collision test probes. */
  lemma RectangleHoldsItsCorners(corner: Point, size: Size)
    requires size.rows >= 1 && size.columns >= 1
    ensures IsPointInside(corner, size, corner)
    ensures IsPointInside(corner, size, OppositeCorner(corner, size))
  {
  }

  /** The four corner tests are the same in either order of the two objects. */
  lemma CollisionIsSymmetric(a: Point, sa: Size, b: Point, sb: Size)
    ensures HasCollision(a, sa, b, sb) == HasCollision(b, sb, a, sa)
  {
  }

  /** A rectangle with positive sizes collides with itself and with a cell at its corner. */
  lemma CollidesWithItself(a: Point, sa: Size)
    requires sa.rows > 0 && sa.columns > 0
    ensures HasCollision(a, sa, a, sa)
    ensures HasCollision(a, sa, a)
  {
  }

  /** A top-left corner inside the other rectangle is always reported. */
  lemma CornerInsideCollides(a: Point, sa: Size, b: Point, sb: Size)
    requires IsPointInside(a, sa, b) || IsPointInside(b, sb, a)
    ensures HasCollision(a, sa, b, sb)
  {
  }

  /** For rectangles of at least one cell, a reported collision is a real overlap. */
  lemma CollisionMeansOverlap(a: Point, sa: Size, b: Point, sb: Size)
    requires sa.rows >= 1 && sa.columns >= 1 && sb.rows >= 1 && sb.columns >= 1
    requires HasCollision(a, sa, b, sb)
    ensures RectanglesOverlap(a, sa, b, sb)
  {
  }

  /** Facts about one axis when both coordinates are whole numbers of cells. */
  lemma WholeAxis(a: real, n: int, p: real)
    requires IsWhole(a) && IsWhole(p) && n >= 1
    ensures p <= a < p + 1.0 ==> a <= p < a + n as real
    ensures p <= a + n as real - 1.0 < p + 1.0 ==> a <= p < a + n as real
    ensures a < p + 1.0 ==> a <= p
  {
    var i, j := a.Floor, p.Floor;
    assert a == i as real && p == j as real;
    if a < p + 1.0 {
      assert i < j + 1;
    }
    if p <= a + n as real - 1.0 < p + 1.0 {
      assert j <= i + n - 1 < j + 1;
    }
  }

  /**
   * On whole-cell coordinates a single-cell object collides with a rectangle of at
   * least one cell exactly when it lies inside that rectangle.
   */
  lemma WholeCellCollision(a: Point, sa: Size, p: Point)
    requires IsWhole(a.row) && IsWhole(a.column) && IsWhole(p.row) && IsWhole(p.column)
    requires sa.rows >= 1 && sa.columns >= 1
    ensures HasCollision(a, sa, p) <==> IsPointInside(a, sa, p)
    ensures HasCollision(a, sa, p) <==> RectanglesOverlap(a, sa, p, Size(1, 1))
  {
    WholeAxis(a.row, sa.rows, p.row);
    WholeAxis(a.column, sa.columns, p.column);
  }

  /** The corner test misses two rectangles that cross without a corner inside the other. */
  lemma CornerTestMissesCrossing()
    ensures RectanglesOverlap(Point(0.0, 0.0), Size(3, 3), Point(1.0, -1.0), Size(1, 7))
    ensures !HasCollision(Point(0.0, 0.0), Size(3, 3), Point(1.0, -1.0), Size(1, 7))
  {
  }

  /** Off whole cells, a single cell can overlap a rectangle without being reported. */
  lemma CornerTestMissesFractionalCell()
    ensures RectanglesOverlap(Point(0.0, 0.0), Size(3, 5), Point(-0.5, 2.0), Size(1, 1))
    ensures !HasCollision(Point(0.0, 0.0), Size(3, 5), Point(-0.5, 2.0))
  {
  }

  /** A horizontal edge of a bounding-box frame: ' ' + '-' * n + ' '. */
  predicate IsEdgeLine(line: string) {
    |line| >= 2 && line[0] == ' ' && line[|line| - 1] == ' ' &&
    forall k :: 0 < k < |line| - 1 ==> line[k] == '-'
  }

  /** An inner line of a bounding-box frame: '|' + ' ' * n + '|'. */
  predicate IsWallLine(line: string) {
    |line| >= 2 && line[0] == '|' && line[|line| - 1] == '|' &&
    forall k :: 0 < k < |line| - 1 ==> line[k] == ' '
  }

  /**
   * `_get_bounding_box_lines(rows, columns)`: an edge, `rows` wall lines and an edge,
   * each `columns + 2` characters wide (Python repeats a string a negative number of
   * times as the empty string).
   */
  function BoundingBoxLines(rows: int, columns: int): (lines: seq<string>)
    ensures |lines| == Count(rows) + 2
    ensures forall i :: 0 <= i < |lines| ==> |lines[i]| == Count(columns) + 2 && '\n' !in lines[i]
    ensures IsEdgeLine(lines[0]) && IsEdgeLine(lines[|lines| - 1])
    ensures forall i :: 0 < i < |lines| - 1 ==> IsWallLine(lines[i])
  {
    var edge := " " + Repeat('-', columns) + " ";
    var wall := "|" + Repeat(' ', columns) + "|";
    [edge] + seq(Count(rows), _ => wall) + [edge]
  }

  /** A falling obstacle: its exact rectangle and an optional identity tag. */
  datatype Obstacle = Obstacle(row: real, column: real, rowsSize: int := 1, columnsSize: int := 1, uid: Option<string> := None)
  {
    /** The exact rectangle collisions are tested against. */
    function Corner(): Point { Point(row, column) }
    function Extent(): Size { Size(rowsSize, columnsSize) }

    /** `get_bounding_box_frame`: the frame of a box one cell larger than the obstacle, lines joined by '\n'. */
    function BoundingBoxFrame(): (frame: string)
      ensures SplitLines(frame) == BoundingBoxLines(rowsSize + 1, columnsSize + 1)
    {
      var lines := BoundingBoxLines(rowsSize + 1, columnsSize + 1);
      SplitJoin(lines);
      JoinLines(lines)
    }

    /** `get_bounding_box_corner_pos`: the frame starts one cell above and left of the obstacle. */
    function BoundingBoxCornerPos(): (p: Point)
      ensures p.row + 1.0 == row && p.column + 1.0 == column
    {
      Point(row - 1.0, column - 1.0)
    }

    /** `dump_bounding_box`: where the frame is drawn and the frame itself. */
    function DumpBoundingBox(): (r: (real, real, string))
      ensures Point(r.0, r.1) == BoundingBoxCornerPos()
      ensures r.2 == BoundingBoxFrame()
      ensures |SplitLines(r.2)| == Count(rowsSize + 1) + 2
      ensures forall i :: 0 <= i < |SplitLines(r.2)| ==> |SplitLines(r.2)[i]| == Count(columnsSize + 1) + 2
    {
      var corner := BoundingBoxCornerPos();
      (corner.row, corner.column, BoundingBoxFrame())
    }

    /** `Obstacle.has_collision`: the unpadded rectangle against an object of one cell by default. */
    predicate HasCollisionWith(objCornerRow: real, objCornerColumn: real, objSizeRows: int := 1, objSizeColumns: int := 1)
      ensures IsPointInside(Point(row, column), Size(rowsSize, columnsSize), Point(objCornerRow, objCornerColumn)) ==>
        HasCollisionWith(objCornerRow, objCornerColumn, objSizeRows, objSizeColumns)
      ensures IsPointInside(Point(objCornerRow, objCornerColumn), Size(objSizeRows, objSizeColumns), Point(row, column)) ==>
        HasCollisionWith(objCornerRow, objCornerColumn, objSizeRows, objSizeColumns)
    {
      HasCollision(Corner(), Extent(), Point(objCornerRow, objCornerColumn), Size(objSizeRows, objSizeColumns))
    }
  }

  /**
   * On whole cells an obstacle of at least one cell hits a single cell exactly when
   * the cell lies in its exact rectangle: the padding of the drawn box plays no part.
   */
  lemma ObstacleHitsExactRectangle(o: Obstacle, row: real, column: real)
    requires o.rowsSize >= 1 && o.columnsSize >= 1
    requires IsWhole(o.row) && IsWhole(o.column) && IsWhole(row) && IsWhole(column)
    ensures o.HasCollisionWith(row, column) <==> IsPointInside(o.Corner(), o.Extent(), Point(row, column))
  {
    WholeCellCollision(o.Corner(), o.Extent(), Point(row, column));
  }

  /** Every cell an obstacle of at least one cell reports a hit with lies inside its drawn frame. */
  lemma FrameEnclosesCollisions(o: Obstacle, row: real, column: real)
    requires o.rowsSize >= 1 && o.columnsSize >= 1
    requires o.HasCollisionWith(row, column)
    ensures var (r, c, frame) := o.DumpBoundingBox();
      var lines := SplitLines(frame);
      IsPointInside(Point(r, c), Size(|lines|, |lines[0]|), Point(row, column))
  {
    var (r, c, frame) := o.DumpBoundingBox();
    var lines := SplitLines(frame);
    assert |lines| == o.rowsSize + 3 && |lines[0]| == o.columnsSize + 3;
  }
}

/** The enemies' route (`Path`): a fixed list of waypoints and the grid cells the
    route covers, obtained by rasterising each axis-aligned segment into inclusive
    integer cells and then dropping repeated cells, keeping first occurrences. */
module Paths {

  /** A grid cell, or the (integral) x and z of a waypoint. */
  datatype Cell = Cell(x: int, z: int)

  function Min(a: int, b: int): int { if a <= b then a else b }
  function Max(a: int, b: int): int { if a <= b then b else a }

  /** The 20 waypoints of the route, from the left edge to the right edge. */
  const PathWaypoints: seq<Cell> :=
    [Cell(-9, 0), Cell(-7, 0), Cell(-5, 0), Cell(-4, 0),
     Cell(-4, 1), Cell(-4, 3), Cell(-4, 5),
     Cell(-3, 5), Cell(-1, 5), Cell(1, 5),
     Cell(1, 4), Cell(1, 2), Cell(1, 0),
     Cell(2, 0), Cell(4, 0),
     Cell(4, 1), Cell(4, 3),
     Cell(5, 3), Cell(7, 3), Cell(9, 3)]

  /** Consecutive waypoints share their x or their z coordinate. */
  ghost predicate AxisAligned(w: seq<Cell>)
  {
    forall i :: 0 <= i < |w| - 1 ==> w[i].x == w[i + 1].x || w[i].z == w[i + 1].z
  }

  // ---------------------------------------------------------------------------
  // Specification of the rasteriser

  /** Cells (x, z) for z from lo up to, not including, hi. */
  function Column(x: int, lo: int, hi: int): (r: seq<Cell>)
    decreases hi - lo
  {
    if hi <= lo then [] else Column(x, lo, hi - 1) + [Cell(x, hi - 1)]
  }

  /** Cells (x, z) for x from lo up to, not including, hi. */
  function Row(z: int, lo: int, hi: int): (r: seq<Cell>)
    decreases hi - lo
  {
    if hi <= lo then [] else Row(z, lo, hi - 1) + [Cell(hi - 1, z)]
  }

  /** The cells one segment contributes: the inclusive column when the x's agree,
      otherwise the inclusive row when the z's agree, otherwise nothing. */
  function SegmentCells(a: Cell, b: Cell): seq<Cell>
  {
    if a.x == b.x then Column(a.x, Min(a.z, b.z), Max(a.z, b.z) + 1)
    else if a.z == b.z then Row(a.z, Min(a.x, b.x), Max(a.x, b.x) + 1)
    else []
  }

  /** Independent description of a segment's cells, by coordinates. */
  predicate OnSegment(a: Cell, b: Cell, c: Cell)
  {
    || (a.x == b.x && c.x == a.x && Min(a.z, b.z) <= c.z <= Max(a.z, b.z))
    || (a.x != b.x && a.z == b.z && c.z == a.z && Min(a.x, b.x) <= c.x <= Max(a.x, b.x))
  }

  /** Number of segments of a waypoint list. */
  function SegmentCount(w: seq<Cell>): nat
  {
    if |w| == 0 then 0 else |w| - 1
  }

  /** The raw cell list of the first n segments, in order and with repeats. */
  function Segments(w: seq<Cell>, n: nat): seq<Cell>
    requires n <= SegmentCount(w)
  {
    if n == 0 then [] else Segments(w, n - 1) + SegmentCells(w[n - 1], w[n])
  }

  /** The list with every repeat of an earlier element dropped. */
  function Dedup(s: seq<Cell>): seq<Cell>
  {
    if |s| == 0 then []
    else
      var d := Dedup(s[..|s| - 1]);
      if s[|s| - 1] in d then d else d + [s[|s| - 1]]
  }

  /** The path's grid cells. */
  function Rasterize(w: seq<Cell>): seq<Cell>
  {
    Dedup(Segments(w, SegmentCount(w)))
  }

  /** Index of the first occurrence of c in s. */
  function FirstIndex(s: seq<Cell>, c: Cell): (k: nat)
    requires c in s
    ensures k < |s| && s[k] == c
    ensures forall j :: 0 <= j < k ==> s[j] != c
  {
    var n := |s| - 1;
    if c in s[..n] then FirstIndex(s[..n], c) else n
  }

  /** No element occurs twice. */
  ghost predicate Distinct<T>(s: seq<T>)
  {
    forall i, j :: 0 <= i < j < |s| ==> s[i] != s[j]
  }

  // ---------------------------------------------------------------------------
  // Properties of the rasteriser

  lemma {:induction false} ColumnMembership(x: int, lo: int, hi: int, c: Cell)
    ensures c in Column(x, lo, hi) <==> c.x == x && lo <= c.z < hi
    decreases hi - lo
  {
    if hi > lo {
      ColumnMembership(x, lo, hi - 1, c);
    }
  }

  lemma {:induction false} RowMembership(z: int, lo: int, hi: int, c: Cell)
    ensures c in Row(z, lo, hi) <==> c.z == z && lo <= c.x < hi
    decreases hi - lo
  {
    if hi > lo {
      RowMembership(z, lo, hi - 1, c);
    }
  }

  /** A segment contributes exactly the cells between its ends, inclusive, when it is
      axis-aligned, and no cell at all when it is not. */
  lemma SegmentMembership(a: Cell, b: Cell, c: Cell)
    ensures c in SegmentCells(a, b) <==> OnSegment(a, b, c)
    ensures a.x != b.x && a.z != b.z ==> SegmentCells(a, b) == []
  {
    if a.x == b.x {
      ColumnMembership(a.x, Min(a.z, b.z), Max(a.z, b.z) + 1, c);
    } else if a.z == b.z {
      RowMembership(a.z, Min(a.x, b.x), Max(a.x, b.x) + 1, c);
    }
  }

  /** A cell is in the raw list of the first n segments exactly when it lies on one of them. */
  lemma {:induction false} SegmentsMembership(w: seq<Cell>, n: nat, c: Cell)
    requires n <= SegmentCount(w)
    ensures c in Segments(w, n) <==> exists i :: 0 <= i < n && OnSegment(w[i], w[i + 1], c)
  {
    if n > 0 {
      SegmentsMembership(w, n - 1, c);
      SegmentMembership(w[n - 1], w[n], c);
      if OnSegment(w[n - 1], w[n], c) {
        assert c in SegmentCells(w[n - 1], w[n]);
      }
    }
  }

  /** De-duplication keeps every element and adds none. */
  lemma {:induction false} DedupElements(s: seq<Cell>, c: Cell)
    ensures c in Dedup(s) <==> c in s
  {
    if |s| > 0 {
      var n := |s| - 1;
      DedupElements(s[..n], c);
      assert s == s[..n] + [s[n]];
    }
  }

  /** De-duplication leaves no repeated cell. */
  lemma {:induction false} DedupDistinct(s: seq<Cell>)
    ensures Distinct(Dedup(s))
  {
    if |s| > 0 {
      var n := |s| - 1;
      DedupDistinct(s[..n]);
    }
  }

  /** De-duplication keeps the cells in the order of their first occurrence. */
  lemma {:induction false} DedupKeepsFirstOccurrenceOrder(s: seq<Cell>)
    ensures forall c :: c in Dedup(s) ==> c in s
    ensures forall i, j :: 0 <= i < j < |Dedup(s)| ==>
              FirstIndex(s, Dedup(s)[i]) < FirstIndex(s, Dedup(s)[j])
  {
    forall c | c in Dedup(s) ensures c in s { DedupElements(s, c); }
    if |s| > 0 {
      var n := |s| - 1;
      var p := s[..n];
      var d := Dedup(p);
      DedupKeepsFirstOccurrenceOrder(p);
      forall c | c in d ensures FirstIndex(s, c) == FirstIndex(p, c) {
        DedupElements(p, c);
      }
      if s[n] !in d {
        DedupElements(p, s[n]);
        assert FirstIndex(s, s[n]) == n;
      }
    }
  }

  /** A cell is on the path exactly when it lies on one of the route's segments. */
  lemma RasterizeMembership(w: seq<Cell>, c: Cell)
    ensures c in Rasterize(w) <==> exists i :: 0 <= i < |w| - 1 && OnSegment(w[i], w[i + 1], c)
  {
    DedupElements(Segments(w, SegmentCount(w)), c);
    SegmentsMembership(w, SegmentCount(w), c);
  }

  /** The route's waypoints: 20 of them, from (-9,0) to (9,3), each segment axis-aligned,
      every x within [-9, 9] and every z within [0, 5]. */
  lemma WaypointFacts()
    ensures |PathWaypoints| == 20
    ensures PathWaypoints[0] == Cell(-9, 0) && PathWaypoints[19] == Cell(9, 3)
    ensures AxisAligned(PathWaypoints)
    ensures forall i :: 0 <= i < |PathWaypoints| ==>
              -9 <= PathWaypoints[i].x <= 9 && 0 <= PathWaypoints[i].z <= 5
  {
  }

  /** A waypoint list that agrees with the route element by element. */
  ghost predicate IsRoute(w: seq<Cell>)
  {
    |w| == |PathWaypoints| && forall i :: 0 <= i < |w| ==> w[i] == PathWaypoints[i]
  }

  /** Agreeing element by element is being the route. */
  lemma IsRouteIsPathWaypoints(w: seq<Cell>)
    ensures IsRoute(w) <==> w == PathWaypoints
  {
    if IsRoute(w) {
      assert w == PathWaypoints;
    }
  }

  /** Every waypoint of the route has x within [-9, 9] and z within [0, 5]. */
  lemma RouteWithinBounds(w: seq<Cell>)
    requires IsRoute(w)
    ensures forall i :: 0 <= i < |w| ==> -9 <= w[i].x <= 9 && 0 <= w[i].z <= 5
  {
    WaypointFacts();
  }

  /** No path cell lies outside the bounding box of the waypoints' x coordinates. */
  lemma PathCellsWithinX(w: seq<Cell>, lo: int, hi: int, c: Cell)
    requires forall i :: 0 <= i < |w| ==> lo <= w[i].x <= hi
    requires c in Rasterize(w)
    ensures lo <= c.x <= hi
  {
    RasterizeMembership(w, c);
    var i :| 0 <= i < |w| - 1 && OnSegment(w[i], w[i + 1], c);
  }

  // ---------------------------------------------------------------------------
  // The imperative construction

  /** `createPath`: appends the route's waypoints one by one. */
  method CreatePath() returns (w: seq<Cell>)
    ensures w == PathWaypoints
  {
    w := [];
    w := w + [Cell(-9, 0)];
    w := w + [Cell(-7, 0)];
    w := w + [Cell(-5, 0)];
    w := w + [Cell(-4, 0)];
    w := w + [Cell(-4, 1)];
    w := w + [Cell(-4, 3)];
    w := w + [Cell(-4, 5)];
    w := w + [Cell(-3, 5)];
    w := w + [Cell(-1, 5)];
    w := w + [Cell(1, 5)];
    w := w + [Cell(1, 4)];
    w := w + [Cell(1, 2)];
    w := w + [Cell(1, 0)];
    w := w + [Cell(2, 0)];
    w := w + [Cell(4, 0)];
    w := w + [Cell(4, 1)];
    w := w + [Cell(4, 3)];
    w := w + [Cell(5, 3)];
    w := w + [Cell(7, 3)];
    w := w + [Cell(9, 3)];
  }

  /** One segment of `createPathCoordinates`: appends the inclusive column when the x's
      agree, else the inclusive row when the z's agree, else nothing. */
  method AppendSegment(coords: seq<Cell>, start: Cell, end: Cell) returns (r: seq<Cell>)
    ensures r == coords + SegmentCells(start, end)
  {
    r := coords;
    if start.x == end.x {
      var minZ, maxZ := Min(start.z, end.z), Max(start.z, end.z);
      for z := minZ to maxZ + 1
        invariant r == coords + Column(start.x, minZ, z)
      {
        r := r + [Cell(start.x, z)];
      }
    } else if start.z == end.z {
      var minX, maxX := Min(start.x, end.x), Max(start.x, end.x);
      for x := minX to maxX + 1
        invariant r == coords + Row(start.z, minX, x)
      {
        r := r + [Cell(x, start.z)];
      }
    }
  }

  /** The first half of `createPathCoordinates`: each segment's cells, appended in order. */
  method SegmentCoordinates(w: seq<Cell>) returns (coords: seq<Cell>)
    ensures coords == Segments(w, SegmentCount(w))
  {
    coords := [];
    var i := 0;
    while i < |w| - 1
      invariant 0 <= i <= SegmentCount(w)
      invariant coords == Segments(w, i)
    {
      coords := AppendSegment(coords, w[i], w[i + 1]);
      i := i + 1;
    }
  }

  /** The second half of `createPathCoordinates`: copies each cell unless an equal cell
      has already been copied. */
  method UniqueCoordinates(coords: seq<Cell>) returns (unique: seq<Cell>)
    ensures unique == Dedup(coords)
  {
    unique := [];
    for k := 0 to |coords|
      invariant unique == Dedup(coords[..k])
    {
      var coord := coords[k];
      var found := false;
      var j := 0;
      while j < |unique|
        invariant 0 <= j <= |unique|
        invariant !found && forall m :: 0 <= m < j ==> unique[m] != coord
      {
        if unique[j] == coord {
          found := true;
          break;
        }
        j := j + 1;
      }
      assert coords[..k + 1][..k] == coords[..k];
      if !found {
        unique := unique + [coord];
      }
    }
    assert coords[..|coords|] == coords;
  }

  /** `createPathCoordinates`: fills the raw cell list segment by segment, then copies
      each cell into the result unless an equal cell is already there. */
  method CreatePathCoordinates(w: seq<Cell>) returns (unique: seq<Cell>)
    ensures unique == Rasterize(w)
    ensures Distinct(unique)
    ensures forall c :: c in unique <==> exists i :: 0 <= i < |w| - 1 && OnSegment(w[i], w[i + 1], c)
  {
    var coords := SegmentCoordinates(w);
    unique := UniqueCoordinates(coords);
    DedupDistinct(coords);
    forall c ensures c in unique <==> exists i :: 0 <= i < |w| - 1 && OnSegment(w[i], w[i + 1], c) {
      RasterizeMembership(w, c);
    }
  }

  /** The route together with its precomputed grid cells. Both are fixed at construction. */
  class Path {
    const waypoints: seq<Cell>
    const pathCoordinates: seq<Cell>

    constructor ()
      ensures IsRoute(waypoints)
      ensures pathCoordinates == Rasterize(waypoints)
    {
      var w := CreatePath();
      var c := CreatePathCoordinates(w);
      waypoints := w;
      pathCoordinates := c;
      IsRouteIsPathWaypoints(w);
    }

    /** `isOnPath`: linear search of the path cells. */
    method IsOnPath(x: int, z: int) returns (r: bool)
      ensures r <==> Cell(x, z) in pathCoordinates
    {
      for k := 0 to |pathCoordinates|
        invariant forall m :: 0 <= m < k ==> pathCoordinates[m] != Cell(x, z)
      {
        if pathCoordinates[k].x == x && pathCoordinates[k].z == z {
          return true;
        }
      }
      return false;
    }
  }
}

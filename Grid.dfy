/**
 * The grid generator: latitude rows from the south edge northwards, and in
 * each row longitudes from the west edge eastwards, one step apart, for as
 * long as the coordinate has not passed the far edge.
 */
module Grid {
  import opened Config

  /**
   * How many more times a loop `while x <= limit { ...; x := x + step }`
   * runs when `span == limit - x`. It is the termination measure of both loops.
   */
  function Steps(span: real, step: real): nat
    requires step > 0.0
  {
    if span < 0.0 then 0 else StepsOfNonNegative(span, step)
  }

  function StepsOfNonNegative(span: real, step: real): nat
    requires step > 0.0 && span >= 0.0
  {
    assert span / step >= 0.0 by { QuotientNonNegative(span, step); }
    (span / step).Floor + 1
  }

  lemma QuotientNonNegative(a: real, b: real)
    requires a >= 0.0 && b > 0.0
    ensures a / b >= 0.0
  {
  }

  lemma ZeroProduct(x: real, s: real)
    requires s > 0.0 && x * s == 0.0
    ensures x == 0.0
  {
  }

  /** One more step leaves one fewer iteration. */
  lemma StepsDecrease(span: real, step: real)
    requires step > 0.0 && span >= 0.0
    ensures Steps(span - step, step) < Steps(span, step)
  {
    var q, q' := span / step, (span - step) / step;
    assert q * step == span && q' * step == span - step;
    assert (q' - (q - 1.0)) * step == 0.0;
    ZeroProduct(q' - (q - 1.0), step);
    if span - step >= 0.0 {
      assert Steps(span - step, step) == q'.Floor + 1;
      assert Steps(span, step) == q.Floor + 1;
      assert q'.Floor < q.Floor;
    }
  }

  /** The points of one row: latitude `lat`, longitudes from `lng` while they do not pass `east`. */
  function Row(lat: real, lng: real, east: real, step: real): seq<GridPoint>
    requires step > 0.0
    decreases Steps(east - lng, step)
  {
    if lng <= east then
      StepsDecrease(east - lng, step);
      [GridPoint(lat, lng)] + Row(lat, lng + step, east, step)
    else
      []
  }

  /** The rows from latitude `lat` northwards, while the latitude does not pass `b.north`. */
  function Rows(lat: real, b: Bounds, step: real): seq<GridPoint>
    requires step > 0.0
    decreases Steps(b.north - lat, step)
  {
    if lat <= b.north then
      StepsDecrease(b.north - lat, step);
      Row(lat, b.west, b.east, step) + Rows(lat + step, b, step)
    else
      []
  }

  /** The whole grid, as the generator emits it. */
  function GridPoints(b: Bounds, step: real): seq<GridPoint>
    requires step > 0.0
  {
    Rows(b.south, b, step)
  }

  /** The loop guards held when the point was emitted, and it lies inside the box. */
  predicate WithinGuards(p: GridPoint, b: Bounds) {
    b.south <= p.lat <= b.north && b.west <= p.lng <= b.east
  }

  /** `p` comes before `q` in row-major order. */
  predicate Before(p: GridPoint, q: GridPoint) {
    p.lat < q.lat || (p.lat == q.lat && p.lng < q.lng)
  }

  predicate RowMajor(ps: seq<GridPoint>) {
    forall i, j :: 0 <= i < j < |ps| ==> Before(ps[i], ps[j])
  }

  /**
   * A row keeps its latitude, has strictly increasing longitudes between its
   * start and `east`, and, when not empty, starts at `lng` and ends less than
   * one step short of passing `east`.
   */
  lemma {:induction false} RowShape(lat: real, lng: real, east: real, step: real)
    requires step > 0.0
    ensures var r := Row(lat, lng, east, step);
      && (forall k :: 0 <= k < |r| ==> r[k].lat == lat && lng <= r[k].lng <= east)
      && (forall i, j :: 0 <= i < j < |r| ==> r[i].lng < r[j].lng)
      && (lng <= east <==> |r| > 0)
      && (|r| > 0 ==> r[0] == GridPoint(lat, lng) && r[|r| - 1].lng + step > east)
    decreases Steps(east - lng, step)
  {
    if lng <= east {
      StepsDecrease(east - lng, step);
      RowShape(lat, lng + step, east, step);
    }
  }

  /** Every point of the rows from `lat` northwards lies between `lat` and the guards, in row-major order. */
  lemma {:induction false} RowsShape(lat: real, b: Bounds, step: real)
    requires step > 0.0
    ensures var r := Rows(lat, b, step);
      && (forall k :: 0 <= k < |r| ==> lat <= r[k].lat <= b.north && b.west <= r[k].lng <= b.east)
      && RowMajor(r)
    decreases Steps(b.north - lat, step)
  {
    if lat <= b.north {
      StepsDecrease(b.north - lat, step);
      var row, rest := Row(lat, b.west, b.east, step), Rows(lat + step, b, step);
      RowShape(lat, b.west, b.east, step);
      RowsShape(lat + step, b, step);
      var r := row + rest;
      forall i, j | 0 <= i < j < |r|
        ensures Before(r[i], r[j])
      {
        if j < |row| {
          assert r[i] == row[i] && r[j] == row[j];
        } else if i < |row| {
          assert r[i] == row[i] && r[j] == rest[j - |row|];
        } else {
          assert r[i] == rest[i - |row|] && r[j] == rest[j - |row|];
        }
      }
    }
  }

  /** The grid stays inside the loop guards and comes out row by row. */
  lemma GridShape(b: Bounds, step: real)
    requires step > 0.0
    ensures forall k :: 0 <= k < |GridPoints(b, step)| ==> WithinGuards(GridPoints(b, step)[k], b)
    ensures RowMajor(GridPoints(b, step))
  {
    RowsShape(b.south, b, step);
  }

  /** A well-formed box yields at least one point, and the first is its south-west corner. */
  lemma GridStartsAtSouthWest(b: Bounds, step: real)
    requires step > 0.0 && b.south <= b.north && b.west <= b.east
    ensures |GridPoints(b, step)| > 0
    ensures GridPoints(b, step)[0] == GridPoint(b.south, b.west)
  {
    RowShape(b.south, b.west, b.east, step);
  }

  /**
   * The rows from `lat` end with a point less than one step short of passing
   * the north edge and less than one step short of passing the east edge.
   */
  lemma {:induction false} RowsEndNearEdges(lat: real, b: Bounds, step: real)
    requires step > 0.0 && b.west <= b.east
    ensures var r := Rows(lat, b, step);
      (lat <= b.north <==> |r| > 0) &&
      (|r| > 0 ==> r[|r| - 1].lat + step > b.north && r[|r| - 1].lng + step > b.east)
    decreases Steps(b.north - lat, step)
  {
    if lat <= b.north {
      StepsDecrease(b.north - lat, step);
      var row, rest := Row(lat, b.west, b.east, step), Rows(lat + step, b, step);
      RowShape(lat, b.west, b.east, step);
      RowsEndNearEdges(lat + step, b, step);
      var r := row + rest;
      if |rest| > 0 {
        assert r[|r| - 1] == rest[|rest| - 1];
      } else {
        assert r[|r| - 1] == row[|row| - 1];
      }
    }
  }

  /** The last grid point is within one step of the north edge and of the east edge. */
  lemma GridEndsNearEdges(b: Bounds, step: real)
    requires step > 0.0 && b.west <= b.east
    ensures var g := GridPoints(b, step);
      |g| > 0 ==> g[|g| - 1].lat + step > b.north && g[|g| - 1].lng + step > b.east
  {
    RowsEndNearEdges(b.south, b, step);
  }

  /**
   * The grid over `EdmontonBounds` is not empty, starts at (53.4, -113.7),
   * keeps to 53.4..53.7 by -113.7..-113.3, and is row-major, for every
   * positive step (the configured 0.05 among them).
   */
  lemma ConfiguredGrid(step: real)
    requires step > 0.0
    ensures var g := GridPoints(EdmontonBounds, step);
      && |g| > 0 && g[0] == GridPoint(53.4, -113.7)
      && (forall k :: 0 <= k < |g| ==> 53.4 <= g[k].lat <= 53.7 && -113.7 <= g[k].lng <= -113.3)
      && RowMajor(g)
  {
    GridShape(EdmontonBounds, step);
    GridStartsAtSouthWest(EdmontonBounds, step);
  }

  /** The inner loop of `generate_search_grid`: one row of longitudes from `west` while not past `east`. */
  method GenerateRow(lat: real, west: real, east: real, step: real) returns (row: seq<GridPoint>)
    requires step > 0.0
    ensures row == Row(lat, west, east, step)
  {
    row := [];
    var lng := west;
    while lng <= east
      invariant row + Row(lat, lng, east, step) == Row(lat, west, east, step)
      decreases Steps(east - lng, step)
    {
      assert Row(lat, lng, east, step) == [GridPoint(lat, lng)] + Row(lat, lng + step, east, step);
      assert row + ([GridPoint(lat, lng)] + Row(lat, lng + step, east, step))
        == (row + [GridPoint(lat, lng)]) + Row(lat, lng + step, east, step);
      row := row + [GridPoint(lat, lng)];
      StepsDecrease(east - lng, step);
      lng := lng + step;
    }
    assert row + [] == row;
  }

  /**
   * `generate_search_grid`: latitude rows from `bounds.south`, longitudes from
   * `bounds.west`, each advanced by `step` while it has not passed the far edge.
   */
  method GenerateSearchGrid(bounds: Bounds, step: real) returns (points: seq<GridPoint>)
    requires step > 0.0
    ensures points == GridPoints(bounds, step)
    ensures forall k :: 0 <= k < |points| ==> WithinGuards(points[k], bounds)
    ensures RowMajor(points)
  {
    points := [];
    var lat := bounds.south;
    while lat <= bounds.north
      invariant points + Rows(lat, bounds, step) == GridPoints(bounds, step)
      decreases Steps(bounds.north - lat, step)
    {
      var row := GenerateRow(lat, bounds.west, bounds.east, step);
      assert Rows(lat, bounds, step) == row + Rows(lat + step, bounds, step);
      assert points + (row + Rows(lat + step, bounds, step)) == (points + row) + Rows(lat + step, bounds, step);
      points := points + row;
      StepsDecrease(bounds.north - lat, step);
      lat := lat + step;
    }
    GridShape(bounds, step);
  }
}

/** The cruise-altitude filter: an edge is usable only if the top of the range clears the terrain floor all along it. */
module MoraConstraints {
  import opened Numbers
  import opened MoraGrids
  import opened MoraWalks

  const FULL_CIRCLE := 360.0
  const GREAT_CIRCLE_PIECE_DEG := 5.0

  /** The whole number nearest to q, the even one of two equally near. */
  function RoundHalfEven(q: real): int {
    var f := q.Floor;
    var part := q - f as real;
    if part < 0.5 || (part == 0.5 && f % 2 == 0) then f else f + 1
  }

  /** The signed remainder of least magnitude. */
  function Remainder(x: real): real {
    x - RoundHalfEven(x / FULL_CIRCLE) as real * FULL_CIRCLE
  }

  /** It differs from x by whole turns and is at most half a turn: the shorter way round. */
  lemma RemainderIsShorterWay(x: real)
    ensures -180.0 <= Remainder(x) <= 180.0
    ensures x - Remainder(x) == RoundHalfEven(x / FULL_CIRCLE) as real * FULL_CIRCLE
  {
    var q := x / FULL_CIRCLE;
    var n := RoundHalfEven(q);
    assert q * FULL_CIRCLE == x;
    assert -0.5 <= q - n as real <= 0.5;
    assert Remainder(x) == (q - n as real) * FULL_CIRCLE;
  }

  // ---- The track ------------------------------------------------------------------------------

  /** The points with each longitude continued from the previous one, so that no piece wraps. */
  function Unwrap(prev: Coordinate, points: seq<Coordinate>): (out: seq<Coordinate>)
    ensures |out| == |points|
    decreases |points|
  {
    if points == [] then []
    else
      var next := Coordinate(points[0].latitude, prev.longitude + Remainder(points[0].longitude - prev.longitude));
      [next] + Unwrap(next, points[1..])
  }

  predicate ShortLeg(from: Coordinate, to: Coordinate) {
    && Abs(to.latitude - from.latitude) <= GREAT_CIRCLE_PIECE_DEG
    && Abs(Remainder(to.longitude - from.longitude)) <= GREAT_CIRCLE_PIECE_DEG
  }

  /**
   * The points a leg is walked through: its ends, and between them, on a long leg, the
   * great-circle points; a degenerate arc has none.
   */
  function Waypoints(from: Coordinate, to: Coordinate, arc: Option<seq<Coordinate>>): seq<Coordinate> {
    if ShortLeg(from, to) || arc.None? then [to] else arc.value + [to]
  }

  function Track(from: Coordinate, to: Coordinate, arc: Option<seq<Coordinate>>): (points: seq<Coordinate>)
    ensures |points| == |Waypoints(from, to, arc)| + 1
  {
    [from] + Unwrap(from, Waypoints(from, to, arc))
  }

  function LatAxis(a: Coordinate, b: Coordinate): Axis { Axis(a.latitude, b.latitude) }

  function LonAxis(a: Coordinate, b: Coordinate): Axis { Axis(a.longitude, b.longitude) }

  /** Unwrapping moves a point by whole turns, so onto the same cells of the globe. */
  lemma {:induction false} UnwrapMovesByTurns(prev: Coordinate, points: seq<Coordinate>, k: nat) returns (turns: int)
    requires k < |points|
    ensures Unwrap(prev, points)[k].latitude == points[k].latitude
    ensures Unwrap(prev, points)[k].longitude - points[k].longitude == turns as real * FULL_CIRCLE
    decreases |points|
  {
    var d := points[0].longitude - prev.longitude;
    var next := Coordinate(points[0].latitude, prev.longitude + Remainder(d));
    RemainderIsShorterWay(d);
    if k == 0 {
      turns := -RoundHalfEven(d / FULL_CIRCLE);
    } else {
      turns := UnwrapMovesByTurns(next, points[1..], k - 1);
    }
  }

  /** A shifted longitude reads the same cell, so a track across the antimeridian reads what lies under it. */
  lemma ShiftedReadsSame(cells: seq<FlightLevel>, lat: int, lon: real, turns: int)
    ensures CellValue(cells, lat, (lon + turns as real * FULL_CIRCLE).Floor) == CellValue(cells, lat, lon.Floor)
  {
    assert turns as real * FULL_CIRCLE == (turns * LON_COUNT) as real;
    assert (lon + (turns * LON_COUNT) as real).Floor == lon.Floor + turns * LON_COUNT;
    CellValueWraps(cells, lat, lon.Floor, turns);
  }

  /** Every cell a piece of the track passes through is at most `best`. */
  ghost predicate ClearsTrack(cells: seq<FlightLevel>, points: seq<Coordinate>, best: FlightLevel) {
    forall k, c :: 0 < k < |points| && Meets(LatAxis(points[k - 1], points[k]), LonAxis(points[k - 1], points[k]), c) ==>
      CellValue(cells, c.row, c.col) <= best
  }

  /** The floor over the ground under a position. */
  ghost function FloorUnder(cells: seq<FlightLevel>, p: Coordinate): FlightLevel {
    CellValue(cells, p.latitude.Floor, p.longitude.Floor)
  }

  ghost predicate ClearsPoints(cells: seq<FlightLevel>, points: seq<Coordinate>, best: FlightLevel) {
    forall k :: 0 <= k < |points| ==> FloorUnder(cells, points[k]) <= best
  }

  /** The ends of the leg are cleared, and on a long leg so is every great-circle point between them. */
  ghost predicate ClearsLeg(cells: seq<FlightLevel>, from: Coordinate, to: Coordinate, arc: Option<seq<Coordinate>>, best: FlightLevel) {
    && FloorUnder(cells, from) <= best && FloorUnder(cells, to) <= best
    && (!ShortLeg(from, to) && arc.Some? ==> ClearsPoints(cells, arc.value, best))
  }

  /**
   * The track runs from one end to the other, through every great-circle point of a long leg and nothing else, each
   * point moved by whole turns to where it is nearest the one before.
   */
  lemma TrackPasses(from: Coordinate, to: Coordinate, arc: Option<seq<Coordinate>>, k: nat) returns (turns: int)
    requires k < |Track(from, to, arc)|
    ensures var track := Track(from, to, arc);
            var between := if ShortLeg(from, to) || arc.None? then [] else arc.value;
            && |track| == |between| + 2 && track[0] == from
            && (k > 0 ==>
                  var p := if k <= |between| then between[k - 1] else to;
                  && track[k].latitude == p.latitude && track[k].longitude - p.longitude == turns as real * FULL_CIRCLE
                  && -180.0 <= track[k].longitude - track[k - 1].longitude <= 180.0)
  {
    turns := 0;
    if k > 0 {
      var route := Waypoints(from, to, arc);
      turns := UnwrapMovesByTurns(from, route, k - 1);
      UnwrapStaysNear(from, route, k - 1);
    }
  }

  lemma {:induction false} UnwrapStaysNear(prev: Coordinate, points: seq<Coordinate>, k: nat)
    requires k < |points|
    ensures -180.0 <= Unwrap(prev, points)[k].longitude - ([prev] + Unwrap(prev, points))[k].longitude <= 180.0
    decreases |points|
  {
    var d := points[0].longitude - prev.longitude;
    RemainderIsShorterWay(d);
    if k > 0 {
      var next := Coordinate(points[0].latitude, prev.longitude + Remainder(d));
      UnwrapStaysNear(next, points[1..], k - 1);
    }
  }

  /** What clears the points of the track clears the leg. */
  lemma TrackClearsLeg(cells: seq<FlightLevel>, from: Coordinate, to: Coordinate, arc: Option<seq<Coordinate>>, best: FlightLevel)
    requires ClearsPoints(cells, Track(from, to, arc), best)
    ensures ClearsLeg(cells, from, to, arc, best)
  {
    hide CellValue, Track, Remainder;
    var track := Track(from, to, arc);
    var _ := TrackPasses(from, to, arc, 0);
    var end := |track| - 1;
    var turns := TrackPasses(from, to, arc, end);
    ShiftedReadsSame(cells, to.latitude.Floor, to.longitude, turns);
    assert FloorUnder(cells, track[end]) == FloorUnder(cells, to);
    if !ShortLeg(from, to) && arc.Some? {
      forall j | 0 <= j < |arc.value|
        ensures FloorUnder(cells, arc.value[j]) <= best
      {
        var shift := TrackPasses(from, to, arc, j + 1);
        ShiftedReadsSame(cells, arc.value[j].latitude.Floor, arc.value[j].longitude, shift);
        assert FloorUnder(cells, track[j + 1]) == FloorUnder(cells, arc.value[j]);
      }
    }
  }

  /** A walked piece clears both its ends. */
  lemma PieceClears(cells: seq<FlightLevel>, points: seq<Coordinate>, k: nat, visited: seq<Cell>, best: FlightLevel, out: FlightLevel)
    requires 0 < k < |points| && (k > 1 ==> ClearsPoints(cells, points[..k], best))
    requires WalkedFully(LatAxis(points[k - 1], points[k]), LonAxis(points[k - 1], points[k]), visited)
    requires IsHighest(cells, visited, best, out)
    ensures ClearsPoints(cells, points[..k + 1], out)
  {
    hide CellValue, Meets, TouchesCell, UnitSteps;
    assert visited[0] in visited && visited[|visited| - 1] in visited;
    var now := points[..k + 1];
    forall j | 0 <= j < |now|
      ensures FloorUnder(cells, now[j]) <= out
    {
      assert j < k - 1 ==> points[..k][j] == now[j];
    }
  }

  /** Some cell the track touches has this value. */
  ghost predicate OnTrack(cells: seq<FlightLevel>, points: seq<Coordinate>, v: FlightLevel) {
    exists k, c :: OnPiece(cells, points, v, k, c)
  }

  ghost predicate OnPiece(cells: seq<FlightLevel>, points: seq<Coordinate>, v: FlightLevel, k: int, c: Cell) {
    && 0 < k < |points| && CellValue(cells, c.row, c.col) == v
    && TouchesCell(LatAxis(points[k - 1], points[k]), LonAxis(points[k - 1], points[k]), c)
  }

  /** One more piece of the track has been folded in. */
  lemma PieceFolds(cells: seq<FlightLevel>, points: seq<Coordinate>, k: nat, visited: seq<Cell>, best: FlightLevel, out: FlightLevel)
    requires 0 < k < |points|
    requires ClearsTrack(cells, points[..k], best) && (best == 0 || OnTrack(cells, points[..k], best))
    requires WalkedFully(LatAxis(points[k - 1], points[k]), LonAxis(points[k - 1], points[k]), visited)
    requires IsHighest(cells, visited, best, out)
    ensures ClearsTrack(cells, points[..k + 1], out) && (out == 0 || OnTrack(cells, points[..k + 1], out))
  {
    hide CellValue, Meets, TouchesCell, UnitSteps;
    var now := points[..k + 1];
    assert forall i :: 0 <= i < k ==> now[i] == points[..k][i];
    forall i, c | 0 < i < |now| && Meets(LatAxis(now[i - 1], now[i]), LonAxis(now[i - 1], now[i]), c)
      ensures CellValue(cells, c.row, c.col) <= out
    {
      if i < k {
        assert Meets(LatAxis(points[..k][i - 1], points[..k][i]), LonAxis(points[..k][i - 1], points[..k][i]), c);
      }
    }
    if out != 0 {
      if out == best {
        var i, c :| OnPiece(cells, points[..k], best, i, c);
        assert OnPiece(cells, now, out, i, c);
      } else {
        var c :| c in visited && CellValue(cells, c.row, c.col) == out;
        assert OnPiece(cells, now, out, k, c);
      }
    }
  }

  /** The highest known floor along a leg. */
  method MaxMoraAlongLeg(grid: MoraGrid, from: Coordinate, to: Coordinate, arc: Option<seq<Coordinate>>)
    returns (best: FlightLevel)
    requires grid.Valid()
    ensures best >= 0 && ClearsTrack(grid.cells[..], Track(from, to, arc), best)
    ensures best == 0 || OnTrack(grid.cells[..], Track(from, to, arc), best)
    ensures ClearsLeg(grid.cells[..], from, to, arc, best)
  {
    hide *;
    best := 0;
    ghost var cells, points := grid.cells[..], Track(from, to, arc);
    var route := Waypoints(from, to, arc);
    ghost var visited: seq<Cell>;
    var prev := from;
    NothingWalked(cells, from, to, arc);
    for i := 0 to |route|
      invariant |points| == |route| + 1 && points[i] == prev && best >= 0
      invariant points[i + 1..] == Unwrap(prev, route[i..])
      invariant ClearsTrack(cells, points[..i + 1], best) && (best == 0 || OnTrack(cells, points[..i + 1], best))
      invariant i > 0 ==> ClearsPoints(cells, points[..i + 1], best)
    {
      UnwrapStep(prev, route, i);
      var nextLon := prev.longitude + Remainder(route[i].longitude - prev.longitude);
      var next := Coordinate(route[i].latitude, nextLon);
      assert points[i + 1] == points[i + 1..][0];
      assert points[i + 2..] == points[i + 1..][1..];
      ghost var was := best;
      best, visited := WalkCells(grid, Axis(prev.latitude, next.latitude), Axis(prev.longitude, next.longitude), best);
      AxesAre(prev, next);
      PieceFolds(cells, points, i + 1, visited, was, best);
      PieceClears(cells, points, i + 1, visited, was, best);
      HighestIsAbove(cells, visited, was, best);
      prev := next;
    }
    assert points[..|route| + 1] == points;
    TrackClearsLeg(cells, from, to, arc, best);
  }

  lemma NothingWalked(cells: seq<FlightLevel>, from: Coordinate, to: Coordinate, arc: Option<seq<Coordinate>>)
    ensures var points, route := Track(from, to, arc), Waypoints(from, to, arc);
            && route != [] && |points| == |route| + 1 && points[0] == from && ClearsTrack(cells, points[..1], 0)
            && points[1..] == Unwrap(from, route[0..])
  {
    var route := Waypoints(from, to, arc);
    assert route[0..] == route;
  }

  lemma UnwrapStep(prev: Coordinate, route: seq<Coordinate>, i: nat)
    requires i < |route|
    ensures var next := Coordinate(route[i].latitude, prev.longitude + Remainder(route[i].longitude - prev.longitude));
            Unwrap(prev, route[i..]) == [next] + Unwrap(next, route[i + 1..])
  {
    assert route[i..][1..] == route[i + 1..];
  }

  lemma AxesAre(a: Coordinate, b: Coordinate)
    ensures LatAxis(a, b) == Axis(a.latitude, b.latitude) && LonAxis(a, b) == Axis(a.longitude, b.longitude)
  {
  }

  lemma HighestIsAbove(cells: seq<FlightLevel>, visited: seq<Cell>, best: FlightLevel, out: FlightLevel)
    requires IsHighest(cells, visited, best, out)
    ensures best <= out
  {
  }

  /** Whether an edge is usable at the requested cruise range, given as its highest flight level. */
  method Allows(grid: MoraGrid, from: Coordinate, to: Coordinate, arc: Option<seq<Coordinate>>, maxFl: Option<int>)
    returns (allowed: bool)
    requires grid.Valid()
    ensures maxFl.None? ==> allowed
    ensures allowed && maxFl.Some? ==>
              exists floor: FlightLevel ::
                && ClearsTrack(grid.cells[..], Track(from, to, arc), floor) && ClearsLeg(grid.cells[..], from, to, arc, floor)
                && (floor == 0 || floor as int <= maxFl.value)
    ensures !allowed ==> exists v: FlightLevel :: OnTrack(grid.cells[..], Track(from, to, arc), v) && v != 0 && maxFl.value < v as int
  {
    hide ClearsTrack, ClearsLeg, OnTrack, Track;
    if maxFl.None? {
      return true;
    }
    var mora := MaxMoraAlongLeg(grid, from, to, arc);
    if mora == 0 {
      return true;
    }
    allowed := maxFl.value >= mora as int;
  }
}

/** The one-degree grid of minimum off-route altitudes. */
module MoraGrids {

  const LAT_COUNT := 180
  const LON_COUNT := 360
  const CELLS := 64800
  const INVALID_GRID_INDEX := -9999
  const FINITE_VALUE_BOUND := 1000000000.0

  /** A flight level as the grid stores it; 0 means unknown. */
  newtype FlightLevel = x: int | -0x8000 <= x < 0x8000

  datatype Coordinate = Coordinate(latitude: real, longitude: real)

  // ---- Integer helpers with the source's operators ----------------------------------------------

  /** The remainder with the dividend's sign, as C++ computes it. */
  function TruncMod(a: int, m: int): int
    requires m > 0
  {
    if a >= 0 then a % m else -((-a) % m)
  }

  /** Conversion to an integer drops the fraction. */
  function Truncate(v: real): int {
    if v >= 0.0 then v.Floor else -((-v).Floor)
  }

  function FloorToInt(v: real): int {
    if v < -FINITE_VALUE_BOUND || v > FINITE_VALUE_BOUND then INVALID_GRID_INDEX
    else
      var i := Truncate(v);
      if v < 0.0 && i as real != v then i - 1 else i
  }

  /** On every coordinate within a billion degrees it is the mathematical floor. */
  lemma FloorToIntIsFloor(v: real)
    requires -FINITE_VALUE_BOUND <= v <= FINITE_VALUE_BOUND
    ensures FloorToInt(v) == v.Floor
  {
    if v < 0.0 {
      var m := (-v).Floor;
      assert m as real <= -v < m as real + 1.0;
      assert (-m) as real == -(m as real);
    }
  }

  // ---- Addressing -----------------------------------------------------------------------------

  function Index(lat: int, lon: int): int {
    if lat < -90 || lat > 89 || lon < -180 || lon > 179 then -1 else (lat + 90) * LON_COUNT + (lon + 180)
  }

  ghost predicate OnGrid(lat: int, lon: int) {
    -90 <= lat <= 89 && -180 <= lon <= 179
  }

  /** Exactly the cells of the globe have a slot, no two share one, and every slot is some cell's. */
  lemma IndexIsBijective(lat: int, lon: int, slot: nat)
    ensures OnGrid(lat, lon) <==> 0 <= Index(lat, lon)
    ensures Index(lat, lon) < CELLS
    ensures forall a, b :: OnGrid(a, b) && OnGrid(lat, lon) && Index(a, b) == Index(lat, lon) ==> a == lat && b == lon
    ensures slot < CELLS ==>
              var a, b := slot / LON_COUNT - 90, slot % LON_COUNT - 180; OnGrid(a, b) && Index(a, b) == slot
  {
  }

  function WrapLongitude(lon: int): int {
    TruncMod(TruncMod(lon + 180, LON_COUNT) + LON_COUNT, LON_COUNT) - 180
  }

  /** Wrapping lands in the grid, a whole number of turns away. */
  lemma WrapsByWholeTurns(lon: int)
    ensures -180 <= WrapLongitude(lon) <= 179
    ensures (WrapLongitude(lon) - lon) % LON_COUNT == 0
    ensures -180 <= lon <= 179 ==> WrapLongitude(lon) == lon
  {
    var a := lon + 180;
    if a < 0 {
      assert -a == (-a) / LON_COUNT * LON_COUNT + (-a) % LON_COUNT;
    } else {
      assert a == a / LON_COUNT * LON_COUNT + a % LON_COUNT;
    }
  }

  /** Columns a whole number of turns apart are the same column. */
  lemma WrapIsPeriodic(lon: int, turns: int)
    ensures WrapLongitude(lon + turns * LON_COUNT) == WrapLongitude(lon)
  {
    WrapsByWholeTurns(lon);
    WrapsByWholeTurns(lon + turns * LON_COUNT);
    var x, y := WrapLongitude(lon), WrapLongitude(lon + turns * LON_COUNT);
    var p, q := (x - lon) / LON_COUNT, (y - (lon + turns * LON_COUNT)) / LON_COUNT;
    assert x - lon == p * LON_COUNT && y - (lon + turns * LON_COUNT) == q * LON_COUNT;
    assert y - x == (q + turns - p) * LON_COUNT;
  }

  // ---- Cell contents --------------------------------------------------------------------------

  ghost function CountKnown(cells: seq<FlightLevel>): nat {
    if cells == [] then 0 else CountKnown(cells[..|cells| - 1]) + if cells[|cells| - 1] != 0 then 1 else 0
  }

  lemma {:induction false} CountAfterUpdate(cells: seq<FlightLevel>, k: nat, v: FlightLevel)
    requires k < |cells|
    ensures CountKnown(cells[k := v]) ==
            CountKnown(cells) - (if cells[k] != 0 then 1 else 0) + (if v != 0 then 1 else 0)
  {
    var n := |cells| - 1;
    if k < n {
      CountAfterUpdate(cells[..n], k, v);
      assert cells[k := v][..n] == cells[..n][k := v];
    } else {
      assert cells[k := v][..n] == cells[..n];
    }
  }

  lemma {:induction false} NoneKnown(cells: seq<FlightLevel>)
    ensures CountKnown(cells) == 0 <==> forall k :: 0 <= k < |cells| ==> cells[k] == 0
  {
    if cells != [] {
      NoneKnown(cells[..|cells| - 1]);
      assert forall k :: 0 <= k < |cells| - 1 ==> cells[..|cells| - 1][k] == cells[k];
    }
  }

  /** What the cell with that south-west corner says: the column wraps, and row 90 is the top row. */
  function CellValue(cells: seq<FlightLevel>, lat: int, lon: int): FlightLevel {
    var idx := Index(if lat == 90 then 89 else lat, WrapLongitude(lon));
    if 0 <= idx < |cells| then cells[idx] else 0
  }

  lemma CellValueWraps(cells: seq<FlightLevel>, lat: int, lon: int, turns: int)
    ensures CellValue(cells, lat, lon + turns * LON_COUNT) == CellValue(cells, lat, lon)
  {
    hide WrapLongitude, Index;
    WrapIsPeriodic(lon, turns);
  }

  // ---- The grid -------------------------------------------------------------------------------

  class MoraGrid {
    var cells: array<FlightLevel>
    var populated: int

    ghost predicate Valid()
      reads this, cells
    {
      cells.Length == CELLS && populated == CountKnown(cells[..])
    }

    constructor ()
      ensures Valid() && fresh(cells) && forall k :: 0 <= k < CELLS ==> cells[k] == 0
    {
      cells := new FlightLevel[CELLS](_ => 0);
      populated := 0;
      new;
      NoneKnown(cells[..]);
    }

    /** Sets one cell; corners off the globe are ignored. The known-cell count follows. */
    method SetCell(lat: int, lon: int, mora: FlightLevel)
      requires Valid()
      modifies this`populated, cells
      ensures Valid() && cells == old(cells)
      ensures !OnGrid(lat, lon) ==> cells[..] == old(cells[..])
      ensures OnGrid(lat, lon) ==> 0 <= Index(lat, lon) < CELLS && cells[..] == old(cells[..])[Index(lat, lon) := mora]
    {
      IndexIsBijective(lat, lon, 0);
      var idx := Index(lat, lon);
      if idx < 0 {
        return;
      }
      CountAfterUpdate(cells[..], idx, mora);
      var wasPopulated, nowPopulated := cells[idx] != 0, mora != 0;
      if !wasPopulated && nowPopulated {
        populated := populated + 1;
      } else if wasPopulated && !nowPopulated {
        populated := populated - 1;
      }
      cells[idx] := mora;
      assert cells[..] == old(cells[..])[idx := mora];
    }

    method MoraAtCell(lat: int, lon: int) returns (mora: FlightLevel)
      requires Valid()
      ensures mora == CellValue(cells[..], lat, lon)
    {
      var row := if lat == 90 then 89 else lat;
      var wrapped := TruncMod(TruncMod(lon + 180, LON_COUNT) + LON_COUNT, LON_COUNT) - 180;
      IndexIsBijective(row, wrapped, 0);
      var idx := Index(row, wrapped);
      mora := if idx >= 0 then cells[idx] else 0;
    }

    /** On the closed globe this is the cell under the position; beyond it the answer is unknown. */
    method MoraAt(c: Coordinate) returns (mora: FlightLevel)
      requires Valid()
      ensures -90.0 <= c.latitude <= 90.0 && -180.0 <= c.longitude <= 180.0 ==>
                mora == CellValue(cells[..], c.latitude.Floor, c.longitude.Floor)
      ensures !(-90.0 <= c.latitude <= 90.0 && -180.0 <= c.longitude <= 180.0) ==> mora == 0
    {
      hide WrapLongitude, TruncMod, FloorToInt;
      var lat, lon := FloorToInt(c.latitude), FloorToInt(c.longitude);
      if c.latitude == 90.0 {
        lat := 89;
      }
      if c.longitude == 180.0 {
        lon := -180;
      }
      IndexIsBijective(lat, lon, 0);
      var idx := Index(lat, lon);
      mora := if idx >= 0 then cells[idx] else 0;
      OffTheGlobe(c.latitude, 89);
      OffTheGlobe(c.longitude, 179);
      WrapsByWholeTurns(c.longitude.Floor);
      WrapIsPeriodic(-180, 1);
      WrapsByWholeTurns(-180);
    }

    predicate Empty()
      reads this
    {
      populated == 0
    }

    /** The grid is empty exactly when every cell is unknown. */
    lemma EmptyMeansNothingKnown()
      requires Valid()
      ensures Empty() <==> forall k :: 0 <= k < CELLS ==> cells[k] == 0
    {
      NoneKnown(cells[..]);
    }
  }

  lemma OffTheGlobe(v: real, top: int)
    requires top == 89 || top == 179
    ensures FloorToInt(v) == INVALID_GRID_INDEX || FloorToInt(v) == v.Floor
    ensures -(top + 1) as real <= v <= (top + 1) as real ==> FloorToInt(v) == v.Floor
    ensures v.Floor == top + 1 && v <= (top + 1) as real ==> v == (top + 1) as real
    ensures -(top + 1) <= v.Floor <= top <==> -(top + 1) as real <= v < (top + 1) as real
  {
    hide FloorToInt;
    if -FINITE_VALUE_BOUND <= v <= FINITE_VALUE_BOUND {
      FloorToIntIsFloor(v);
    } else {
      FarAway(v);
    }
  }

  lemma FarAway(v: real)
    ensures !(-FINITE_VALUE_BOUND <= v <= FINITE_VALUE_BOUND) ==> FloorToInt(v) == INVALID_GRID_INDEX
  {
  }

  /** Rebuilds a grid from saved cells; a wrong number of them gives an empty grid. */
  method FromCells(saved: seq<FlightLevel>) returns (g: MoraGrid)
    ensures fresh(g) && fresh(g.cells) && g.Valid()
    ensures |saved| == CELLS ==> g.cells[..] == saved
    ensures |saved| != CELLS ==> g.Empty()
  {
    g := new MoraGrid();
    if |saved| != CELLS {
      NoneKnown(g.cells[..]);
      return;
    }
    var cells := new FlightLevel[CELLS](i requires 0 <= i < CELLS => saved[i]);
    var populated := 0;
    for k := 0 to CELLS
      invariant populated == CountKnown(saved[..k])
    {
      assert saved[..k + 1][..k] == saved[..k];
      if saved[k] != 0 {
        populated := populated + 1;
      }
    }
    assert saved[..CELLS] == saved && cells[..] == saved;
    g.cells := cells;
    g.populated := populated;
  }
}

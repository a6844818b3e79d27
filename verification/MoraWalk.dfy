/** The traversal that folds in the altitude floor of every grid cell a leg passes through. */
module MoraWalks {
  import opened Numbers
  import opened MoraGrids

  // ---- One axis of the segment ------------------------------------------------------------------

  /** A coordinate moving from `start` to `finish` as t goes from 0 to 1. */
  datatype Axis = Axis(start: real, finish: real) {

    function Delta(): real { finish - start }

    function Step(): int { if Delta() > 0.0 then 1 else -1 }

    function EndCell(): int { finish.Floor }

    ghost function At(t: real): real { start + t * Delta() }

    /** The cell boundary that leaving cell i in the direction of travel crosses. */
    function Boundary(i: int): real {
      if Delta() > 0.0 then i as real + 1.0 else i as real
    }

    /** When that boundary is crossed. */
    function NextT(i: int): Ext {
      if Delta() == 0.0 then Inf else Fin((Boundary(i) - start) / Delta())
    }

    function TStep(): real {
      if Delta() == 0.0 then 0.0 else 1.0 / Abs(Delta())
    }

    ghost predicate Inside(i: int, t: real) { i as real < At(t) < i as real + 1.0 }

    ghost predicate Touches(i: int, t: real) { i as real <= At(t) <= i as real + 1.0 }

    /** Cell i lies between the first and the last cell. */
    ghost predicate OnWay(i: int) {
      if Delta() > 0.0 then start.Floor <= i <= finish.Floor else finish.Floor <= i <= start.Floor
    }

    /** Cell j is cell i or comes after it on the way. */
    ghost predicate Ahead(i: int, j: int) {
      if Delta() > 0.0 then i <= j else if Delta() < 0.0 then j <= i else i == j
    }
  }

  function Abs(x: real): (r: real)
    ensures r >= 0.0 && (r == x || r == -x) && (x != 0.0 ==> r > 0.0)
  {
    if x < 0.0 then -x else x
  }

  lemma DivMul(x: real, d: real)
    requires d != 0.0
    ensures x / d * d == x
  {
  }

  lemma MulOrder(s: real, t: real, d: real)
    ensures d > 0.0 ==> (s < t <==> s * d < t * d)
    ensures d < 0.0 ==> (s < t <==> s * d > t * d)
    ensures s == t ==> s * d == t * d
  {
  }

  /** Each further boundary is crossed one step of t later. */
  lemma NextBoundary(ax: Axis, i: int)
    ensures ax.NextT(i + ax.Step()) == ax.NextT(i).Plus(ax.TStep())
  {
    var d := ax.Delta();
    if d != 0.0 {
      var u, v := ax.Boundary(i) - ax.start, ax.Boundary(i + ax.Step()) - ax.start;
      DivMul(u, d);
      DivMul(v, d);
      DivMul(1.0, Abs(d));
      var x, y, z := u / d, v / d, 1.0 / Abs(d);
      assert v - u == if d > 0.0 then 1.0 else -1.0;
      assert z * d == if d > 0.0 then 1.0 else -1.0;
      Distribute(y, x, d);
      MulCancel(y - x, z, d);
    }
  }

  lemma Distribute(y: real, x: real, d: real)
    ensures (y - x) * d == y * d - x * d
  {
  }

  lemma MulCancel(a: real, b: real, d: real)
    requires d != 0.0 && a * d == b * d
    ensures a == b
  {
    DivMul(a, d);
    MulOrder(a, b, d);
    MulOrder(b, a, d);
  }

  /** Before the crossing time the coordinate is short of the boundary, at it on it, and later past it. */
  lemma CrossesAtNextT(ax: Axis, i: int, t: real)
    requires ax.Delta() != 0.0
    ensures var tau := ax.NextT(i).value;
            && ax.At(tau) == ax.Boundary(i)
            && (ax.Delta() > 0.0 ==> (t < tau <==> ax.At(t) < ax.Boundary(i)) && (t <= tau <==> ax.At(t) <= ax.Boundary(i)))
            && (ax.Delta() < 0.0 ==> (t < tau <==> ax.At(t) > ax.Boundary(i)) && (t <= tau <==> ax.At(t) >= ax.Boundary(i)))
  {
    var d := ax.Delta();
    var tau := ax.NextT(i).value;
    DivMul(ax.Boundary(i) - ax.start, d);
    MulOrder(t, tau, d);
    MulOrder(tau, t, d);
  }

  lemma EndPoints(ax: Axis)
    ensures ax.At(0.0) == ax.start && ax.At(1.0) == ax.finish
  {
  }

  /** The coordinate never turns back. */
  lemma Moves(ax: Axis, s: real, t: real)
    requires s <= t
    ensures ax.Delta() > 0.0 ==> ax.At(s) <= ax.At(t)
    ensures ax.Delta() < 0.0 ==> ax.At(s) >= ax.At(t)
    ensures ax.Delta() == 0.0 ==> ax.At(s) == ax.At(t) == ax.start
  {
    MulOrder(s, t, ax.Delta());
    MulOrder(t, s, ax.Delta());
  }

  /** A cell the segment enters lies on the way, and inside it the next boundary is still to come. */
  lemma InsideMeansOnWay(ax: Axis, i: int, t: real)
    requires 0.0 <= t <= 1.0 && ax.Inside(i, t)
    ensures ax.OnWay(i) && Fin(t).Less(ax.NextT(i))
  {
    EndPoints(ax);
    Moves(ax, 0.0, t);
    Moves(ax, t, 1.0);
    if ax.Delta() != 0.0 {
      CrossesAtNextT(ax, i, t);
    }
  }

  /** Inside a later cell, the boundary of cell i is already behind. */
  lemma LaterCellIsPast(ax: Axis, i: int, j: int, t: real)
    requires 0.0 <= t <= 1.0 && ax.Inside(j, t) && ax.OnWay(i) && ax.Ahead(i, j) && i != j
    ensures i != ax.EndCell() && ax.NextT(i).Less(Fin(t))
  {
    InsideMeansOnWay(ax, j, t);
    if ax.Delta() != 0.0 {
      CrossesAtNextT(ax, i, t);
    }
  }

  /** Short of the last cell there is a boundary left to cross, no later than the end. */
  lemma CrossesBeforeEnd(ax: Axis, i: int)
    requires ax.OnWay(i)
    ensures i != ax.EndCell() ==> ax.Delta() != 0.0 && ax.NextT(i).AtMost(Fin(1.0)) && ax.OnWay(i + ax.Step())
    ensures i == ax.EndCell() ==> Fin(1.0).AtMost(ax.NextT(i))
  {
    EndPoints(ax);
    if ax.Delta() != 0.0 {
      CrossesAtNextT(ax, i, 1.0);
    }
  }

  /** The time spent in cell i so far: from s on, and until the next crossing. */
  ghost predicate Here(ax: Axis, i: int, s: real) {
    ax.OnWay(i) && ax.Touches(i, s) && Fin(s).AtMost(ax.NextT(i))
  }

  lemma StartsHere(ax: Axis)
    ensures Here(ax, ax.start.Floor, 0.0)
  {
    EndPoints(ax);
    if ax.Delta() != 0.0 {
      CrossesAtNextT(ax, ax.start.Floor, 0.0);
    }
  }

  /** Crossing into the next cell. */
  lemma CrossKeeps(ax: Axis, i: int, s: real)
    requires Here(ax, i, s) && i != ax.EndCell()
    ensures ax.NextT(i).Fin? && s <= ax.NextT(i).value <= 1.0 && Here(ax, i + ax.Step(), ax.NextT(i).value)
  {
    CrossesBeforeEnd(ax, i);
    var tau := ax.NextT(i).value;
    CrossesAtNextT(ax, i, tau);
    CrossesAtNextT(ax, i + ax.Step(), tau);
  }

  /** The other axis stays in its cell until then. */
  lemma StayKeeps(ax: Axis, j: int, s: real, tau: real)
    requires Here(ax, j, s) && s <= tau <= 1.0
    requires j == ax.EndCell() || Fin(tau).AtMost(ax.NextT(j))
    ensures Here(ax, j, tau)
  {
    CrossesBeforeEnd(ax, j);
    Moves(ax, s, tau);
    if ax.Delta() != 0.0 {
      CrossesAtNextT(ax, j, tau);
    }
  }

  // ---- Cells ----------------------------------------------------------------------------------

  datatype Cell = Cell(row: int, col: int)

  /** The segment passes through the open interior of a cell. */
  ghost predicate Meets(lat: Axis, lon: Axis, c: Cell) {
    exists t: real :: MeetsAt(lat, lon, c, t)
  }

  ghost predicate MeetsAt(lat: Axis, lon: Axis, c: Cell, t: real) {
    0.0 <= t <= 1.0 && lat.Inside(c.row, t) && lon.Inside(c.col, t)
  }

  /** The segment touches a cell, edges and corners included. */
  ghost predicate TouchesCell(lat: Axis, lon: Axis, c: Cell) {
    exists t: real :: TouchesAt(lat, lon, c, t)
  }

  ghost predicate TouchesAt(lat: Axis, lon: Axis, c: Cell, t: real) {
    0.0 <= t <= 1.0 && lat.Touches(c.row, t) && lon.Touches(c.col, t)
  }

  /** Every cell met is visited already or still ahead on both axes. */
  ghost predicate Covers(lat: Axis, lon: Axis, visited: seq<Cell>, at: Cell) {
    forall c :: Meets(lat, lon, c) ==> c in visited || (lat.Ahead(at.row, c.row) && lon.Ahead(at.col, c.col))
  }

  /** The walk stands in a cell it touches, with both next crossings still to come. */
  ghost predicate Standing(lat: Axis, lon: Axis, at: Cell, s: real) {
    0.0 <= s <= 1.0 && Here(lat, at.row, s) && Here(lon, at.col, s)
  }

  ghost predicate UnitSteps(visited: seq<Cell>) {
    forall i :: 0 < i < |visited| ==> UnitStep(visited[i - 1], visited[i])
  }

  ghost predicate UnitStep(a: Cell, b: Cell) {
    || (a.col == b.col && (b.row == a.row + 1 || b.row == a.row - 1))
    || (a.row == b.row && (b.col == a.col + 1 || b.col == a.col - 1))
  }

  function Distance(a: int, b: int): nat {
    if a < b then b - a else a - b
  }

  /** The source's choice: a row step when a row remains and its boundary comes strictly first. */
  predicate RowFirst(lat: Axis, lon: Axis, at: Cell) {
    at.row != lat.EndCell() && (at.col == lon.EndCell() || lat.NextT(at.row).Less(lon.NextT(at.col)))
  }

  function NextCell(lat: Axis, lon: Axis, at: Cell): Cell {
    if RowFirst(lat, lon, at) then at.(row := at.row + lat.Step()) else at.(col := at.col + lon.Step())
  }

  lemma CoversStart(lat: Axis, lon: Axis)
    ensures var c := Cell(lat.start.Floor, lon.start.Floor); Covers(lat, lon, [c], c) && Standing(lat, lon, c, 0.0)
  {
    var at := Cell(lat.start.Floor, lon.start.Floor);
    StartsHere(lat);
    StartsHere(lon);
    forall c | Meets(lat, lon, c)
      ensures lat.Ahead(at.row, c.row) && lon.Ahead(at.col, c.col)
    {
      var t :| MeetsAt(lat, lon, c, t);
      InsideMeansOnWay(lat, c.row, t);
      InsideMeansOnWay(lon, c.col, t);
    }
  }

  /** One crossing: no met cell is passed by, and the new cell is touched. */
  lemma CrossingKeeps(lat: Axis, lon: Axis, visited: seq<Cell>, at: Cell, s: real) returns (tau: real)
    requires Covers(lat, lon, visited, at) && at in visited && Standing(lat, lon, at, s)
    requires at.row != lat.EndCell() || at.col != lon.EndCell()
    ensures var next := NextCell(lat, lon, at);
            && Covers(lat, lon, visited + [next], next) && Standing(lat, lon, next, tau)
            && UnitStep(at, next)
            && Distance(next.row, lat.EndCell()) + Distance(next.col, lon.EndCell()) + 1 ==
               Distance(at.row, lat.EndCell()) + Distance(at.col, lon.EndCell())
  {
    hide Axis.NextT, Axis.Inside, Axis.Touches, Axis.At;
    var next := NextCell(lat, lon, at);
    var byRow := RowFirst(lat, lon, at);
    CrossesBeforeEnd(lat, at.row);
    CrossesBeforeEnd(lon, at.col);
    if byRow {
      CrossKeeps(lat, at.row, s);
      tau := lat.NextT(at.row).value;
      StayKeeps(lon, at.col, s, tau);
    } else {
      CrossKeeps(lon, at.col, s);
      tau := lon.NextT(at.col).value;
      StayKeeps(lat, at.row, s, tau);
    }
    forall c | Meets(lat, lon, c) && c != next && c !in visited
      ensures lat.Ahead(next.row, c.row) && lon.Ahead(next.col, c.col)
    {
      NotPassedBy(lat, lon, at, c);
    }
  }

  /** The axis that steps is not the one on which a met cell ahead shares the current index. */
  lemma NotPassedBy(lat: Axis, lon: Axis, at: Cell, c: Cell)
    requires lat.OnWay(at.row) && lon.OnWay(at.col) && Meets(lat, lon, c) && c != at
    requires lat.Ahead(at.row, c.row) && lon.Ahead(at.col, c.col)
    requires at.row != lat.EndCell() || at.col != lon.EndCell()
    ensures RowFirst(lat, lon, at) ==> c.row != at.row
    ensures !RowFirst(lat, lon, at) ==> c.col != at.col
  {
    hide Axis.NextT, Axis.Inside, Axis.At;
    var t :| MeetsAt(lat, lon, c, t);
    InsideMeansOnWay(lat, c.row, t);
    InsideMeansOnWay(lon, c.col, t);
    if c.row == at.row {
      LaterCellIsPast(lon, at.col, c.col, t);
    } else if c.col == at.col {
      LaterCellIsPast(lat, at.row, c.row, t);
    }
  }

  // ---- The walk -------------------------------------------------------------------------------

  /** The highest value among `best` and the visited cells, and no higher. */
  ghost predicate IsHighest(cells: seq<FlightLevel>, visited: seq<Cell>, best: FlightLevel, out: FlightLevel) {
    && best <= out && (forall c :: c in visited ==> CellValue(cells, c.row, c.col) <= out)
    && (out == best || exists c :: c in visited && CellValue(cells, c.row, c.col) == out)
  }

  lemma HighestGrows(cells: seq<FlightLevel>, visited: seq<Cell>, best: FlightLevel, out: FlightLevel, c: Cell)
    requires IsHighest(cells, visited, best, out)
    ensures var v := CellValue(cells, c.row, c.col);
            IsHighest(cells, visited + [c], best, if v > out then v else out)
  {
    hide CellValue;
    var v := CellValue(cells, c.row, c.col);
    assert c in visited + [c];
    if v <= out != best {
      var x :| x in visited && CellValue(cells, x.row, x.col) == out;
      assert x in visited + [c];
    }
  }

  function Max(a: FlightLevel, b: FlightLevel): FlightLevel {
    if b > a then b else a
  }

  /** What a walk promises: one cell per crossing, from the first cell to the last, all that are met and only touched ones. */
  ghost predicate WalkedFully(lat: Axis, lon: Axis, visited: seq<Cell>) {
    && |visited| == Distance(lat.start.Floor, lat.EndCell()) + Distance(lon.start.Floor, lon.EndCell()) + 1
    && visited[0] == Cell(lat.start.Floor, lon.start.Floor)
    && visited[|visited| - 1] == Cell(lat.EndCell(), lon.EndCell())
    && UnitSteps(visited)
    && (forall c :: Meets(lat, lon, c) ==> c in visited)
    && (forall c :: c in visited ==> TouchesCell(lat, lon, c))
  }

  /** No cell the segment enters has a floor above the result. */
  ghost predicate ClearsSegment(cells: seq<FlightLevel>, lat: Axis, lon: Axis, best: FlightLevel, out: FlightLevel) {
    best <= out && forall c :: Meets(lat, lon, c) ==> CellValue(cells, c.row, c.col) <= out
  }

  /** Folds into `best` the floor of every cell the straight segment passes through. */
  method WalkCells(grid: MoraGrid, lat: Axis, lon: Axis, best: FlightLevel) returns (out: FlightLevel, ghost visited: seq<Cell>)
    requires grid.Valid()
    ensures WalkedFully(lat, lon, visited) && IsHighest(grid.cells[..], visited, best, out)
    ensures ClearsSegment(grid.cells[..], lat, lon, best, out)
  {
    hide Axis.NextT, Axis.TStep, Axis.EndCell, Axis.Step, Axis.Delta, ClearsSegment, WalkedFully, OnTheWay, CellValue;
    var row, col := lat.start.Floor, lon.start.Floor;
    var first := grid.MoraAtCell(row, col);
    ghost var cells := grid.cells[..];
    visited := [];
    HighestGrows(cells, visited, best, best, Cell(row, col));
    out := Max(best, first);
    visited := [Cell(row, col)];
    var nextRowT, nextColT := lat.NextT(row), lon.NextT(col);
    var crossings := Distance(lat.EndCell(), row) + Distance(lon.EndCell(), col);
    ghost var s := 0.0;
    TouchStart(lat, lon);
    for i := 0 to crossings
      invariant |visited| == i + 1 && visited[0] == Cell(lat.start.Floor, lon.start.Floor) && visited[i] == Cell(row, col)
      invariant nextRowT == lat.NextT(row) && nextColT == lon.NextT(col)
      invariant Distance(row, lat.EndCell()) + Distance(col, lon.EndCell()) == crossings - i
      invariant OnTheWay(lat, lon, visited, Cell(row, col), s)
      invariant IsHighest(cells, visited, best, out)
    {
      hide *;
      ghost var at := Cell(row, col);
      StillWalking(lat, lon, at, crossings - i);
      s := NextOnTheWay(lat, lon, visited, at, s);
      ChoiceOf(lat, lon, at);
      var rowFirst := row != lat.EndCell() && (col == lon.EndCell() || nextRowT.Less(nextColT));
      if rowFirst {
        NextBoundary(lat, row);
        row := row + lat.Step();
        nextRowT := nextRowT.Plus(lat.TStep());
      } else {
        NextBoundary(lon, col);
        col := col + lon.Step();
        nextColT := nextColT.Plus(lon.TStep());
      }
      var here := grid.MoraAtCell(row, col);
      HighestGrows(cells, visited, best, out, Cell(row, col));
      MaxIs(out, here);
      out := Max(out, here);
      visited := visited + [Cell(row, col)];
    }
    WalkIsFull(lat, lon, visited, Cell(row, col), s);
    HighestClears(cells, lat, lon, visited, best, out);
  }

  lemma HighestClears(cells: seq<FlightLevel>, lat: Axis, lon: Axis, visited: seq<Cell>, best: FlightLevel, out: FlightLevel)
    requires IsHighest(cells, visited, best, out) && WalkedFully(lat, lon, visited)
    ensures ClearsSegment(cells, lat, lon, best, out)
  {
    hide Meets, CellValue, UnitSteps, TouchesCell;
  }

  lemma MaxIs(a: FlightLevel, b: FlightLevel)
    ensures Max(a, b) == if b > a then b else a
  {
  }

  lemma ChoiceOf(lat: Axis, lon: Axis, at: Cell)
    ensures RowFirst(lat, lon, at) <==>
              at.row != lat.EndCell() && (at.col == lon.EndCell() || lat.NextT(at.row).Less(lon.NextT(at.col)))
    ensures NextCell(lat, lon, at) ==
              if RowFirst(lat, lon, at) then Cell(at.row + lat.Step(), at.col) else Cell(at.row, at.col + lon.Step())
  {
  }

  lemma StillWalking(lat: Axis, lon: Axis, at: Cell, left: nat)
    requires Distance(at.row, lat.EndCell()) + Distance(at.col, lon.EndCell()) == left > 0
    ensures at.row != lat.EndCell() || at.col != lon.EndCell()
  {
  }

  lemma TouchedNow(lat: Axis, lon: Axis, c: Cell, s: real)
    requires Standing(lat, lon, c, s)
    ensures TouchesCell(lat, lon, c)
  {
    assert TouchesAt(lat, lon, c, s);
  }

  /** What holds on the way: the steps so far, what they covered, and a point of the segment in the current cell. */
  ghost predicate OnTheWay(lat: Axis, lon: Axis, visited: seq<Cell>, at: Cell, s: real) {
    && UnitSteps(visited) && Covers(lat, lon, visited, at) && Standing(lat, lon, at, s)
    && forall c :: c in visited ==> TouchesCell(lat, lon, c)
  }

  lemma TouchStart(lat: Axis, lon: Axis)
    ensures var c := Cell(lat.start.Floor, lon.start.Floor); OnTheWay(lat, lon, [c], c, 0.0)
  {
    hide Covers, Standing, TouchesCell;
    CoversStart(lat, lon);
    TouchedNow(lat, lon, Cell(lat.start.Floor, lon.start.Floor), 0.0);
  }

  lemma NextOnTheWay(lat: Axis, lon: Axis, visited: seq<Cell>, at: Cell, s: real) returns (tau: real)
    requires OnTheWay(lat, lon, visited, at, s) && visited != [] && visited[|visited| - 1] == at
    requires at.row != lat.EndCell() || at.col != lon.EndCell()
    ensures var next := NextCell(lat, lon, at);
            && OnTheWay(lat, lon, visited + [next], next, tau)
            && Distance(next.row, lat.EndCell()) + Distance(next.col, lon.EndCell()) + 1 ==
               Distance(at.row, lat.EndCell()) + Distance(at.col, lon.EndCell())
  {
    hide Covers, Standing, TouchesCell, NextCell, UnitSteps, UnitStep, Distance, Axis.EndCell;
    tau := CrossingKeeps(lat, lon, visited, at, s);
    TouchedNow(lat, lon, NextCell(lat, lon, at), tau);
    StepsGrow(visited, at, NextCell(lat, lon, at));
  }

  lemma StepsGrow(visited: seq<Cell>, at: Cell, next: Cell)
    requires visited != [] && visited[|visited| - 1] == at && UnitSteps(visited) && UnitStep(at, next)
    ensures UnitSteps(visited + [next])
  {
  }

  lemma WalkIsFull(lat: Axis, lon: Axis, visited: seq<Cell>, at: Cell, s: real)
    requires |visited| == Distance(lat.start.Floor, lat.EndCell()) + Distance(lon.start.Floor, lon.EndCell()) + 1
    requires visited[0] == Cell(lat.start.Floor, lon.start.Floor) && visited[|visited| - 1] == at
    requires at == Cell(lat.EndCell(), lon.EndCell()) && OnTheWay(lat, lon, visited, at, s)
    ensures WalkedFully(lat, lon, visited)
  {
    hide Covers, Meets, UnitSteps, TouchesCell, Standing;
    WalkEnds(lat, lon, visited, at);
  }

  lemma WalkEnds(lat: Axis, lon: Axis, visited: seq<Cell>, at: Cell)
    requires Covers(lat, lon, visited, at) && at in visited
    requires at == Cell(lat.EndCell(), lon.EndCell())
    ensures forall c :: Meets(lat, lon, c) ==> c in visited
  {
    hide Axis.Inside, Axis.NextT;
    forall c | Meets(lat, lon, c)
      ensures c in visited
    {
      var t :| MeetsAt(lat, lon, c, t);
      InsideMeansOnWay(lat, c.row, t);
      InsideMeansOnWay(lon, c.col, t);
      assert lat.Ahead(at.row, c.row) && lon.Ahead(at.col, c.col) ==> c == at;
    }
  }
}

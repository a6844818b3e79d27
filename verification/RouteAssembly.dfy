/** Turning a found path into a filed route, with its distances accounted for leg by leg. */
module RouteAssembly {
  import opened Numbers
  import opened NavGraphs
  import opened SearchModel
  import opened PathCosts
  import opened AStar
  import opened YenPartition
  import opened Yen
  import opened DesignatorLists
  import opened RouteStrings
  import opened EndpointPlans

  const SID := "SID"
  const STAR := "STAR"

  /** Where names come from: idents by vertex, airway names by id. */
  datatype Names = Names(idents: seq<string>, airways: seq<string>) {
    function IdentOf(v: int): string {
      if 0 <= v < |idents| then idents[v] else ""
    }

    function AirwayName(id: nat): string {
      if id < |airways| then airways[id] else ""
    }
  }

  datatype Route = Route(
    points: seq<string>, legs: Legs, total: real, departure: real, enroute: real, arrival: real, text: string)

  /** One end of a route: the airport, its seed, and the off-network gate to insert, if any. */
  datatype Terminal = Terminal(airport: string, seed: real, splice: int, spliceLeg: real, published: bool) {

    predicate Spliced() { splice >= 0 && airport != "" }

    /** The part of the seed flown on the published procedure. */
    function Body(): real {
      if Spliced() then Clamp(seed - spliceLeg) else seed
    }

    /** What the terminal's legs add up to. */
    function Flown(): real {
      if airport == "" then 0.0 else if Spliced() then Body() + spliceLeg else seed
    }

    /** How far the splice leg outruns the seed it is part of. */
    function Overrun(): real {
      if Spliced() then Clamp(spliceLeg - seed) else 0.0
    }
  }

  function Clamp(x: real): real {
    if x > 0.0 then x else 0.0
  }

  ghost function LegSum(legs: Legs): real {
    if legs == [] then 0.0 else LegSum(legs[..|legs| - 1]) + legs[|legs| - 1].distance
  }

  lemma {:induction false} LegSumSplits(a: Legs, b: Legs)
    ensures LegSum(a + b) == LegSum(a) + LegSum(b)
    decreases |b|
  {
    if b == [] {
      assert a + b == a;
    } else {
      assert (a + b)[..|a + b| - 1] == a + b[..|b| - 1];
      LegSumSplits(a, b[..|b| - 1]);
    }
  }

  lemma {:induction false} LegSumOfSame(a: Legs, b: Legs)
    requires |a| == |b| && forall k :: 0 <= k < |a| ==> a[k].distance == b[k].distance
    ensures LegSum(a) == LegSum(b)
  {
    if a != [] {
      LegSumOfSame(a[..|a| - 1], b[..|b| - 1]);
    }
  }

  // ---- Legs -----------------------------------------------------------------------------------

  /** The legs lead from each point to the next. */
  ghost predicate Chained(points: seq<string>, legs: Legs) {
    && |points| == |legs| + 1
    && forall k :: 0 <= k < |legs| ==> legs[k].start == points[k] && legs[k].to == points[k + 1]
  }

  lemma ChainedLonger(points: seq<string>, legs: Legs, more: seq<string>, tail: Legs)
    requires Chained(points, legs) && Chained(more, tail) && points[|points| - 1] == more[0]
    ensures Chained(points + more[1..], legs + tail)
  {
  }

  function DepartureLegs(t: Terminal, gate: string, fix: string): Legs {
    if t.airport == "" then []
    else if t.Spliced() then [RouteLeg(t.airport, gate, SID, t.Body(), []), RouteLeg(gate, fix, DCT, t.spliceLeg, [])]
    else [RouteLeg(t.airport, fix, if t.published then SID else DCT, t.seed, [])]
  }

  function ArrivalLegs(t: Terminal, gate: string, fix: string): Legs {
    if t.airport == "" then []
    else if t.Spliced() then [RouteLeg(fix, gate, DCT, t.spliceLeg, []), RouteLeg(gate, t.airport, STAR, t.Body(), [])]
    else [RouteLeg(fix, t.airport, if t.published then STAR else DCT, t.seed, [])]
  }

  function PointsBefore(t: Terminal, gate: string): seq<string> {
    if t.airport == "" then [] else if t.Spliced() then [t.airport, gate] else [t.airport]
  }

  function PointsAfter(t: Terminal, gate: string): seq<string> {
    if t.airport == "" then [] else if t.Spliced() then [gate, t.airport] else [t.airport]
  }

  lemma TerminalSums(t: Terminal, gate: string, fix: string)
    ensures LegSum(DepartureLegs(t, gate, fix)) == t.Flown() == LegSum(ArrivalLegs(t, gate, fix))
    ensures Chained(PointsBefore(t, gate) + [fix], DepartureLegs(t, gate, fix))
    ensures Chained([fix] + PointsAfter(t, gate), ArrivalLegs(t, gate, fix))
  {
    hide Clamp;
    var out, back := DepartureLegs(t, gate, fix), ArrivalLegs(t, gate, fix);
    if t.airport != "" {
      if t.Spliced() {
        assert out[..1][..0] == [] && back[..1][..0] == [];
        assert LegSum(out[..1]) == t.Body() && LegSum(back[..1]) == t.spliceLeg;
      } else {
        assert out[..0] == [] && back[..0] == [];
      }
    }
  }

  /** The leg at the airport is the procedure's when there is one; the leg to or from an inserted gate is direct. */
  lemma TerminalLegsAreNamed(t: Terminal, gate: string, fix: string)
    requires t.airport != ""
    ensures var out := DepartureLegs(t, gate, fix);
            && out != [] && out[0].start == t.airport && out[|out| - 1].to == fix
            && out[0].via == (if t.Spliced() || t.published then "SID" else "DCT")
            && (t.Spliced() <==> |out| == 2) && (t.Spliced() ==> out[1].via == "DCT" && out[1].start == gate && out[1].distance == t.spliceLeg)
    ensures var back := ArrivalLegs(t, gate, fix);
            && back != [] && back[0].start == fix && back[|back| - 1].to == t.airport
            && back[|back| - 1].via == (if t.Spliced() || t.published then "STAR" else "DCT")
            && (t.Spliced() <==> |back| == 2) && (t.Spliced() ==> back[0].via == "DCT" && back[0].to == gate && back[0].distance == t.spliceLeg)
  {
  }

  /** A terminal's legs add up to its seed exactly when the splice leg is no longer than the seed. */
  lemma FlownIsSeed(t: Terminal)
    ensures t.airport != "" ==> t.Flown() == t.seed + t.Overrun()
    ensures t.Overrun() >= 0.0 && (t.Overrun() == 0.0 <==> (t.Spliced() ==> t.spliceLeg <= t.seed))
    ensures t.Spliced() && t.spliceLeg >= 0.0 && t.seed >= 0.0 ==> t.Body() <= t.seed
  {
  }

  /** The length and name of the edge the search rode from u to v; nothing when there is none. */
  ghost function Ridden(g: NavGraph, opts: SearchOptions, u: int, v: int): real {
    if Hop(g, opts, u, v).Some? then Hop(g, opts, u, v).value.distance else 0.0
  }

  ghost function RiddenSum(g: NavGraph, opts: SearchOptions, p: seq<int>, k: int): real {
    if k <= 0 || k >= |p| then 0.0 else RiddenSum(g, opts, p, k - 1) + Ridden(g, opts, p[k - 1], p[k])
  }

  function IdentsOf(names: Names, p: seq<int>): (out: seq<string>)
    ensures |out| == |p| && forall i :: 0 <= i < |p| ==> out[i] == names.IdentOf(p[i])
  {
    seq(|p|, i requires 0 <= i < |p| => names.IdentOf(p[i]))
  }

  /** The airway of the edge the search rode from u to v. */
  ghost function RiddenVia(names: Names, g: NavGraph, opts: SearchOptions, u: int, v: int): string {
    var pick := Scan(g, opts, u, v, g.EdgesEnd(u));
    if pick.None? then DCT else names.AirwayName(g.edges[pick.value].airwayId)
  }

  ghost function RiddenLeg(names: Names, g: NavGraph, opts: SearchOptions, u: int, v: int): RouteLeg {
    RouteLeg(names.IdentOf(u), names.IdentOf(v), RiddenVia(names, g, opts, u, v), Ridden(g, opts, u, v), [])
  }

  /** The first k legs of a path, each by the edge the search rode. */
  ghost function RiddenLegs(names: Names, g: NavGraph, opts: SearchOptions, p: seq<int>, k: nat): (legs: Legs)
    requires k < |p|
    ensures |legs| == k
  {
    if k == 0 then [] else RiddenLegs(names, g, opts, p, k - 1) + [RiddenLeg(names, g, opts, p[k - 1], p[k])]
  }

  /** The leg from u to v, by the edge the search would take. */
  method RideLeg(names: Names, g: NavGraph, opts: SearchOptions, u: int, v: int) returns (leg: RouteLeg)
    requires g.Has(u)
    ensures leg == RiddenLeg(names, g, opts, u, v)
  {
    hide Price, Scan, UsableEdge;
    var e, price := SelectEdge(g, u, v, opts);
    var via, dist := DCT, 0.0;
    if e.Some? {
      via := names.AirwayName(g.edges[e.value].airwayId);
      dist := g.edges[e.value].distance;
    }
    leg := RouteLeg(names.IdentOf(u), names.IdentOf(v), via, dist, []);
  }

  lemma LegSumNext(legs: Legs, leg: RouteLeg)
    ensures LegSum(legs + [leg]) == LegSum(legs) + leg.distance
  {
    assert (legs + [leg])[..|legs|] == legs;
  }

  /** The legs between consecutive fixes. */
  method EnrouteLegs(names: Names, g: NavGraph, opts: SearchOptions, p: seq<int>) returns (legs: Legs)
    requires p != [] && forall i :: 0 <= i < |p| ==> g.Has(p[i])
    ensures Chained(IdentsOf(names, p), legs) && LegSum(legs) == RiddenSum(g, opts, p, |p| - 1)
    ensures legs == RiddenLegs(names, g, opts, p, |p| - 1)
  {
    hide Ridden, RiddenVia, LegSum, Names.IdentOf;
    legs := [];
    assert LegSum([]) == 0.0 by { NoLegs(); }
    for i := 0 to |p| - 1
      invariant |legs| == i && LegSum(legs) == RiddenSum(g, opts, p, i) && legs == RiddenLegs(names, g, opts, p, i)
      invariant forall k :: 0 <= k < i ==> legs[k].start == names.IdentOf(p[k]) && legs[k].to == names.IdentOf(p[k + 1])
    {
      var leg := RideLeg(names, g, opts, p[i], p[i + 1]);
      LegSumNext(legs, leg);
      legs := legs + [leg];
    }
  }

  lemma NoLegs()
    ensures LegSum([]) == 0.0
  {
  }

  /** Filing the legs under airway names changes neither their ends nor their lengths. */
  lemma FilingKeeps(points: seq<string>, legs: Legs)
    requires Chained(points, legs)
    ensures var filed := Rewritten(legs, 0); Chained(points, filed) && LegSum(filed) == LegSum(legs)
  {
    hide Designators, Direct;
    var filed := Rewritten(legs, 0);
    forall k | 0 <= k < |legs|
      ensures filed[k].start == legs[k].start && filed[k].to == legs[k].to && filed[k].distance == legs[k].distance
    {
      ViaIsOwnDesignator(legs, 0, k);
    }
    LegSumOfSame(legs, filed);
  }

  // ---- One route ------------------------------------------------------------------------------

  /** The legs flown, before they are filed under airway names. */
  ghost function FlownLegs(names: Names, g: NavGraph, opts: SearchOptions, p: seq<int>, dep: Terminal, arr: Terminal): Legs
    requires p != []
  {
    DepartureLegs(dep, names.IdentOf(dep.splice), names.IdentOf(p[0])) + RiddenLegs(names, g, opts, p, |p| - 1)
    + ArrivalLegs(arr, names.IdentOf(arr.splice), names.IdentOf(p[|p| - 1]))
  }

  /** What a filed route says about a path flown between two terminals. */
  ghost predicate Files(names: Names, g: NavGraph, opts: SearchOptions, path: ShortestPath, dep: Terminal, arr: Terminal, r: Route)
    requires path.vertices != []
  {
    && Chained(r.points, r.legs)
    && r.legs == Rewritten(FlownLegs(names, g, opts, path.vertices, dep, arr), 0)
    && r.text == r.points[0] + Text(FlownLegs(names, g, opts, path.vertices, dep, arr), 0)
    && r.points == PointsBefore(dep, names.IdentOf(dep.splice)) + IdentsOf(names, path.vertices)
                   + PointsAfter(arr, names.IdentOf(arr.splice))
    && LegSum(r.legs) == dep.Flown() + RiddenSum(g, opts, path.vertices, |path.vertices| - 1) + arr.Flown()
    && r.total == path.distance
    && r.departure == (if dep.airport == "" then 0.0 else dep.Body())
    && r.arrival == (if arr.airport == "" then 0.0 else arr.Body())
    && r.enroute == Clamp(r.total - r.departure - r.arrival)
  }

  method MakeRoute(names: Names, g: NavGraph, opts: SearchOptions, path: ShortestPath, dep: Terminal, arr: Terminal)
    returns (r: Route)
    requires forall i :: 0 <= i < |path.vertices| ==> g.Has(path.vertices[i])
    ensures path.vertices == [] ==> r == Route([], [], path.distance, 0.0, 0.0, 0.0, "")
    ensures path.vertices != [] ==> Files(names, g, opts, path, dep, arr, r)
  {
    hide Chained, LegSum, RiddenSum, RiddenLegs, DepartureLegs, ArrivalLegs, PointsBefore, PointsAfter, IdentsOf, Rewritten, Text;
    var p := path.vertices;
    if p == [] {
      return Route([], [], path.distance, 0.0, 0.0, 0.0, "");
    }
    var first, last := names.IdentOf(p[0]), names.IdentOf(p[|p| - 1]);
    var gateOut, gateIn := names.IdentOf(dep.splice), names.IdentOf(arr.splice);
    var points := PointsBefore(dep, gateOut) + IdentsOf(names, p) + PointsAfter(arr, gateIn);
    var legs := DepartureLegs(dep, gateOut, first);
    var middle := EnrouteLegs(names, g, opts, p);
    TerminalSums(dep, gateOut, first);
    TerminalSums(arr, gateIn, last);
    ThreeParts(PointsBefore(dep, gateOut), IdentsOf(names, p), PointsAfter(arr, gateIn), legs, middle,
               ArrivalLegs(arr, gateIn, last));
    legs := legs + middle + ArrivalLegs(arr, gateIn, last);
    var filed := new RouteLeg[|legs|](i requires 0 <= i < |legs| => legs[i]);
    assert filed[..] == legs;
    FilingKeeps(points, legs);
    var text := BuildRouteString(if points == [] then "" else points[0], filed);
    var out, back := if dep.airport == "" then 0.0 else dep.Body(), if arr.airport == "" then 0.0 else arr.Body();
    r := Route(points, filed[..], path.distance, out, Clamp(path.distance - out - back), back, text);
  }

  /** Departure, enroute and arrival legs laid end to end. */
  lemma ThreeParts(before: seq<string>, fixes: seq<string>, after: seq<string>, out: Legs, middle: Legs, back: Legs)
    requires fixes != [] && Chained(before + [fixes[0]], out) && Chained(fixes, middle)
    requires Chained([fixes[|fixes| - 1]] + after, back)
    ensures Chained(before + fixes + after, out + middle + back)
    ensures LegSum(out + middle + back) == LegSum(out) + LegSum(middle) + LegSum(back)
  {
    hide Chained, LegSum;
    var joined := before + [fixes[0]] + fixes[1..];
    ChainedLonger(before + [fixes[0]], out, fixes, middle);
    assert joined == before + fixes;
    var tail := [fixes[|fixes| - 1]] + after;
    ChainedLonger(joined, out + middle, tail, back);
    assert joined + tail[1..] == before + fixes + after;
    LegSumSplits(out + middle, back);
    LegSumSplits(out, middle);
  }

  // ---- Assembling -----------------------------------------------------------------------------

  datatype ConnectionKind = TerminalTransition | Procedure | RadarVectors | DirectLink

  function ConnectionKindOf(plan: EndpointPlan): ConnectionKind {
    if plan.usedApproach then TerminalTransition
    else if plan.usedProcedures then Procedure
    else if plan.hasProcedures then RadarVectors
    else DirectLink
  }

  method FindConnection(cs: seq<Connection>, fix: int) returns (found: Option<Connection>)
    ensures var k := PositionOf(cs, fix); found == if k < |cs| then Some(cs[k]) else None
  {
    for i := 0 to |cs|
      invariant forall j :: 0 <= j < i ==> cs[j].fix != fix
    {
      if cs[i].fix == fix {
        return Some(cs[i]);
      }
    }
    found := None;
  }

  function ArrivalKind(plan: EndpointPlan, c: Option<Connection>): ConnectionKind {
    if c.Some? && c.value.procedures != [] then
      if c.value.procedures[0].kind == Approach then TerminalTransition else Procedure
    else ConnectionKindOf(plan)
  }

  /** The first named procedure of a connection that is not an approach. */
  function PublishedName(refs: seq<ProcedureRef>): string {
    if refs == [] then ""
    else
      var before := PublishedName(refs[..|refs| - 1]);
      var last := refs[|refs| - 1];
      if before == "" && last.kind != Approach then last.name else before
  }

  /** Refs k is the first that is no approach and has a name. */
  ghost predicate FirstPublished(refs: seq<ProcedureRef>, k: nat) {
    && k < |refs| && refs[k].kind != Approach && refs[k].name != ""
    && forall j :: 0 <= j < k ==> refs[j].kind == Approach || refs[j].name == ""
  }

  /** The published name is that of the first such procedure, and empty when there is none. */
  lemma {:induction false} PublishedIsFirst(refs: seq<ProcedureRef>)
    ensures PublishedName(refs) == "" <==> forall j :: 0 <= j < |refs| ==> refs[j].kind == Approach || refs[j].name == ""
    ensures PublishedName(refs) != "" ==> exists k: nat :: FirstPublished(refs, k) && refs[k].name == PublishedName(refs)
  {
    if refs != [] {
      var front, n := refs[..|refs| - 1], |refs| - 1;
      PublishedIsFirst(front);
      if PublishedName(front) != "" {
        var k: nat :| FirstPublished(front, k) && front[k].name == PublishedName(front);
        assert FirstPublished(refs, k);
      } else {
        assert forall j :: 0 <= j < n ==> refs[j] == front[j];
        assert PublishedName(refs) != "" ==> FirstPublished(refs, n);
      }
    }
  }

  /** A terminal as the route files it: always by its geographic seed, never the search's. */
  function TerminalOf(airport: string, c: Option<Connection>, filesProcedure: bool): Terminal {
    if c.None? then Terminal(airport, 0.0, NO_VERTEX, 0.0, false)
    else Terminal(airport, c.value.seed, c.value.splice, c.value.spliceLeg,
                  filesProcedure && PublishedName(c.value.procedures) != "")
  }

  ghost function ConnectionAt(plan: EndpointPlan, fix: int): Option<Connection> {
    var k := PositionOf(plan.connections, fix);
    if k < |plan.connections| then Some(plan.connections[k]) else None
  }

  ghost function DepartureOf(plan: EndpointPlan, fix: int): Terminal {
    TerminalOf(plan.airport, ConnectionAt(plan, fix), true)
  }

  ghost function ArrivalOf(plan: EndpointPlan, fix: int): Terminal {
    var c := ConnectionAt(plan, fix);
    TerminalOf(plan.airport, c, !ArrivalKind(plan, c).TerminalTransition?)
  }

  /** The bump is taken off a path that ended on an approach. */
  ghost predicate Strips(plan: EndpointPlan, fix: int) {
    plan.softPrefer && ArrivalKind(plan, ConnectionAt(plan, fix)).TerminalTransition?
  }

  /** A route as assembled from a path: filed, and without the search's bump. */
  ghost predicate Assembled(names: Names, g: NavGraph, opts: SearchOptions, dep: EndpointPlan, arr: EndpointPlan,
                            path: ShortestPath, r: Route)
    requires path.vertices != []
  {
    var first, last := path.vertices[0], path.vertices[|path.vertices| - 1];
    var total := if Strips(arr, last) then Clamp(path.distance - PROCEDURE_PREFER_NM) else path.distance;
    && Files(names, g, opts, path, DepartureOf(dep, first), ArrivalOf(arr, last),
             r.(total := path.distance, enroute := Clamp(path.distance - r.departure - r.arrival)))
    && r.total == total && r.enroute == Clamp(total - r.departure - r.arrival)
  }

  method AssembleOne(names: Names, g: NavGraph, opts: SearchOptions, dep: EndpointPlan, arr: EndpointPlan, path: ShortestPath)
    returns (r: Route)
    requires path.vertices != [] && forall i :: 0 <= i < |path.vertices| ==> g.Has(path.vertices[i])
    ensures Assembled(names, g, opts, dep, arr, path, r)
  {
    hide Files, PublishedName, PositionOf;
    var first, last := path.vertices[0], path.vertices[|path.vertices| - 1];
    var depConn := FindConnection(dep.connections, first);
    var arrConn := FindConnection(arr.connections, last);
    var kind := ArrivalKind(arr, arrConn);
    r := MakeRoute(names, g, opts, path, TerminalOf(dep.airport, depConn, true),
                   TerminalOf(arr.airport, arrConn, !kind.TerminalTransition?));
    FilesEnroute(names, g, opts, path, DepartureOf(dep, first), ArrivalOf(arr, last), r);
    if arr.softPrefer && kind.TerminalTransition? {
      var total := Clamp(r.total - PROCEDURE_PREFER_NM);
      r := r.(total := total, enroute := Clamp(total - r.departure - r.arrival));
    }
  }

  lemma FilesEnroute(names: Names, g: NavGraph, opts: SearchOptions, path: ShortestPath, dep: Terminal, arr: Terminal, r: Route)
    requires path.vertices != [] && Files(names, g, opts, path, dep, arr, r)
    ensures r.total == path.distance && r.enroute == Clamp(path.distance - r.departure - r.arrival)
    ensures r == r.(total := path.distance, enroute := Clamp(path.distance - r.departure - r.arrival))
  {
    hide Chained, LegSum, RiddenSum, FlownLegs, Rewritten, Text;
  }

  /** One route per path that has any vertices, in order. */
  method Assemble(names: Names, g: NavGraph, opts: SearchOptions, dep: EndpointPlan, arr: EndpointPlan, paths: seq<ShortestPath>)
    returns (routes: seq<Route>)
    requires forall p :: p in paths ==> forall i :: 0 <= i < |p.vertices| ==> g.Has(p.vertices[i])
    ensures |routes| == |Flyable(paths)|
    ensures forall i :: 0 <= i < |routes| ==>
              Flyable(paths)[i].vertices != [] && Assembled(names, g, opts, dep, arr, Flyable(paths)[i], routes[i])
  {
    hide Assembled;
    routes := [];
    for k := 0 to |paths|
      invariant |routes| == |Flyable(paths[..k])|
      invariant forall i :: 0 <= i < |routes| ==>
        Flyable(paths[..k])[i].vertices != [] && Assembled(names, g, opts, dep, arr, Flyable(paths[..k])[i], routes[i])
    {
      assert paths[..k + 1][..k] == paths[..k];
      if paths[k].vertices == [] {
        continue;
      }
      assert paths[k] in paths;
      var r := AssembleOne(names, g, opts, dep, arr, paths[k]);
      routes := routes + [r];
    }
    assert paths[..|paths|] == paths;
  }

  ghost function Flyable(paths: seq<ShortestPath>): seq<ShortestPath> {
    if paths == [] then []
    else
      var last := paths[|paths| - 1];
      Flyable(paths[..|paths| - 1]) + if last.vertices == [] then [] else [last]
  }

  // ---- Distance is conserved --------------------------------------------------------------------

  /** The search the two plans set up, avoided fixes left out. */
  ghost function SearchOf(g: NavGraph, opts: SearchOptions, dep: EndpointPlan, arr: EndpointPlan, avoid: seq<int>): Task {
    TaskFor(g, opts, WithoutAvoided(EndpointsOf(dep.connections, false), avoid),
            WithoutAvoided(EndpointsOf(arr.connections, arr.softPrefer), avoid))
  }

  lemma {:induction false} RiddenIsEdgeSum(t: Task, p: seq<int>, k: nat)
    requires k < |p| && EdgeSum(t, p, k).Some?
    ensures EdgeSum(t, p, k).value.distance == RiddenSum(t.graph, t.opts, p, k)
  {
    hide Hop, EdgeFilter.Blocks;
    if k > 0 {
      RiddenIsEdgeSum(t, p, k - 1);
    }
  }

  /** A priced path's distance is its two seeds and the edges between. */
  lemma PathDistance(t: Task, r: ShortestPath)
    requires Priced(t, r)
    ensures var p := r.vertices;
            && p != [] && InRange(t, p) && t.SeedOf(p[0]) >= 0.0 && t.GoalSeedOf(p[|p| - 1]) >= 0.0
            && r.distance == t.SeedOf(p[0]) + RiddenSum(t.graph, t.opts, p, |p| - 1) + t.GoalSeedOf(p[|p| - 1])
            && RiddenSum(t.graph, t.opts, p, |p| - 1) >= 0.0
  {
    hide Hop, TurnCost, Heading, RiddenSum, EdgeSum;
    var p := r.vertices;
    GoodFacts(t, p);
    hide Simple;
    WalkPrefix(t, p, 1);
    assert p[..1] == [p[0]];
    WalkIsEdgesPlusTurns(t, p, |p| - 1);
    assert p[..|p|] == p;
    RiddenIsEdgeSum(t, p, |p| - 1);
    RiddenNonNegative(t.graph, t.opts, p, |p| - 1);
  }

  lemma {:induction false} RiddenNonNegative(g: NavGraph, opts: SearchOptions, p: seq<int>, k: nat)
    ensures RiddenSum(g, opts, p, k) >= 0.0
  {
    if k > 0 && k < |p| {
      RiddenNonNegative(g, opts, p, k - 1);
      RiddenOneNonNegative(g, opts, p[k - 1], p[k]);
    }
  }

  lemma RiddenOneNonNegative(g: NavGraph, opts: SearchOptions, u: int, v: int)
    ensures Ridden(g, opts, u, v) >= 0.0
  {
    var pick := Scan(g, opts, u, v, g.EdgesEnd(u));
  }

  /** A searched fix belongs to a connection, whose effective seed it was searched with. */
  lemma SearchedSeed(cs: seq<Connection>, softPrefer: bool, avoid: seq<int>, v: int)
    requires DistinctFixes(cs) && SeedAt(WithoutAvoided(EndpointsOf(cs, softPrefer), avoid), v) >= 0.0
    ensures var k := PositionOf(cs, v);
            k < |cs| && SeedAt(WithoutAvoided(EndpointsOf(cs, softPrefer), avoid), v) == EffectiveSeed(cs[k], softPrefer)
  {
    var es := EndpointsOf(cs, softPrefer);
    AvoidedSeed(es, avoid, v);
    assert SeedAt(es, v) >= 0.0;
    var i := CheapestAt(es, v).value;
    assert es[i].vertex == cs[i].fix == v;
    SeedIsEffective(cs, softPrefer, PositionOf(cs, v));
  }

  /** The bump the search added at the goal is exactly what assembly takes off. */
  ghost predicate BumpIsStripped(arr: EndpointPlan, fix: int) {
    var c := ConnectionAt(arr, fix);
    !(arr.softPrefer && arr.usedApproach && c.Some? && c.value.procedures == [])
  }

  /** Real distance of the flight: both geographic seeds and the edges. */
  ghost function Geographic(g: NavGraph, opts: SearchOptions, dep: Terminal, arr: Terminal, p: seq<int>): real {
    dep.seed + RiddenSum(g, opts, p, |p| - 1) + arr.seed
  }

  /** Nothing is negative about a connection. */
  ghost predicate SeedsAreDistances(cs: seq<Connection>) {
    forall i :: 0 <= i < |cs| ==> cs[i].seed >= 0.0 && cs[i].spliceLeg >= 0.0
  }

  /** What the route reports as its total, against the distance really flown. */
  lemma ReportedTotal(names: Names, g: NavGraph, opts: SearchOptions, dep: EndpointPlan, arr: EndpointPlan, avoid: seq<int>,
                      path: ShortestPath, r: Route)
    requires DistinctFixes(dep.connections) && DistinctFixes(arr.connections)
    requires SeedsAreDistances(dep.connections) && SeedsAreDistances(arr.connections)
    requires Priced(SearchOf(g, opts, dep, arr, avoid), path) && path.vertices != []
    requires Assembled(names, g, opts, dep, arr, path, r)
    ensures var p := path.vertices;
            var out, back := DepartureOf(dep, p[0]), ArrivalOf(arr, p[|p| - 1]);
            var d := Geographic(g, opts, out, back, p);
            && d >= 0.0 && out.seed >= 0.0 && back.seed >= 0.0 && d >= out.seed + back.seed
            && r.total == (if BumpIsStripped(arr, p[|p| - 1]) then d else Clamp(d - PROCEDURE_PREFER_NM))
            && out.airport == dep.airport && back.airport == arr.airport
            && out.spliceLeg >= 0.0 && back.spliceLeg >= 0.0
            && LegSum(r.legs) == out.Flown() + RiddenSum(g, opts, p, |p| - 1) + back.Flown()
            && r.departure == (if out.airport == "" then 0.0 else out.Body())
            && r.arrival == (if back.airport == "" then 0.0 else back.Body())
            && r.enroute == Clamp(r.total - r.departure - r.arrival)
  {
    hide Priced, RiddenSum, Chained, LegSum, SeedAt, PublishedName, FlownLegs, Rewritten, Text;
    var p := path.vertices;
    var t := SearchOf(g, opts, dep, arr, avoid);
    PathDistance(t, path);
    hide WithoutAvoided, EndpointsOf;
    SearchedSeed(dep.connections, false, avoid, p[0]);
    SearchedSeed(arr.connections, arr.softPrefer, avoid, p[|p| - 1]);
  }

  /**
   * With an airport at both ends, the legs of an assembled route add up to its reported total exactly
   * when neither splice leg is longer than its seed and the bump that was added is the one taken off.
   */
  lemma LegsAddUpToTotal(names: Names, g: NavGraph, opts: SearchOptions, dep: EndpointPlan, arr: EndpointPlan, avoid: seq<int>,
                         path: ShortestPath, r: Route)
    requires DistinctFixes(dep.connections) && DistinctFixes(arr.connections)
    requires SeedsAreDistances(dep.connections) && SeedsAreDistances(arr.connections)
    requires dep.airport != "" && arr.airport != ""
    requires Priced(SearchOf(g, opts, dep, arr, avoid), path) && path.vertices != []
    requires Assembled(names, g, opts, dep, arr, path, r)
    ensures var p := path.vertices;
            var out, back := DepartureOf(dep, p[0]), ArrivalOf(arr, p[|p| - 1]);
            LegSum(r.legs) == r.total <==>
              && (out.Spliced() ==> out.spliceLeg <= out.seed) && (back.Spliced() ==> back.spliceLeg <= back.seed)
              && (BumpIsStripped(arr, p[|p| - 1]) || Geographic(g, opts, out, back, p) == 0.0)
  {
    hide Priced, Assembled, Terminal.Flown, Terminal.Overrun, Terminal.Spliced, Terminal.Body, DepartureOf, ArrivalOf, BumpIsStripped, LegSum, RiddenSum, SearchOf, DistinctFixes, SeedsAreDistances;
    var p := path.vertices;
    ReportedTotal(names, g, opts, dep, arr, avoid, path, r);
    FlownIsSeed(DepartureOf(dep, p[0]));
    FlownIsSeed(ArrivalOf(arr, p[|p| - 1]));
  }

  /** The three phases of such a route add up to its total. */
  lemma PhasesAddUpToTotal(names: Names, g: NavGraph, opts: SearchOptions, dep: EndpointPlan, arr: EndpointPlan, avoid: seq<int>,
                           path: ShortestPath, r: Route)
    requires DistinctFixes(dep.connections) && DistinctFixes(arr.connections)
    requires SeedsAreDistances(dep.connections) && SeedsAreDistances(arr.connections)
    requires Priced(SearchOf(g, opts, dep, arr, avoid), path) && path.vertices != []
    requires Assembled(names, g, opts, dep, arr, path, r)
    requires BumpIsStripped(arr, path.vertices[|path.vertices| - 1])
    ensures r.departure + r.enroute + r.arrival == r.total
  {
    hide Priced, Assembled, Terminal.Spliced, DepartureOf, ArrivalOf, BumpIsStripped, LegSum, RiddenSum, SearchOf, DistinctFixes, SeedsAreDistances;
    var p := path.vertices;
    ReportedTotal(names, g, opts, dep, arr, avoid, path, r);
    FlownIsSeed(DepartureOf(dep, p[0]));
    FlownIsSeed(ArrivalOf(arr, p[|p| - 1]));
  }

  /** The planner's own pools always keep the books: whatever is bumped is stripped. */
  lemma PooledPlansBalance(arr: EndpointPlan, fix: int)
    requires PoolIsServed(arr)
    ensures BumpIsStripped(arr, fix)
  {
  }
}

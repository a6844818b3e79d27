/** The cost of a whole path: the meaning the search, the re-cost and Yen's ordering share. */
module PathCosts {
  import opened Numbers
  import opened NavGraphs
  import opened SearchModel

  /** One search problem. A seed below zero means "not an endpoint". */
  datatype TaskData = TaskData(
    graph: NavGraph, opts: SearchOptions,
    seed: seq<real>, goalSeed: seq<real>, srcBearing: seq<real>, goalBearing: seq<real>) {

    ghost predicate Valid() {
      |seed| == |goalSeed| == |srcBearing| == |goalBearing| == graph.vertices
    }

    ghost function SeedOf(v: int): real { if 0 <= v < |seed| then seed[v] else -1.0 }
    ghost function GoalSeedOf(v: int): real { if 0 <= v < |goalSeed| then goalSeed[v] else -1.0 }
    ghost function SourceBearingOf(v: int): real { if 0 <= v < |srcBearing| then srcBearing[v] else NO_BEARING }
    ghost function GoalBearingOf(v: int): real { if 0 <= v < |goalBearing| then goalBearing[v] else NO_BEARING }

    /** Turn penalty off and no negative prices: the setting of the optimality theorems. */
    ghost predicate Plain() {
      !opts.turn.enabled && PenaltiesNonNegative(opts)
    }
  }

  const EMPTY_GRAPH: NavGraph := GraphData(0, [0], [], [], [])
  const NO_OPTIONS := SearchOptions(
    [], true, TurnPenalty(false, imap[]), NodeFilter(NO_VERTEX, NO_VERTEX, []), EdgeFilter([]))

  /** A search problem whose tables match its graph. */
  type Task = t: TaskData | t.Valid() witness TaskData(EMPTY_GRAPH, NO_OPTIONS, [], [], [], [])

  ghost predicate InRange(t: Task, p: seq<int>) {
    forall i :: 0 <= i < |p| ==> t.graph.Has(p[i])
  }

  ghost predicate Simple(p: seq<int>) {
    forall i, j :: 0 <= i < j < |p| ==> p[i] != p[j]
  }

  /** A sequence without repeats over 0 to n - 1 has at most n elements. */
  lemma SimpleIsBounded(p: seq<int>, n: nat)
    requires Simple(p) && forall i :: 0 <= i < |p| ==> 0 <= p[i] < n
    ensures |p| <= n
  {
    BelowSize(n);
    ElementsSize(p);
    SubsetSize(Elements(p), Below(n));
  }

  ghost function Below(n: nat): (s: set<int>)
    ensures forall v :: v in s <==> 0 <= v < n
  {
    if n == 0 then {} else Below(n - 1) + {n - 1}
  }

  ghost function Elements(p: seq<int>): (s: set<int>)
    ensures forall v :: v in s <==> v in p
  {
    if p == [] then {} else Elements(p[..|p| - 1]) + {p[|p| - 1]}
  }

  lemma {:induction false} BelowSize(n: nat)
    ensures |Below(n)| == n
  {
    if n > 0 {
      BelowSize(n - 1);
    }
  }

  lemma {:induction false} ElementsSize(p: seq<int>)
    requires Simple(p)
    ensures |Elements(p)| == |p|
  {
    if p != [] {
      ElementsSize(p[..|p| - 1]);
      assert p[|p| - 1] !in p[..|p| - 1];
    }
  }

  lemma SubsetSize(a: set<int>, b: set<int>)
    requires a <= b
    ensures |a| <= |b|
  {
    assert b == a + (b - a);
  }

  /** Accumulated cost, geographic distance, and the heading the path arrives on. */
  datatype Walk = Walk(cost: real, distance: real, inbound: real)

  /** The turn onto heading `outbound`; an unknown heading on either side is not priced. */
  ghost function TurnCost(opts: SearchOptions, inbound: real, outbound: real): real {
    if opts.turn.enabled && inbound >= 0.0 && outbound >= 0.0
    then opts.turn.Of(TurnAngle(inbound, outbound)) else 0.0
  }

  ghost function Heading(t: Task, u: int, v: int): real {
    if t.opts.turn.enabled then t.graph.Bearing(u, v) else NO_BEARING
  }

  ghost function Advance(t: Task, w: Walk, u: int, v: int, leg: Leg): Walk {
    Walk(w.cost + leg.cost + TurnCost(t.opts, w.inbound, Heading(t, u, v)),
         w.distance + leg.distance, Heading(t, u, v))
  }

  /** Whether the filters let a path continue from u to v. */
  ghost predicate Passes(t: Task, u: int, v: int) {
    !t.opts.nodeFilter.Blocks(v) && !t.opts.edgeFilter.Blocks(u, v)
  }

  /** The walk that starts at v, if v is a seeded source the node filter lets through. */
  ghost function StartAt(t: Task, v: int): Option<Walk> {
    if t.SeedOf(v) >= 0.0 && !t.opts.nodeFilter.Blocks(v)
    then Some(Walk(t.SeedOf(v), t.SeedOf(v), t.SourceBearingOf(v))) else None
  }

  ghost function StepTo(t: Task, before: Option<Walk>, u: int, v: int): Option<Walk> {
    var leg := Hop(t.graph, t.opts, u, v);
    if before.Some? && Passes(t, u, v) && leg.Some?
    then Some(Advance(t, before.value, u, v, leg.value)) else None
  }

  /** The walk along p from its seeded first vertex, or None when some vertex or step is unusable. */
  ghost function WalkOf(t: Task, p: seq<int>): Option<Walk>
    decreases |p|
  {
    if p == [] then None
    else if |p| == 1 then StartAt(t, p[0])
    else StepTo(t, WalkOf(t, p[..|p| - 1]), p[|p| - 2], p[|p| - 1])
  }

  /** Ending a walk at a goal adds its seed and the turn onto the goal's heading. */
  ghost function Finish(t: Task, w: Walk, v: int): Option<Leg> {
    if t.GoalSeedOf(v) < 0.0 then None
    else Some(Leg(w.cost + t.GoalSeedOf(v) + TurnCost(t.opts, w.inbound, t.GoalBearingOf(v)),
                  w.distance + t.GoalSeedOf(v)))
  }

  /** Cost and distance of a path the search may return, or None. */
  ghost function TotalOf(t: Task, p: seq<int>): Option<Leg> {
    var w := WalkOf(t, p);
    if w.None? then None else Finish(t, w.value, p[|p| - 1])
  }

  ghost function CostOf(t: Task, p: seq<int>): real {
    if TotalOf(t, p).Some? then TotalOf(t, p).value.cost else 0.0
  }

  /** A path from a seeded source to a seeded goal that obeys every filter and constraint. */
  ghost predicate Accepts(t: Task, p: seq<int>) {
    TotalOf(t, p).Some?
  }

  // ---- Facts about walks ---------------------------------------------------------------------

  lemma WalkUnfold(t: Task, p: seq<int>)
    requires |p| > 1
    ensures WalkOf(t, p) == StepTo(t, WalkOf(t, p[..|p| - 1]), p[|p| - 2], p[|p| - 1])
  {
  }

  lemma {:induction false} WalkPrefix(t: Task, p: seq<int>, k: nat)
    requires 0 < k <= |p| && WalkOf(t, p).Some?
    ensures WalkOf(t, p[..k]).Some?
    decreases |p|
  {
    if k == |p| {
      assert p[..k] == p;
    } else {
      assert p[..|p| - 1][..k] == p[..k];
      WalkPrefix(t, p[..|p| - 1], k);
    }
  }

  /** A walk stays on the graph and off the blocked vertices. */
  lemma {:induction false} WalkInRange(t: Task, p: seq<int>)
    requires WalkOf(t, p).Some?
    ensures p != [] && InRange(t, p) && NodesPass(t, p)
    decreases |p|
  {
    if |p| > 1 {
      var q := p[..|p| - 1];
      WalkInRange(t, q);
      assert p == q + [p[|p| - 1]];
    }
  }

  // ---- Re-costing a given path ---------------------------------------------------------------

  /** Summed hop prices, lengths and interior turns over the first k edges of p, in re-cost order. */
  ghost function EdgeSum(t: Task, p: seq<int>, k: nat): Option<Leg> {
    if k >= |p| then None
    else if k == 0 then Some(Leg(0.0, 0.0))
    else
      var before := EdgeSum(t, p, k - 1);
      var leg := Hop(t.graph, t.opts, p[k - 1], p[k]);
      if before.None? || leg.None? || t.opts.edgeFilter.Blocks(p[k - 1], p[k]) then None
      else Some(Leg(before.value.cost + leg.value.cost, before.value.distance + leg.value.distance))
  }

  ghost function TurnSum(t: Task, p: seq<int>, k: nat): real {
    if k == 0 || k >= |p| then 0.0
    else
      var inbound := if k == 1 then t.SourceBearingOf(p[0]) else Heading(t, p[k - 2], p[k - 1]);
      TurnSum(t, p, k - 1) + TurnCost(t.opts, inbound, Heading(t, p[k - 1], p[k]))
  }

  ghost predicate NodesPass(t: Task, p: seq<int>) {
    forall i :: 0 <= i < |p| ==> !t.opts.nodeFilter.Blocks(p[i])
  }

  /** The heading a path arrives on. */
  ghost function FinalHeading(t: Task, p: seq<int>): real
    requires p != []
  {
    if |p| == 1 then t.SourceBearingOf(p[0]) else Heading(t, p[|p| - 2], p[|p| - 1])
  }

  /** What the re-cost computes: both seeds, every edge, then every turn. A lone vertex is not held against the node filter. */
  ghost function RecostOf(t: Task, p: seq<int>): Option<Leg> {
    if p == [] || t.SeedOf(p[0]) < 0.0 || t.GoalSeedOf(p[|p| - 1]) < 0.0 then None
    else if (|p| >= 2 && !NodesPass(t, p)) || EdgeSum(t, p, |p| - 1).None? then None
    else
      var edges, last := EdgeSum(t, p, |p| - 1).value, p[|p| - 1];
      var turns := TurnSum(t, p, |p| - 1) + TurnCost(t.opts, FinalHeading(t, p), t.GoalBearingOf(last));
      Some(Leg(t.SeedOf(p[0]) + edges.cost + turns + t.GoalSeedOf(last), t.SeedOf(p[0]) + edges.distance + t.GoalSeedOf(last)))
  }

  /** Adding the edges first and the turns afterwards gives the same walk as going step by step. */
  lemma {:induction false} WalkIsEdgesPlusTurns(t: Task, p: seq<int>, k: nat)
    requires k < |p| && t.SeedOf(p[0]) >= 0.0
    ensures var w, s := WalkOf(t, p[..k + 1]), EdgeSum(t, p, k);
            && (w.Some? <==> s.Some? && NodesPass(t, p[..k + 1]))
            && (w.Some? ==>
                  && w.value.cost == t.SeedOf(p[0]) + s.value.cost + TurnSum(t, p, k)
                  && w.value.distance == t.SeedOf(p[0]) + s.value.distance
                  && w.value.inbound == if k == 0 then t.SourceBearingOf(p[0]) else Heading(t, p[k - 1], p[k]))
  {
    hide Hop, TurnCost, Heading;
    if k == 0 {
      assert p[..1] == [p[0]];
    } else {
      WalkIsEdgesPlusTurns(t, p, k - 1);
      assert p[..k + 1][..k] == p[..k];
      assert NodesPass(t, p[..k + 1]) <==> NodesPass(t, p[..k]) && !t.opts.nodeFilter.Blocks(p[k]) by {
        assert p[..k + 1] == p[..k] + [p[k]];
      }
    }
  }

  /** A lone vertex with seeds at both ends that the node filter blocks: the search refuses it, the re-cost does not look. */
  ghost predicate LoneBlocked(t: Task, p: seq<int>) {
    |p| == 1 && t.opts.nodeFilter.Blocks(p[0]) && t.SeedOf(p[0]) >= 0.0 && t.GoalSeedOf(p[0]) >= 0.0
  }

  /** The re-cost and the search agree on every path but a lone blocked vertex. */
  lemma RecostAgreesWithSearch(t: Task, p: seq<int>)
    ensures RecostOf(t, p) == TotalOf(t, p) <==> !LoneBlocked(t, p)
  {
    hide EdgeSum, TurnSum, TurnCost, Heading;
    if p == [] {
      NoWalk(t);
    } else if t.SeedOf(p[0]) < 0.0 || t.GoalSeedOf(p[|p| - 1]) < 0.0 {
      UnseededIsRejected(t, p);
    } else {
      WalkIsEdgesPlusTurns(t, p, |p| - 1);
      assert p[..|p|] == p;
      EdgeSumStep(t, p, 0);
    }
  }

  lemma NoWalk(t: Task)
    ensures WalkOf(t, []).None?
  {
  }

  const ONE_VERTEX: NavGraph := GraphData(1, [0, 0], [], [[0.0]], [[0.0]])

  /** On one vertex that is source, goal and banned, the re-cost prices a path the search would never return. */
  lemma LoneBlockedVertexIsPriced()
    ensures var opts := NO_OPTIONS.(nodeFilter := NodeFilter(NO_VERTEX, NO_VERTEX, [0]));
            var t: Task := TaskData(ONE_VERTEX, opts, [0.0], [0.0], [NO_BEARING], [NO_BEARING]);
            RecostOf(t, [0]) == Some(Leg(0.0, 0.0)) && TotalOf(t, [0]).None?
  {
  }

  /** An edge sum that fails early stays failed. */
  lemma {:induction false} EdgeSumFails(t: Task, p: seq<int>, k: nat, m: nat)
    requires k <= m < |p| && EdgeSum(t, p, k).None?
    ensures EdgeSum(t, p, m).None?
    decreases m
  {
    if k < m {
      EdgeSumFails(t, p, k, m - 1);
    }
  }

  lemma EdgeSumStep(t: Task, p: seq<int>, k: nat)
    requires k < |p|
    ensures k == 0 ==> EdgeSum(t, p, k) == Some(Leg(0.0, 0.0))
    ensures k > 0 && EdgeSum(t, p, k - 1).Some? ==>
              var before, leg := EdgeSum(t, p, k - 1).value, Hop(t.graph, t.opts, p[k - 1], p[k]);
              EdgeSum(t, p, k) ==
              if leg.None? || t.opts.edgeFilter.Blocks(p[k - 1], p[k]) then None
              else Some(Leg(before.cost + leg.value.cost, before.distance + leg.value.distance))
  {
    hide Hop, EdgeFilter.Blocks;
  }

  /** The price and length of the edge SelectEdge picks. */
  method SelectLeg(t: Task, u: int, v: int) returns (leg: Option<Leg>)
    requires t.graph.Has(u)
    ensures leg == Hop(t.graph, t.opts, u, v)
  {
    var e, edgeCost := SelectEdge(t.graph, u, v, t.opts);
    leg := if e.None? then None else Some(Leg(edgeCost, t.graph.edges[e.value].distance));
  }

  /** Walks the edges of p, summing price and length; fails at the first unusable step. */
  method SumEdges(t: Task, p: seq<int>) returns (ok: bool, cost: real, distance: real)
    requires InRange(t, p) && |p| >= 2
    ensures EdgeSum(t, p, |p| - 1) == if ok then Some(Leg(cost, distance)) else None
  {
    hide EdgeSum, Hop, EdgeFilter.Blocks;
    ok, cost, distance := true, 0.0, 0.0;
    EdgeSumStep(t, p, 0);
    for i := 0 to |p| - 1
      invariant EdgeSum(t, p, i) == Some(Leg(cost, distance))
    {
      EdgeSumStep(t, p, i + 1);
      var u, v := p[i], p[i + 1];
      var leg := SelectLeg(t, u, v);
      if t.opts.edgeFilter.Blocks(u, v) || leg.None? {
        EdgeSumFails(t, p, i + 1, |p| - 1);
        return false, cost, distance;
      }
      cost := cost + leg.value.cost;
      distance := distance + leg.value.distance;
    }
  }

  /** Adds the turn at the source fix and at every interior vertex. */
  method SumTurns(t: Task, p: seq<int>) returns (turns: real)
    requires InRange(t, p) && |p| >= 2 && t.opts.turn.enabled
    ensures turns == TurnSum(t, p, |p| - 1)
  {
    turns := 0.0;
    var inbound := t.graph.Bearing(p[0], p[1]);
    if t.srcBearing[p[0]] >= 0.0 {
      turns := turns + t.opts.turn.Of(TurnAngle(t.srcBearing[p[0]], inbound));
    }
    assert turns == TurnSum(t, p, 1);
    for i := 1 to |p| - 1
      invariant inbound == t.graph.Bearing(p[i - 1], p[i])
      invariant turns == TurnSum(t, p, i)
    {
      var outbound := t.graph.Bearing(p[i], p[i + 1]);
      turns := turns + t.opts.turn.Of(TurnAngle(inbound, outbound));
      inbound := outbound;
    }
  }

  /** Whether every vertex of p passes the node filter. */
  method CheckNodes(t: Task, p: seq<int>) returns (ok: bool)
    ensures ok <==> NodesPass(t, p)
  {
    for i := 0 to |p|
      invariant NodesPass(t, p[..i])
    {
      if t.opts.nodeFilter.Blocks(p[i]) {
        return false;
      }
      assert p[..i + 1] == p[..i] + [p[i]];
    }
    assert p[..|p|] == p;
    ok := true;
  }

  /** The enroute part of the re-cost: filters, then edges, then turns. */
  method CostOfPath(t: Task, p: seq<int>) returns (ok: bool, cost: real, distance: real)
    requires InRange(t, p) && p != [] && t.seed[p[0]] >= 0.0 && t.goalSeed[p[|p| - 1]] >= 0.0
    ensures ok <==> RecostOf(t, p).Some?
    ensures ok ==> RecostOf(t, p).value ==
                   Leg(t.seed[p[0]] + cost + t.goalSeed[p[|p| - 1]],
                       t.seed[p[0]] + distance + t.goalSeed[p[|p| - 1]])
  {
    hide EdgeSum, TurnSum;
    ok, cost, distance := true, 0.0, 0.0;
    var m := |p|;
    var turn := t.opts.turn;
    var goalBearing := t.goalBearing[p[m - 1]];
    if m < 2 {
      NoEdges(t, p);
      if turn.enabled && t.srcBearing[p[0]] >= 0.0 && goalBearing >= 0.0 {
        cost := cost + turn.Of(TurnAngle(t.srcBearing[p[0]], goalBearing));
      }
      return;
    }
    ok := CheckNodes(t, p);
    if !ok {
      return;
    }
    ok, cost, distance := SumEdges(t, p);
    if !ok {
      return;
    }
    if turn.enabled {
      var turns := SumTurns(t, p);
      cost := cost + turns;
      if goalBearing >= 0.0 {
        cost := cost + turn.Of(TurnAngle(t.graph.Bearing(p[m - 2], p[m - 1]), goalBearing));
      }
    } else {
      NoTurns(t, p, m - 1);
    }
  }

  lemma NoEdges(t: Task, p: seq<int>)
    requires p != []
    ensures EdgeSum(t, p, 0) == Some(Leg(0.0, 0.0)) && TurnSum(t, p, 0) == 0.0
  {
  }

  lemma {:induction false} NoTurns(t: Task, p: seq<int>, k: nat)
    requires k < |p| && !t.opts.turn.enabled
    ensures TurnSum(t, p, k) == 0.0
  {
    if k > 0 {
      NoTurns(t, p, k - 1);
    }
  }

  /** Re-costs a whole source-to-goal path, both seeds included. */
  method CostOfPathMulti(t: Task, p: seq<int>) returns (ok: bool, cost: real, distance: real)
    requires InRange(t, p)
    ensures ok <==> RecostOf(t, p).Some?
    ensures ok ==> RecostOf(t, p) == Some(Leg(cost, distance))
  {
    ok, cost, distance := false, 0.0, 0.0;
    if p == [] {
      return;
    }
    var s, g := t.seed[p[0]], t.goalSeed[p[|p| - 1]];
    if s < 0.0 || g < 0.0 {
      UnseededIsRejected(t, p);
      return;
    }
    var enrouteCost, enrouteDistance;
    ok, enrouteCost, enrouteDistance := CostOfPath(t, p);
    if ok {
      cost := s + enrouteCost + g;
      distance := s + enrouteDistance + g;
    }
  }

  lemma UnseededIsRejected(t: Task, p: seq<int>)
    requires p != [] && (t.SeedOf(p[0]) < 0.0 || t.GoalSeedOf(p[|p| - 1]) < 0.0)
    ensures RecostOf(t, p).None? && TotalOf(t, p).None?
  {
    if WalkOf(t, p).Some? {
      WalkPrefix(t, p, 1);
      assert p[..1] == [p[0]];
    }
  }
}
